# Chunk streaming and world edits of a voxel engine

This project models the world core of a Minecraft-like Java engine. There are two classes.

`ChunkManager` keeps the resident chunks in a spatial index. The index maps chunk coordinates `(chunkX, chunkZ)` to chunks. The class also does four things:

- it answers block reads at world coordinates;
- it applies single-block edits and asks the affected chunks to rebuild their meshes;
- once per frame it streams the world around the viewer: it evicts chunks beyond the far view distance, generates missing chunks within the near view distance, and remeshes the new chunks and their resident neighbours;
- it releases the chunks' GPU buffers on request.

`Scene` is built on top of it. It destroys and places blocks, and it keeps the block-debris particle emitters alive only while they still have particles.

The Dafny modules follow the source:

- `JavaInt` (`java_int.dfy`): Java `int` arithmetic as the coordinate code uses it: `x >> 4`, `x & 15`, wrap-around `+`, and the `(int)` cast of a `float`.
- `Chunks` (`chunks.dfy`): a chunk, the spatial index, block lookup, and the effect of `updateBlock` on the index as a function `EditedMap`.
- `Streaming` (`streaming.dfy`): the effect of one `update` as a function `AfterUpdate` of the index before the call. It also holds the streaming properties proved about that function.
- `ChunkUtils` (`chunk_manager.dfy`): the class `ChunkManager`. Its fields are `chunkMap`, `updateList` and `generateCenter`. Its methods use the source's loops and are proved to produce `EditedMap` and `AfterUpdate`.
- `Emitters` (`emitters.dfy`): a debris emitter, and `Survivors`, the emitter list left after one scene update.
- `World` (`scene.dfy`): the class `Scene`, with `destroyBlock`, `putBlock`, `update` (an in-place unlinking loop) and `clear`.

Some parts of the source are represented rather than executed:

- A chunk's mesh code is not part of the model. Each chunk records, in `meshLog`, the mesh operations the manager asks of it: `updateMesh(section)`, `generateMesh` and `clear`. The remesh properties are stated over that log.
- The terrain generator is a deterministic function of the chunk coordinates, held by the manager as the constant `terrain`.
- The particle physics is the function `advance` held by the scene. It gives the number of particles an emitter has left after an update by the elapsed time.

Where the engine's design and its code disagree, the model follows the code:

- Eviction with `removeIf` drops chunks from the index without calling `Chunk.clear()`. So evicted chunks do not have their buffers released. In the model, eviction only removes entries, and no `ReleaseBuffers` is logged for them.
- The guarantee after `update` covers only chunks with non-negative coordinates. The generation loop skips negative `i` or `j`, so a viewer near the origin has part of its near window unfilled.
- `inSight` is never called. The generation loop bounds its window explicitly. `WindowIsInSight` proves that those bounds are exactly what `inSight` accepts.

## Model

| member | source | states |
|---|---|---|
| JavaInt.Add | src/main/java/engine/world/ChunkUtils/ChunkManager.java:77 | Java `int` addition: the exact sum inside the 32-bit range, otherwise the sum shifted by 2^32 in the direction that brings it back |
| JavaInt.ShiftRight4 | src/main/java/engine/world/ChunkUtils/ChunkManager.java:52-53 | `x >> 4` is the 32-bit integer `r` with `16r <= x < 16r + 16`, i.e. division by 16 rounded down, also for negative `x` |
| JavaInt.Mask15 | src/main/java/engine/world/ChunkUtils/ChunkManager.java:57 | `x & 15` lies in `0..15` and with `x >> 4` reassembles `x` as `(x >> 4) * 16 + (x & 15)` |
| JavaInt.FloatToInt | src/main/java/engine/world/ChunkUtils/ChunkManager.java:103-104 | the `(int)` cast of a coordinate always yields a 32-bit integer |
| JavaInt.FloatToIntTruncates | src/main/java/engine/world/ChunkUtils/ChunkManager.java:103-104 | the cast drops the fraction towards zero inside the `int` range and saturates at `MIN_INT`/`MAX_INT` outside it |
| Chunks.Chunk.SetBlock | src/main/java/engine/world/ChunkUtils/ChunkManager.java:70 | `setBlock` changes exactly the addressed block, and no other block, mesh or coordinate |
| Chunks.Chunk.Logged | src/main/java/engine/world/ChunkUtils/ChunkManager.java:71 | a mesh request is appended to the chunk's log and leaves its blocks and coordinates alone |
| Chunks.LookupBlock | src/main/java/engine/world/ChunkUtils/ChunkManager.java:51-58 | the block read is `None` (Java `null`) exactly when the owning chunk `(x >> 4, z >> 4)` is not resident |
| Chunks.SplitRoundTrip | src/main/java/engine/world/ChunkUtils/ChunkManager.java:52-57 | `x == (x >> 4) * 16 + (x & 15)` with `0 <= x & 15 < 16`, and `x >> 4` is `floor(x / 16)` for negative `x` too |
| Chunks.WorldPositionDeterminedByChunkAndLocal | src/main/java/engine/world/ChunkUtils/ChunkManager.java:52-57 | two world columns with the same chunk and local coordinates are the same column, so every block has exactly one address |
| Chunks.SectionCalls | src/main/java/engine/world/ChunkUtils/ChunkManager.java:71-75 | section `y >> 4` is always rebuilt first; section `(y >> 4) - 1` is rebuilt iff `y & 15 == 0`, and section `(y >> 4) + 1` iff `y & 15 == 15`; there are exactly two requests on a section boundary and one otherwise, so no section is requested twice |
| Chunks.ChunkKeyOf | src/main/java/engine/world/ChunkUtils/ChunkManager.java:52-53 | the owning chunk `(x >> 4, z >> 4)` is the one whose 16-block span contains `x` and `z` |
| Chunks.LocalOf | src/main/java/engine/world/ChunkUtils/ChunkManager.java:57 | the local position `(x & 15, y, z & 15)` lies in `0..15` horizontally, keeps `y`, and is the offset of `x` and `z` from the owning chunk's origin |
| Chunks.NeighbourKey | src/main/java/engine/world/ChunkUtils/ChunkManager.java:77-78 | the chunk of the block next to `(x, z)` in direction `d` differs from the own chunk only along the axis `d` moves on |
| Chunks.CrossedChunks | src/main/java/engine/world/ChunkUtils/ChunkManager.java:76-83 | the crossed chunks never include the edited chunk, and each differs from it along one axis only |
| Chunks.WriteBlock | src/main/java/engine/world/ChunkUtils/ChunkManager.java:70-75 | the edited chunk holds the new block at the local position, every other block and its coordinates unchanged, and logs exactly the section requests of `SectionCalls(y)` |
| Chunks.RemeshAll | src/main/java/engine/world/ChunkUtils/ChunkManager.java:76-83 | every chunk keeps its coordinates and blocks; a chunk in the given set logs one `updateMesh(y >> 4)`, any other logs nothing |
| Streaming.CenterOf | src/main/java/engine/world/ChunkUtils/ChunkManager.java:103-104 | the viewer's chunk is the one whose 16-block span contains the camera's truncated `x` and `z` |
| Streaming.TooFar | src/main/java/engine/world/ChunkUtils/ChunkManager.java:86-89 | a chunk is not too far iff it lies in the square of half-width 12 around the viewer's chunk; a too-far chunk is never in sight |
| Streaming.InSight | src/main/java/engine/world/ChunkUtils/ChunkManager.java:91-94 | a coordinate is in sight iff it lies in the square of half-width 8 around the viewer's chunk |
| Streaming.WithResidentNeighbours | src/main/java/engine/world/ChunkUtils/ChunkManager.java:112-119 | the pending set holds every dispatched coordinate, every resident 4-neighbour of one, and nothing else |
| Streaming.Pending | src/main/java/engine/world/ChunkUtils/ChunkManager.java:105-122 | when the loops end, the pending set holds every missing coordinate, otherwise only resident chunks, all within distance 9 of the viewer's chunk along both axes |
| Chunks.EditedMap | src/main/java/engine/world/ChunkUtils/ChunkManager.java:64-84 | an edit keeps the set of resident chunks and their coordinates, and changes nothing when the owning chunk is absent |
| Chunks.ReadAfterWrite | src/main/java/engine/world/ChunkUtils/ChunkManager.java:64-70 | after an edit of a resident chunk, reading the edited position yields the written block |
| Chunks.EditTouchesOneBlock | src/main/java/engine/world/ChunkUtils/ChunkManager.java:64-70 | an edit leaves the block read at every other world position unchanged, including absence |
| Chunks.EditRemeshesOwnSections | src/main/java/engine/world/ChunkUtils/ChunkManager.java:70-75 | the edited chunk's mesh log grows by exactly the section requests of the edit height |
| Chunks.EditRemeshesNeighbours | src/main/java/engine/world/ChunkUtils/ChunkManager.java:76-83 | every other resident chunk keeps its blocks, and it gains one `updateMesh(y >> 4)` iff the direction loop crosses into it, otherwise nothing |
| Chunks.CrossingOnlyFromEdge | src/main/java/engine/world/ChunkUtils/ChunkManager.java:77-78 | stepping by one block changes the chunk only from local coordinate 15 going up or 0 going down, and then, when `x ± 1` stays in the `int` range, moves by exactly one chunk |
| Chunks.InteriorEditCrossesNothing | src/main/java/engine/world/ChunkUtils/ChunkManager.java:76-83 | an edit with `1 <= x & 15 <= 14` and `1 <= z & 15 <= 14` remeshes no other chunk |
| Chunks.NeighbourKeyAwayFromWrap | src/main/java/engine/world/ChunkUtils/ChunkManager.java:76-78 | away from the 32-bit edge, the chunk reached in each direction is the own chunk, or the adjacent one when the edit is on that face |
| Chunks.CrossedChunksAreFaceNeighbours | src/main/java/engine/world/ChunkUtils/ChunkManager.java:76-83 | away from the 32-bit edge, a chunk is crossed iff it is the face neighbour on a side where the edit lies on the chunk border (both directions) |
| Chunks.CrossedChunksStep | src/main/java/engine/world/ChunkUtils/ChunkManager.java:76-83 | each loop direction adds at most one new chunk, moving along one axis only, and never one reached before |
| Chunks.DirectionsCrossDistinctChunks | src/main/java/engine/world/ChunkUtils/ChunkManager.java:76-83 | two directions never cross into the same chunk, so a neighbour is rebuilt at most once per edit |
| Streaming.Evict | src/main/java/engine/world/ChunkUtils/ChunkManager.java:101 | `removeIf(tooFar)` keeps exactly the chunks that are not too far, with their contents unchanged |
| Streaming.Missing | src/main/java/engine/world/ChunkUtils/ChunkManager.java:105-110 | the loops dispatch a generator exactly for each coordinate in sight that is non-negative and not resident after eviction |
| Streaming.AddMissing | src/main/java/engine/world/ChunkUtils/ChunkManager.java:112-119 | dispatching one more coordinate adds it and exactly its resident 4-neighbours to the pending-remesh set |
| Streaming.Generated | src/main/java/engine/world/ChunkUtils/ChunkManager.java:124-128 | a generated chunk carries its own coordinates and no mesh operations yet |
| Streaming.Joined | src/main/java/engine/world/ChunkUtils/ChunkManager.java:124-128 | after joining, the resident chunks are the eviction survivors plus the generated coordinates |
| Streaming.AfterUpdate | src/main/java/engine/world/ChunkUtils/ChunkManager.java:96-139 | remeshing leaves the set of resident chunks of the joined index unchanged |
| Streaming.WindowIsInSight | src/main/java/engine/world/ChunkUtils/ChunkManager.java:91-94 | the loop window is exactly the set of coordinates `inSight` accepts, in both directions |
| Streaming.PendingIsResident | src/main/java/engine/world/ChunkUtils/ChunkManager.java:134-136 | every pending coordinate is resident when the remesh loop runs, so `chunkMap.get(p)` is never null |
| Streaming.ResidentWithinFar | src/main/java/engine/world/ChunkUtils/ChunkManager.java:86-101 | after `update`, every resident chunk is within the far distance of the viewer's chunk along both axes |
| Streaming.WindowResident | src/main/java/engine/world/ChunkUtils/ChunkManager.java:105-128 | after `update`, every non-negative coordinate within the near distance is resident |
| Streaming.EvictsExactlyTooFar | src/main/java/engine/world/ChunkUtils/ChunkManager.java:86-101 | a chunk resident before `update` is resident after it iff it fails the `tooFar` test |
| Streaming.NoNegativeChunk | src/main/java/engine/world/ChunkUtils/ChunkManager.java:107 | no chunk with a negative coordinate is ever generated, so an index without one keeps that property |
| Streaming.SurvivorsNotRegenerated | src/main/java/engine/world/ChunkUtils/ChunkManager.java:101-108 | a chunk that survives eviction is not regenerated: it is unchanged or gains one whole-chunk remesh |
| Streaming.NewChunksGenerated | src/main/java/engine/world/ChunkUtils/ChunkManager.java:108-135 | every newly resident chunk is the generator's output for its own coordinates, remeshed once |
| Streaming.RemeshedExactly | src/main/java/engine/world/ChunkUtils/ChunkManager.java:112-136 | a resident chunk is remeshed by `update` iff it was just generated or is a 4-neighbour of a generated chunk, and at most once |
| Streaming.UpdateKeepsKeysMatch | src/main/java/engine/world/ChunkUtils/ChunkManager.java:127 | after `update`, every chunk is still filed under its own coordinates |
| Streaming.UpdateKeepsInvariant | src/main/java/engine/world/ChunkUtils/ChunkManager.java:96-139 | `update` preserves the manager's invariant and establishes both residency bounds |
| Streaming.FirstUpdateAtOrigin | src/main/java/engine/world/ChunkUtils/ChunkManager.java:96-139 | a viewer at chunk (0, 0) in an empty world gets exactly chunks (0..8, 0..8) |
| ChunkUtils.ChunkManager.constructor | src/main/java/engine/world/ChunkUtils/ChunkManager.java:21-26 | a new manager has an empty index, an empty pending set and the viewer at the origin |
| ChunkUtils.ChunkManager.GetChunks | src/main/java/engine/world/ChunkUtils/ChunkManager.java:41-43 | the collection holds every resident chunk and nothing else |
| ChunkUtils.ChunkManager.Clear | src/main/java/engine/world/ChunkUtils/ChunkManager.java:45-49 | every resident chunk is asked once to release its buffers, and all chunks stay resident |
| ChunkUtils.ChunkManager.GetBlock | src/main/java/engine/world/ChunkUtils/ChunkManager.java:51-58 | the manager's block read is `Chunks.LookupBlock` on its own index |
| ChunkUtils.ChunkManager.UpdateBlock | src/main/java/engine/world/ChunkUtils/ChunkManager.java:64-84 | the new index is `EditedMap` of the old one, and the manager's invariant is kept |
| ChunkUtils.ChunkManager.WriteEditedChunk | src/main/java/engine/world/ChunkUtils/ChunkManager.java:68-75 | the owning chunk gets the block written and its section requests logged, and no other chunk changes |
| ChunkUtils.ChunkManager.RemeshCrossedChunks | src/main/java/engine/world/ChunkUtils/ChunkManager.java:76-83 | the direction loop rebuilds section `y >> 4` of exactly the resident crossed chunks |
| ChunkUtils.ChunkManager.Update | src/main/java/engine/world/ChunkUtils/ChunkManager.java:96-139 | the new index is `AfterUpdate` for the viewer's chunk, both residency bounds hold, and the pending set is empty |
| ChunkUtils.ChunkManager.DispatchGenerators | src/main/java/engine/world/ChunkUtils/ChunkManager.java:105-122 | the generator list holds exactly the missing coordinates, and the pending set is those plus their resident 4-neighbours |
| ChunkUtils.ChunkManager.DispatchRows | src/main/java/engine/world/ChunkUtils/ChunkManager.java:105-122 | after the outer loop, the generator list and pending set account for every position of the window |
| ChunkUtils.ChunkManager.DispatchRow | src/main/java/engine/world/ChunkUtils/ChunkManager.java:106-121 | one row of the window extends the generator list and pending set by exactly that row's missing coordinates |
| ChunkUtils.ChunkManager.DispatchColumn | src/main/java/engine/world/ChunkUtils/ChunkManager.java:107-120 | a negative or resident position changes nothing; a missing one is appended to the generators and pending with its resident 4-neighbours |
| Streaming.NextColumn | src/main/java/engine/world/ChunkUtils/ChunkManager.java:107-120 | one visited position keeps the generator list and pending set equal to the missing coordinates seen so far and their resident 4-neighbours |
| ChunkUtils.ChunkManager.MarkForRemesh | src/main/java/engine/world/ChunkUtils/ChunkManager.java:112-119 | a dispatched coordinate and exactly its resident 4-neighbours join the pending set |
| ChunkUtils.ChunkManager.JoinGenerators | src/main/java/engine/world/ChunkUtils/ChunkManager.java:124-128 | each generator's chunk is inserted under its coordinates, and every other chunk is kept |
| ChunkUtils.ChunkManager.RemeshPending | src/main/java/engine/world/ChunkUtils/ChunkManager.java:134-138 | every pending chunk gets one `generateMesh`, no other chunk changes, and the pending set ends empty |
| Emitters.Advanced | src/main/java/engine/world/Scene.java:49 | updating an emitter changes only its particle count, to what the physics leaves |
| Emitters.Survivors | src/main/java/engine/world/Scene.java:44-56 | the list after an update is no longer than before, and every emitter in it has particles |
| Emitters.SurvivorsAppend | src/main/java/engine/world/Scene.java:46-55 | filtering distributes over concatenation, so survivors keep their original relative order |
| Emitters.SurvivorsExactly | src/main/java/engine/world/Scene.java:51-55 | an emitter survives iff it is some emitter of the list, advanced, with particles left (both directions) |
| Emitters.AllLiveKeepsAll | src/main/java/engine/world/Scene.java:51-55 | when every advanced emitter has particles, none is dropped and each stays in its position |
| Emitters.DeadEmitterDropped | src/main/java/engine/world/Scene.java:52-54 | an emitter left without particles is always removed |
| World.Truncated | src/main/java/engine/world/Scene.java:35 | the selected position's coordinates are cast to 32-bit integers |
| World.Scene.constructor | src/main/java/engine/world/Scene.java:20-24 | a new scene wraps the given manager and starts with no emitters |
| World.Scene.Clear | src/main/java/engine/world/Scene.java:30-32 | clearing the scene releases every resident chunk's buffers and keeps the chunks, the pending set and the viewer position |
| World.Scene.DestroyBlock | src/main/java/engine/world/Scene.java:34-38 | one debris emitter carrying the pre-edit block id is appended at the end, the index is `EditedMap` with air, the block then reads air, and the pending set and viewer position are kept |
| World.Scene.PutBlock | src/main/java/engine/world/Scene.java:40-42 | the effect is exactly `updateBlock` on the truncated coordinates with the given id: the index becomes `EditedMap`, and the pending set and viewer position are kept |
| World.Scene.Update | src/main/java/engine/world/Scene.java:44-56 | every emitter present at entry is updated exactly once, in list order, and the list becomes exactly its `Survivors` |

## Left out

- `Renderer.java` and `Window.java` are not part of this model. They are OpenGL/GLFW state changes and draw calls on floating-point matrices.
- Worker threads and their `join`: chunk generation is a sequential call of the deterministic `terrain` function. The `InterruptedException` branch is not modelled.
- NaN and infinite camera coordinates: a position is a triple of reals. Java maps a NaN to 0 in the `(int)` cast.
- Mesh construction, geometry buffers and GPU memory: a chunk only logs which rebuilds and releases were requested.
- Chunk storage bounds in `y`: a chunk stores blocks at any height, and positions never written read as air. How `Chunk.getBlock` and `Chunk.setBlock` treat heights outside the stored range is not part of this model.
- `Block` objects: a block is represented by its integer id, and `getBlockID()` by reading that id.
- The commented-out body of `ChunkManager.init` and the commented-out `valid` helper are dead code. `Scene.init` only calls that empty `init`, so it is left out as well.
- The scene's `DirectionalLight` is only stored for rendering and is not modelled.
- Particle physics: `advance` is a parameter. Debris emitters are created with a fixed particle count `spawnCount`, a constructor parameter.
- Chunks.CrossedChunksAreFaceNeighbours: proved only away from the 32-bit edge (`x ± 1` and `z ± 1` without overflow). At the edge the model still follows Java's wrap-around through `Add` and `NeighbourKey`.
- World.Scene.DestroyBlock: requires the selected block's chunk to be resident. For a chunk that is not resident, `getBlock` returns null and Java throws a NullPointerException at `Scene.java:36` before the emitter list or the index changes; that exception path is not modelled.
- ChunkUtils.ChunkManager.UpdateBlock, World.Scene.DestroyBlock: require the manager's invariant on entry. The index only holds chunks filed under their own coordinates, which is the only state the class can reach.
