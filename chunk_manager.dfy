/** `ChunkManager`: the spatial index of resident chunks, the pending-remesh
    set, block reads and edits, and the per-frame streaming update. */
module ChunkUtils {
  import opened JavaInt
  import opened Chunks
  import opened Streaming

  class ChunkManager {
    /** The spatial index: chunk coordinates to resident chunk. */
    var chunkMap: ChunkMap
    /** The last viewer position passed to `Update`. */
    var generateCenter: (real, real, real)
    /** Chunks whose whole mesh is rebuilt at the end of `Update`. */
    var updateList: set<Key>
    /** The terrain generator: the blocks of the chunk at given coordinates. */
    const terrain: (int, int) -> map<Local, BlockId>

    /** Between calls the pending-remesh set is empty, every chunk is filed
        under its own coordinates, and no chunk has a negative coordinate. */
    ghost predicate Valid()
      reads this
    {
      && updateList == {}
      && KeysMatch(chunkMap)
      && NonNegative(chunkMap)
    }

    constructor (terrain: (int, int) -> map<Local, BlockId>)
      ensures Valid()
      ensures chunkMap == map[] && updateList == {} && generateCenter == (0.0, 0.0, 0.0)
      ensures this.terrain == terrain
    {
      chunkMap := map[];
      generateCenter := (0.0, 0.0, 0.0);
      updateList := {};
      this.terrain := terrain;
    }

    /** `getChunks`: every resident chunk, each filed under its own
        coordinates. */
    function GetChunks(): (cs: set<Chunk>)
      reads this
      requires Valid()
      ensures forall k :: k in chunkMap ==> chunkMap[k] in cs
      ensures forall c :: c in cs ==> (c.x, c.z) in chunkMap && chunkMap[(c.x, c.z)] == c
    {
      chunkMap.Values
    }

    /** `clear`: asks every resident chunk to release its GPU buffers; the
        chunks stay resident. */
    method Clear()
      requires Valid()
      modifies this
      ensures Valid()
      ensures chunkMap.Keys == old(chunkMap).Keys
      ensures forall k :: k in chunkMap ==> chunkMap[k] == old(chunkMap)[k].Logged(ReleaseBuffers)
      ensures updateList == old(updateList) && generateCenter == old(generateCenter)
    {
      var todo := chunkMap.Keys;
      while todo != {}
        invariant todo <= chunkMap.Keys == old(chunkMap).Keys
        invariant forall k :: k in chunkMap ==>
          chunkMap[k] == if k in todo then old(chunkMap)[k] else old(chunkMap)[k].Logged(ReleaseBuffers)
        invariant Valid() && generateCenter == old(generateCenter)
        decreases todo
      {
        var k :| k in todo;
        chunkMap := chunkMap[k := chunkMap[k].Logged(ReleaseBuffers)];
        todo := todo - {k};
      }
    }

    /** `getBlock`: the block lookup of `Chunks` on this manager's index. */
    function GetBlock(x: int, y: int, z: int): (r: Option<BlockId>)
      reads this
      requires IsInt(x) && IsInt(y) && IsInt(z)
      ensures r == LookupBlock(chunkMap, x, y, z)
    {
      LookupBlock(chunkMap, x, y, z)
    }

    /** `updateBlock`: writes the block, then rebuilds the edited section,
        the section below or above when the edit is on a section boundary,
        and section `y >> 4` of each resident chunk the edited block shares a
        face with.  Nothing happens when the owning chunk is not resident. */
    method UpdateBlock(x: int, y: int, z: int, blockID: BlockId)
      requires Valid()
      requires IsInt(x) && IsInt(y) && IsInt(z)
      modifies this
      ensures Valid()
      ensures chunkMap == EditedMap(old(chunkMap), x, y, z, blockID)
      ensures updateList == old(updateList) && generateCenter == old(generateCenter)
    {
      var chunkX := ShiftRight4(x);
      var chunkZ := ShiftRight4(z);
      if (chunkX, chunkZ) !in chunkMap {
        return;
      }
      WriteEditedChunk(x, y, z, blockID);
      RemeshCrossedChunks(x, y, z);
    }

    /** The first half of `updateBlock` on a resident chunk: the block is
        written, then the edited section and, on a section boundary, the
        section below or above are rebuilt. */
    method WriteEditedChunk(x: int, y: int, z: int, blockID: BlockId)
      requires IsInt(x) && IsInt(y) && IsInt(z)
      requires ChunkKeyOf(x, z) in chunkMap
      modifies this`chunkMap
      ensures chunkMap == old(chunkMap)[ChunkKeyOf(x, z) := WriteBlock(old(chunkMap)[ChunkKeyOf(x, z)], LocalOf(x, y, z), blockID, y)]
    {
      var own := (ShiftRight4(x), ShiftRight4(z));
      chunkMap := chunkMap[own := chunkMap[own].SetBlock(blockID, Mask15(x), y, Mask15(z))];
      chunkMap := chunkMap[own := chunkMap[own].Logged(UpdateMesh(ShiftRight4(y)))];
      if Mask15(y) == 0 {
        chunkMap := chunkMap[own := chunkMap[own].Logged(UpdateMesh(ShiftRight4(y) - 1))];
      }
      if Mask15(y) == 15 {
        chunkMap := chunkMap[own := chunkMap[own].Logged(UpdateMesh(ShiftRight4(y) + 1))];
      }
      ghost var before := old(chunkMap)[own];
      assert chunkMap[own].meshLog == before.meshLog + SectionCalls(y);
      assert chunkMap[own].blocks == before.blocks[LocalOf(x, y, z) := blockID];
    }

    /** The direction loop of `updateBlock`: for each of the four horizontal
        neighbours of the edited block, a resident chunk other than the
        edited one gets section `y >> 4` rebuilt. */
    method RemeshCrossedChunks(x: int, y: int, z: int)
      requires IsInt(x) && IsInt(y) && IsInt(z)
      modifies this`chunkMap
      ensures chunkMap == RemeshAll(old(chunkMap), CrossedChunks(x, z, 4), y)
    {
      var chunkX, chunkZ := ShiftRight4(x), ShiftRight4(z);
      var d := 0;
      ghost var crossed: set<Key> := {};
      assert CrossedChunks(x, z, 0) == {};
      assert RemeshAll(old(chunkMap), {}, y) == old(chunkMap);
      while d < 4
        invariant 0 <= d <= 4
        invariant crossed == CrossedChunks(x, z, d)
        invariant chunkMap == RemeshAll(old(chunkMap), crossed, y)
      {
        var nx, nz := Add(x, DX(d)), Add(z, DZ(d));
        var nX, nZ := ShiftRight4(nx), ShiftRight4(nz);
        assert (nX, nZ) == NeighbourKey(x, z, d);
        CrossedChunksStep(x, z, d);
        RemeshAllStep(old(chunkMap), crossed, (nX, nZ), y);
        if (nX, nZ) in chunkMap {
          if nX != chunkX {
            chunkMap := chunkMap[(nX, nZ) := chunkMap[(nX, nZ)].Logged(UpdateMesh(ShiftRight4(y)))];
          }
          if nZ != chunkZ {
            chunkMap := chunkMap[(nX, nZ) := chunkMap[(nX, nZ)].Logged(UpdateMesh(ShiftRight4(y)))];
          }
        }
        if (nX, nZ) != (chunkX, chunkZ) {
          crossed := crossed + {(nX, nZ)};
        }
        d := d + 1;
      }
    }

    /** `update`: one streaming step for a viewer at `cameraPosition`.  Evicts
        the chunks beyond the far distance, generates every missing
        non-negative chunk within the near distance, files the new chunks,
        then rebuilds the whole mesh of each new chunk and of each resident
        chunk next to one, and empties the pending-remesh set. */
    method Update(cameraPosition: (real, real, real))
      requires Valid()
      modifies this
      ensures Valid()
      ensures generateCenter == cameraPosition
      ensures chunkMap == AfterUpdate(old(chunkMap), CenterOf(cameraPosition), terrain)
      ensures Streamed(chunkMap, CenterOf(cameraPosition))
    {
      generateCenter := cameraPosition;
      var centerX := ShiftRight4(FloatToInt(generateCenter.0));
      var centerZ := ShiftRight4(FloatToInt(generateCenter.2));
      var center := (centerX, centerZ);  // what tooFar reads
      assert center == CenterOf(cameraPosition);

      chunkMap := map k | k in chunkMap && !TooFar(center, chunkMap[k]) :: chunkMap[k];
      ghost var kept := chunkMap;

      assert kept == Evict(old(chunkMap), center);

      var generators := DispatchGenerators(centerX, centerZ);
      ghost var pending := updateList;
      JoinGenerators(generators);
      ghost var joined := chunkMap;
      JoinedByKeys(old(chunkMap), center, terrain, kept, generators, joined);
      PendingIsResident(old(chunkMap), center, terrain);
      RemeshPending();

      AfterUpdateByKeys(old(chunkMap), center, terrain, joined, pending, chunkMap);
      UpdateKeepsInvariant(old(chunkMap), center, terrain);
    }

    /** The generation-dispatch loops of `update`: a generator for every
        non-negative, non-resident chunk of the near window around the
        viewer, each one added to the pending-remesh set with its resident
        4-neighbours. */
    method DispatchGenerators(centerX: int, centerZ: int) returns (generators: seq<Key>)
      requires updateList == {}
      modifies this`updateList
      ensures forall g :: g in generators <==> g in Missing(chunkMap, (centerX, centerZ))
      ensures updateList == Pending(chunkMap, (centerX, centerZ))
    {
      generators := DispatchRows(centerX, centerZ);
      WholeWindowVisited(chunkMap, updateList, generators, (centerX, centerZ), centerX + VIEW_DISTANCE_NEAR + 1, centerZ - VIEW_DISTANCE_NEAR);
    }

    /** The outer loop of the dispatch, row by row. */
    method DispatchRows(centerX: int, centerZ: int) returns (generators: seq<Key>)
      requires updateList == {}
      modifies this`updateList
      ensures DispatchedBefore(chunkMap, updateList, generators, (centerX, centerZ), centerX + VIEW_DISTANCE_NEAR + 1, centerZ - VIEW_DISTANCE_NEAR)
    {
      ghost var center := (centerX, centerZ);
      generators := [];
      var i := centerX - VIEW_DISTANCE_NEAR;
      NothingMissingAtStart(chunkMap, updateList, generators, center, i, centerZ - VIEW_DISTANCE_NEAR);
      while i <= centerX + VIEW_DISTANCE_NEAR
        invariant centerX - VIEW_DISTANCE_NEAR <= i <= centerX + VIEW_DISTANCE_NEAR + 1
        invariant DispatchedBefore(chunkMap, updateList, generators, center, i, centerZ - VIEW_DISTANCE_NEAR)
      {
        generators := DispatchRow(centerX, centerZ, i, generators);
        i := i + 1;
      }
      assert i == centerX + VIEW_DISTANCE_NEAR + 1;
    }

    /** One row `i` of the dispatch loops, columns `centerZ - near` to
        `centerZ + near`. */
    method DispatchRow(centerX: int, centerZ: int, i: int, generators: seq<Key>) returns (generators': seq<Key>)
      requires centerX - VIEW_DISTANCE_NEAR <= i <= centerX + VIEW_DISTANCE_NEAR
      requires DispatchedBefore(chunkMap, updateList, generators, (centerX, centerZ), i, centerZ - VIEW_DISTANCE_NEAR)
      modifies this`updateList
      ensures DispatchedBefore(chunkMap, updateList, generators', (centerX, centerZ), i + 1, centerZ - VIEW_DISTANCE_NEAR)
    {
      ghost var center := (centerX, centerZ);
      generators' := generators;
      var j := centerZ - VIEW_DISTANCE_NEAR;
      while j <= centerZ + VIEW_DISTANCE_NEAR
        invariant centerZ - VIEW_DISTANCE_NEAR <= j <= centerZ + VIEW_DISTANCE_NEAR + 1
        invariant DispatchedBefore(chunkMap, updateList, generators', center, i, j)
      {
        generators' := DispatchColumn(centerX, centerZ, i, j, generators');
        j := j + 1;
      }
      NextRow(chunkMap, updateList, generators', center, i, j, centerZ - VIEW_DISTANCE_NEAR);
    }

    /** One position `(i, j)` of the dispatch loops: a negative or resident
        coordinate is skipped; a missing one gets a generator and is marked,
        with its resident 4-neighbours, for remeshing. */
    method DispatchColumn(centerX: int, centerZ: int, i: int, j: int, generators: seq<Key>) returns (generators': seq<Key>)
      requires centerX - VIEW_DISTANCE_NEAR <= i <= centerX + VIEW_DISTANCE_NEAR
      requires centerZ - VIEW_DISTANCE_NEAR <= j <= centerZ + VIEW_DISTANCE_NEAR
      requires DispatchedBefore(chunkMap, updateList, generators, (centerX, centerZ), i, j)
      modifies this`updateList
      ensures DispatchedBefore(chunkMap, updateList, generators', (centerX, centerZ), i, j + 1)
    {
      NextColumn(chunkMap, updateList, generators, (centerX, centerZ), i, j);
      generators' := generators;
      if i < 0 || j < 0 {
        return;
      }
      if (i, j) !in chunkMap {
        generators' := generators' + [(i, j)];
        MarkForRemesh(i, j);
      }
    }

    /** Adds chunk `(i, j)` and each of its resident 4-neighbours to the
        pending-remesh set. */
    method MarkForRemesh(i: int, j: int)
      modifies this`updateList
      ensures updateList == old(updateList) + {(i, j)} + ResidentSteps(chunkMap, (i, j), 4)
    {
      updateList := updateList + {(i, j)};
      var d := 0;
      while d < 4
        invariant 0 <= d <= 4
        invariant updateList == old(updateList) + {(i, j)} + ResidentSteps(chunkMap, (i, j), d)
      {
        var nx := i + DX(d);
        var ny := j + DZ(d);
        ResidentStepsNext(chunkMap, (i, j), d);
        if (nx, ny) in chunkMap {
          updateList := updateList + {(nx, ny)};
        }
        d := d + 1;
      }
    }

    /** Joins the generators in order and files each chunk under its
        coordinates. */
    method JoinGenerators(generators: seq<Key>)
      modifies this`chunkMap
      ensures forall k :: k in chunkMap <==> k in old(chunkMap) || k in generators
      ensures forall k :: k in chunkMap ==>
        chunkMap[k] == if k in generators then Generated(terrain, k) else old(chunkMap)[k]
    {
      var n := 0;
      while n < |generators|
        invariant 0 <= n <= |generators|
        invariant forall k :: k in chunkMap <==> k in old(chunkMap) || k in generators[..n]
        invariant forall k :: k in chunkMap ==>
          chunkMap[k] == if k in generators[..n] then Generated(terrain, k) else old(chunkMap)[k]
      {
        chunkMap := chunkMap[generators[n] := Generated(terrain, generators[n])];
        assert generators[..n + 1] == generators[..n] + [generators[n]];
        n := n + 1;
      }
      assert generators[..n] == generators;
    }

    /** Rebuilds the whole mesh of every chunk in the pending-remesh set,
        then empties the set. */
    method RemeshPending()
      requires updateList <= chunkMap.Keys
      modifies this`chunkMap, this`updateList
      ensures updateList == {}
      ensures chunkMap.Keys == old(chunkMap).Keys
      ensures forall k :: k in chunkMap ==>
        chunkMap[k] == if k in old(updateList) then old(chunkMap)[k].Logged(GenerateMesh) else old(chunkMap)[k]
    {
      var todo := updateList;
      while todo != {}
        invariant todo <= updateList == old(updateList)
        invariant chunkMap.Keys == old(chunkMap).Keys
        invariant forall k :: k in chunkMap ==>
          chunkMap[k] == if k in updateList && k !in todo then old(chunkMap)[k].Logged(GenerateMesh) else old(chunkMap)[k]
        decreases todo
      {
        var p :| p in todo;
        chunkMap := chunkMap[p := chunkMap[p].Logged(GenerateMesh)];
        todo := todo - {p};
      }
      updateList := {};
    }
  }
}
