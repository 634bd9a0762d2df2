/** `Scene`: the world edits the player makes (destroying and placing a
    block) and the per-frame lifecycle of the particle emitters. */
module World {
  import opened JavaInt
  import opened Chunks
  import opened Emitters
  import opened ChunkUtils

  /** The world block a selected position names: each coordinate of the
      `float` vector cast to `int`. */
  function Truncated(p: (real, real, real)): (r: (int, int, int))
    ensures IsInt(r.0) && IsInt(r.1) && IsInt(r.2)
  {
    (FloatToInt(p.0), FloatToInt(p.1), FloatToInt(p.2))
  }

  class Scene {
    const chunkManager: ChunkManager
    /** Live emitters, in the order they were created. */
    var particleEmitters: seq<Emitter>
    /** The particle physics: the particle count an emitter keeps after an
        update by the elapsed time. */
    const advance: (Emitter, int) -> nat
    /** The number of particles a fresh debris emitter starts with. */
    const spawnCount: nat
    /** Every emitter handed to `update`, in the order it was handed. */
    ghost var updateTrace: seq<Emitter>

    ghost predicate Valid()
      reads this, chunkManager
    {
      chunkManager.Valid()
    }

    constructor (chunkManager: ChunkManager, advance: (Emitter, int) -> nat, spawnCount: nat)
      requires chunkManager.Valid()
      ensures Valid()
      ensures this.chunkManager == chunkManager && particleEmitters == [] && updateTrace == []
      ensures this.advance == advance && this.spawnCount == spawnCount
    {
      this.chunkManager := chunkManager;
      this.advance := advance;
      this.spawnCount := spawnCount;
      particleEmitters := [];
      updateTrace := [];
    }

    /** `clear`: releases the GPU buffers of every resident chunk. */
    method Clear()
      requires Valid()
      modifies chunkManager
      ensures Valid()
      ensures chunkManager.chunkMap.Keys == old(chunkManager.chunkMap).Keys
      ensures forall k :: k in chunkManager.chunkMap ==>
        chunkManager.chunkMap[k] == old(chunkManager.chunkMap)[k].Logged(ReleaseBuffers)
      ensures chunkManager.updateList == old(chunkManager.updateList)
      ensures chunkManager.generateCenter == old(chunkManager.generateCenter)
    {
      chunkManager.Clear();
    }

    /** `destroyBlock`: reads the selected block, appends a debris emitter for
        it, then overwrites the block with air.  The selected block's chunk
        must be resident, since the block read is dereferenced. */
    method DestroyBlock(selectedBlockPos: (real, real, real))
      requires Valid()
      requires var (x, y, z) := Truncated(selectedBlockPos);
        chunkManager.GetBlock(x, y, z).Some?
      modifies this, chunkManager
      ensures Valid()
      ensures var (x, y, z) := Truncated(selectedBlockPos);
        particleEmitters == old(particleEmitters) + [Debris(x, y, z, old(chunkManager.GetBlock(x, y, z)).value, spawnCount)]
      ensures var (x, y, z) := Truncated(selectedBlockPos);
        chunkManager.chunkMap == EditedMap(old(chunkManager.chunkMap), x, y, z, AIR)
      ensures var (x, y, z) := Truncated(selectedBlockPos);
        chunkManager.GetBlock(x, y, z) == Some(AIR)
      ensures updateTrace == old(updateTrace)
      ensures chunkManager.updateList == old(chunkManager.updateList)
      ensures chunkManager.generateCenter == old(chunkManager.generateCenter)
    {
      var (x, y, z) := Truncated(selectedBlockPos);
      var id := chunkManager.GetBlock(x, y, z).value;
      particleEmitters := particleEmitters + [Debris(x, y, z, id, spawnCount)];
      chunkManager.UpdateBlock(x, y, z, AIR);
      ReadAfterWrite(old(chunkManager.chunkMap), x, y, z, AIR);
    }

    /** `putBlock`: the block edit on the selected position, nothing more. */
    method PutBlock(selectedBlockPos: (real, real, real), blockID: BlockId)
      requires Valid()
      modifies chunkManager
      ensures Valid()
      ensures var (x, y, z) := Truncated(selectedBlockPos);
        chunkManager.chunkMap == EditedMap(old(chunkManager.chunkMap), x, y, z, blockID)
      ensures chunkManager.updateList == old(chunkManager.updateList)
      ensures chunkManager.generateCenter == old(chunkManager.generateCenter)
    {
      var (x, y, z) := Truncated(selectedBlockPos);
      chunkManager.UpdateBlock(x, y, z, blockID);
    }

    /** `update`: walks the emitter list once, advancing each emitter and
        unlinking in place those left without particles. */
    method Update(elapsedTime: int)
      modifies this
      ensures particleEmitters == Survivors(old(particleEmitters), advance, elapsedTime)
      ensures updateTrace == old(updateTrace) + old(particleEmitters)
    {
      ghost var k := 0;
      var i := 0;
      assert old(particleEmitters)[..0] == [];
      while i < |particleEmitters|
        invariant 0 <= i <= |particleEmitters| && 0 <= k <= |old(particleEmitters)|
        invariant particleEmitters[..i] == Survivors(old(particleEmitters)[..k], advance, elapsedTime)
        invariant particleEmitters[i..] == old(particleEmitters)[k..]
        invariant updateTrace == old(updateTrace) + old(particleEmitters)[..k]
        decreases |particleEmitters| - i
      {
        var emitter := particleEmitters[i];
        updateTrace := updateTrace + [emitter];
        var updated := Advanced(emitter, advance, elapsedTime);
        ghost var done := old(particleEmitters)[..k];
        assert old(particleEmitters)[..k + 1] == done + [emitter];
        SurvivorsAppend(done, [emitter], advance, elapsedTime);
        assert Survivors([emitter], advance, elapsedTime) == if updated.particles > 0 then [updated] else [];
        var rest := particleEmitters[i + 1..];
        assert rest == old(particleEmitters)[k + 1..] by {
          assert rest == particleEmitters[i..][1..];
        }
        if updated.particles == 0 {
          particleEmitters := particleEmitters[..i] + rest;
          assert particleEmitters[..i] == Survivors(done, advance, elapsedTime) + [];
          assert particleEmitters[i..] == rest;
        } else {
          particleEmitters := particleEmitters[..i] + [updated] + rest;
          assert particleEmitters[..i + 1] == Survivors(done, advance, elapsedTime) + [updated];
          assert particleEmitters[i + 1..] == rest;
          i := i + 1;
        }
        k := k + 1;
      }
      assert old(particleEmitters)[..k] == old(particleEmitters);
    }
  }
}
