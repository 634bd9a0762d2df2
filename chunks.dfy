/** Chunks, the spatial index that maps chunk coordinates to them, block lookup,
    and the effect of a single block edit on blocks and meshes.

    A chunk is a 16-wide column of blocks.  Its mesh code is not part of this
    model: a chunk records, in `meshLog`, each mesh operation the chunk
    manager asks of it, which is what the properties below are about. */
module Chunks {
  import opened JavaInt

  type BlockId = int

  /** The empty block. */
  const AIR: BlockId := 0

  /** Chunk coordinates `(chunkX, chunkZ)`, the key of the spatial index. */
  type Key = (int, int)

  /** A position inside a chunk: `(x & 15, y, z & 15)`. */
  type Local = (int, int, int)

  /** A mesh operation asked of a chunk. */
  datatype MeshCall =
    | UpdateMesh(section: int)  // rebuild the geometry of one 16-block vertical section
    | GenerateMesh              // rebuild the geometry of the whole chunk
    | ReleaseBuffers            // `Chunk.clear()`: free the chunk's GPU buffers

  datatype Chunk = Chunk(x: int, z: int, blocks: map<Local, BlockId>, meshLog: seq<MeshCall>)
  {
    /** The block stored at a local position; positions never written hold air. */
    function BlockAt(l: Local): BlockId {
      if l in blocks then blocks[l] else AIR
    }

    /** `Chunk.setBlock(b, lx, y, lz)`: writes one block; no mesh is rebuilt. */
    function SetBlock(b: BlockId, lx: int, y: int, lz: int): (c: Chunk)
      ensures c.BlockAt((lx, y, lz)) == b
      ensures forall l :: l != (lx, y, lz) ==> c.BlockAt(l) == BlockAt(l)
      ensures c.x == x && c.z == z && c.meshLog == meshLog
    {
      this.(blocks := blocks[(lx, y, lz) := b])
    }

    /** Records a mesh operation asked of this chunk. */
    function Logged(call: MeshCall): (c: Chunk)
      ensures c.meshLog == meshLog + [call]
      ensures c.x == x && c.z == z && c.blocks == blocks
    {
      this.(meshLog := meshLog + [call])
    }
  }

  datatype Option<T> = None | Some(value: T)

  type ChunkMap = map<Key, Chunk>

  /** Every resident chunk sits under its own coordinates. */
  ghost predicate KeysMatch(m: ChunkMap) {
    forall k :: k in m ==> m[k].x == k.0 && m[k].z == k.1
  }

  /** The chunk that owns world column `(x, z)`: `(x >> 4, z >> 4)`. */
  function ChunkKeyOf(x: int, z: int): (k: Key)
    requires IsInt(x) && IsInt(z)
    ensures 16 * k.0 <= x < 16 * k.0 + 16 && 16 * k.1 <= z < 16 * k.1 + 16
  {
    (ShiftRight4(x), ShiftRight4(z))
  }

  /** Where world position `(x, y, z)` lives inside its chunk. */
  function LocalOf(x: int, y: int, z: int): (l: Local)
    requires IsInt(x) && IsInt(z)
    ensures 0 <= l.0 < 16 && l.1 == y && 0 <= l.2 < 16
    ensures x == 16 * ChunkKeyOf(x, z).0 + l.0 && z == 16 * ChunkKeyOf(x, z).1 + l.2
  {
    (Mask15(x), y, Mask15(z))
  }

  /** `ChunkManager.getBlock`: `None` stands for Java's `null`, returned when the
      owning chunk is not resident. */
  function LookupBlock(m: ChunkMap, x: int, y: int, z: int): (r: Option<BlockId>)
    requires IsInt(x) && IsInt(z)
    ensures r.None? <==> ChunkKeyOf(x, z) !in m
  {
    var k := ChunkKeyOf(x, z);
    if k in m then Some(m[k].BlockAt(LocalOf(x, y, z))) else None
  }

  lemma {:induction false} WorldPositionDeterminedByChunkAndLocal(x: int, z: int, x': int, z': int)
    requires IsInt(x) && IsInt(z) && IsInt(x') && IsInt(z')
    requires ChunkKeyOf(x, z) == ChunkKeyOf(x', z')
    requires Mask15(x) == Mask15(x') && Mask15(z) == Mask15(z')
    ensures x == x' && z == z'
  {
    assert x == ShiftRight4(x) * 16 + Mask15(x);
    assert x' == ShiftRight4(x') * 16 + Mask15(x');
    assert z == ShiftRight4(z) * 16 + Mask15(z);
    assert z' == ShiftRight4(z') * 16 + Mask15(z');
  }

  /** `(x >> 4) * 16 + (x & 15)` gives back `x`, and `x >> 4` is `x / 16`
      rounded down, negative `x` included. */
  lemma {:induction false} SplitRoundTrip(x: int)
    requires IsInt(x)
    ensures x == ShiftRight4(x) * 16 + Mask15(x)
    ensures 0 <= Mask15(x) < 16
    ensures ShiftRight4(x) == x / 16 && Mask15(x) == x % 16
  {
    var q, r := ShiftRight4(x), Mask15(x);
    assert x == q * 16 + r && 0 <= r < 16;
    DivModUnique(x, q, r);
  }

  lemma DivModUnique(x: int, q: int, r: int)
    requires x == q * 16 + r && 0 <= r < 16
    ensures q == x / 16 && r == x % 16
  {
  }

  // ---------------------------------------------------------------- edits

  /** The remesh requests of `updateBlock` for the edited chunk, in call
      order: the edited section `y >> 4`, the section below when the edit is
      on the bottom layer of its section, the section above when it is on
      the top layer. */
  function SectionCalls(y: int): (r: seq<MeshCall>)
    requires IsInt(y)
    ensures |r| == if Mask15(y) == 0 || Mask15(y) == 15 then 2 else 1
    ensures r[0] == UpdateMesh(ShiftRight4(y))
    ensures UpdateMesh(ShiftRight4(y) - 1) in r <==> Mask15(y) == 0
    ensures UpdateMesh(ShiftRight4(y) + 1) in r <==> Mask15(y) == 15
    ensures forall c :: c in r ==> c.UpdateMesh? && ShiftRight4(y) - 1 <= c.section <= ShiftRight4(y) + 1
  {
    var s := ShiftRight4(y);
    [UpdateMesh(s)]
      + (if Mask15(y) == 0 then [UpdateMesh(s - 1)] else [])
      + (if Mask15(y) == 15 then [UpdateMesh(s + 1)] else [])
  }

  /** The four horizontal directions in the order of the source's `dx`/`dz`
      tables: +x, -z, -x, +z. */
  function DX(d: int): int requires 0 <= d < 4 { [1, 0, -1, 0][d] }
  function DZ(d: int): int requires 0 <= d < 4 { [0, -1, 0, 1][d] }

  /** The chunk holding the block next to `(x, z)` in direction `d`, with the
      32-bit wrap-around of `x + dx[d]` and `z + dz[d]`. */
  function NeighbourKey(x: int, z: int, d: int): (k: Key)
    requires IsInt(x) && IsInt(z) && 0 <= d < 4
    ensures DZ(d) == 0 ==> k.1 == ChunkKeyOf(x, z).1
    ensures DX(d) == 0 ==> k.0 == ChunkKeyOf(x, z).0
  {
    ChunkKeyOf(Add(x, DX(d)), Add(z, DZ(d)))
  }

  /** Chunks other than the edited one that the direction loop of
      `updateBlock` reaches with directions `0 .. upTo - 1`. */
  function CrossedChunks(x: int, z: int, upTo: int): (r: set<Key>)
    requires IsInt(x) && IsInt(z) && 0 <= upTo <= 4
    ensures ChunkKeyOf(x, z) !in r
    ensures forall k :: k in r ==> k.0 == ChunkKeyOf(x, z).0 || k.1 == ChunkKeyOf(x, z).1
  {
    set d | 0 <= d < upTo && NeighbourKey(x, z, d) != ChunkKeyOf(x, z) :: NeighbourKey(x, z, d)
  }

  /** The edited chunk: block written, edited section(s) rebuilt. */
  function WriteBlock(c: Chunk, l: Local, b: BlockId, y: int): (r: Chunk)
    requires IsInt(y)
    ensures r.BlockAt(l) == b
    ensures forall l' :: l' != l ==> r.BlockAt(l') == c.BlockAt(l')
    ensures r.x == c.x && r.z == c.z && r.meshLog == c.meshLog + SectionCalls(y)
  {
    c.SetBlock(b, l.0, l.1, l.2).(meshLog := c.meshLog + SectionCalls(y))
  }

  /** Section `y >> 4` of every resident chunk in `ks` rebuilt once. */
  function RemeshAll(m: ChunkMap, ks: set<Key>, y: int): (r: ChunkMap)
    requires IsInt(y)
    ensures r.Keys == m.Keys
    ensures forall k :: k in r ==> r[k].x == m[k].x && r[k].z == m[k].z && r[k].blocks == m[k].blocks
    ensures forall k :: k in r ==>
      r[k].meshLog == m[k].meshLog + if k in ks then [UpdateMesh(ShiftRight4(y))] else []
  {
    map k | k in m :: if k in ks then m[k].Logged(UpdateMesh(ShiftRight4(y))) else m[k]
  }

  /** The spatial index after `updateBlock(x, y, z, b)`. */
  function EditedMap(m: ChunkMap, x: int, y: int, z: int, b: BlockId): (r: ChunkMap)
    requires IsInt(x) && IsInt(y) && IsInt(z)
    ensures r.Keys == m.Keys
    ensures ChunkKeyOf(x, z) !in m ==> r == m
    ensures forall k :: k in r ==> r[k].x == m[k].x && r[k].z == m[k].z
  {
    var own := ChunkKeyOf(x, z);
    if own !in m then m
    else RemeshAll(m[own := WriteBlock(m[own], LocalOf(x, y, z), b, y)], CrossedChunks(x, z, 4), y)
  }

  /** After an edit of a resident chunk, reading the edited position gives
      the written block. */
  lemma {:induction false} ReadAfterWrite(m: ChunkMap, x: int, y: int, z: int, b: BlockId)
    requires IsInt(x) && IsInt(y) && IsInt(z)
    requires ChunkKeyOf(x, z) in m
    ensures LookupBlock(EditedMap(m, x, y, z, b), x, y, z) == Some(b)
  {
    var own := ChunkKeyOf(x, z);
    assert own !in CrossedChunks(x, z, 4);
  }

  /** An edit changes the block at its own position and nowhere else, in any
      chunk; with the chunk absent it changes nothing at all. */
  lemma {:induction false} EditTouchesOneBlock(m: ChunkMap, x: int, y: int, z: int, b: BlockId, x': int, y': int, z': int)
    requires IsInt(x) && IsInt(y) && IsInt(z) && IsInt(x') && IsInt(z')
    requires (x', y', z') != (x, y, z)
    ensures LookupBlock(EditedMap(m, x, y, z, b), x', y', z') == LookupBlock(m, x', y', z')
  {
    var own, k' := ChunkKeyOf(x, z), ChunkKeyOf(x', z');
    if own in m && k' in m {
      var r := EditedMap(m, x, y, z, b);
      assert own !in CrossedChunks(x, z, 4);
      if k' == own {
        if LocalOf(x', y', z') == LocalOf(x, y, z) {
          WorldPositionDeterminedByChunkAndLocal(x, z, x', z');
          assert false;
        }
        assert r[k'].blocks == m[k'].blocks[LocalOf(x, y, z) := b];
      } else {
        assert r[k'].blocks == m[k'].blocks;
      }
    }
  }

  /** The edited chunk gets exactly the section rebuilds of `SectionCalls`,
      after its earlier mesh history. */
  lemma {:induction false} EditRemeshesOwnSections(m: ChunkMap, x: int, y: int, z: int, b: BlockId)
    requires IsInt(x) && IsInt(y) && IsInt(z)
    requires ChunkKeyOf(x, z) in m
    ensures EditedMap(m, x, y, z, b)[ChunkKeyOf(x, z)].meshLog == m[ChunkKeyOf(x, z)].meshLog + SectionCalls(y)
  {
    assert ChunkKeyOf(x, z) !in CrossedChunks(x, z, 4);
  }

  /** Every other resident chunk keeps its blocks; its mesh history gains one
      rebuild of section `y >> 4` if the direction loop crossed into it, and
      nothing otherwise. */
  lemma {:induction false} EditRemeshesNeighbours(m: ChunkMap, x: int, y: int, z: int, b: BlockId, k: Key)
    requires IsInt(x) && IsInt(y) && IsInt(z)
    requires ChunkKeyOf(x, z) in m && k in m && k != ChunkKeyOf(x, z)
    ensures EditedMap(m, x, y, z, b)[k].blocks == m[k].blocks
    ensures EditedMap(m, x, y, z, b)[k].meshLog
         == m[k].meshLog + (if k in CrossedChunks(x, z, 4) then [UpdateMesh(ShiftRight4(y))] else [])
  {
  }

  /** Moving one block along x crosses into the next chunk only from the
      chunk's edge layer: `x & 15 == 15` going up, `x & 15 == 0` going down.
      This holds with the 32-bit wrap-around too. */
  lemma {:induction false} CrossingOnlyFromEdge(x: int, delta: int)
    requires IsInt(x) && (delta == 1 || delta == -1)
    ensures ShiftRight4(Add(x, delta)) != ShiftRight4(x) ==> Mask15(x) == (if delta == 1 then 15 else 0)
    ensures IsInt(x + delta) && Mask15(x) == (if delta == 1 then 15 else 0)
        ==> ShiftRight4(Add(x, delta)) == ShiftRight4(x) + delta
  {
    SplitRoundTrip(x);
    var n := Add(x, delta);
    SplitRoundTrip(n);
    if IsInt(x + delta) {
      assert n == x + delta;
      var q, r := ShiftRight4(x), Mask15(x);
      if delta == 1 {
        if r < 15 { DivModUnique(n, q, r + 1); } else { DivModUnique(n, q + 1, 0); }
      } else {
        if r > 0 { DivModUnique(n, q, r - 1); } else { DivModUnique(n, q - 1, 15); }
      }
    } else if delta == 1 {
      assert x == MAX_INT;
      assert Pattern(x) % 16 == 15;
    } else {
      assert x == MIN_INT;
      assert Pattern(x) % 16 == 0;
    }
  }

  /** An edit strictly inside its chunk's 16x16 footprint rebuilds no other
      chunk. */
  lemma {:induction false} InteriorEditCrossesNothing(x: int, z: int)
    requires IsInt(x) && IsInt(z)
    requires 1 <= Mask15(x) <= 14 && 1 <= Mask15(z) <= 14
    ensures CrossedChunks(x, z, 4) == {}
  {
    CrossingOnlyFromEdge(x, 1);
    CrossingOnlyFromEdge(x, -1);
    CrossingOnlyFromEdge(z, 1);
    CrossingOnlyFromEdge(z, -1);
    forall d | 0 <= d < 4 ensures NeighbourKey(x, z, d) == ChunkKeyOf(x, z) {
      assert Add(x, 0) == x && Add(z, 0) == z;
    }
  }

  /** Away from the ends of the `int` range, where the block next to `(x, z)`
      in direction `d` lies: in the same chunk unless the edit is on the face
      of its chunk that `d` points through. */
  lemma {:induction false} NeighbourKeyAwayFromWrap(x: int, z: int, d: int)
    requires IsInt(x - 1) && IsInt(x + 1) && IsInt(z - 1) && IsInt(z + 1) && 0 <= d < 4
    ensures var (cx, cz) := ChunkKeyOf(x, z);
      NeighbourKey(x, z, d) == (
        if d == 0 then (if Mask15(x) == 15 then cx + 1 else cx, cz)
        else if d == 1 then (cx, if Mask15(z) == 0 then cz - 1 else cz)
        else if d == 2 then (if Mask15(x) == 0 then cx - 1 else cx, cz)
        else (cx, if Mask15(z) == 15 then cz + 1 else cz))
  {
    assert Add(x, 0) == x && Add(z, 0) == z;
    if d == 0 {
      CrossingOnlyFromEdge(x, 1);
    } else if d == 1 {
      CrossingOnlyFromEdge(z, -1);
    } else if d == 2 {
      CrossingOnlyFromEdge(x, -1);
    } else {
      CrossingOnlyFromEdge(z, 1);
    }
  }

  /** Away from the ends of the `int` range, the chunks the direction loop
      crosses into are exactly the horizontally adjacent chunks whose shared
      face the edited block lies on. */
  lemma {:induction false} CrossedChunksAreFaceNeighbours(x: int, z: int, k: Key)
    requires IsInt(x - 1) && IsInt(x + 1) && IsInt(z - 1) && IsInt(z + 1)
    ensures k in CrossedChunks(x, z, 4) <==>
      var (cx, cz) := ChunkKeyOf(x, z);
      || (Mask15(x) == 15 && k == (cx + 1, cz))
      || (Mask15(z) == 0 && k == (cx, cz - 1))
      || (Mask15(x) == 0 && k == (cx - 1, cz))
      || (Mask15(z) == 15 && k == (cx, cz + 1))
  {
    NeighbourKeyAwayFromWrap(x, z, 0);
    NeighbourKeyAwayFromWrap(x, z, 1);
    NeighbourKeyAwayFromWrap(x, z, 2);
    NeighbourKeyAwayFromWrap(x, z, 3);
    var own := ChunkKeyOf(x, z);
    if k in CrossedChunks(x, z, 4) {
      var d :| 0 <= d < 4 && NeighbourKey(x, z, d) != own && k == NeighbourKey(x, z, d);
    } else {
      forall d | 0 <= d < 4 ensures NeighbourKey(x, z, d) == own || k != NeighbourKey(x, z, d) {
        assert NeighbourKey(x, z, d) != own ==> NeighbourKey(x, z, d) in CrossedChunks(x, z, 4);
      }
    }
  }

  /** One more direction of the loop: it adds its chunk to the crossed set
      when that chunk is not the edited one, and that chunk was not crossed
      before; the direction moves along one axis only. */
  lemma {:induction false} CrossedChunksStep(x: int, z: int, d: int)
    requires IsInt(x) && IsInt(z) && 0 <= d < 4
    ensures var n, own := NeighbourKey(x, z, d), ChunkKeyOf(x, z);
      && CrossedChunks(x, z, d + 1) == CrossedChunks(x, z, d) + (if n != own then {n} else {})
      && (n != own ==> n !in CrossedChunks(x, z, d))
      && (n.0 == own.0 || n.1 == own.1)
  {
    var n, own := NeighbourKey(x, z, d), ChunkKeyOf(x, z);
    assert Add(x, 0) == x && Add(z, 0) == z;
    if n != own {
      forall e | 0 <= e < d ensures n != NeighbourKey(x, z, e) {
        DirectionsCrossDistinctChunks(x, z, d, e);
      }
    }
  }

  /** Rebuilding section `y >> 4` of one more resident chunk. */
  lemma {:induction false} RemeshAllStep(m: ChunkMap, ks: set<Key>, k: Key, y: int)
    requires IsInt(y) && k !in ks
    ensures k in m ==> RemeshAll(m, ks + {k}, y) == RemeshAll(m, ks, y)[k := RemeshAll(m, ks, y)[k].Logged(UpdateMesh(ShiftRight4(y)))]
    ensures k !in m ==> RemeshAll(m, ks + {k}, y) == RemeshAll(m, ks, y)
  {
  }

  /** No two directions of the loop cross into the same chunk, so each
      neighbouring chunk is rebuilt at most once per edit. */
  lemma {:induction false} DirectionsCrossDistinctChunks(x: int, z: int, d: int, e: int)
    requires IsInt(x) && IsInt(z) && 0 <= e < d < 4
    requires NeighbourKey(x, z, d) != ChunkKeyOf(x, z)
    ensures NeighbourKey(x, z, d) != NeighbourKey(x, z, e)
  {
    CrossingOnlyFromEdge(x, 1);
    CrossingOnlyFromEdge(x, -1);
    CrossingOnlyFromEdge(z, 1);
    CrossingOnlyFromEdge(z, -1);
    assert Add(x, 0) == x && Add(z, 0) == z;
  }
}
