/** What one per-frame `ChunkManager.update` does to the spatial index, as
    functions of the index before the call and the viewer's chunk
    coordinates, with the properties of view-distance streaming proved about
    them. */
module Streaming {
  import opened JavaInt
  import opened Chunks

  /** Chunks missing within this Chebyshev distance of the viewer's chunk are
      generated. */
  const VIEW_DISTANCE_NEAR: int := 8
  /** Chunks farther than this from the viewer's chunk are evicted. */
  const VIEW_DISTANCE_FAR: int := 12

  /** The viewer's chunk coordinates `((int) p.x >> 4, (int) p.z >> 4)`. */
  function CenterOf(p: (real, real, real)): (k: Key)
    ensures 16 * k.0 <= FloatToInt(p.0) < 16 * k.0 + 16
    ensures 16 * k.1 <= FloatToInt(p.2) < 16 * k.1 + 16
  {
    (ShiftRight4(FloatToInt(p.0)), ShiftRight4(FloatToInt(p.2)))
  }

  /** `tooFar`: the chunk lies beyond the far distance along x or along z. */
  predicate TooFar(center: Key, c: Chunk)
    ensures !TooFar(center, c) <==>
      center.0 - VIEW_DISTANCE_FAR <= c.x <= center.0 + VIEW_DISTANCE_FAR
      && center.1 - VIEW_DISTANCE_FAR <= c.z <= center.1 + VIEW_DISTANCE_FAR
    ensures TooFar(center, c) ==> !InSight(center, c.x, c.z)
  {
    Abs(center.0 - c.x) > VIEW_DISTANCE_FAR || Abs(center.1 - c.z) > VIEW_DISTANCE_FAR
  }

  /** `inSight`: chunk `(i, j)` lies within the near distance along both axes. */
  predicate InSight(center: Key, i: int, j: int)
    ensures InSight(center, i, j) <==>
      center.0 - VIEW_DISTANCE_NEAR <= i <= center.0 + VIEW_DISTANCE_NEAR
      && center.1 - VIEW_DISTANCE_NEAR <= j <= center.1 + VIEW_DISTANCE_NEAR
  {
    Abs(center.0 - i) <= VIEW_DISTANCE_NEAR && Abs(center.1 - j) <= VIEW_DISTANCE_NEAR
  }

  /** `chunkMap.values().removeIf(this::tooFar)`. */
  function Evict(m: ChunkMap, center: Key): (r: ChunkMap)
    ensures r.Keys <= m.Keys
    ensures forall k :: k in m ==> (k in r <==> !TooFar(center, m[k]))
    ensures forall k :: k in r ==> r[k] == m[k]
  {
    map k | k in m && !TooFar(center, m[k]) :: m[k]
  }

  /** Chunk coordinates the nested loops of `update` visit before position
      `(i, j)`: whole rows `centerX - near .. i - 1`, then row `i` up to
      column `j - 1`. */
  predicate VisitedBefore(center: Key, a: int, b: int, i: int, j: int) {
    && center.0 - VIEW_DISTANCE_NEAR <= a <= center.0 + VIEW_DISTANCE_NEAR
    && center.1 - VIEW_DISTANCE_NEAR <= b <= center.1 + VIEW_DISTANCE_NEAR
    && (a < i || (a == i && b < j))
  }

  /** Coordinates visited before `(i, j)` that are non-negative and not
      resident: the chunks `update` has dispatched a generator for so far. */
  function MissingBefore(kept: ChunkMap, center: Key, i: int, j: int): set<Key> {
    set a, b | center.0 - VIEW_DISTANCE_NEAR <= a <= center.0 + VIEW_DISTANCE_NEAR
            && center.1 - VIEW_DISTANCE_NEAR <= b <= center.1 + VIEW_DISTANCE_NEAR
            && VisitedBefore(center, a, b, i, j) && a >= 0 && b >= 0 && (a, b) !in kept :: (a, b)
  }

  /** All chunks `update` generates: the non-resident, non-negative
      coordinates of the window. */
  function Missing(kept: ChunkMap, center: Key): (r: set<Key>)
    ensures forall k: Key :: k in r <==> InSight(center, k.0, k.1) && k.0 >= 0 && k.1 >= 0 && k !in kept
  {
    var r := MissingBefore(kept, center, center.0 + VIEW_DISTANCE_NEAR + 1, center.1 - VIEW_DISTANCE_NEAR);
    assert forall k: Key :: InSight(center, k.0, k.1) && k.0 >= 0 && k.1 >= 0 && k !in kept ==> k in r by {
      forall k: Key | InSight(center, k.0, k.1) && k.0 >= 0 && k.1 >= 0 && k !in kept
        ensures k in r
      {
        assert VisitedBefore(center, k.0, k.1, center.0 + VIEW_DISTANCE_NEAR + 1, center.1 - VIEW_DISTANCE_NEAR);
      }
    }
    r
  }

  /** The block column next to chunk `p` in direction `d`. */
  function Step(p: Key, d: int): Key
    requires 0 <= d < 4
  {
    (p.0 + DX(d), p.1 + DZ(d))
  }

  /** `k` is a 4-neighbour of some coordinate in `s`. */
  predicate AdjacentTo(k: Key, s: set<Key>) {
    Step(k, 0) in s || Step(k, 1) in s || Step(k, 2) in s || Step(k, 3) in s
  }

  /** The pending-remesh set built while dispatching the generation of
      `miss`: those coordinates plus every resident 4-neighbour of them. */
  function WithResidentNeighbours(kept: ChunkMap, miss: set<Key>): (r: set<Key>)
    ensures miss <= r <= miss + kept.Keys
    ensures forall k :: k in kept && AdjacentTo(k, miss) ==> k in r
    ensures forall k :: k in r && k !in miss ==> AdjacentTo(k, miss)
  {
    set k | k in miss + kept.Keys && (k in miss || AdjacentTo(k, miss))
  }

  /** The pending-remesh set `update` has built when its loops end. */
  function Pending(kept: ChunkMap, center: Key): (r: set<Key>)
    ensures Missing(kept, center) <= r <= Missing(kept, center) + kept.Keys
    ensures forall k :: k in r ==>
      Abs(center.0 - k.0) <= VIEW_DISTANCE_NEAR + 1 && Abs(center.1 - k.1) <= VIEW_DISTANCE_NEAR + 1
  {
    WithResidentNeighbours(kept, Missing(kept, center))
  }

  /** What the generator thread for chunk `g` hands back: the terrain for
      its column and no mesh yet. */
  function Generated(terrain: (int, int) -> map<Local, BlockId>, g: Key): (c: Chunk)
    ensures c.x == g.0 && c.z == g.1 && c.meshLog == []
  {
    Chunk(g.0, g.1, terrain(g.0, g.1), [])
  }

  /** The spatial index once the generators are joined: the survivors of
      eviction plus a freshly generated chunk per missing coordinate. */
  function Joined(m: ChunkMap, center: Key, terrain: (int, int) -> map<Local, BlockId>): (r: ChunkMap)
    ensures r.Keys == Evict(m, center).Keys + Missing(Evict(m, center), center)
  {
    var kept := Evict(m, center);
    kept + map g | g in Missing(kept, center) :: Generated(terrain, g)
  }

  /** The spatial index after `update`: joined, then every pending coordinate
      remeshed once. */
  function AfterUpdate(m: ChunkMap, center: Key, terrain: (int, int) -> map<Local, BlockId>): (r: ChunkMap)
    ensures r.Keys == Joined(m, center, terrain).Keys
  {
    var joined := Joined(m, center, terrain);
    var pending := Pending(Evict(m, center), center);
    map k | k in joined :: if k in pending then joined[k].Logged(GenerateMesh) else joined[k]
  }

  /** The residency guarantee of `update` for a viewer at chunk `center`:
      nothing resident beyond the far distance, and every non-negative
      chunk within the near distance resident. */
  ghost predicate Streamed(r: ChunkMap, center: Key) {
    && (forall k :: k in r ==> Abs(k.0 - center.0) <= VIEW_DISTANCE_FAR && Abs(k.1 - center.1) <= VIEW_DISTANCE_FAR)
    && (forall i, j :: InSight(center, i, j) && i >= 0 && j >= 0 ==> (i, j) in r)
  }

  ghost predicate NonNegative(m: ChunkMap) {
    forall k :: k in m ==> k.0 >= 0 && k.1 >= 0
  }

  // ---------------------------------------------------------------- lemmas

  /** A map that agrees with `Joined` key by key is `Joined`. */
  lemma {:induction false} JoinedByKeys(m: ChunkMap, center: Key, terrain: (int, int) -> map<Local, BlockId>,
                                        kept: ChunkMap, generators: seq<Key>, r: ChunkMap)
    requires kept == Evict(m, center)
    requires forall g :: g in generators <==> g in Missing(kept, center)
    requires forall k :: k in r <==> k in kept || k in generators
    requires forall k :: k in r ==> r[k] == if k in generators then Generated(terrain, k) else kept[k]
    ensures r == Joined(m, center, terrain)
  {
  }

  /** A map that agrees with `AfterUpdate` key by key is `AfterUpdate`. */
  lemma {:induction false} AfterUpdateByKeys(m: ChunkMap, center: Key, terrain: (int, int) -> map<Local, BlockId>,
                                             joined: ChunkMap, pending: set<Key>, r: ChunkMap)
    requires joined == Joined(m, center, terrain)
    requires pending == Pending(Evict(m, center), center)
    requires r.Keys == joined.Keys
    requires forall k :: k in r ==> r[k] == if k in pending then joined[k].Logged(GenerateMesh) else joined[k]
    ensures r == AfterUpdate(m, center, terrain)
  {
  }

  /** The state of the dispatch loops of `update` before they visit `(i, j)`:
      the generator list holds exactly the coordinates missing so far, and
      the pending-remesh set holds those plus their resident 4-neighbours. */
  ghost predicate DispatchedBefore(kept: ChunkMap, pending: set<Key>, generators: seq<Key>, center: Key, i: int, j: int) {
    && (forall g :: g in generators <==> g in MissingBefore(kept, center, i, j))
    && pending == WithResidentNeighbours(kept, MissingBefore(kept, center, i, j))
  }

  /** Before the loops start nothing is dispatched and nothing is pending. */
  lemma {:induction false} NothingMissingAtStart(kept: ChunkMap, pending: set<Key>, generators: seq<Key>, center: Key, i: int, j: int)
    requires pending == {} && generators == []
    requires i == center.0 - VIEW_DISTANCE_NEAR && j == center.1 - VIEW_DISTANCE_NEAR
    ensures DispatchedBefore(kept, pending, generators, center, i, j)
  {
    var none := MissingBefore(kept, center, i, j);
    assert none == {};
    assert forall k :: !AdjacentTo(k, none);
  }

  /** Past the last row, the loops have visited the whole window. */
  lemma {:induction false} WholeWindowVisited(kept: ChunkMap, pending: set<Key>, generators: seq<Key>, center: Key, i: int, j: int)
    requires i == center.0 + VIEW_DISTANCE_NEAR + 1 && j == center.1 - VIEW_DISTANCE_NEAR
    requires DispatchedBefore(kept, pending, generators, center, i, j)
    ensures forall g :: g in generators <==> g in Missing(kept, center)
    ensures pending == Pending(kept, center)
  {
    assert MissingBefore(kept, center, i, j) == Missing(kept, center);
  }

  /** Visiting position `(i, j)` adds it to the missing set iff it is
      non-negative and not resident. */
  lemma {:induction false} MissingBeforeNextColumn(kept: ChunkMap, center: Key, i: int, j: int)
    requires center.0 - VIEW_DISTANCE_NEAR <= i <= center.0 + VIEW_DISTANCE_NEAR
    requires center.1 - VIEW_DISTANCE_NEAR <= j <= center.1 + VIEW_DISTANCE_NEAR
    ensures MissingBefore(kept, center, i, j + 1)
         == MissingBefore(kept, center, i, j) + (if i < 0 || j < 0 || (i, j) in kept then {} else {(i, j)})
  {
  }

  /** One step of the inner loop: a skipped position changes nothing; a
      missing one is appended to the generator list and added, with its
      resident 4-neighbours, to the pending-remesh set. */
  lemma {:induction false} NextColumn(kept: ChunkMap, pending: set<Key>, generators: seq<Key>, center: Key, i: int, j: int)
    requires center.0 - VIEW_DISTANCE_NEAR <= i <= center.0 + VIEW_DISTANCE_NEAR
    requires center.1 - VIEW_DISTANCE_NEAR <= j <= center.1 + VIEW_DISTANCE_NEAR
    requires DispatchedBefore(kept, pending, generators, center, i, j)
    ensures i < 0 || j < 0 || (i, j) in kept ==> DispatchedBefore(kept, pending, generators, center, i, j + 1)
    ensures !(i < 0 || j < 0 || (i, j) in kept) ==>
      DispatchedBefore(kept, pending + {(i, j)} + ResidentSteps(kept, (i, j), 4), generators + [(i, j)], center, i, j + 1)
  {
    MissingBeforeNextColumn(kept, center, i, j);
    if !(i < 0 || j < 0 || (i, j) in kept) {
      AddMissing(kept, MissingBefore(kept, center, i, j), (i, j));
    }
  }

  /** Finishing row `i` is starting row `i + 1`. */
  lemma {:induction false} NextRow(kept: ChunkMap, pending: set<Key>, generators: seq<Key>, center: Key, i: int, j: int, j': int)
    requires j == center.1 + VIEW_DISTANCE_NEAR + 1 && j' == center.1 - VIEW_DISTANCE_NEAR
    requires DispatchedBefore(kept, pending, generators, center, i, j)
    ensures DispatchedBefore(kept, pending, generators, center, i + 1, j')
  {
    assert MissingBefore(kept, center, i, j) == MissingBefore(kept, center, i + 1, j');
  }

  /** The resident 4-neighbours of `p` in directions `0 .. upTo - 1`. */
  function ResidentSteps(kept: ChunkMap, p: Key, upTo: int): set<Key>
    requires 0 <= upTo <= 4
  {
    set e | 0 <= e < upTo && Step(p, e) in kept :: Step(p, e)
  }

  lemma {:induction false} ResidentStepsNext(kept: ChunkMap, p: Key, d: int)
    requires 0 <= d < 4
    ensures ResidentSteps(kept, p, d + 1)
         == ResidentSteps(kept, p, d) + (if Step(p, d) in kept then {Step(p, d)} else {})
  {
  }

  /** Dispatching one more missing coordinate `p` adds `p` and its resident
      4-neighbours to the pending-remesh set. */
  lemma {:induction false} AddMissing(kept: ChunkMap, miss: set<Key>, p: Key)
    requires p !in kept
    ensures WithResidentNeighbours(kept, miss + {p})
         == WithResidentNeighbours(kept, miss) + {p} + ResidentSteps(kept, p, 4)
  {
    var lhs := WithResidentNeighbours(kept, miss + {p});
    var rhs := WithResidentNeighbours(kept, miss) + {p} + ResidentSteps(kept, p, 4);
    forall k | k in lhs ensures k in rhs {
      if k != p && k !in miss {
        assert k in kept && AdjacentTo(k, miss + {p});
        if !AdjacentTo(k, miss) {
          var e := if Step(k, 0) == p then 2 else if Step(k, 1) == p then 3 else if Step(k, 2) == p then 0 else 1;
          assert Step(p, e) == k;
        }
      }
    }
    forall k | k in rhs ensures k in lhs {
      if k != p && k !in WithResidentNeighbours(kept, miss) {
        var e :| 0 <= e < 4 && Step(p, e) in kept && Step(p, e) == k;
        assert Step(k, (e + 2) % 4) == p;
      }
    }
  }


  /** The loops visit exactly the coordinates `inSight` accepts. */
  lemma {:induction false} WindowIsInSight(center: Key, a: int, b: int)
    ensures VisitedBefore(center, a, b, center.0 + VIEW_DISTANCE_NEAR + 1, center.1 - VIEW_DISTANCE_NEAR)
        <==> InSight(center, a, b)
  {
  }

  /** Every pending coordinate is resident once the generators are joined, so
      the remesh loop never reads a missing chunk. */
  lemma {:induction false} PendingIsResident(m: ChunkMap, center: Key, terrain: (int, int) -> map<Local, BlockId>)
    ensures Pending(Evict(m, center), center) <= Joined(m, center, terrain).Keys
  {
  }

  /** After `update`, no resident chunk is farther than the far distance from
      the viewer's chunk. */
  lemma {:induction false} ResidentWithinFar(m: ChunkMap, center: Key, terrain: (int, int) -> map<Local, BlockId>)
    requires KeysMatch(m)
    ensures forall k :: k in AfterUpdate(m, center, terrain) ==>
      Abs(k.0 - center.0) <= VIEW_DISTANCE_FAR && Abs(k.1 - center.1) <= VIEW_DISTANCE_FAR
  {
    var kept := Evict(m, center);
    forall k | k in AfterUpdate(m, center, terrain)
      ensures Abs(k.0 - center.0) <= VIEW_DISTANCE_FAR && Abs(k.1 - center.1) <= VIEW_DISTANCE_FAR
    {
      if k in kept {
        assert !TooFar(center, m[k]);
      } else {
        assert k in Missing(kept, center);
      }
    }
  }

  /** After `update`, every non-negative coordinate within the near distance
      is resident. */
  lemma {:induction false} WindowResident(m: ChunkMap, center: Key, terrain: (int, int) -> map<Local, BlockId>, i: int, j: int)
    requires InSight(center, i, j) && i >= 0 && j >= 0
    ensures (i, j) in AfterUpdate(m, center, terrain)
  {
    var kept := Evict(m, center);
    if (i, j) !in kept {
      assert (i, j) in Missing(kept, center);
    }
  }

  /** Eviction removes exactly the chunks that fail the far-distance test: a
      resident chunk stays resident iff it is not too far, since the near
      window lies inside the far one. */
  lemma {:induction false} EvictsExactlyTooFar(m: ChunkMap, center: Key, terrain: (int, int) -> map<Local, BlockId>, k: Key)
    requires KeysMatch(m) && k in m
    ensures k in AfterUpdate(m, center, terrain) <==> !TooFar(center, m[k])
  {
    var kept := Evict(m, center);
    if TooFar(center, m[k]) {
      assert k !in kept;
      assert !InSight(center, k.0, k.1);
      assert k !in Missing(kept, center);
    }
  }

  /** Chunks are generated only at non-negative coordinates, so an index
      without negative coordinates keeps that property. */
  lemma {:induction false} NoNegativeChunk(m: ChunkMap, center: Key, terrain: (int, int) -> map<Local, BlockId>)
    ensures forall k :: k in AfterUpdate(m, center, terrain) && k !in m ==> k.0 >= 0 && k.1 >= 0
    ensures NonNegative(m) ==> NonNegative(AfterUpdate(m, center, terrain))
  {
    var kept := Evict(m, center);
    var r := AfterUpdate(m, center, terrain);
    forall k | k in r && k !in kept ensures k.0 >= 0 && k.1 >= 0 {
      assert k in Missing(kept, center);
    }
  }

  /** A chunk that survives eviction is not regenerated: it keeps its blocks
      and coordinates, and at most gains a whole-chunk remesh. */
  lemma {:induction false} SurvivorsNotRegenerated(m: ChunkMap, center: Key, terrain: (int, int) -> map<Local, BlockId>, k: Key)
    requires k in m && !TooFar(center, m[k])
    ensures k in AfterUpdate(m, center, terrain)
    ensures AfterUpdate(m, center, terrain)[k] == m[k]
         || AfterUpdate(m, center, terrain)[k] == m[k].Logged(GenerateMesh)
  {
    var kept := Evict(m, center);
    assert k in kept && k !in Missing(kept, center);
  }

  /** Newly resident chunks are the generator's output for their own
      coordinates, remeshed once. */
  lemma {:induction false} NewChunksGenerated(m: ChunkMap, center: Key, terrain: (int, int) -> map<Local, BlockId>, k: Key)
    requires k in AfterUpdate(m, center, terrain) && k !in Evict(m, center)
    ensures AfterUpdate(m, center, terrain)[k] == Generated(terrain, k).Logged(GenerateMesh)
  {
    var kept := Evict(m, center);
    assert k in Missing(kept, center);
  }

  /** A resident chunk is remeshed by `update` iff it was just generated or
      it survived eviction and is a 4-neighbour of a generated chunk. */
  lemma {:induction false} RemeshedExactly(m: ChunkMap, center: Key, terrain: (int, int) -> map<Local, BlockId>, k: Key)
    requires k in AfterUpdate(m, center, terrain)
    ensures var kept := Evict(m, center);
      var r := AfterUpdate(m, center, terrain)[k];
      var before := if k in kept then kept[k] else Generated(terrain, k);
      && (r == before || r == before.Logged(GenerateMesh))
      && (r == before.Logged(GenerateMesh) <==> k !in kept || AdjacentTo(k, Missing(kept, center)))
  {
    var kept := Evict(m, center);
    var joined := Joined(m, center, terrain);
    var before := if k in kept then kept[k] else Generated(terrain, k);
    assert joined[k] == before;
    if k !in kept {
      assert k in Missing(kept, center);
    }
    assert before.Logged(GenerateMesh) != before by {
      assert |before.Logged(GenerateMesh).meshLog| == |before.meshLog| + 1;
    }
  }

  /** Chunks keep the coordinates they are filed under. */
  lemma {:induction false} UpdateKeepsKeysMatch(m: ChunkMap, center: Key, terrain: (int, int) -> map<Local, BlockId>)
    requires KeysMatch(m)
    ensures KeysMatch(AfterUpdate(m, center, terrain))
  {
    var kept := Evict(m, center);
    forall k | k in AfterUpdate(m, center, terrain)
      ensures AfterUpdate(m, center, terrain)[k].x == k.0 && AfterUpdate(m, center, terrain)[k].z == k.1
    {
      if k !in kept {
        assert k in Missing(kept, center);
      }
    }
  }

  /** The chunk manager's invariant survives `update`, which also brings the
      residency bounds about. */
  lemma {:induction false} UpdateKeepsInvariant(m: ChunkMap, center: Key, terrain: (int, int) -> map<Local, BlockId>)
    requires KeysMatch(m) && NonNegative(m)
    ensures var r := AfterUpdate(m, center, terrain);
      KeysMatch(r) && NonNegative(r) && Streamed(r, center)
  {
    ResidentWithinFar(m, center, terrain);
    UpdateKeepsKeysMatch(m, center, terrain);
    NoNegativeChunk(m, center, terrain);
    forall i, j | InSight(center, i, j) && i >= 0 && j >= 0 ensures (i, j) in AfterUpdate(m, center, terrain) {
      WindowResident(m, center, terrain, i, j);
    }
  }

  /** A viewer at chunk (0, 0) facing an empty world: the first `update`
      makes exactly the chunks (0..8, 0..8) resident; chunk (-1, 0) is not
      generated, and neither is (9, 9). */
  lemma {:induction false} FirstUpdateAtOrigin(terrain: (int, int) -> map<Local, BlockId>)
    ensures AfterUpdate(map[], (0, 0), terrain).Keys == set a, b | 0 <= a <= 8 && 0 <= b <= 8 :: (a, b)
    ensures (-1, 0) !in AfterUpdate(map[], (0, 0), terrain)
    ensures (8, 8) in AfterUpdate(map[], (0, 0), terrain) && (9, 9) !in AfterUpdate(map[], (0, 0), terrain)
  {
    var r := AfterUpdate(map[], (0, 0), terrain);
    var window := set a, b | 0 <= a <= 8 && 0 <= b <= 8 :: (a, b);
    assert Evict(map[], (0, 0)) == map[];
    forall k ensures k in r <==> k in window {
      assert k in r <==> k in Missing(map[], (0, 0));
    }
  }
}
