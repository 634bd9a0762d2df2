/** Particle emitters as the scene sees them: a block-debris emitter carries
    the position and id of the destroyed block and a live particle count.
    The particle physics is a parameter `advance`, the particle count an
    emitter has after being advanced by an elapsed time. */
module Emitters {
  import opened Chunks

  datatype Emitter = Debris(x: int, y: int, z: int, blockId: BlockId, particles: nat)

  /** `emitter.update(elapsedTime)`: the emitter with its particle count
      replaced by what the physics leaves alive. */
  function Advanced(e: Emitter, advance: (Emitter, int) -> nat, t: int): (r: Emitter)
    ensures r.particles == advance(e, t)
    ensures r.(particles := e.particles) == e
  {
    e.(particles := advance(e, t))
  }

  /** The list `Scene.update` leaves behind: every emitter advanced once, in
      list order, and those left with no particles dropped. */
  function Survivors(es: seq<Emitter>, advance: (Emitter, int) -> nat, t: int): (r: seq<Emitter>)
    ensures |r| <= |es|
    ensures forall i :: 0 <= i < |r| ==> r[i].particles > 0
  {
    if es == [] then []
    else
      var a := Advanced(es[0], advance, t);
      (if a.particles > 0 then [a] else []) + Survivors(es[1..], advance, t)
  }

  /** Filtering distributes over concatenation: the survivors of a list keep
      the order of the list. */
  lemma {:induction false} SurvivorsAppend(a: seq<Emitter>, b: seq<Emitter>, advance: (Emitter, int) -> nat, t: int)
    ensures Survivors(a + b, advance, t) == Survivors(a, advance, t) + Survivors(b, advance, t)
    decreases |a|
  {
    if a == [] {
      assert a + b == b;
    } else {
      assert (a + b)[1..] == a[1..] + b;
      SurvivorsAppend(a[1..], b, advance, t);
    }
  }

  /** An emitter survives exactly when some emitter of the list, once
      advanced, is that emitter and still has particles. */
  lemma {:induction false} SurvivorsExactly(es: seq<Emitter>, advance: (Emitter, int) -> nat, t: int, e: Emitter)
    ensures e in Survivors(es, advance, t) <==>
      exists i :: 0 <= i < |es| && Advanced(es[i], advance, t) == e && e.particles > 0
    decreases |es|
  {
    if es != [] {
      SurvivorsExactly(es[1..], advance, t, e);
      if e in Survivors(es[1..], advance, t) {
        var i :| 0 <= i < |es[1..]| && Advanced(es[1..][i], advance, t) == e && e.particles > 0;
        assert es[i + 1] == es[1..][i];
      }
      if exists i :: 0 <= i < |es| && Advanced(es[i], advance, t) == e && e.particles > 0 {
        var i :| 0 <= i < |es| && Advanced(es[i], advance, t) == e && e.particles > 0;
        if i > 0 {
          assert es[1..][i - 1] == es[i];
        }
      }
    }
  }

  /** When every emitter still has particles after advancing, nothing is
      dropped: the result is the whole list advanced, position by position. */
  lemma {:induction false} AllLiveKeepsAll(es: seq<Emitter>, advance: (Emitter, int) -> nat, t: int)
    requires forall i :: 0 <= i < |es| ==> advance(es[i], t) > 0
    ensures |Survivors(es, advance, t)| == |es|
    ensures forall i :: 0 <= i < |es| ==> Survivors(es, advance, t)[i] == Advanced(es[i], advance, t)
    decreases |es|
  {
    if es != [] {
      AllLiveKeepsAll(es[1..], advance, t);
      var r := Survivors(es, advance, t);
      forall i | 0 <= i < |es|
        ensures r[i] == Advanced(es[i], advance, t)
      {
        if i > 0 {
          assert es[1..][i - 1] == es[i];
        }
      }
    }
  }

  /** An emitter left without particles after advancing is always dropped:
      the list shrinks by at least one. */
  lemma {:induction false} DeadEmitterDropped(es: seq<Emitter>, advance: (Emitter, int) -> nat, t: int, i: int)
    requires 0 <= i < |es| && advance(es[i], t) == 0
    ensures |Survivors(es, advance, t)| < |es|
    decreases |es|
  {
    if i > 0 {
      DeadEmitterDropped(es[1..], advance, t, i - 1);
    }
  }
}
