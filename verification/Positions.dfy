/** Positions picked out of a sequence, in order. */
module Positions {
  /** Positions below n, each once and in order. */
  ghost predicate Ascending(at: seq<nat>, n: nat) {
    && (forall k :: 0 <= k < |at| ==> at[k] < n)
    && (forall k, l :: 0 <= k < l < |at| ==> at[k] < at[l])
  }

  function ShiftUp(at: seq<nat>): (up: seq<nat>)
    ensures |up| == |at| && forall i :: 0 <= i < |at| ==> up[i] == at[i] + 1
  {
    seq(|at|, i requires 0 <= i < |at| => at[i] + 1)
  }

  /** The positions in a sequence with one element more in front, which is picked or not. */
  function InFront(here: bool, at: seq<nat>): seq<nat> { (if here then [0] else []) + ShiftUp(at) }

  lemma InFrontAscends(here: bool, at: seq<nat>, n: nat)
    requires Ascending(at, n)
    ensures Ascending(InFront(here, at), n + 1)
    ensures forall i: nat :: i in InFront(here, at) <==> if i == 0 then here else i - 1 in at
  {
    var up := ShiftUp(at);
    forall i: nat | i > 0 ensures i in up <==> i - 1 in at {
      if i - 1 in at {
        var k :| 0 <= k < |at| && at[k] == i - 1;
        assert up[k] == i;
      }
      if i in up {
        var k :| 0 <= k < |up| && up[k] == i;
        assert at[k] == i - 1;
      }
    }
    assert 0 !in up;
  }

  /** The picked elements, in order. */
  ghost predicate Picks<T>(picked: seq<T>, all: seq<T>, at: seq<nat>) {
    |picked| == |at| && forall k :: 0 <= k < |at| ==> at[k] < |all| && picked[k] == all[at[k]]
  }

  lemma NothingPicked<T>()
    ensures Ascending([], 0) && Picks<T>([], [], [])
  {}

  lemma InFrontPicks<T>(here: bool, picked: seq<T>, all: seq<T>, at: seq<nat>)
    requires all != [] && Picks(picked, all[1..], at)
    ensures Picks((if here then [all[0]] else []) + picked, all, InFront(here, at))
  {}
}
