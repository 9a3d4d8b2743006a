/** What every module uses. */
module Prelude {
  datatype Option<+T> = None | Some(value: T)

  /** A truth value as a number to sum up. */
  function One(b: bool): (n: nat) { if b then 1 else 0 }

  // ---- positions picked out of a list, in order ----

  ghost predicate Increasing(idx: seq<nat>) { forall j, k | 0 <= j < k < |idx| :: idx[j] < idx[k] }

  function Shifted(idx: seq<nat>): (r: seq<nat>)
    ensures |r| == |idx| && forall k | 0 <= k < |idx| :: r[k] == idx[k] + 1
  {
    seq(|idx|, k requires 0 <= k < |idx| => idx[k] + 1)
  }

  lemma ShiftedMember(idx: seq<nat>, i: nat)
    ensures i in Shifted(idx) <==> 0 < i && i - 1 in idx
  {
    if 0 < i && i - 1 in idx {
      var k :| 0 <= k < |idx| && idx[k] == i - 1;
      assert Shifted(idx)[k] == i;
    }
  }

  lemma IncreasingNext(idx: seq<nat>)
    requires Increasing(idx)
    ensures Increasing(Shifted(idx)) && Increasing([0] + Shifted(idx))
  {
  }

  lemma PickNext(idx: seq<nat>, n: nat)
    requires Increasing(idx) && forall k | 0 <= k < |idx| :: idx[k] < n
    ensures Increasing(idx + [n]) && n !in idx
    ensures forall i: nat :: i in idx + [n] <==> i in idx || i == n
  {
  }

  lemma NonePicked()
    ensures Increasing([])
  {
  }
}
