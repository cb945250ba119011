/** Sums of natural numbers, used for the damage and energy accounts. */
module Sums {

  ghost function Sum(s: seq<nat>): nat {
    if s == [] then 0 else s[0] + Sum(s[1..])
  }

  lemma {:induction false} SumUpdate(s: seq<nat>, i: nat, v: nat)
    requires i < |s|
    ensures Sum(s[i := v]) + s[i] == Sum(s) + v
  {
    if i == 0 {
      assert s[0 := v][1..] == s[1..];
    } else {
      assert s[i := v][1..] == s[1..][i - 1 := v];
      SumUpdate(s[1..], i - 1, v);
    }
  }

  lemma {:induction false} SumAppend(s: seq<nat>, v: nat)
    ensures Sum(s + [v]) == Sum(s) + v
  {
    if s != [] {
      assert (s + [v])[1..] == s[1..] + [v];
      SumAppend(s[1..], v);
    }
  }

  /** The sum follows a change in one place. */
  lemma SumOneChange(a: seq<nat>, b: seq<nat>, i: nat)
    requires |a| == |b| && i < |a|
    requires forall j :: 0 <= j < |a| && j != i ==> a[j] == b[j]
    ensures Sum(b) + a[i] == Sum(a) + b[i]
  {
    assert b == a[i := b[i]];
    SumUpdate(a, i, b[i]);
  }
}
