/** Cutting a sequence at given places. */
module Cuts {

  /** Ascending from 0 to n, and in between exactly the places to cut at. */
  ghost predicate IsCuts(n: nat, cutAt: nat -> bool, cuts: seq<nat>) {
    && cuts != [] && cuts[0] == 0 && cuts[|cuts| - 1] == n
    && Ascending(cuts)
    && forall i: nat :: 0 < i < n ==> (i in cuts <==> cutAt(i))
  }

  predicate Ascending(cuts: seq<nat>) {
    forall k, l :: 0 <= k < l < |cuts| ==> cuts[k] < cuts[l]
  }

  predicate Within(n: nat, cuts: seq<nat>) {
    forall k :: 0 <= k < |cuts| ==> cuts[k] <= n
  }

  /** The stretches between neighbouring cuts. */
  function Stretches<T>(s: seq<T>, cuts: seq<nat>): (r: seq<seq<T>>)
    requires cuts != [] && Ascending(cuts) && Within(|s|, cuts)
  {
    if |cuts| == 1 then [] else [s[cuts[0]..cuts[1]]] + Stretches(s, cuts[1..])
  }

  lemma {:induction false} StretchAt<T>(s: seq<T>, cuts: seq<nat>, k: nat)
    requires cuts != [] && Ascending(cuts) && Within(|s|, cuts) && k + 1 < |cuts|
    ensures |Stretches(s, cuts)| == |cuts| - 1
    ensures Stretches(s, cuts)[k] == s[cuts[k]..cuts[k + 1]]
    decreases |cuts|
  {
    if |cuts| > 2 {
      StretchAt(s, cuts[1..], if k == 0 then 0 else k - 1);
    }
  }

  /** There are such cuts, for any places. */
  lemma {:induction false} CutsUpTo(n: nat, cutAt: nat -> bool) returns (cuts: seq<nat>)
    ensures IsCuts(n, cutAt, cuts) && Within(n, cuts)
  {
    if n == 0 {
      cuts := [0];
    } else {
      var before := CutsUpTo(n - 1, cutAt);
      if n - 1 == 0 || cutAt(n - 1) {
        cuts := before + [n];
      } else {
        cuts := before[..|before| - 1] + [n];
        assert forall i: nat :: 0 < i < n - 1 ==> (i in before <==> i in before[..|before| - 1]);
      }
    }
  }

  lemma CutsAreWithin(n: nat, cutAt: nat -> bool, cuts: seq<nat>)
    requires IsCuts(n, cutAt, cuts)
    ensures Within(n, cuts)
  {
  }

  /** The same stretches found from left to right: from the last cut c on, looking at place i. */
  function StretchesFrom<T>(s: seq<T>, cutAt: nat -> bool, c: nat, i: nat): seq<seq<T>>
    requires c <= i <= |s|
    decreases |s| - i
  {
    if i == |s| then if c < |s| then [s[c..]] else []
    else if c < i && cutAt(i) then [s[c..i]] + StretchesFrom(s, cutAt, i, i + 1)
    else StretchesFrom(s, cutAt, c, i + 1)
  }

  lemma {:induction false} NoCutBetween<T>(s: seq<T>, cutAt: nat -> bool, c: nat, i: nat, j: nat)
    requires c <= i <= j <= |s| && forall k: nat :: i <= k < j ==> k == c || !cutAt(k)
    ensures StretchesFrom(s, cutAt, c, i) == StretchesFrom(s, cutAt, c, j)
    decreases j - i
  {
    if i < j {
      NoCutBetween(s, cutAt, c, i + 1, j);
    }
  }

  lemma CutHere<T>(s: seq<T>, cutAt: nat -> bool, c: nat, i: nat)
    requires c < i < |s| && cutAt(i)
    ensures StretchesFrom(s, cutAt, c, i) == [s[c..i]] + StretchesFrom(s, cutAt, i, i + 1)
  {
  }

  lemma OnlyTheLast(cuts: seq<nat>, k: nat)
    requires Ascending(cuts) && k < |cuts| && cuts[k] == cuts[|cuts| - 1]
    ensures k == |cuts| - 1
  {
  }

  /** From cut number k on. */
  lemma {:induction false} StretchesFromCut<T>(s: seq<T>, cutAt: nat -> bool, cuts: seq<nat>, k: nat)
    requires IsCuts(|s|, cutAt, cuts) && Within(|s|, cuts) && k < |cuts|
    ensures StretchesFrom(s, cutAt, cuts[k], cuts[k]) == Stretches(s, cuts[k..])
    decreases |cuts| - k
  {
    if k + 1 < |cuts| {
      var c, next := cuts[k], cuts[k + 1];
      StretchesFromCut(s, cutAt, cuts, k + 1);
      NoneBetween(|s|, cutAt, cuts, k);
      NoCutBetween(s, cutAt, c, c, next);
      assert cuts[k..][1..] == cuts[k + 1..];
      if next < |s| {
        assert next in cuts && cutAt(next);
        assert StretchesFrom(s, cutAt, c, next) == [s[c..next]] + StretchesFrom(s, cutAt, next, next + 1);
      } else {
        OnlyTheLast(cuts, k + 1);
        assert |cuts[k..]| == 2 && |cuts[k + 1..]| == 1;
        assert Stretches(s, cuts[k..]) == [s[c..next]] + [];
        assert s[c..next] == s[c..];
      }
    }
  }

  lemma NoneBetween(n: nat, cutAt: nat -> bool, cuts: seq<nat>, k: nat)
    requires IsCuts(n, cutAt, cuts) && k + 1 < |cuts|
    ensures forall i: nat :: cuts[k] < i < cuts[k + 1] ==> !cutAt(i)
  {
    CutsAreWithin(n, cutAt, cuts);
    forall i: nat | cuts[k] < i < cuts[k + 1] ensures !cutAt(i) {
      assert forall l :: 0 <= l < |cuts| ==> cuts[l] != i;
    }
  }

  lemma StretchesAreFound<T>(s: seq<T>, cutAt: nat -> bool, cuts: seq<nat>)
    requires IsCuts(|s|, cutAt, cuts) && Within(|s|, cuts)
    ensures StretchesFrom(s, cutAt, 0, 0) == Stretches(s, cuts)
  {
    StretchesFromCut(s, cutAt, cuts, 0);
    assert cuts[0..] == cuts;
  }
}
