/**
 * Ordered first-match search. Every lookup in the modelled scrapers is a
 * `for` loop over a fixed list that returns at the first entry satisfying a
 * test; this module gives that loop one definition and its meaning.
 */
module Search {
  import opened Wrappers

  /** The index of the first element of `xs` satisfying `p`, if any. */
  function FirstWhere<T>(xs: seq<T>, p: T -> bool): (r: Option<nat>)
    ensures r.Some? ==> r.value < |xs| && p(xs[r.value])
    ensures r.Some? ==> forall j :: 0 <= j < r.value ==> !p(xs[j])
    ensures r.None? ==> forall j :: 0 <= j < |xs| ==> !p(xs[j])
    decreases |xs|
  {
    if xs == [] then None
    else if p(xs[0]) then Some(0)
    else match FirstWhere(xs[1..], p)
      case None => None
      case Some(k) => Some(k + 1)
  }

  /** The first match is determined by where `p` first holds. */
  lemma FirstWhereAt<T>(xs: seq<T>, p: T -> bool, k: nat)
    requires k < |xs| && p(xs[k])
    requires forall j :: 0 <= j < k ==> !p(xs[j])
    ensures FirstWhere(xs, p) == Some(k)
  {
  }

  /** A match at `k` means the first match is at `k` or before. */
  lemma FirstWhereAtMost<T>(xs: seq<T>, p: T -> bool, k: nat)
    requires k < |xs| && p(xs[k])
    ensures FirstWhere(xs, p).Some? && FirstWhere(xs, p).value <= k
  {
  }

  /** `[f(x) for x in xs if keep(x)]`. */
  function KeepMap<T, U>(xs: seq<T>, keep: T -> bool, f: T -> U): (ys: seq<U>)
    ensures |ys| <= |xs|
    decreases |xs|
  {
    if xs == [] then []
    else (if keep(xs[0]) then [f(xs[0])] else []) + KeepMap(xs[1..], keep, f)
  }

  /** Every element that passes the test is kept, mapped. */
  lemma {:induction false} KeepMapKeeps<T, U>(xs: seq<T>, keep: T -> bool, f: T -> U, k: nat)
    requires k < |xs| && keep(xs[k])
    ensures f(xs[k]) in KeepMap(xs, keep, f)
    decreases |xs|
  {
    if k > 0 {
      assert xs[1..][k - 1] == xs[k];
      KeepMapKeeps(xs[1..], keep, f, k - 1);
    }
  }

  /** Every kept element comes, mapped, from one that passes the test. */
  lemma {:induction false} KeepMapFrom<T, U>(xs: seq<T>, keep: T -> bool, f: T -> U, y: U) returns (k: nat)
    requires y in KeepMap(xs, keep, f)
    ensures k < |xs| && keep(xs[k]) && y == f(xs[k])
    decreases |xs|
  {
    if keep(xs[0]) && y == f(xs[0]) {
      k := 0;
    } else {
      var k' := KeepMapFrom(xs[1..], keep, f, y);
      k := k' + 1;
    }
  }
}
