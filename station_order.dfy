/**
 * The row order of the generation report in scrapers/niggrid_scraper.py:
 * the title-cased master list in its own order, then the stations that
 * were scraped but are not on it, sorted in place.
 */
module StationOrder {
  import opened Strings
  import opened NigGrid

  /** `[x.title() for x in GENCO_MASTER_LIST]`. */
  function KnownStations(): (known: seq<string>)
    ensures |known| == |GencoMasterList|
    ensures forall i :: 0 <= i < |known| ==> known[i] == Title(GencoMasterList[i])
  {
    seq(|GencoMasterList|, i requires 0 <= i < |GencoMasterList| => Title(GencoMasterList[i]))
  }

  /** `[s for s in captured if s not in known]`. */
  function NewStations(known: seq<string>, captured: seq<string>): (added: seq<string>)
    ensures forall s :: s in added <==> s in captured && s !in known
    decreases |captured|
  {
    if captured == [] then []
    else (if captured[0] in known then [] else [captured[0]]) + NewStations(known, captured[1..])
  }

  /** Each station is kept as often as it was captured, unless it is known. */
  lemma {:induction false} NewStationsCount(known: seq<string>, captured: seq<string>, s: string)
    ensures multiset(NewStations(known, captured))[s] == if s in known then 0 else multiset(captured)[s]
    decreases |captured|
  {
    if captured != [] {
      NewStationsCount(known, captured[1..], s);
      var head := if captured[0] in known then [] else [captured[0]];
      assert NewStations(known, captured) == head + NewStations(known, captured[1..]);
      assert multiset(NewStations(known, captured)) == multiset(head) + multiset(NewStations(known, captured[1..]));
      assert captured == [captured[0]] + captured[1..];
      assert multiset(captured) == multiset([captured[0]]) + multiset(captured[1..]);
    }
  }

  // ------------------------------------------------------------------ order

  /** Neighbours are in order. */
  predicate Ordered(s: seq<string>) {
    forall i :: 0 < i < |s| ==> LessEq(s[i - 1], s[i])
  }

  /** Every pair is in order. */
  predicate Sorted(s: seq<string>) {
    forall i, j :: 0 <= i < j < |s| ==> LessEq(s[i], s[j])
  }

  /** Ordered neighbours make a sorted sequence. */
  lemma {:induction false} OrderedIsSorted(s: seq<string>)
    requires Ordered(s)
    ensures Sorted(s)
    decreases |s|
  {
    if |s| > 1 {
      var init := s[..|s| - 1];
      assert Ordered(init);
      OrderedIsSorted(init);
      forall i | 0 <= i < |s| - 1
        ensures LessEq(s[i], s[|s| - 1])
      {
        if i < |s| - 2 {
          assert LessEq(init[i], init[|s| - 2]);
          LessEqTransitive(s[i], s[|s| - 2], s[|s| - 1]);
        }
      }
    }
  }

  /** Two sorted arrangements of the same stations are the same: the order
      the sort produces is fully determined. */
  lemma {:induction false} SortedUnique(a: seq<string>, b: seq<string>)
    requires Sorted(a) && Sorted(b) && multiset(a) == multiset(b)
    ensures a == b
    decreases |a|
  {
    if a != [] {
      assert |b| == |multiset(b)| == |a|;
      SameHead(a, b);
      SortedTail(a);
      SortedTail(b);
      assert a == [a[0]] + a[1..] && b == [b[0]] + b[1..];
      assert multiset(a) == multiset{a[0]} + multiset(a[1..]);
      assert multiset(b) == multiset{b[0]} + multiset(b[1..]);
      assert multiset(a[1..]) == multiset(a) - multiset{a[0]};
      assert multiset(b[1..]) == multiset(b) - multiset{b[0]};
      SortedUnique(a[1..], b[1..]);
    }
  }

  /** Two sorted arrangements of the same stations start alike. */
  lemma SameHead(a: seq<string>, b: seq<string>)
    requires Sorted(a) && Sorted(b) && multiset(a) == multiset(b)
    requires a != [] && b != []
    ensures a[0] == b[0]
  {
    assert a[0] in multiset(b) && b[0] in multiset(a);
    assert a[0] in b && b[0] in a;
    var i :| 0 <= i < |b| && b[i] == a[0];
    var j :| 0 <= j < |a| && a[j] == b[0];
    SortedFirst(b, i);
    SortedFirst(a, j);
    LessEqAntisymmetric(a[0], b[0]);
  }

  /** What follows the head of a sorted sequence is sorted. */
  lemma SortedTail(s: seq<string>)
    requires Sorted(s) && s != []
    ensures Sorted(s[1..])
  {
    var t := s[1..];
    forall i, j | 0 <= i < j < |t|
      ensures LessEq(t[i], t[j])
    {
      assert t[i] == s[i + 1] && t[j] == s[j + 1];
    }
  }

  /** The head of a sorted sequence comes before every element. */
  lemma SortedFirst(s: seq<string>, i: nat)
    requires Sorted(s) && i < |s|
    ensures LessEq(s[0], s[i])
  {
    if i == 0 {
      LessEqReflexive(s[0]);
    }
  }

  /** One swap of the insertion: the element at `j` moves below its
      neighbour, and the two ordered runs stay ordered around it. */
  lemma SwapDown(s: seq<string>, j: nat, i: nat)
    requires 0 < j <= i < |s|
    requires Ordered(s[..j]) && Ordered(s[j..i + 1])
    requires j < i ==> LessEq(s[j - 1], s[j + 1])
    requires !LessEq(s[j - 1], s[j])
    ensures Ordered(s[j - 1 := s[j]][j := s[j - 1]][..j - 1])
    ensures Ordered(s[j - 1 := s[j]][j := s[j - 1]][j - 1..i + 1])
    ensures 1 < j ==> LessEq(s[j - 1 := s[j]][j := s[j - 1]][j - 2], s[j - 1 := s[j]][j := s[j - 1]][j])
    ensures multiset(s[j - 1 := s[j]][j := s[j - 1]]) == multiset(s)
  {
    var t := s[j - 1 := s[j]][j := s[j - 1]];
    LessEqTotal(s[j - 1], s[j]);
    assert t[..j - 1] == s[..j - 1];
    var run, old_run := t[j - 1..i + 1], s[j..i + 1];
    forall k | 0 < k < |run|
      ensures LessEq(run[k - 1], run[k])
    {
      if k > 2 {
        assert run[k - 1] == old_run[k - 2] && run[k] == old_run[k - 1];
      }
    }
    if 1 < j {
      assert s[..j][j - 2] == t[j - 2] && s[..j][j - 1] == t[j];
    }
  }

  /** Where the insertion stops, the two runs join into one. */
  lemma Joined(s: seq<string>, j: nat, i: nat)
    requires j <= i < |s|
    requires Ordered(s[..j]) && Ordered(s[j..i + 1])
    requires 0 < j ==> LessEq(s[j - 1], s[j])
    ensures Ordered(s[..i + 1])
  {
    var whole, left, right := s[..i + 1], s[..j], s[j..i + 1];
    forall k | 0 < k < |whole|
      ensures LessEq(whole[k - 1], whole[k])
    {
      if k < j {
        assert whole[k - 1] == left[k - 1] && whole[k] == left[k];
      } else if k > j {
        assert whole[k - 1] == right[k - 1 - j] && whole[k] == right[k - j];
      }
    }
  }

  /** `list.sort()`: the stations in place, in ascending order. */
  method SortInPlace(a: array<string>)
    modifies a
    ensures Ordered(a[..])
    ensures multiset(a[..]) == multiset(old(a[..]))
  {
    if a.Length == 0 {
      return;
    }
    var i := 1;
    while i < a.Length
      invariant 1 <= i <= a.Length
      invariant Ordered(a[..i])
      invariant multiset(a[..]) == multiset(old(a[..]))
    {
      Insert(a, i);
      i := i + 1;
    }
    assert a[..] == a[..a.Length];
  }

  /** One pass of the insertion sort: the station at `i` is swapped down
      into the ordered run before it. */
  method Insert(a: array<string>, i: nat)
    requires 0 < i < a.Length && Ordered(a[..i])
    modifies a
    ensures Ordered(a[..i + 1])
    ensures multiset(a[..]) == multiset(old(a[..]))
  {
    var j := i;
    while j > 0 && !LessEq(a[j - 1], a[j])
      invariant 0 <= j <= i
      invariant Ordered(a[..j]) && Ordered(a[j..i + 1])
      invariant 0 < j < i ==> LessEq(a[j - 1], a[j + 1])
      invariant multiset(a[..]) == multiset(old(a[..]))
    {
      ghost var s := a[..];
      SwapDown(s, j, i);
      a[j - 1], a[j] := a[j], a[j - 1];
      assert a[..] == s[j - 1 := s[j]][j := s[j - 1]];
      j := j - 1;
    }
    Joined(a[..], j, i);
  }

  /** The report's row order: the known stations, then the new ones sorted. */
  method FinalOrder(known: seq<string>, captured: seq<string>) returns (order: seq<string>)
    ensures |known| <= |order| && order[..|known|] == known
    ensures Sorted(order[|known|..])
    ensures multiset(order[|known|..]) == multiset(NewStations(known, captured))
  {
    var added := NewStations(known, captured);
    var a := new string[|added|](i requires 0 <= i < |added| => added[i]);
    assert a[..] == added;
    SortInPlace(a);
    OrderedIsSorted(a[..]);
    order := known + a[..];
    assert order[..|known|] == known && order[|known|..] == a[..];
  }

  /** The report's row order, as a value: the one arrangement `FinalOrder`
      can return. */
  lemma FinalOrderDetermined(known: seq<string>, captured: seq<string>, o1: seq<string>, o2: seq<string>)
    requires |known| <= |o1| && o1[..|known|] == known && Sorted(o1[|known|..])
    requires multiset(o1[|known|..]) == multiset(NewStations(known, captured))
    requires |known| <= |o2| && o2[..|known|] == known && Sorted(o2[|known|..])
    requires multiset(o2[|known|..]) == multiset(NewStations(known, captured))
    ensures o1 == o2
  {
    SortedUnique(o1[|known|..], o2[|known|..]);
    assert o1 == o1[..|known|] + o1[|known|..];
    assert o2 == o2[..|known|] + o2[|known|..];
  }

  /** With the known names distinct and each station captured once (as the
      rows of a pivot table are), every captured station appears in the
      order exactly once. */
  lemma EachStationOnce(known: seq<string>, captured: seq<string>, order: seq<string>, s: string)
    requires |known| <= |order| && order[..|known|] == known
    requires multiset(order[|known|..]) == multiset(NewStations(known, captured))
    requires forall i, j :: 0 <= i < j < |known| ==> known[i] != known[j]
    requires forall i, j :: 0 <= i < j < |captured| ==> captured[i] != captured[j]
    requires s in captured
    ensures multiset(order)[s] == 1
  {
    assert order == known + order[|known|..];
    NewStationsCount(known, captured, s);
    DistinctOnce(captured, s);
    if s in known {
      DistinctOnce(known, s);
    } else {
      assert multiset(known)[s] == 0;
    }
  }

  /** A station of a list without repeats occurs in it once. */
  lemma {:induction false} DistinctOnce(xs: seq<string>, s: string)
    requires forall i, j :: 0 <= i < j < |xs| ==> xs[i] != xs[j]
    requires s in xs
    ensures multiset(xs)[s] == 1
    decreases |xs|
  {
    assert xs == [xs[0]] + xs[1..];
    if xs[0] == s {
      assert s !in xs[1..];
    } else {
      DistinctOnce(xs[1..], s);
    }
  }
}
