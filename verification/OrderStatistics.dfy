/** Sorted sequences, the median both ends of the fleet use, and how far it resists outliers. */
module OrderStatistics {
  import opened Wrappers

  predicate Ascending(s: seq<real>) {
    forall i, j :: 0 <= i < j < |s| ==> s[i] <= s[j]
  }

  function Insert(x: real, s: seq<real>): (r: seq<real>)
    ensures multiset(r) == multiset{x} + multiset(s)
  {
    if s == [] then [x]
    else if x <= s[0] then [x] + s
    else
      assert s == [s[0]] + s[1..];
      [s[0]] + Insert(x, s[1..])
  }

  lemma {:induction false} InsertAscends(x: real, s: seq<real>)
    requires Ascending(s)
    ensures Ascending(Insert(x, s))
  {
    if s != [] && s[0] < x {
      InsertAscends(x, s[1..]);
      var rest := Insert(x, s[1..]);
      forall i | 0 <= i < |rest| ensures s[0] <= rest[i] {
        assert rest[i] in multiset(rest);
        assert rest[i] == x || rest[i] in s[1..];
      }
    }
  }

  /** The reference order: what every sort and every selection in the source refines. */
  function Sort(s: seq<real>): (r: seq<real>)
    ensures multiset(r) == multiset(s)
    ensures |r| == |s|
  {
    if s == [] then []
    else
      assert s == [s[0]] + s[1..];
      var r := Insert(s[0], Sort(s[1..]));
      assert |multiset(r)| == |multiset(s)|;
      r
  }

  lemma {:induction false} SortAscends(s: seq<real>)
    ensures Ascending(Sort(s))
  {
    if s != [] {
      SortAscends(s[1..]);
      InsertAscends(s[0], Sort(s[1..]));
    }
  }

  lemma SameLength(a: seq<real>, b: seq<real>)
    requires multiset(a) == multiset(b)
    ensures |a| == |b|
  {
    assert |multiset(a)| == |multiset(b)|;
  }

  lemma HeadIsLeast(a: seq<real>, b: seq<real>)
    requires Ascending(a) && multiset(a) == multiset(b) && b != [] && a != []
    ensures a[0] <= b[0]
  {
    assert b[0] in multiset(a);
  }

  lemma TailsMatch(a: seq<real>, b: seq<real>)
    requires a != [] && b != [] && a[0] == b[0] && multiset(a) == multiset(b)
    ensures multiset(a[1..]) == multiset(b[1..])
  {
    assert a == [a[0]] + a[1..] && b == [b[0]] + b[1..];
    assert multiset(a[1..]) == multiset(a) - multiset{a[0]};
    assert multiset(b[1..]) == multiset(b) - multiset{b[0]};
  }

  /** A multiset has one ascending arrangement, so any correct sort agrees with `Sort`. */
  lemma {:induction false} AscendingIsUnique(a: seq<real>, b: seq<real>)
    requires Ascending(a) && Ascending(b) && multiset(a) == multiset(b)
    ensures a == b
  {
    SameLength(a, b);
    if a != [] {
      HeadIsLeast(a, b);
      HeadIsLeast(b, a);
      TailsMatch(a, b);
      AscendingIsUnique(a[1..], b[1..]);
      assert a == [a[0]] + a[1..] && b == [b[0]] + b[1..];
    }
  }

  lemma SortIgnoresOrder(a: seq<real>, b: seq<real>)
    requires multiset(a) == multiset(b)
    ensures Sort(a) == Sort(b)
  {
    SortAscends(a);
    SortAscends(b);
    AscendingIsUnique(Sort(a), Sort(b));
  }

  /** The middle value, or the midpoint of the middle pair. */
  function Middle(sorted: seq<real>): real
    requires sorted != []
  {
    var m := |sorted| / 2;
    if |sorted| % 2 == 1 then sorted[m] else (sorted[m - 1] + sorted[m]) / 2.0
  }

  /** The median of a set of values: the middle of its ascending arrangement. */
  function MedianOf(s: seq<real>): Option<real> {
    if s == [] then None else Some(Middle(Sort(s)))
  }

  /** Twice the middle is the sum of the two values as far from either end, which are one for an odd count. */
  lemma MiddleIsHalfway(sorted: seq<real>)
    requires sorted != []
    ensures Middle(sorted) + Middle(sorted) == sorted[(|sorted| - 1) / 2] + sorted[|sorted| - 1 - (|sorted| - 1) / 2]
  {
  }

  lemma MedianIgnoresOrder(a: seq<real>, b: seq<real>)
    requires multiset(a) == multiset(b)
    ensures MedianOf(a) == MedianOf(b)
  {
    SameLength(a, b);
    SortIgnoresOrder(a, b);
  }

  predicate SplitAt(s: seq<real>, k: nat)
    requires k < |s|
  {
    && (forall i :: 0 <= i < k ==> s[i] <= s[k])
    && (forall i :: k < i < |s| ==> s[k] <= s[i])
  }

  function Greatest(s: seq<real>): (r: real)
    requires s != []
    ensures r in s && forall x :: x in s ==> x <= r
  {
    if |s| == 1 then s[0]
    else
      assert s == s[..|s| - 1] + [s[|s| - 1]];
      var rest := Greatest(s[..|s| - 1]);
      if rest < s[|s| - 1] then s[|s| - 1] else rest
  }

  lemma Ascends3(a: seq<real>, x: real, b: seq<real>)
    requires Ascending(a) && Ascending(b)
    requires forall i :: 0 <= i < |a| ==> a[i] <= x
    requires forall i :: 0 <= i < |b| ==> x <= b[i]
    ensures Ascending(a + [x] + b)
  {
  }

  lemma SameMembers(a: seq<real>, b: seq<real>, x: real)
    requires multiset(a) == multiset(b) && x in a
    ensures x in b
  {
    assert x in multiset(a);
  }

  lemma Regroup(s: seq<real>, k: nat, below: seq<real>, above: seq<real>)
    requires k < |s| && multiset(below) == multiset(s[..k]) && multiset(above) == multiset(s[k + 1..])
    ensures multiset(below + [s[k]] + above) == multiset(s)
  {
    assert s == s[..k] + [s[k]] + s[k + 1..];
  }

  /** Sorting around a split: the part below, the split value, the part above. */
  lemma SortAroundSplit(s: seq<real>, k: nat)
    requires k < |s| && SplitAt(s, k)
    ensures Sort(s) == Sort(s[..k]) + [s[k]] + Sort(s[k + 1..])
  {
    var below, above := Sort(s[..k]), Sort(s[k + 1..]);
    assert Ascending(below + [s[k]] + above) by {
      SortAscends(s[..k]);
      SortAscends(s[k + 1..]);
      forall i | 0 <= i < |below| ensures below[i] <= s[k] {
        SameMembers(below, s[..k], below[i]);
      }
      forall i | 0 <= i < |above| ensures s[k] <= above[i] {
        SameMembers(above, s[k + 1..], above[i]);
      }
      Ascends3(below, s[k], above);
    }
    Regroup(s, k, below, above);
    SortAscends(s);
    AscendingIsUnique(below + [s[k]] + above, Sort(s));
  }

  lemma LastIsGreatest(sorted: seq<real>, s: seq<real>)
    requires s != [] && Ascending(sorted) && |sorted| == |s| && multiset(sorted) == multiset(s)
    ensures sorted[|s| - 1] == Greatest(s)
  {
    SameMembers(s, sorted, Greatest(s));
    SameMembers(sorted, s, sorted[|s| - 1]);
  }

  lemma LastOfSort(s: seq<real>)
    requires s != []
    ensures Sort(s)[|s| - 1] == Greatest(s)
  {
    SortAscends(s);
    LastIsGreatest(Sort(s), s);
  }

  /** Splitting at `k` pins rank `k`, and the greatest value below it is rank `k - 1`. */
  lemma SplitPinsRanks(s: seq<real>, k: nat)
    requires k < |s| && SplitAt(s, k)
    ensures Sort(s)[k] == s[k]
    ensures k > 0 ==> Sort(s)[k - 1] == Greatest(s[..k])
  {
    SortAroundSplit(s, k);
    if k > 0 {
      LastOfSort(s[..k]);
    }
  }

  lemma SwapKeepsValues(s: seq<real>, i: nat, j: nat)
    requires i <= j < |s|
    ensures multiset(s[i := s[j]][j := s[i]]) == multiset(s)
  {
  }

  /** Where the least value from `place` on sits. */
  method LeastFrom(values: array<real>, place: nat) returns (least: nat)
    requires place < values.Length
    ensures place <= least < values.Length
    ensures forall j :: place <= j < values.Length ==> values[least] <= values[j]
  {
    least := place;
    for i := place + 1 to values.Length
      invariant place <= least < values.Length
      invariant forall j :: place <= j < i ==> values[least] <= values[j]
    {
      if values[i] < values[least] {
        least := i;
      }
    }
  }

  ghost predicate SettledBelow(s: seq<real>, place: nat) {
    forall i, j :: 0 <= i < place && i < j < |s| ==> s[i] <= s[j]
  }

  lemma SettleOne(s: seq<real>, place: nat, least: nat)
    requires place <= least < |s| && SettledBelow(s, place)
    requires forall j :: place <= j < |s| ==> s[least] <= s[j]
    ensures SettledBelow(s[place := s[least]][least := s[place]], place + 1)
  {
  }

  /** Stands for the standard library's in-place selection: rank `k` moves to place `k`. */
  method SelectNth(values: array<real>, k: nat)
    requires k < values.Length
    modifies values
    ensures multiset(values[..]) == multiset(old(values[..]))
    ensures SplitAt(values[..], k)
  {
    for place := 0 to k + 1
      invariant multiset(values[..]) == multiset(old(values[..]))
      invariant SettledBelow(values[..], place)
    {
      ghost var before := values[..];
      var least := LeastFrom(values, place);
      values[place], values[least] := values[least], values[place];
      assert values[..] == before[place := before[least]][least := before[place]];
      SwapKeepsValues(before, place, least);
      SettleOne(before, place, least);
    }
  }

  /** The fold over the part below the selected rank. */
  method GreatestBelow(values: array<real>, k: nat) returns (lower: real)
    requires 0 < k <= values.Length
    ensures lower == Greatest(values[..k])
  {
    lower := values[0];
    for i := 1 to k
      invariant lower == Greatest(values[..i])
    {
      assert values[..i + 1][..i] == values[..i];
      if lower < values[i] {
        lower := values[i];
      }
    }
  }

  lemma MiddleFromRanks(sorted: seq<real>, upper: real, lower: real)
    requires sorted != [] && sorted[|sorted| / 2] == upper
    requires |sorted| % 2 == 0 ==> sorted[|sorted| / 2 - 1] == lower
    ensures Middle(sorted) == if |sorted| % 2 == 1 then upper else (lower + upper) / 2.0
  {
  }

  lemma SplitGivesMiddle(s: seq<real>)
    requires s != [] && SplitAt(s, |s| / 2)
    ensures |s| % 2 == 1 ==> Middle(Sort(s)) == s[|s| / 2]
    ensures |s| % 2 == 0 ==> Middle(Sort(s)) == (Greatest(s[..|s| / 2]) + s[|s| / 2]) / 2.0
  {
    var m := |s| / 2;
    SplitPinsRanks(s, m);
    MiddleFromRanks(Sort(s), s[m], if m > 0 then Greatest(s[..m]) else 0.0);
  }

  /** The server's median: rearranges its slice and never sorts it. */
  method Median(values: array<real>) returns (r: Option<real>)
    modifies values
    ensures r == MedianOf(old(values[..]))
    ensures multiset(values[..]) == multiset(old(values[..]))
  {
    if values.Length == 0 {
      return None;
    }
    ghost var before := values[..];
    var middle := values.Length / 2;
    SelectNth(values, middle);
    SplitGivesMiddle(values[..]);
    MedianIgnoresOrder(values[..], before);
    assert values[..][..middle] == values[..middle];
    var upper := values[middle];
    if values.Length % 2 == 1 {
      return Some(upper);
    }
    var lower := GreatestBelow(values, middle);
    r := Some((lower + upper) / 2.0);
  }

  // How many values lie at or above, at or below, and within given bounds.

  function CountIn(s: seq<real>, low: real, high: real): (n: nat)
    ensures n <= |s|
  {
    if s == [] then 0
    else (if low <= s[0] <= high then 1 else 0) + CountIn(s[1..], low, high)
  }

  lemma {:induction false} CountSplits(a: seq<real>, b: seq<real>, low: real, high: real)
    ensures CountIn(a + b, low, high) == CountIn(a, low, high) + CountIn(b, low, high)
  {
    if a == [] {
      assert a + b == b;
    } else {
      assert (a + b)[0] == a[0] && (a + b)[1..] == a[1..] + b;
      CountSplits(a[1..], b, low, high);
    }
  }

  lemma {:induction false} CountOfSort(s: seq<real>, low: real, high: real)
    ensures CountIn(Sort(s), low, high) == CountIn(s, low, high)
  {
    if s != [] {
      CountOfSort(s[1..], low, high);
      CountOfInsert(s[0], Sort(s[1..]), low, high);
    }
  }

  lemma {:induction false} CountOfInsert(x: real, s: seq<real>, low: real, high: real)
    ensures CountIn(Insert(x, s), low, high) == CountIn(s, low, high) + (if low <= x <= high then 1 else 0)
  {
    if s == [] {
    } else if x <= s[0] {
      assert ([x] + s)[1..] == s;
    } else {
      CountOfInsert(x, s[1..], low, high);
      assert ([s[0]] + Insert(x, s[1..]))[1..] == Insert(x, s[1..]);
    }
  }

  lemma {:induction false} NoneCounted(s: seq<real>, low: real, high: real)
    requires forall i :: 0 <= i < |s| ==> !(low <= s[i] <= high)
    ensures CountIn(s, low, high) == 0
  {
    if s != [] {
      NoneCounted(s[1..], low, high);
    }
  }

  lemma FewAtLeast(sorted: seq<real>, k: nat, low: real, high: real)
    requires Ascending(sorted) && k < |sorted| && high < sorted[k]
    ensures CountIn(sorted, low, high) <= k
  {
    assert sorted == sorted[..k] + sorted[k..];
    CountSplits(sorted[..k], sorted[k..], low, high);
    NoneCounted(sorted[k..], low, high);
  }

  lemma FewAtMost(sorted: seq<real>, k: nat, low: real, high: real)
    requires Ascending(sorted) && k < |sorted| && sorted[k] < low
    ensures CountIn(sorted, low, high) <= |sorted| - k - 1
  {
    assert sorted == sorted[..k + 1] + sorted[k + 1..];
    CountSplits(sorted[..k + 1], sorted[k + 1..], low, high);
    NoneCounted(sorted[..k + 1], low, high);
  }

  /** A majority inside the bounds holds every rank that is neither in the top nor the bottom half. */
  lemma MajorityHoldsRank(s: seq<real>, k: nat, low: real, high: real)
    requires 2 * CountIn(s, low, high) > |s|
    requires k < |s| && 2 * k <= |s| && |s| <= 2 * k + 2
    ensures low <= Sort(s)[k] <= high
  {
    SortAscends(s);
    CountOfSort(s, low, high);
    if high < Sort(s)[k] {
      FewAtLeast(Sort(s), k, low, high);
    }
    if Sort(s)[k] < low {
      FewAtMost(Sort(s), k, low, high);
    }
  }

  lemma MajorityHoldsTheMedian(s: seq<real>, low: real, high: real)
    requires 2 * CountIn(s, low, high) > |s|
    ensures MedianOf(s).Some? && low <= MedianOf(s).value <= high
  {
    var m := |s| / 2;
    MajorityHoldsRank(s, m, low, high);
    if |s| % 2 == 0 {
      MajorityHoldsRank(s, m - 1, low, high);
    }
  }
}
