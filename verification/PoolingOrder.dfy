/** A bucket says the same whatever order its stored windows are read in, whatever they hold. */
module PoolingOrder {
  import opened Wrappers
  import opened Integers
  import opened Rearrangement
  import opened OrderStatistics
  import opened Statistics
  import opened Pooling

  /** The windows a group does not skip. */
  function Kept(ws: seq<Window>): seq<Window> {
    if ws == [] then []
    else
      var front, last := ws[..|ws| - 1], ws[|ws| - 1];
      if last.count <= 0 then Kept(front) else Kept(front) + [last]
  }

  predicate AllFull(ws: seq<Window>) {
    forall i :: 0 <= i < |ws| ==> ws[i].count > 0
  }

  lemma {:induction false} KeptAbsorbs(ws: seq<Window>)
    ensures AllFull(Kept(ws)) && AbsorbAll(Kept(ws)) == AbsorbAll(ws)
  {
    if ws != [] {
      var front, last := ws[..|ws| - 1], ws[|ws| - 1];
      KeptAbsorbs(front);
      AbsorbUnsnoc(Kept(front), last);
    }
  }

  lemma {:induction false} KeptCounts(ws: seq<Window>, w: Window)
    ensures multiset(Kept(ws))[w] == if w.count > 0 then multiset(ws)[w] else 0
  {
    if ws != [] {
      var front, last := ws[..|ws| - 1], ws[|ws| - 1];
      assert ws == front + [last];
      KeptCounts(front, w);
    }
  }

  lemma KeptIgnoresOrder(a: seq<Window>, b: seq<Window>)
    requires multiset(a) == multiset(b)
    ensures multiset(Kept(a)) == multiset(Kept(b))
  {
    forall w ensures multiset(Kept(a))[w] == multiset(Kept(b))[w] {
      KeptCounts(a, w);
      KeptCounts(b, w);
    }
  }

  // What a group holds, column by column, as sums and extremes of what each window brings.

  function MinIn(): Window -> real {
    (w: Window) => w.min
  }

  function MaxIn(): Window -> real {
    (w: Window) => w.max
  }

  function MedianIn(): Window -> real {
    (w: Window) => w.median
  }

  function MassIn(): Window -> real {
    (w: Window) => w.mean * Weight(w.count)
  }

  function SpreadIn(): Window -> real {
    (w: Window) => if Weight(w.count) > 1.0 then (Weight(w.count) - 1.0) * w.variance else 0.0
  }

  function CountedIn(): Window -> real {
    (w: Window) => w.count as real
  }

  function ApartIn(squared: real -> real): Window -> real {
    (w: Window) => Weight(w.count) * squared(w.mean)
  }

  /** What 64 bits hold of a total. */
  function Capped(x: real): real {
    if x > I64_MAX as real then I64_MAX as real else x
  }

  ghost predicate SumsHold(p: Pool, ws: seq<Window>) {
    && p.weightedSum == Sum(Mapped(ws, MassIn()))
    && p.within == Sum(Mapped(ws, SpreadIn()))
    && p.samples as real == Capped(Sum(Mapped(ws, CountedIn())))
  }

  ghost predicate ExtremesHold(p: Pool, ws: seq<Window>) {
    if ws == [] then p.low == None && p.high == None
    else p.low == Some(Least(Mapped(ws, MinIn()))) && p.high == Some(Greatest(Mapped(ws, MaxIn())))
  }

  lemma MappedGrowsBy(front: seq<Window>, last: Window, f: Window -> real)
    ensures Mapped(front + [last], f) == Mapped(front, f) + [f(last)]
  {
  }

  lemma SumGrows(front: seq<Window>, last: Window, f: Window -> real)
    ensures Sum(Mapped(front + [last], f)) == Sum(Mapped(front, f)) + f(last)
  {
    MappedGrowsBy(front, last, f);
    SumSplits(Mapped(front, f), [f(last)]);
    assert Sum([f(last)]) == f(last) + Sum([f(last)][1..]);
  }

  lemma CappedGrows(samples: int, count: int, total: real)
    requires samples as real == Capped(total) && count > 0
    ensures SaturatingAdd(samples, count) as real == Capped(total + count as real)
  {
  }

  lemma AbsorbBrings(p: Pool, w: Window)
    requires w.count > 0
    ensures Absorb(p, w).weightedSum == p.weightedSum + MassIn()(w)
    ensures Absorb(p, w).within == p.within + SpreadIn()(w)
    ensures Absorb(p, w).samples == SaturatingAdd(p.samples, w.count)
  {
  }

  lemma AbsorbKeepsSums(p: Pool, front: seq<Window>, last: Window)
    requires last.count > 0 && SumsHold(p, front)
    ensures SumsHold(Absorb(p, last), front + [last])
  {
    AbsorbBrings(p, last);
    SumGrows(front, last, MassIn());
    SumGrows(front, last, SpreadIn());
    SumGrows(front, last, CountedIn());
    CappedGrows(p.samples, last.count, Sum(Mapped(front, CountedIn())));
  }

  lemma AbsorbKeepsExtremes(p: Pool, front: seq<Window>, last: Window)
    requires last.count > 0 && ExtremesHold(p, front)
    ensures ExtremesHold(Absorb(p, last), front + [last])
  {
    MappedGrowsBy(front, last, MinIn());
    MappedGrowsBy(front, last, MaxIn());
    ExtremesGrow(Mapped(front, MinIn()), [last.min]);
    ExtremesGrow(Mapped(front, MaxIn()), [last.max]);
  }

  lemma NothingMapped(ws: seq<Window>, f: Window -> real)
    requires ws == []
    ensures Mapped(ws, f) == []
  {
  }

  lemma {:induction false} SumsAndExtremes(ws: seq<Window>)
    requires AllFull(ws)
    ensures SumsHold(AbsorbAll(ws), ws) && ExtremesHold(AbsorbAll(ws), ws)
  {
    if ws == [] {
      NothingMapped(ws, MassIn());
      NothingMapped(ws, SpreadIn());
      NothingMapped(ws, CountedIn());
    } else {
      var front, last := ws[..|ws| - 1], ws[|ws| - 1];
      assert ws == front + [last];
      SumsAndExtremes(front);
      AbsorbKeepsSums(AbsorbAll(front), front, last);
      AbsorbKeepsExtremes(AbsorbAll(front), front, last);
    }
  }

  lemma {:induction false} MediansAreMapped(ws: seq<Window>)
    requires AllFull(ws)
    ensures AbsorbAll(ws).medians == Mapped(ws, MedianIn())
  {
    if ws != [] {
      var front, last := ws[..|ws| - 1], ws[|ws| - 1];
      assert ws == front + [last];
      MediansAreMapped(front);
      MappedGrowsBy(front, last, MedianIn());
    }
  }

  lemma BetweenAppends(means: seq<(real, int)>, last: (real, int), squared: real -> real)
    ensures Between(means + [last], squared) == Between(means, squared) + Weight(last.1) * squared(last.0)
  {
    assert (means + [last])[..|means|] == means;
  }

  lemma BetweenOfAbsorbed(p: Pool, last: Window, squared: real -> real)
    requires last.count > 0
    ensures Between(Absorb(p, last).means, squared) == Between(p.means, squared) + ApartIn(squared)(last)
  {
    BetweenAppends(p.means, (last.mean, last.count), squared);
  }

  lemma {:induction false} BetweenIsSummed(ws: seq<Window>, squared: real -> real)
    requires AllFull(ws)
    ensures Between(AbsorbAll(ws).means, squared) == Sum(Mapped(ws, ApartIn(squared)))
  {
    if ws == [] {
      NothingMapped(ws, ApartIn(squared));
    } else {
      var front, last := ws[..|ws| - 1], ws[|ws| - 1];
      BetweenIsSummed(front, squared);
      BetweenOfAbsorbed(AbsorbAll(front), last, squared);
      SumGrows(front, last, ApartIn(squared));
      assert ws == front + [last];
    }
  }

  // The same windows in another order.

  lemma SumIgnoresOrder(a: seq<Window>, b: seq<Window>, f: Window -> real)
    requires multiset(a) == multiset(b)
    ensures Sum(Mapped(a, f)) == Sum(Mapped(b, f))
  {
    MappedIgnoresOrder(a, b, f);
    SortIgnoresOrder(Mapped(a, f), Mapped(b, f));
    SumOfSort(Mapped(a, f));
    SumOfSort(Mapped(b, f));
  }

  lemma SameSums(p: Pool, q: Pool, a: seq<Window>, b: seq<Window>)
    requires multiset(a) == multiset(b) && SumsHold(p, a) && SumsHold(q, b)
    ensures p.weightedSum == q.weightedSum && p.within == q.within && p.samples == q.samples
  {
    SumIgnoresOrder(a, b, MassIn());
    SumIgnoresOrder(a, b, SpreadIn());
    SumIgnoresOrder(a, b, CountedIn());
    assert p.samples as real == q.samples as real;
  }

  lemma SameExtremes(p: Pool, q: Pool, a: seq<Window>, b: seq<Window>)
    requires multiset(a) == multiset(b) && ExtremesHold(p, a) && ExtremesHold(q, b)
    ensures p.low == q.low && p.high == q.high
  {
    NoneMeansNone(a, b);
    if a != [] {
      MappedIgnoresOrder(a, b, MinIn());
      MappedIgnoresOrder(a, b, MaxIn());
      ExtremesIgnoreOrder(Mapped(a, MinIn()), Mapped(b, MinIn()));
      ExtremesIgnoreOrder(Mapped(a, MaxIn()), Mapped(b, MaxIn()));
    }
  }

  lemma SameMedians(p: Pool, medians: seq<real>)
    requires (p.medians == [] <==> medians == [])
      && (medians != [] ==> Middle(Sort(p.medians)) == Middle(Sort(medians)))
    ensures Finish(p) == Finish(p.(medians := medians))
  {
  }

  lemma SameBetween(p: Pool, means: seq<(real, int)>)
    requires p.samples > 0 ==>
      var squared := SquaredFrom(p.weightedSum / Weight(p.samples));
        Between(p.means, squared) == Between(means, squared)
    ensures Finish(p) == Finish(p.(means := means))
  {
  }

  lemma SameFinish(p: Pool, q: Pool)
    requires p.low == q.low && p.high == q.high && p.samples == q.samples
    requires p.weightedSum == q.weightedSum && p.within == q.within
    requires (p.medians == [] <==> q.medians == [])
      && (q.medians != [] ==> Middle(Sort(p.medians)) == Middle(Sort(q.medians)))
    requires p.samples > 0 ==>
      var squared := SquaredFrom(p.weightedSum / Weight(p.samples));
        Between(p.means, squared) == Between(q.means, squared)
    ensures Finish(p) == Finish(q)
  {
    SameBetween(p, q.means);
    SameMedians(p.(means := q.means), q.medians);
    assert p.(means := q.means).(medians := q.medians) == q;
  }

  lemma FullPoolingIgnoresOrder(a: seq<Window>, b: seq<Window>)
    requires multiset(a) == multiset(b) && AllFull(a) && AllFull(b)
    ensures Finish(AbsorbAll(a)) == Finish(AbsorbAll(b))
  {
    var p, q := AbsorbAll(a), AbsorbAll(b);
    SumsAndExtremes(a);
    SumsAndExtremes(b);
    SameSums(p, q, a, b);
    SameExtremes(p, q, a, b);
    MediansAreMapped(a);
    MediansAreMapped(b);
    MappedIgnoresOrder(a, b, MedianIn());
    SameLength(p.medians, q.medians);
    SortIgnoresOrder(p.medians, q.medians);
    if p.samples > 0 {
      var squared := SquaredFrom(p.weightedSum / Weight(p.samples));
      BetweenIsSummed(a, squared);
      BetweenIsSummed(b, squared);
      SumIgnoresOrder(a, b, ApartIn(squared));
    }
    SameFinish(p, q);
  }

  /**
    * Whatever windows a bucket has, skipped ones and saturated counts included, the order they are
    * read in does not matter to what it says, or to whether it says anything.
    */
  lemma PoolingIgnoresOrder(a: seq<Window>, b: seq<Window>)
    requires multiset(a) == multiset(b)
    ensures Finish(AbsorbAll(a)) == Finish(AbsorbAll(b))
  {
    KeptAbsorbs(a);
    KeptAbsorbs(b);
    KeptIgnoresOrder(a, b);
    FullPoolingIgnoresOrder(Kept(a), Kept(b));
  }

  // What a bucket says, in its windows' own numbers.

  /** Some window has samples. */
  predicate AnyFull(ws: seq<Window>) {
    exists i :: 0 <= i < |ws| && ws[i].count > 0
  }

  predicate IsLeastMin(ws: seq<Window>, x: real) {
    && (exists i :: 0 <= i < |ws| && ws[i].count > 0 && ws[i].min == x)
    && (forall i :: 0 <= i < |ws| && ws[i].count > 0 ==> x <= ws[i].min)
  }

  predicate IsGreatestMax(ws: seq<Window>, x: real) {
    && (exists i :: 0 <= i < |ws| && ws[i].count > 0 && ws[i].max == x)
    && (forall i :: 0 <= i < |ws| && ws[i].count > 0 ==> ws[i].max <= x)
  }

  lemma KeptMembers(ws: seq<Window>, w: Window)
    ensures w in Kept(ws) <==> w in ws && w.count > 0
  {
    KeptCounts(ws, w);
    assert w in Kept(ws) <==> w in multiset(Kept(ws));
    assert w in ws <==> w in multiset(ws);
  }

  lemma LeastMinOfKept(ws: seq<Window>, x: real)
    requires Kept(ws) != [] && x == Least(Mapped(Kept(ws), MinIn()))
    ensures IsLeastMin(ws, x)
  {
    var mins := Mapped(Kept(ws), MinIn());
    var k :| 0 <= k < |mins| && mins[k] == x;
    KeptMembers(ws, Kept(ws)[k]);
    var i :| 0 <= i < |ws| && ws[i] == Kept(ws)[k];
    assert ws[i].min == x;
    forall j | 0 <= j < |ws| && ws[j].count > 0 ensures x <= ws[j].min {
      KeptMembers(ws, ws[j]);
      var m :| 0 <= m < |Kept(ws)| && Kept(ws)[m] == ws[j];
      assert mins[m] in mins;
    }
  }

  lemma GreatestMaxOfKept(ws: seq<Window>, x: real)
    requires Kept(ws) != [] && x == Greatest(Mapped(Kept(ws), MaxIn()))
    ensures IsGreatestMax(ws, x)
  {
    var maxes := Mapped(Kept(ws), MaxIn());
    var k :| 0 <= k < |maxes| && maxes[k] == x;
    KeptMembers(ws, Kept(ws)[k]);
    var i :| 0 <= i < |ws| && ws[i] == Kept(ws)[k];
    assert ws[i].max == x;
    forall j | 0 <= j < |ws| && ws[j].count > 0 ensures ws[j].max <= x {
      KeptMembers(ws, ws[j]);
      var m :| 0 <= m < |Kept(ws)| && Kept(ws)[m] == ws[j];
      assert maxes[m] in maxes;
    }
  }

  lemma KeptExtremes(ws: seq<Window>, p: Pool)
    requires p == AbsorbAll(ws) && AnyFull(ws)
    ensures p.low.Some? && IsLeastMin(ws, p.low.value)
    ensures p.high.Some? && IsGreatestMax(ws, p.high.value)
  {
    var i :| 0 <= i < |ws| && ws[i].count > 0;
    KeptMembers(ws, ws[i]);
    KeptAbsorbs(ws);
    SumsAndExtremes(Kept(ws));
    LeastMinOfKept(ws, p.low.value);
    GreatestMaxOfKept(ws, p.high.value);
  }

  lemma {:induction false} SamplesArePositive(ws: seq<Window>)
    ensures AbsorbAll(ws).samples >= 0
    ensures AnyFull(ws) <==> AbsorbAll(ws).samples > 0
    ensures AnyFull(ws) <==> AbsorbAll(ws).medians != []
  {
    if ws != [] {
      var front, last := ws[..|ws| - 1], ws[|ws| - 1];
      SamplesArePositive(front);
      assert AnyFull(front) ==> AnyFull(ws) by {
        if i :| 0 <= i < |front| && front[i].count > 0 {
          assert ws[i].count > 0;
        }
      }
      if last.count > 0 {
        assert ws[|ws| - 1].count > 0;
      } else if i :| 0 <= i < |ws| && ws[i].count > 0 {
        assert front[i].count > 0;
      }
    }
  }

  lemma KeptMedians(ws: seq<Window>, medians: seq<real>)
    requires |medians| == |Kept(ws)| && forall i :: 0 <= i < |medians| ==> medians[i] == Kept(ws)[i].median
    ensures AbsorbAll(ws).medians == medians
  {
    KeptAbsorbs(ws);
    MediansAreMapped(Kept(ws));
    assert Mapped(Kept(ws), MedianIn()) == medians;
  }

  lemma FinishInWords(p: Pool, medians: seq<real>)
    requires p.medians == medians
    ensures Finish(p).Some? <==> Reportable(p) && p.low.value <= p.high.value
    ensures Finish(p).Some? ==> Finish(p).value.min == p.low.value && Finish(p).value.max == p.high.value
    ensures Finish(p).Some? ==>
      medians != [] && Finish(p).value.median == Clamp(Middle(Sort(medians)), p.low.value, p.high.value)
  {
  }

  lemma ExtremesCross(ws: seq<Window>, low: real, high: real)
    requires IsLeastMin(ws, low) && IsGreatestMax(ws, high)
    ensures low <= high <==>
      exists i, j :: 0 <= i < |ws| && 0 <= j < |ws| && ws[i].count > 0 && ws[j].count > 0 && ws[i].min <= ws[j].max
  {
    var i :| 0 <= i < |ws| && ws[i].count > 0 && ws[i].min == low;
    var j :| 0 <= j < |ws| && ws[j].count > 0 && ws[j].max == high;
    if low <= high {
      assert ws[i].min <= ws[j].max;
    }
  }

  /**
    * A bucket has a rollup exactly when some window with samples has its minimum at or under the
    * maximum of one. Its extremes are the least minimum and the greatest maximum of those windows,
    * and its median is the middle of their medians, moved between the extremes if it is outside.
    */
  lemma PooledInWords(ws: seq<Window>, medians: seq<real>)
    requires |medians| == |Kept(ws)| && forall i :: 0 <= i < |medians| ==> medians[i] == Kept(ws)[i].median
    ensures Finish(AbsorbAll(ws)).Some? <==>
      exists i, j :: 0 <= i < |ws| && 0 <= j < |ws| && ws[i].count > 0 && ws[j].count > 0 && ws[i].min <= ws[j].max
    ensures Finish(AbsorbAll(ws)).Some? ==>
      var pooled := Finish(AbsorbAll(ws)).value;
      && medians != [] && IsLeastMin(ws, pooled.min) && IsGreatestMax(ws, pooled.max)
      && pooled.median == Clamp(Middle(Sort(medians)), pooled.min, pooled.max)
  {
    SamplesArePositive(ws);
    KeptMedians(ws, medians);
    FinishInWords(AbsorbAll(ws), medians);
    if AnyFull(ws) {
      KeptExtremes(ws, AbsorbAll(ws));
      ExtremesCross(ws, AbsorbAll(ws).low.value, AbsorbAll(ws).high.value);
    }
  }
}
