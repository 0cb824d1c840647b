/** The streaming spectrum estimator: half-overlapping segments, averaged until it is asked. */
module Spectrum {
  import opened Wrappers
  import opened Integers
  import opened Sliding

  const OVERLAP := 2

  /** What a segment's spectrum is and how spectra add and scale; none of it is opened here. */
  datatype Transform<!S, !F> = Transform(zero: F, plus: (F, F) -> F, power: seq<S> -> seq<F>, scaled: (F, nat) -> F)

  /** A segment gives one power per bin. */
  ghost predicate Fits<S(!new), F>(transform: Transform<S, F>, size: nat) {
    forall segment :: |segment| == size ==> |transform.power(segment)| == size
  }

  datatype Psd<F> = Psd(bins: seq<F>, segments: nat)

  function Zeros<S, F>(transform: Transform<S, F>, size: nat): (r: seq<F>)
    ensures |r| == size && forall i :: 0 <= i < size ==> r[i] == transform.zero
  {
    seq(size, i => transform.zero)
  }

  function Added<S, F>(transform: Transform<S, F>, a: seq<F>, b: seq<F>): (r: seq<F>)
    requires |a| == |b|
    ensures |r| == |a| && forall i :: 0 <= i < |a| ==> r[i] == transform.plus(a[i], b[i])
  {
    seq(|a|, i requires 0 <= i < |a| => transform.plus(a[i], b[i]))
  }

  /** The powers of some segments, added first to last. */
  ghost function Accumulated<S(!new), F>(transform: Transform<S, F>, segments: seq<seq<S>>, size: nat): (r: seq<F>)
    requires Fits(transform, size) && forall segment :: segment in segments ==> |segment| == size
    ensures |r| == size
  {
    if segments == [] then Zeros(transform, size)
    else
      var last := segments[|segments| - 1];
      assert forall segment :: segment in segments[..|segments| - 1] ==> segment in segments;
      Added(transform, Accumulated(transform, segments[..|segments| - 1], size), transform.power(last))
  }

  function Saturated(n: nat): nat {
    if n > U64_MAX then U64_MAX else n
  }

  /** Bins in frequency order: the upper half of the transform comes first. */
  function Estimate<S, F>(transform: Transform<S, F>, accumulated: seq<F>, segments: nat): (psd: Psd<F>)
    ensures |psd.bins| == |accumulated|
  {
    var half := |accumulated| / OVERLAP;
    var bins := accumulated[half..] + accumulated[..half];
    Psd(seq(|bins|, i requires 0 <= i < |bins| => transform.scaled(bins[i], segments)), segments)
  }

  /** The segments of a stream: every half transform length, while a whole length is left. */
  function SegmentsOf<S>(heard: seq<S>, size: nat): (r: seq<seq<S>>)
    requires size >= OVERLAP
    ensures forall segment :: segment in r ==> |segment| == size
  {
    SlicesFrom(heard, 0, size, size / OVERLAP)
  }

  /** What the estimator says about everything it heard since it was last asked. */
  ghost function EstimateOf<S(!new), F>(transform: Transform<S, F>, heard: seq<S>, size: nat): Option<Psd<F>>
    requires size >= OVERLAP && Fits(transform, size)
  {
    var segments := SegmentsOf(heard, size);
    if segments == [] then None
    else Some(Estimate(transform, Accumulated(transform, segments, size), Saturated(|segments|)))
  }

  lemma AccumulatedGrows<S(!new), F>(transform: Transform<S, F>, segments: seq<seq<S>>, last: seq<S>, size: nat)
    requires Fits(transform, size) && (forall segment :: segment in segments ==> |segment| == size) && |last| == size
    ensures forall segment :: segment in segments + [last] ==> |segment| == size
    ensures Accumulated(transform, segments + [last], size)
         == Added(transform, Accumulated(transform, segments, size), transform.power(last))
  {
    assert (segments + [last])[..|segments|] == segments;
  }

  /** Where the walk stops is inside the stream, when it steps by less than it reads. */
  lemma {:induction false} EndIsWithin(length: nat, pos: nat, width: nat, step: nat)
    requires 0 < step <= width && pos <= length
    ensures EndFrom(length, pos, width, step) <= length
    decreases length + width - pos
  {
    if pos + width <= length {
      EndIsWithin(length, pos + step, width, step);
    }
  }

  /** Nothing is kept but the tail that the next segment begins with, always shorter than one. */
  lemma CarryIsShort<S>(heard: seq<S>, size: nat)
    requires size >= OVERLAP
    ensures RestOf(heard, size, size / OVERLAP).phase == 0
    ensures |RestOf(heard, size, size / OVERLAP).history| < size
    ensures RestOf(heard, size, size / OVERLAP).history == heard[EndFrom(|heard|, 0, size, size / OVERLAP)..]
  {
    EndIsWithin(|heard|, 0, size, size / OVERLAP);
  }

  /** The step advances exactly for transforms of at least two points; at one point the loop never ends. */
  lemma OnlyTwoPointsAdvance(size: nat, consumed: nat)
    ensures consumed + size / OVERLAP > consumed <==> size >= 2
  {
  }

  /** A streaming Welch estimator. `heard` is what was pushed since it was last asked. */
  class Welch<S(!new), F> {
    const size: nat
    const transform: Transform<S, F>
    const accumulator: array<F>
    var carry: seq<S>
    var segments: nat
    ghost var heard: seq<S>

    ghost predicate Valid()
      reads this, accumulator
    {
      && size >= OVERLAP && Fits(transform, size) && accumulator.Length == size
      && accumulator[..] == Accumulated(transform, SegmentsOf(heard, size), size)
      && segments == Saturated(|SegmentsOf(heard, size)|)
      && Rest(carry, 0) == RestOf(heard, size, size / OVERLAP)
    }

    constructor (transform: Transform<S, F>, size: nat)
      requires size >= OVERLAP && Fits(transform, size)
      ensures Valid() && fresh(accumulator) && heard == []
      ensures this.size == size && this.transform == transform
    {
      this.size, this.transform := size, transform;
      accumulator := new F[size](i => transform.zero);
      carry, segments, heard := [], 0, [];
      new;
      assert accumulator[..] == Zeros(transform, size);
      NothingHeard(transform, size);
    }

    method Clear()
      requires accumulator.Length == size
      modifies accumulator
      ensures accumulator[..] == Zeros(transform, size)
    {
      for i := 0 to size
        invariant forall k :: 0 <= k < i ==> accumulator[k] == transform.zero
      {
        accumulator[i] := transform.zero;
      }
    }

    /** Add one segment's powers, bin by bin, in place. */
    method Absorb(segment: seq<S>)
      requires Fits(transform, size) && accumulator.Length == size && |segment| == size
      modifies accumulator, this`segments
      ensures accumulator[..] == Added(transform, old(accumulator[..]), transform.power(segment))
      ensures segments == if old(segments) < U64_MAX then old(segments) + 1 else old(segments)
    {
      var powers := transform.power(segment);
      for i := 0 to size
        invariant segments == old(segments)
        invariant forall k :: 0 <= k < i ==> accumulator[k] == transform.plus(old(accumulator[k]), powers[k])
        invariant forall k :: i <= k < size ==> accumulator[k] == old(accumulator[k])
      {
        accumulator[i] := transform.plus(accumulator[i], powers[i]);
      }
      if segments < U64_MAX {
        segments := segments + 1;
      }
    }

    /** Fold a block of samples in, however many segments it completes. */
    method Push(block: seq<S>)
      requires Valid()
      modifies this, accumulator
      ensures Valid() && heard == old(heard) + block
    {
      var stream := carry + block;
      var hop := size / OVERLAP;
      PushKeepsStep(heard, block, size, Rest(carry, 0));
      ghost var before := SegmentsOf(heard, size);
      ghost var more := SlicesFrom(stream, 0, size, hop);
      var consumed := AbsorbAll(stream, before);
      heard := heard + block;
      carry := stream[Min(consumed, |stream|)..];
      CarryIsShort(heard, size);
    }

    method AbsorbAll(stream: seq<S>, ghost before: seq<seq<S>>) returns (consumed: nat)
      requires size >= OVERLAP && Fits(transform, size) && accumulator.Length == size
      requires forall segment :: segment in before ==> |segment| == size
      requires accumulator[..] == Accumulated(transform, before, size) && segments == Saturated(|before|)
      modifies accumulator, this`segments
      ensures var more := SlicesFrom(stream, 0, size, size / OVERLAP);
        && (forall segment :: segment in before + more ==> |segment| == size)
        && accumulator[..] == Accumulated(transform, before + more, size)
        && segments == Saturated(|before + more|)
      ensures consumed == EndFrom(|stream|, 0, size, size / OVERLAP)
    {
      consumed := 0;
      var hop := size / OVERLAP;
      ghost var done := before;
      assert done + SlicesFrom(stream, 0, size, hop) == before + SlicesFrom(stream, 0, size, hop);
      while consumed + size <= |stream|
        invariant forall segment :: segment in done ==> |segment| == size
        invariant accumulator[..] == Accumulated(transform, done, size) && segments == Saturated(|done|)
        invariant done + SlicesFrom(stream, consumed, size, hop) == before + SlicesFrom(stream, 0, size, hop)
        invariant EndFrom(|stream|, consumed, size, hop) == EndFrom(|stream|, 0, size, hop)
        decreases |stream| + size - consumed
      {
        var segment := stream[consumed..consumed + size];
        var next := consumed + hop;
        WalkOneStep(stream, done, consumed, next, size, hop);
        AccumulatedGrows(transform, done, segment, size);
        Absorb(segment);
        done := done + [segment];
        consumed := next;
      }
      SlicesStop(stream, consumed, size, hop);
      assert done == before + SlicesFrom(stream, 0, size, hop);
    }

    /** Average what was folded in and start over, also when there was nothing to average. */
    method Finish() returns (psd: Option<Psd<F>>)
      requires Valid()
      modifies this, accumulator
      ensures Valid() && heard == []
      ensures psd == EstimateOf(transform, old(heard), size)
    {
      NothingHeard(transform, size);
      if segments == 0 {
        carry, heard := [], [];
        return None;
      }
      psd := Some(Estimate(transform, accumulator[..], segments));
      Clear();
      carry, segments, heard := [], 0, [];
    }
  }

  lemma NothingHeard<S(!new), F>(transform: Transform<S, F>, size: nat)
    requires size >= OVERLAP && Fits(transform, size)
    ensures SegmentsOf<S>([], size) == [] && RestOf<S>([], size, size / OVERLAP) == Rest([], 0)
    ensures Accumulated(transform, [], size) == Zeros(transform, size)
  {
  }

  lemma PushKeepsStep<S>(heard: seq<S>, block: seq<S>, size: nat, rest: Rest<S>)
    requires size >= OVERLAP && rest == RestOf(heard, size, size / OVERLAP) && rest.phase == 0
    ensures var stream := rest.history + block;
      && SegmentsOf(heard + block, size) == SegmentsOf(heard, size) + SlicesFrom(stream, 0, size, size / OVERLAP)
      && RestAt(stream, EndFrom(|stream|, 0, size, size / OVERLAP)) == RestOf(heard + block, size, size / OVERLAP)
  {
    AdvanceKeepsStep(heard, block, size, size / OVERLAP);
  }

  /** The k-th segment begins k half lengths in, and a stream of n samples has this many. */
  lemma SegmentAt<S>(heard: seq<S>, size: nat, k: nat)
    requires size >= OVERLAP && k < |SegmentsOf(heard, size)|
    ensures k * (size / 2) + size <= |heard|
    ensures SegmentsOf(heard, size)[k] == heard[k * (size / 2)..k * (size / 2) + size]
    ensures |SegmentsOf(heard, size)| == (|heard| - size) / (size / 2) + 1
  {
    SliceAt(heard, 0, size, size / OVERLAP, k);
    SliceCount(heard, 0, size, size / OVERLAP);
  }

  /** What some segments hold in one bin of the transform, first to last. */
  ghost function PowerIn<S(!new), F>(transform: Transform<S, F>, segments: seq<seq<S>>, size: nat, bin: nat): F
    requires Fits(transform, size) && bin < size && forall k :: 0 <= k < |segments| ==> |segments[k]| == size
  {
    if segments == [] then transform.zero
    else
      var last := |segments| - 1;
      transform.plus(PowerIn(transform, segments[..last], size, bin), transform.power(segments[last])[bin])
  }

  lemma {:induction false} AccumulatedInOneBin<S(!new), F>(transform: Transform<S, F>, segments: seq<seq<S>>,
                                                           size: nat, bin: nat)
    requires Fits(transform, size) && bin < size && forall segment :: segment in segments ==> |segment| == size
    ensures Accumulated(transform, segments, size)[bin] == PowerIn(transform, segments, size, bin)
  {
    if segments != [] {
      var front := segments[..|segments| - 1];
      assert forall segment :: segment in front ==> segment in segments;
      AccumulatedInOneBin(transform, front, size, bin);
    }
  }

  /**
    * There is an estimate exactly when a whole segment was heard. Its bin i averages what all
    * segments hold in the transform's bin half a length further on, around the end: the lowest
    * frequency comes first and the tuned one in the middle.
    */
  lemma EstimateIsExact<S(!new), F>(transform: Transform<S, F>, heard: seq<S>, size: nat)
    requires size >= 2 && Fits(transform, size)
    ensures EstimateOf(transform, heard, size).Some? <==> |heard| >= size
    ensures |heard| >= size ==>
      var psd, segments := EstimateOf(transform, heard, size).value, SegmentsOf(heard, size);
      && |segments| == (|heard| - size) / (size / 2) + 1
      && (|segments| <= 18_446_744_073_709_551_615 ==> psd.segments == |segments|)
      && (|segments| > 18_446_744_073_709_551_615 ==> psd.segments == 18_446_744_073_709_551_615)
      && |psd.bins| == size
      && forall i :: 0 <= i < size ==>
        psd.bins[i] == transform.scaled(PowerIn(transform, segments, size, (i + size / 2) % size), psd.segments)
  {
    SliceCount(heard, 0, size, size / 2);
    if |heard| >= size {
      var psd, segments := EstimateOf(transform, heard, size).value, SegmentsOf(heard, size);
      forall i | 0 <= i < size
        ensures psd.bins[i]
             == transform.scaled(PowerIn(transform, segments, size, (i + size / 2) % size), psd.segments)
      {
        AroundTheEnd(i, size);
        AccumulatedInOneBin(transform, segments, size, (i + size / 2) % size);
      }
    }
  }

  lemma AroundTheEnd(i: nat, size: nat)
    requires i < size && size >= 2
    ensures (i + size / 2) % size == if i < size - size / 2 then i + size / 2 else i - (size - size / 2)
  {
    if i >= size - size / 2 {
      DivisionIsUnique(i + size / 2, size, 1, i - (size - size / 2));
    }
  }

  /** However the samples are cut, the segments are those of the whole stream. */
  lemma CuttingKeepsSegments<S>(blocks: seq<seq<S>>, size: nat)
    requires size >= OVERLAP
    ensures AdvanceAll(blocks, size, size / OVERLAP).0 == SegmentsOf(Concat(blocks), size)
    ensures AdvanceAll(blocks, size, size / OVERLAP).1.phase == 0
    ensures |AdvanceAll(blocks, size, size / OVERLAP).1.history| < size
  {
    CuttingDoesNotMatter(blocks, size, size / OVERLAP);
    CarryIsShort(Concat(blocks), size);
  }
}
