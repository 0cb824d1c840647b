/** The block-fed low-pass filter and decimator. Its arithmetic is left open: only its order is fixed. */
module Decimation {
  import opened Integers
  import opened Sliding

  datatype Complex<F> = Complex(re: F, im: F)

  /** A number to start from and a fused multiply-add, with whatever rounding they have. */
  datatype Arithmetic<!F> = Arithmetic(zero: F, mulAdd: (F, F, F) -> F)

  /** The products of samples and taps, accumulated first to last. */
  function Dot<F>(a: Arithmetic<F>, segment: seq<Complex<F>>, taps: seq<F>): Complex<F>
    requires |segment| == |taps|
  {
    if segment == [] then Complex(a.zero, a.zero)
    else
      var front := Dot(a, segment[..|segment| - 1], taps[..|taps| - 1]);
      var sample, tap := segment[|segment| - 1], taps[|taps| - 1];
      Complex(a.mulAdd(sample.re, tap, front.re), a.mulAdd(sample.im, tap, front.im))
  }

  /** Numbers weighed one after the other, on top of what was there before them. */
  function Weighed<F>(a: Arithmetic<F>, numbers: seq<F>, taps: seq<F>, before: F): F
    requires |numbers| == |taps|
  {
    if numbers == [] then before else Weighed(a, numbers[1..], taps[1..], a.mulAdd(numbers[0], taps[0], before))
  }

  lemma {:induction false} WeighedGrows<F>(a: Arithmetic<F>, numbers: seq<F>, taps: seq<F>, before: F, x: F, tap: F)
    requires |numbers| == |taps|
    ensures Weighed(a, numbers + [x], taps + [tap], before) == a.mulAdd(x, tap, Weighed(a, numbers, taps, before))
  {
    if numbers == [] {
      assert Weighed(a, [x], [tap], before) == Weighed(a, [x][1..], [tap][1..], a.mulAdd(x, tap, before));
    } else {
      WeighedGrows(a, numbers[1..], taps[1..], a.mulAdd(numbers[0], taps[0], before), x, tap);
      assert (numbers + [x])[1..] == numbers[1..] + [x] && (taps + [tap])[1..] == taps[1..] + [tap];
    }
  }

  function Reals<F>(segment: seq<Complex<F>>): (r: seq<F>)
    ensures |r| == |segment| && forall i :: 0 <= i < |segment| ==> r[i] == segment[i].re
  {
    seq(|segment|, i requires 0 <= i < |segment| => segment[i].re)
  }

  function Imaginaries<F>(segment: seq<Complex<F>>): (r: seq<F>)
    ensures |r| == |segment| && forall i :: 0 <= i < |segment| ==> r[i] == segment[i].im
  {
    seq(|segment|, i requires 0 <= i < |segment| => segment[i].im)
  }

  /** The two components never mix: each is its own samples weighed by the taps, first by first. */
  lemma {:induction false} ComponentsStayApart<F>(a: Arithmetic<F>, segment: seq<Complex<F>>, taps: seq<F>)
    requires |segment| == |taps|
    ensures Dot(a, segment, taps).re == Weighed(a, Reals(segment), taps, a.zero)
    ensures Dot(a, segment, taps).im == Weighed(a, Imaginaries(segment), taps, a.zero)
  {
    if segment != [] {
      var last := |segment| - 1;
      var front, before := segment[..last], taps[..last];
      assert taps == before + [taps[last]];
      assert Reals(segment) == Reals(front) + [segment[last].re];
      assert Imaginaries(segment) == Imaginaries(front) + [segment[last].im];
      ComponentsStayApart(a, front, before);
      WeighedGrows(a, Reals(front), before, a.zero, segment[last].re, taps[last]);
      WeighedGrows(a, Imaginaries(front), before, a.zero, segment[last].im, taps[last]);
    }
  }

  method Convolve<F>(a: Arithmetic<F>, segment: seq<Complex<F>>, taps: seq<F>) returns (r: Complex<F>)
    requires |segment| == |taps|
    ensures r == Dot(a, segment, taps)
  {
    var re, im := a.zero, a.zero;
    for i := 0 to |segment|
      invariant Complex(re, im) == Dot(a, segment[..i], taps[..i])
    {
      assert segment[..i + 1][..i] == segment[..i] && taps[..i + 1][..i] == taps[..i];
      re := a.mulAdd(segment[i].re, taps[i], re);
      im := a.mulAdd(segment[i].im, taps[i], im);
    }
    assert segment[..|segment|] == segment && taps[..|taps|] == taps;
    r := Complex(re, im);
  }

  function DotAll<F>(a: Arithmetic<F>, slices: seq<seq<Complex<F>>>, taps: seq<F>): (r: seq<Complex<F>>)
    requires forall slice :: slice in slices ==> |slice| == |taps|
    ensures |r| == |slices|
    ensures forall k :: 0 <= k < |slices| ==> r[k] == Dot(a, slices[k], taps)
  {
    seq(|slices|, k requires 0 <= k < |slices| => assert slices[k] in slices; Dot(a, slices[k], taps))
  }

  /** What the filter makes of a whole stream at once. */
  function Filtered<F>(a: Arithmetic<F>, stream: seq<Complex<F>>, taps: seq<F>, factor: nat): seq<Complex<F>>
    requires taps != [] && factor > 0
  {
    DotAll(a, SlicesFrom(stream, 0, |taps|, factor), taps)
  }

  lemma DotAllConcatenates<F>(a: Arithmetic<F>, x: seq<seq<Complex<F>>>, y: seq<seq<Complex<F>>>, taps: seq<F>)
    requires forall slice :: slice in x + y ==> |slice| == |taps|
    ensures (forall slice :: slice in x ==> |slice| == |taps|) && (forall slice :: slice in y ==> |slice| == |taps|)
    ensures DotAll(a, x + y, taps) == DotAll(a, x, taps) + DotAll(a, y, taps)
  {
    assert forall slice :: slice in x ==> slice in x + y;
    assert forall slice :: slice in y ==> slice in x + y;
  }

  lemma DotAllGrows<F>(a: Arithmetic<F>, taken: seq<seq<Complex<F>>>, segment: seq<Complex<F>>, taps: seq<F>)
    requires (forall slice :: slice in taken ==> |slice| == |taps|) && |segment| == |taps|
    ensures forall slice :: slice in taken + [segment] ==> |slice| == |taps|
    ensures DotAll(a, taken + [segment], taps) == DotAll(a, taken, taps) + [Dot(a, segment, taps)]
  {
  }

  /** The outputs, one by one: the k-th weighs the samples from k factors in. */
  lemma FilteredAt<F>(a: Arithmetic<F>, stream: seq<Complex<F>>, taps: seq<F>, factor: nat, k: nat)
    requires taps != [] && factor > 0 && k < |Filtered(a, stream, taps, factor)|
    ensures k * factor + |taps| <= |stream|
    ensures var segment := stream[k * factor..k * factor + |taps|];
      Filtered(a, stream, taps, factor)[k]
      == Complex(Weighed(a, Reals(segment), taps, a.zero), Weighed(a, Imaginaries(segment), taps, a.zero))
  {
    SliceAt(stream, 0, |taps|, factor, k);
    ComponentsStayApart(a, stream[k * factor..k * factor + |taps|], taps);
  }

  lemma FilteredCount<F>(a: Arithmetic<F>, stream: seq<Complex<F>>, taps: seq<F>, factor: nat)
    requires taps != [] && factor > 0
    ensures |Filtered(a, stream, taps, factor)| == if |taps| <= |stream| then (|stream| - |taps|) / factor + 1 else 0
  {
    SliceCount(stream, 0, |taps|, factor);
  }

  /** A low-pass filter fed in blocks. `heard` is everything since it was made or reset. */
  class Decimator<F> {
    const arithmetic: Arithmetic<F>
    const taps: seq<F>
    const factor: nat
    var history: seq<Complex<F>>
    var phase: nat
    ghost var heard: seq<Complex<F>>

    ghost predicate Valid()
      reads this
    {
      factor > 0 && (taps != [] ==> Rest(history, phase) == RestOf(heard, |taps|, factor))
    }

    /** A factor of zero is treated as one. */
    constructor (arithmetic: Arithmetic<F>, taps: seq<F>, factor: nat)
      ensures Valid() && heard == [] && this.arithmetic == arithmetic && this.taps == taps
      ensures this.factor == if factor == 0 then 1 else factor
    {
      this.arithmetic, this.taps, this.factor := arithmetic, taps, if factor == 0 then 1 else factor;
      history, phase, heard := [], 0, [];
    }

    /** The outputs of a stream from one position on, and where the next one would begin. */
    method Sweep(stream: seq<Complex<F>>, begin: nat, out: seq<Complex<F>>) returns (r: seq<Complex<F>>, position: nat)
      requires taps != [] && factor > 0
      ensures r == out + DotAll(arithmetic, SlicesFrom(stream, begin, |taps|, factor), taps)
      ensures position == EndFrom(|stream|, begin, |taps|, factor)
    {
      var width := |taps|;
      position := begin;
      r := out;
      ghost var slices := SlicesFrom(stream, begin, width, factor);
      ghost var taken: seq<seq<Complex<F>>> := [];
      while position + width <= |stream|
        invariant slices == taken + SlicesFrom(stream, position, width, factor)
        invariant forall slice :: slice in taken ==> |slice| == width
        invariant r == out + DotAll(arithmetic, taken, taps)
        invariant EndFrom(|stream|, position, width, factor) == EndFrom(|stream|, begin, width, factor)
        decreases |stream| + width - position
      {
        var segment := stream[position..position + width];
        var one := Convolve(arithmetic, segment, taps);
        var next := position + factor;
        WalkOneStep(stream, taken, position, next, width, factor);
        DotAllGrows(arithmetic, taken, segment, taps);
        taken := taken + [segment];
        r := r + [one];
        position := next;
      }
      SlicesStop(stream, position, width, factor);
      assert taken == slices;
    }

    /**
      * Feed a block. What comes out is exactly what the longer stream has more than the shorter;
      * without taps the block passes through.
      */
    method Process(block: seq<Complex<F>>, out: seq<Complex<F>>) returns (r: seq<Complex<F>>,
                   ghost more: seq<Complex<F>>)
      requires Valid()
      modifies this
      ensures Valid() && r == out + more
      ensures taps == [] ==> more == block && heard == old(heard)
      ensures taps != [] ==> heard == old(heard) + block
      ensures taps != [] ==>
        Filtered(arithmetic, heard, taps, factor) == Filtered(arithmetic, old(heard), taps, factor) + more
    {
      if taps == [] {
        return out + block, block;
      }
      var stream := history + block;
      FeedKeepsStep(arithmetic, heard, block, taps, factor, Rest(history, phase));
      more := DotAll(arithmetic, SlicesFrom(stream, phase, |taps|, factor), taps);
      var position;
      r, position := Sweep(stream, phase, out);
      var start := Min(position, |stream|);
      phase := position - start;
      history := stream[start..];
      heard := heard + block;
    }

    method Reset()
      requires Valid()
      modifies this
      ensures Valid() && heard == []
    {
      history, phase, heard := [], 0, [];
    }
  }

  lemma FeedKeepsStep<F>(a: Arithmetic<F>, heard: seq<Complex<F>>, block: seq<Complex<F>>, taps: seq<F>, factor: nat,
                         rest: Rest<Complex<F>>)
    requires taps != [] && factor > 0 && rest == RestOf(heard, |taps|, factor)
    ensures var stream := rest.history + block;
      && Filtered(a, heard + block, taps, factor)
         == Filtered(a, heard, taps, factor) + DotAll(a, SlicesFrom(stream, rest.phase, |taps|, factor), taps)
      && RestAt(stream, EndFrom(|stream|, rest.phase, |taps|, factor)) == RestOf(heard + block, |taps|, factor)
  {
    AdvanceKeepsStep(heard, block, |taps|, factor);
    DotAllConcatenates(a, SlicesFrom(heard, 0, |taps|, factor),
      SlicesFrom(rest.history + block, rest.phase, |taps|, factor), taps);
  }

  /** However the stream is cut, the outputs together are those of the whole stream. */
  lemma CuttingKeepsOutputs<F>(a: Arithmetic<F>, blocks: seq<seq<Complex<F>>>, taps: seq<F>, factor: nat)
    requires taps != [] && factor > 0
    ensures var slices := AdvanceAll(blocks, |taps|, factor).0;
      && (forall slice :: slice in slices ==> |slice| == |taps|)
      && DotAll(a, slices, taps) == Filtered(a, Concat(blocks), taps, factor)
  {
    CuttingDoesNotMatter(blocks, |taps|, factor);
  }
}
