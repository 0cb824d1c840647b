/**
  * Slices of fixed width taken from a stream at regular steps, by a consumer that is fed the stream
  * in blocks and keeps only what it still needs.
  */
module Sliding {
  import opened Integers

  /** Where the walk stops: the first place at or after `pos`, in whole steps, with too little left. */
  function EndFrom(length: nat, pos: nat, width: nat, step: nat): (end: nat)
    requires width > 0 && step > 0
    ensures pos <= end && end + width > length
    decreases length + width - pos
  {
    if pos + width <= length then EndFrom(length, pos + step, width, step) else pos
  }

  /** The slices at `pos` and every step after it, while they fit. */
  function SlicesFrom<S>(stream: seq<S>, pos: nat, width: nat, step: nat): (slices: seq<seq<S>>)
    requires width > 0 && step > 0
    ensures forall slice :: slice in slices ==> |slice| == width
    decreases |stream| + width - pos
  {
    if pos + width <= |stream| then [stream[pos..pos + width]] + SlicesFrom(stream, pos + step, width, step) else []
  }

  /** What is kept of a stream once its slices are taken, and how far into what follows the next begins. */
  datatype Rest<S> = Rest(history: seq<S>, phase: nat)

  function RestAt<S>(stream: seq<S>, end: nat): Rest<S> {
    var start := Min(end, |stream|);
    Rest(stream[start..], end - start)
  }

  function RestOf<S>(stream: seq<S>, width: nat, step: nat): Rest<S>
    requires width > 0 && step > 0
  {
    RestAt(stream, EndFrom(|stream|, 0, width, step))
  }

  /** One block: the slices it completes and what is kept after it. */
  function Advance<S>(rest: Rest<S>, block: seq<S>, width: nat, step: nat): (seq<seq<S>>, Rest<S>)
    requires width > 0 && step > 0
  {
    var stream := rest.history + block;
    (SlicesFrom(stream, rest.phase, width, step), RestAt(stream, EndFrom(|stream|, rest.phase, width, step)))
  }

  function Concat<S>(blocks: seq<seq<S>>): seq<S> {
    if blocks == [] then [] else Concat(blocks[..|blocks| - 1]) + blocks[|blocks| - 1]
  }

  function AdvanceAll<S>(blocks: seq<seq<S>>, width: nat, step: nat): (seq<seq<S>>, Rest<S>)
    requires width > 0 && step > 0
  {
    if blocks == [] then ([], Rest([], 0))
    else
      var (slices, rest) := AdvanceAll(blocks[..|blocks| - 1], width, step);
      var (more, after) := Advance(rest, blocks[|blocks| - 1], width, step);
      (slices + more, after)
  }

  lemma SlicesStep<S>(stream: seq<S>, pos: nat, width: nat, step: nat)
    requires width > 0 && step > 0 && pos + width <= |stream|
    ensures SlicesFrom(stream, pos, width, step)
      == [stream[pos..pos + width]] + SlicesFrom(stream, pos + step, width, step)
  {
  }

  lemma WalkOneStep<S>(stream: seq<S>, taken: seq<seq<S>>, pos: nat, next: nat, width: nat, step: nat)
    requires width > 0 && step > 0 && pos + width <= |stream| && next == pos + step
    ensures taken + SlicesFrom(stream, pos, width, step)
      == taken + [stream[pos..pos + width]] + SlicesFrom(stream, next, width, step)
    ensures EndFrom(|stream|, pos, width, step) == EndFrom(|stream|, next, width, step)
  {
    SlicesStep(stream, pos, width, step);
  }

  lemma SlicesStop<S>(stream: seq<S>, pos: nat, width: nat, step: nat)
    requires width > 0 && step > 0 && pos + width > |stream|
    ensures SlicesFrom(stream, pos, width, step) == []
  {
  }

  /** Slices do not care where the stream is said to begin. */
  lemma {:induction false} SlicesShift<S>(stream: seq<S>, start: nat, pos: nat, at: nat, width: nat, step: nat)
    requires width > 0 && step > 0 && start <= |stream| && at == start + pos
    ensures SlicesFrom(stream[start..], pos, width, step) == SlicesFrom(stream, at, width, step)
    decreases |stream| + width - pos
  {
    var tail := stream[start..];
    if at + width <= |stream| {
      assert tail[pos..pos + width] == stream[at..at + width];
      SlicesStep(tail, pos, width, step);
      SlicesStep(stream, at, width, step);
      SlicesShift(stream, start, pos + step, at + step, width, step);
    } else {
      SlicesStop(tail, pos, width, step);
      SlicesStop(stream, at, width, step);
    }
  }

  lemma {:induction false} EndShifts(length: nat, start: nat, pos: nat, at: nat, width: nat, step: nat)
    requires width > 0 && step > 0 && start <= length && at == start + pos
    ensures start + EndFrom(length - start, pos, width, step) == EndFrom(length, at, width, step)
    decreases length + width - pos
  {
    if at + width <= length {
      EndShifts(length, start, pos + step, at + step, width, step);
    }
  }

  lemma FirstStaysFirst<T>(x: T, whole: seq<T>, wholeNext: seq<T>, part: seq<T>, partNext: seq<T>, rest: seq<T>)
    requires whole == [x] + wholeNext && part == [x] + partNext && wholeNext == partNext + rest
    ensures whole == part + rest
  {
  }

  lemma {:induction false} SlicesExtend<S>(heard: seq<S>, whole: seq<S>, pos: nat, end: nat, width: nat, step: nat)
    requires width > 0 && step > 0 && heard <= whole && end == EndFrom(|heard|, pos, width, step)
    ensures SlicesFrom(whole, pos, width, step)
      == SlicesFrom(heard, pos, width, step) + SlicesFrom(whole, end, width, step)
    decreases |heard| + width - pos
  {
    if pos + width <= |heard| {
      var slice, next := heard[pos..pos + width], pos + step;
      assert whole[pos..pos + width] == slice;
      SlicesStep(heard, pos, width, step);
      SlicesStep(whole, pos, width, step);
      SlicesExtend(heard, whole, next, end, width, step);
      FirstStaysFirst(slice, SlicesFrom(whole, pos, width, step), SlicesFrom(whole, next, width, step),
                      SlicesFrom(heard, pos, width, step), SlicesFrom(heard, next, width, step),
                      SlicesFrom(whole, end, width, step));
    } else {
      SlicesStop(heard, pos, width, step);
    }
  }

  lemma {:induction false} EndExtends(length: nat, longer: nat, pos: nat, width: nat, step: nat)
    requires width > 0 && step > 0 && length <= longer
    ensures EndFrom(longer, EndFrom(length, pos, width, step), width, step) == EndFrom(longer, pos, width, step)
    decreases length + width - pos
  {
    if pos + width <= length {
      EndExtends(length, longer, pos + step, width, step);
    }
  }

  lemma RestContinues<S>(heard: seq<S>, block: seq<S>, end: nat)
    ensures var rest := RestAt(heard, end);
      && Min(end, |heard|) + rest.phase == end
      && rest.history + block == (heard + block)[Min(end, |heard|)..]
  {
  }

  lemma RestOfRest<S>(whole: seq<S>, start: nat, end: nat)
    requires start <= |whole| && start <= end
    ensures RestAt(whole[start..], end - start) == RestAt(whole, end)
  {
    var drop := Min(end - start, |whole| - start);
    assert whole[start..][drop..] == whole[start + drop..];
  }

  /** What is left of a stream, advanced from `end`, is in step with the whole from `end`. */
  lemma AdvanceFromEnd<S>(heard: seq<S>, block: seq<S>, end: nat, width: nat, step: nat)
    requires width > 0 && step > 0
    ensures var whole := heard + block;
      Advance(RestAt(heard, end), block, width, step)
      == (SlicesFrom(whole, end, width, step), RestAt(whole, EndFrom(|whole|, end, width, step)))
  {
    var whole := heard + block;
    var start := Min(end, |heard|);
    var phase := end - start;
    RestContinues(heard, block, end);
    var after := EndFrom(|whole|, end, width, step);
    SlicesShift(whole, start, phase, end, width, step);
    EndShifts(|whole|, start, phase, end, width, step);
    RestOfRest(whole, start, after);
    assert EndFrom(|whole| - start, phase, width, step) == after - start;
  }

  /** A consumer that is in step with the stream it heard stays in step with the longer one. */
  lemma AdvanceKeepsStep<S>(heard: seq<S>, block: seq<S>, width: nat, step: nat)
    requires width > 0 && step > 0
    ensures var (more, after) := Advance(RestOf(heard, width, step), block, width, step);
      && SlicesFrom(heard + block, 0, width, step) == SlicesFrom(heard, 0, width, step) + more
      && after == RestOf(heard + block, width, step)
  {
    var end := EndFrom(|heard|, 0, width, step);
    AdvanceFromEnd(heard, block, end, width, step);
    SlicesExtend(heard, heard + block, 0, end, width, step);
    EndExtends(|heard|, |heard + block|, 0, width, step);
  }

  /** However a stream is cut into blocks, empty ones included, the slices are those of the whole. */
  lemma {:induction false} CuttingDoesNotMatter<S>(blocks: seq<seq<S>>, width: nat, step: nat)
    requires width > 0 && step > 0
    ensures AdvanceAll(blocks, width, step)
         == (SlicesFrom(Concat(blocks), 0, width, step), RestOf(Concat(blocks), width, step))
  {
    if blocks != [] {
      CuttingDoesNotMatter(blocks[..|blocks| - 1], width, step);
      AdvanceKeepsStep(Concat(blocks[..|blocks| - 1]), blocks[|blocks| - 1], width, step);
    }
  }

  lemma OneStepLess(x: nat, step: nat)
    requires step > 0 && x >= step
    ensures (x - step) / step == x / step - 1
  {
    var q, r := x / step, x % step;
    assert x - step == step * (q - 1) + r;
    DivisionIsUnique(x - step, step, q - 1, r);
  }

  /** How many slices a stream has. */
  lemma {:induction false} SliceCount<S>(stream: seq<S>, pos: nat, width: nat, step: nat)
    requires width > 0 && step > 0
    ensures |SlicesFrom(stream, pos, width, step)|
         == if pos + width <= |stream| then (|stream| - width - pos) / step + 1 else 0
    decreases |stream| + width - pos
  {
    if pos + width <= |stream| {
      SliceCount(stream, pos + step, width, step);
      if pos + step + width <= |stream| {
        OneStepLess(|stream| - width - pos, step);
      } else {
        DivisionIsUnique(|stream| - width - pos, step, 0, |stream| - width - pos);
      }
    }
  }

  /** The k-th slice begins k steps in. */
  lemma {:induction false} SliceAt<S>(stream: seq<S>, pos: nat, width: nat, step: nat, k: nat)
    requires width > 0 && step > 0 && k < |SlicesFrom(stream, pos, width, step)|
    ensures var at := pos + k * step;
      at + width <= |stream| && SlicesFrom(stream, pos, width, step)[k] == stream[at..at + width]
    decreases k
  {
    if k > 0 {
      SliceAt(stream, pos + step, width, step, k - 1);
      assert pos + step + (k - 1) * step == pos + k * step;
    }
  }
}
