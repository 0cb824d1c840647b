/**
  * What a journal reads as after an append was cut short and more was appended behind it, and why
  * only a journal without a tear, or one rewritten since, can be relied on.
  */
module TornJournal {
  import opened Wrappers
  import opened Integers
  import opened Journal

  /** What the first `cut` bytes of a length's varint carry. */
  function LowBits(n: nat, cut: nat): nat {
    if cut == 0 then 0 else n % 128 + 128 * LowBits(n / 128, cut - 1)
  }

  /** What one more varint byte after `cut` others is worth. */
  function Worth(cut: nat): (w: nat)
    ensures w >= 1 && (cut > 0 ==> w >= 128)
  {
    if cut == 0 then 1 else 128 * Worth(cut - 1)
  }

  /** A length read further on, seen from the start of the one that was cut short. */
  function Carried(n: nat, cut: nat, read: Option<(nat, nat)>): Option<(nat, nat)> {
    match read
    case None => None
    case Some((rest, used)) => Some((LowBits(n, cut) + Worth(cut) * rest, cut + used))
  }

  lemma CarriedStep(n: nat, cut: nat, read: Option<(nat, nat)>)
    requires cut > 0
    ensures Carried(n, cut, read)
         == match Carried(n / 128, cut - 1, read)
            case None => None
            case Some((rest, used)) => Some((n % 128 + 128 * rest, used + 1))
  {
    if read.Some? {
      var w, rest := Worth(cut - 1), read.value.0;
      assert Worth(cut) * rest == 128 * (w * rest);
    }
  }

  lemma VarintGoesOn(raw: seq<Byte>, place: nat)
    requires place < MAX_VARINT_BYTES && raw != [] && raw[0] >= 128
    ensures DecodeVarint(raw, place)
         == match DecodeVarint(raw[1..], place + 1)
            case None => None
            case Some((rest, used)) => Some((raw[0] - 128 + 128 * rest, used + 1))
  {
  }

  lemma CutLengthStep(n: nat, cut: nat, tail: seq<Byte>, further: seq<Byte>)
    requires 0 < cut < |EncodeVarint(n)|
    requires further == EncodeVarint(n / 128)[..cut - 1] + tail
    ensures var raw := EncodeVarint(n)[..cut] + tail; raw != [] && raw[0] == 128 + n % 128 && raw[1..] == further
  {
    var rest := EncodeVarint(n / 128);
    assert EncodeVarint(n) == [128 + n % 128] + rest;
    assert ([128 + n % 128] + rest)[..cut] == [128 + n % 128] + rest[..cut - 1];
  }

  lemma LengthsNest(n: nat, cut: nat)
    requires 0 < cut < |EncodeVarint(n)|
    ensures n >= 128 && |EncodeVarint(n)| == 1 + |EncodeVarint(n / 128)|
  {
  }

  /** A length cut short is continued by whatever bytes come next. */
  lemma {:induction false} CutLengthGoesOn(n: nat, cut: nat, place: nat, tail: seq<Byte>)
    requires cut < |EncodeVarint(n)| && place + cut <= MAX_VARINT_BYTES
    ensures DecodeVarint(EncodeVarint(n)[..cut] + tail, place) == Carried(n, cut, DecodeVarint(tail, place + cut))
    decreases cut
  {
    if cut == 0 {
      NothingCarried(n, place, tail);
    } else {
      LengthsNest(n, cut);
      CutLengthGoesOn(n / 128, cut - 1, place + 1, tail);
      CutLengthGoesOnce(n, cut, place, tail, EncodeVarint(n)[..cut] + tail, EncodeVarint(n / 128)[..cut - 1] + tail,
                        DecodeVarint(tail, place + cut));
    }
  }

  lemma NothingCarried(n: nat, place: nat, tail: seq<Byte>)
    requires place <= MAX_VARINT_BYTES
    ensures DecodeVarint(EncodeVarint(n)[..0] + tail, place) == Carried(n, 0, DecodeVarint(tail, place))
  {
    assert EncodeVarint(n)[..0] + tail == tail;
  }

  lemma CutLengthGoesOnce(n: nat, cut: nat, place: nat, tail: seq<Byte>, raw: seq<Byte>, further: seq<Byte>,
                          read: Option<(nat, nat)>)
    requires 0 < cut < |EncodeVarint(n)| && place < MAX_VARINT_BYTES
    requires raw == EncodeVarint(n)[..cut] + tail && further == EncodeVarint(n / 128)[..cut - 1] + tail
    requires DecodeVarint(further, place + 1) == Carried(n / 128, cut - 1, read)
    ensures DecodeVarint(raw, place) == Carried(n, cut, read)
  {
    CutLengthStep(n, cut, tail, further);
    VarintGoesOn(raw, place);
    CarriedStep(n, cut, read);
  }

  lemma {:induction false} LengthIsShort(n: nat, place: nat)
    requires place < MAX_VARINT_BYTES && n < Capacity(place)
    ensures |EncodeVarint(n)| <= MAX_VARINT_BYTES - place
    decreases n
  {
    if n >= 128 {
      LengthIsShort(n / 128, place + 1);
    }
  }

  /** A payload's report and then the rest, or nothing more once a payload makes no sense. */
  function FirstThen<R>(codec: Codec<R>, payload: seq<Byte>, rest: seq<Byte>): seq<R> {
    match codec.decode(payload)
    case None => []
    case Some(report) => [report] + DecodeAll(codec, rest)
  }

  /** Behind a torn payload: its missing bytes are taken from the front of the tail. */
  function AfterPayload<R>(codec: Codec<R>, got: seq<Byte>, missing: nat, tail: seq<Byte>): seq<R> {
    if missing > |tail| then [] else FirstThen(codec, got + tail[..missing], tail[missing..])
  }

  /**
    * Behind a torn length: `read` is the number the tail starts with, of which the tail is then `Worth`
    * as much more.
    */
  function AfterLength<R>(codec: Codec<R>, low: nat, worth: nat, read: Option<(nat, nat)>, tail: seq<Byte>): seq<R>
    requires read.Some? ==> read.value.1 <= |tail|
  {
    match read
    case None => []
    case Some((rest, used)) =>
      var length := low + worth * rest;
      if length > |tail| - used then [] else FirstThen(codec, tail[used..used + length], tail[used + length..])
  }

  /** What comes out of the bytes of a torn frame and those appended behind it. */
  function AfterTear<R>(codec: Codec<R>, torn: R, cut: nat, tail: seq<Byte>): seq<R>
    requires |codec.encode(torn)| <= U64_MAX && cut < |Frame(codec, torn)|
  {
    var payload := codec.encode(torn);
    var header := EncodeVarint(|payload|);
    if cut == 0 then DecodeAll(codec, tail)
    else if cut >= |header| then AfterPayload(codec, payload[..cut - |header|], |header| + |payload| - cut, tail)
    else if cut > MAX_VARINT_BYTES then []
    else AfterLength(codec, LowBits(|payload|, cut), Worth(cut), DecodeVarint(tail, cut), tail)
  }

  lemma FrameThenRest<R>(codec: Codec<R>, raw: seq<Byte>, length: nat, used: nat, payload: seq<Byte>, rest: seq<Byte>)
    requires DecodeVarint(raw, 0) == Some((length, used)) && used + length <= |raw|
    requires payload == raw[used..used + length] && rest == raw[used + length..]
    ensures DecodeAll(codec, raw) == FirstThen(codec, payload, rest)
  {
  }

  lemma NoWholeFrame<R>(codec: Codec<R>, raw: seq<Byte>)
    requires DecodeVarint(raw, 0).Some? ==> DecodeVarint(raw, 0).value.0 + DecodeVarint(raw, 0).value.1 > |raw|
    ensures DecodeAll(codec, raw) == []
  {
  }

  lemma TornPayloadBytes(header: seq<Byte>, payload: seq<Byte>, tail: seq<Byte>, cut: nat)
    requires |header| <= cut <= |header| + |payload|
    ensures (header + payload)[..cut] + tail == header + (payload[..cut - |header|] + tail)
  {
  }

  lemma TornPayloadFills(header: seq<Byte>, got: seq<Byte>, tail: seq<Byte>, missing: nat, raw: seq<Byte>)
    requires missing <= |tail| && raw == header + (got + tail)
    ensures raw[|header|..|header| + |got| + missing] == got + tail[..missing]
    ensures raw[|header| + |got| + missing..] == tail[missing..]
  {
  }

  lemma PayloadThenRest<R>(codec: Codec<R>, header: seq<Byte>, got: seq<Byte>, missing: nat, tail: seq<Byte>,
                           raw: seq<Byte>)
    requires raw == header + (got + tail) && DecodeVarint(raw, 0) == Some((|got| + missing, |header|))
    ensures DecodeAll(codec, raw) == AfterPayload(codec, got, missing, tail)
  {
    if missing > |tail| {
      NoWholeFrame(codec, raw);
    } else {
      TornPayloadFills(header, got, tail, missing, raw);
      FrameThenRest(codec, raw, |got| + missing, |header|, got + tail[..missing], tail[missing..]);
    }
  }

  lemma PayloadTear<R>(codec: Codec<R>, torn: R, cut: nat, tail: seq<Byte>)
    requires |codec.encode(torn)| <= U64_MAX && cut < |Frame(codec, torn)|
    requires cut >= |EncodeVarint(|codec.encode(torn)|)|
    ensures var header := EncodeVarint(|codec.encode(torn)|);
      DecodeAll(codec, Frame(codec, torn)[..cut] + tail)
      == AfterPayload(codec, codec.encode(torn)[..cut - |header|], |header| + |codec.encode(torn)| - cut, tail)
  {
    var payload := codec.encode(torn);
    var header := EncodeVarint(|payload|);
    var got := payload[..cut - |header|];
    TornPayloadBytes(header, payload, tail, cut);
    VarintReadsBack(|payload|, got + tail);
    PayloadThenRest(codec, header, got, |header| + |payload| - cut, tail, Frame(codec, torn)[..cut] + tail);
  }

  lemma TornLengthFills(head: seq<Byte>, tail: seq<Byte>, used: nat, length: nat, raw: seq<Byte>)
    requires used + length <= |tail| && raw == head + tail
    ensures raw[|head| + used..|head| + used + length] == tail[used..used + length]
    ensures raw[|head| + used + length..] == tail[used + length..]
  {
  }

  lemma TornLengthBytes<R>(codec: Codec<R>, torn: R, cut: nat)
    requires cut <= |EncodeVarint(|codec.encode(torn)|)|
    ensures Frame(codec, torn)[..cut] == EncodeVarint(|codec.encode(torn)|)[..cut]
  {
  }

  lemma HeaderTear<R>(codec: Codec<R>, torn: R, cut: nat, tail: seq<Byte>)
    requires |codec.encode(torn)| <= U64_MAX && 0 < cut < |EncodeVarint(|codec.encode(torn)|)|
    ensures cut <= MAX_VARINT_BYTES
    ensures DecodeAll(codec, Frame(codec, torn)[..cut] + tail)
         == AfterLength(codec, LowBits(|codec.encode(torn)|, cut), Worth(cut), DecodeVarint(tail, cut), tail)
  {
    var n := |codec.encode(torn)|;
    CapacityIsWholeU64();
    LengthIsShort(n, 0);
    var head, read := EncodeVarint(n)[..cut], DecodeVarint(tail, cut);
    TornLengthBytes(codec, torn, cut);
    CutLengthGoesOn(n, cut, 0, tail);
    LengthThenRest(codec, head, tail, head + tail, n, cut, read);
  }

  lemma LengthThenRest<R>(codec: Codec<R>, head: seq<Byte>, tail: seq<Byte>, raw: seq<Byte>, n: nat, cut: nat,
                          read: Option<(nat, nat)>)
    requires raw == head + tail && |head| == cut && (read.Some? ==> read.value.1 <= |tail|)
    requires DecodeVarint(raw, 0) == Carried(n, cut, read)
    ensures DecodeAll(codec, raw) == AfterLength(codec, LowBits(n, cut), Worth(cut), read, tail)
  {
    match read {
      case None => NoWholeFrame(codec, raw);
      case Some((rest, used)) =>
        var low, worth := LowBits(n, cut), Worth(cut);
        LongerThenRest(codec, head, tail, raw, low, worth, rest, used, low + worth * rest);
    }
  }

  lemma ReadLength<R>(codec: Codec<R>, low: nat, worth: nat, rest: nat, used: nat, length: nat, tail: seq<Byte>)
    requires length == low + worth * rest && used <= |tail|
    ensures AfterLength(codec, low, worth, Some((rest, used)), tail)
         == if length > |tail| - used then [] else FirstThen(codec, tail[used..used + length], tail[used + length..])
  {
  }

  lemma LongerThenRest<R>(codec: Codec<R>, head: seq<Byte>, tail: seq<Byte>, raw: seq<Byte>, low: nat, worth: nat,
                          rest: nat, used: nat, length: nat)
    requires raw == head + tail && used <= |tail| && DecodeVarint(raw, 0) == Some((length, |head| + used))
    requires length == low + worth * rest
    ensures DecodeAll(codec, raw) == AfterLength(codec, low, worth, Some((rest, used)), tail)
  {
    ReadLength(codec, low, worth, rest, used, length, tail);
    if length > |tail| - used {
      NoWholeFrame(codec, raw);
    } else {
      var payload, further := tail[used..used + length], tail[used + length..];
      TornLengthFills(head, tail, used, length, raw);
      FrameThenRest(codec, raw, length, |head| + used, payload, further);
    }
  }

  lemma PayloadTearReads<R>(codec: Codec<R>, torn: R, cut: nat, tail: seq<Byte>)
    requires |codec.encode(torn)| <= U64_MAX && cut < |Frame(codec, torn)|
    requires cut >= |EncodeVarint(|codec.encode(torn)|)|
    ensures DecodeAll(codec, Frame(codec, torn)[..cut] + tail) == AfterTear(codec, torn, cut, tail)
  {
    PayloadTear(codec, torn, cut, tail);
  }

  lemma HeaderTearReads<R>(codec: Codec<R>, torn: R, cut: nat, tail: seq<Byte>)
    requires |codec.encode(torn)| <= U64_MAX && 0 < cut < |EncodeVarint(|codec.encode(torn)|)|
    ensures DecodeAll(codec, Frame(codec, torn)[..cut] + tail) == AfterTear(codec, torn, cut, tail)
  {
    HeaderTear(codec, torn, cut, tail);
  }

  lemma NoTearReads<R>(codec: Codec<R>, torn: R, tail: seq<Byte>)
    requires |codec.encode(torn)| <= U64_MAX
    ensures DecodeAll(codec, Frame(codec, torn)[..0] + tail) == AfterTear(codec, torn, 0, tail)
  {
    assert Frame(codec, torn)[..0] + tail == tail;
  }

  /**
    * For every codec, every tear and everything appended behind it: the reports before the tear
    * come out, and then what `AfterTear` says. A payload cut short takes its missing bytes from
    * what follows; a length cut short takes its missing digits from there.
    */
  lemma TornAppendReads<R>(codec: Codec<R>, held: seq<R>, torn: R, cut: nat, tail: seq<Byte>)
    requires AllReadBack(codec, held) && |codec.encode(torn)| <= U64_MAX && cut < |Frame(codec, torn)|
    ensures DecodeAll(codec, FrameAll(codec, held) + Frame(codec, torn)[..cut] + tail)
         == held + AfterTear(codec, torn, cut, tail)
  {
    var piece := Frame(codec, torn)[..cut];
    assert FrameAll(codec, held) + piece + tail == FrameAll(codec, held) + (piece + tail);
    EarlierReportsSurvive(codec, held, piece + tail);
    if cut == 0 {
      NoTearReads(codec, torn, tail);
    } else if cut < |EncodeVarint(|codec.encode(torn)|)| {
      HeaderTearReads(codec, torn, cut, tail);
    } else {
      PayloadTearReads(codec, torn, cut, tail);
    }
  }

  /** A next frame too short to fill the torn payload is lost without a trace. */
  lemma ShortFrameIsSwallowed<R>(codec: Codec<R>, held: seq<R>, torn: R, cut: nat, next: R)
    requires AllReadBack(codec, held) && |codec.encode(torn)| <= U64_MAX
    requires |EncodeVarint(|codec.encode(torn)|)| <= cut
    requires cut + |Frame(codec, next)| < |Frame(codec, torn)|
    ensures DecodeAll(codec, FrameAll(codec, held) + Frame(codec, torn)[..cut] + Frame(codec, next)) == held
  {
    TornAppendReads(codec, held, torn, cut, Frame(codec, next));
  }

  /** A journal rewritten from what it reads as forgets the tear. */
  lemma RewrittenJournalIsWhole<R>(codec: Codec<R>, held: seq<R>, torn: R, cut: nat, next: R)
    requires AllReadBack(codec, held) && ReadsBack(codec, next)
    requires |codec.encode(torn)| <= U64_MAX && cut < |Frame(codec, torn)|
    ensures var rewritten := FrameAll(codec, DecodeAll(codec, FrameAll(codec, held) + Frame(codec, torn)[..cut]));
      DecodeAll(codec, rewritten + Frame(codec, next)) == held + [next]
  {
    JournalReadsBack(codec, held, torn, cut);
    OneFrame(codec, next);
    FramesConcatenate(codec, held, [next]);
    WholeJournalReadsBack(codec, held + [next]);
  }

  // Exactly when an append behind a tear can be relied on.

  /** The codec accepts nothing but what it writes. */
  ghost predicate Canonical<R>(codec: Codec<R>) {
    forall bytes :: codec.decode(bytes).Some? ==> codec.encode(codec.decode(bytes).value) == bytes
  }

  /** The next report is read back behind a frame cut at `cut`, and nothing else is. */
  ghost predicate Survives<R>(codec: Codec<R>, torn: R, cut: nat, next: R)
    requires cut <= |Frame(codec, torn)|
  {
    DecodeAll(codec, Frame(codec, torn)[..cut] + Frame(codec, next)) == [next]
  }

  /** Bytes that continue themselves behind the same beginning are the same. */
  lemma {:induction false} SelfContinuingIsOne(head: seq<Byte>, x: seq<Byte>, a: seq<Byte>, b: seq<Byte>, take: nat,
                                               k: nat)
    requires head != [] && |a| == |b| && take <= |head| + |a| && k <= |a|
    requires a == x + (head + a)[..take] && b == x + (head + b)[..take]
    ensures a[..k] == b[..k]
    decreases k
  {
    if k > 0 {
      SelfContinuingIsOne(head, x, a, b, take, k - 1);
      var i := k - 1;
      if i >= |x| {
        assert a[i] == (head + a)[i - |x|] && b[i] == (head + b)[i - |x|];
        if i - |x| >= |head| {
          var j := i - |x| - |head|;
          assert a[j] == a[..i][j] && b[j] == b[..i][j];
        }
      }
      assert a[..k] == a[..i] + [a[i]] && b[..k] == b[..i] + [b[i]];
    }
  }

  /** What survives behind a torn payload continues itself. */
  lemma SurvivorContinuesItself<R>(codec: Codec<R>, torn: R, cut: nat, next: R, payload: seq<Byte>, bytes: seq<Byte>,
                                   header: seq<Byte>, missing: nat)
    requires Canonical(codec) && |codec.encode(torn)| <= U64_MAX
    requires payload == codec.encode(torn) && bytes == codec.encode(next) && header == EncodeVarint(|payload|)
    requires |header| <= cut < |Frame(codec, torn)| && missing == |header| + |payload| - cut
    requires Survives(codec, torn, cut, next)
    ensures |bytes| == |payload| && missing <= |header| + |bytes|
    ensures bytes == payload[..cut - |header|] + (header + bytes)[..missing]
  {
    PayloadTear(codec, torn, cut, Frame(codec, next));
    PayloadIsFilled(codec, payload[..cut - |header|], missing, next, bytes, header);
  }

  lemma PayloadIsFilled<R>(codec: Codec<R>, got: seq<Byte>, missing: nat, next: R, bytes: seq<Byte>, header: seq<Byte>)
    requires Canonical(codec) && bytes == codec.encode(next) && header == EncodeVarint(|got| + missing)
    requires AfterPayload(codec, got, missing, Frame(codec, next)) == [next]
    ensures |bytes| == |got| + missing && missing <= |header| + |bytes|
    ensures bytes == got + (header + bytes)[..missing]
  {
    var tail := Frame(codec, next);
    assert missing <= |tail|;
    FirstIsRead(codec, got + tail[..missing], tail[missing..], next);
    assert bytes == got + tail[..missing];
  }

  lemma FirstIsRead<R>(codec: Codec<R>, payload: seq<Byte>, rest: seq<Byte>, next: R)
    requires Canonical(codec) && FirstThen(codec, payload, rest) == [next]
    ensures codec.encode(next) == payload
  {
    assert codec.decode(payload).Some? && codec.decode(payload).value == [next][0];
  }

  lemma {:induction false} OversizedLengthIsNone(n: nat, rest: seq<Byte>, place: nat)
    requires place < MAX_VARINT_BYTES && n >= Capacity(place)
    ensures DecodeVarint(EncodeVarint(n) + rest, place) == None
    decreases n
  {
    var bytes := EncodeVarint(n);
    assert (bytes + rest)[0] == bytes[0];
    if n >= 128 {
      assert (bytes + rest)[1..] == EncodeVarint(n / 128) + rest;
      if place < MAX_VARINT_BYTES - 1 {
        OversizedLengthIsNone(n / 128, rest, place + 1);
      }
    }
  }

  /** Behind a torn length only a report of no bytes can survive. */
  lemma SurvivorIsEmpty<R>(codec: Codec<R>, torn: R, cut: nat, next: R)
    requires |codec.encode(torn)| <= U64_MAX && 0 < cut < |EncodeVarint(|codec.encode(torn)|)|
    requires Survives(codec, torn, cut, next)
    ensures codec.encode(next) == []
  {
    var bytes := codec.encode(next);
    var n := |codec.encode(torn)|;
    CapacityIsWholeU64();
    LengthIsShort(n, 0);
    HeaderTear(codec, torn, cut, Frame(codec, next));
    if |bytes| >= Capacity(cut) {
      OversizedLengthIsNone(|bytes|, bytes, cut);
    } else {
      VarintReadsBackFrom(|bytes|, bytes, cut);
      LongerThanItself(LowBits(n, cut), Worth(cut), |bytes|);
    }
  }

  lemma LongerThanItself(low: nat, worth: nat, n: nat)
    requires worth >= 128
    ensures low + worth * n <= n ==> n == 0
  {
    assert worth * n == n + (worth - 1) * n;
  }

  /** Behind one tear at most one report survives. */
  lemma AtMostOneSurvives<R>(codec: Codec<R>, torn: R, cut: nat, a: R, b: R)
    requires Canonical(codec) && |codec.encode(torn)| <= U64_MAX && 0 < cut < |Frame(codec, torn)|
    requires ReadsBack(codec, a) && ReadsBack(codec, b)
    requires Survives(codec, torn, cut, a) && Survives(codec, torn, cut, b)
    ensures a == b
  {
    var payload := codec.encode(torn);
    var header := EncodeVarint(|payload|);
    if cut < |header| {
      SurvivorIsEmpty(codec, torn, cut, a);
      SurvivorIsEmpty(codec, torn, cut, b);
    } else {
      var x, y := codec.encode(a), codec.encode(b);
      var missing := |header| + |payload| - cut;
      SurvivorContinuesItself(codec, torn, cut, a, payload, x, header, missing);
      SurvivorContinuesItself(codec, torn, cut, b, payload, y, header, missing);
      SelfContinuingIsOne(header, payload[..cut - |header|], x, y, missing, |payload|);
      assert x == x[..|payload|] && y == y[..|payload|];
    }
  }

  /**
    * Whichever of two reports is appended next, it is read back: exactly when nothing of the torn
    * frame was written.
    */
  lemma AppendIsSafeExactlyWithoutTear<R>(codec: Codec<R>, torn: R, cut: nat, a: R, b: R)
    requires Canonical(codec) && |codec.encode(torn)| <= U64_MAX && cut < |Frame(codec, torn)|
    requires ReadsBack(codec, a) && ReadsBack(codec, b) && a != b
    ensures Survives(codec, torn, cut, a) && Survives(codec, torn, cut, b) <==> cut == 0
  {
    if cut == 0 {
      assert Frame(codec, torn)[..0] + Frame(codec, a) == Frame(codec, a) + [];
      assert Frame(codec, torn)[..0] + Frame(codec, b) == Frame(codec, b) + [];
      DecodeTakesOne(codec, a, []);
      DecodeTakesOne(codec, b, []);
    } else if Survives(codec, torn, cut, a) && Survives(codec, torn, cut, b) {
      AtMostOneSurvives(codec, torn, cut, a, b);
    }
  }

  /** Reports that are their own bytes. */
  function PlainCodec(): Codec<seq<Byte>> {
    Codec((r: seq<Byte>) => r, (bytes: seq<Byte>) => Some(bytes))
  }

  /** A canonical codec, reports that read back under it, and a tear out of which comes one that nobody wrote. */
  lemma TornAppendSwallowsTheNext()
    ensures var codec, torn, next := PlainCodec(), [7, 7], [9];
      && Canonical(codec) && ReadsBack(codec, torn) && ReadsBack(codec, next)
      && DecodeAll(codec, Frame(codec, torn)[..2]) == []
      && DecodeAll(codec, Frame(codec, torn)[..2] + Frame(codec, next)) == [[7, 1]]
  {
    var codec, torn, next := PlainCodec(), [7, 7], [9];
    CutFrameIsNone(codec, torn, 2);
    PayloadTear(codec, torn, 2, Frame(codec, next));
    assert Frame(codec, next) == [1, 9];
    assert torn[..1] + [1, 9][..1] == [7, 1] && [1, 9][1..] == [9];
    assert DecodeVarint([9], 0) == Some((9, 1));
    assert DecodeAll(codec, [9]) == [];
  }
}
