/**
  * The node's journal at the byte level: length-delimited frames appended to a file, read back
  * until the file ends or stops making sense.
  */
module Journal {
  import opened Wrappers
  import opened Integers

  type Byte = b: int | 0 <= b < 256

  /** A base 128 varint has at most ten bytes; the tenth carries one bit. */
  const MAX_VARINT_BYTES := 10

  function EncodeVarint(n: nat): (bytes: seq<Byte>)
    ensures bytes != []
  {
    if n < 128 then [n] else [128 + n % 128] + EncodeVarint(n / 128)
  }

  /** The value and how many bytes it took, reading the byte at `place` of a varint. */
  function DecodeVarint(raw: seq<Byte>, place: nat): (r: Option<(nat, nat)>)
    requires place <= MAX_VARINT_BYTES
    ensures r.Some? ==> 0 < r.value.1 <= |raw|
    decreases MAX_VARINT_BYTES - place
  {
    if place == MAX_VARINT_BYTES || raw == [] then None
    else if raw[0] < 128 then
      if place == MAX_VARINT_BYTES - 1 && raw[0] >= 2 then None else Some((raw[0], 1))
    else
      match DecodeVarint(raw[1..], place + 1)
      case None => None
      case Some((rest, used)) => Some((raw[0] - 128 + 128 * rest, used + 1))
  }

  /** One more than the largest value the bytes from `place` on can carry. */
  function Capacity(place: nat): (c: nat)
    requires place < MAX_VARINT_BYTES
    ensures c >= 2
    decreases MAX_VARINT_BYTES - place
  {
    if place == MAX_VARINT_BYTES - 1 then 2 else 128 * Capacity(place + 1)
  }

  lemma CapacityIsWholeU64()
    ensures Capacity(0) == U64_MAX + 1
  {
    assert Capacity(9) == 2;
    assert Capacity(8) == 128 * 2;
    assert Capacity(7) == 128 * 128 * 2;
    assert Capacity(6) == 0x40_0000 * 1;
    assert Capacity(5) == 0x2000_0000;
    assert Capacity(4) == 0x10_0000_0000;
    assert Capacity(3) == 0x800_0000_0000;
    assert Capacity(2) == 0x4_0000_0000_0000;
    assert Capacity(1) == 0x200_0000_0000_0000;
  }

  lemma {:induction false} VarintReadsBackFrom(n: nat, rest: seq<Byte>, place: nat)
    requires place < MAX_VARINT_BYTES && n < Capacity(place)
    ensures DecodeVarint(EncodeVarint(n) + rest, place) == Some((n, |EncodeVarint(n)|))
    decreases n
  {
    var bytes := EncodeVarint(n);
    assert (bytes + rest)[0] == bytes[0];
    if n >= 128 {
      VarintReadsBackFrom(n / 128, rest, place + 1);
      assert (bytes + rest)[1..] == EncodeVarint(n / 128) + rest;
    }
  }

  /** Every 64-bit length reads back from its varint, whatever follows it. */
  lemma VarintReadsBack(n: nat, rest: seq<Byte>)
    requires n <= U64_MAX
    ensures DecodeVarint(EncodeVarint(n) + rest, 0) == Some((n, |EncodeVarint(n)|))
  {
    CapacityIsWholeU64();
    VarintReadsBackFrom(n, rest, 0);
  }

  lemma {:induction false} CutVarintIsNone(n: nat, cut: nat, place: nat)
    requires cut < |EncodeVarint(n)| && place <= MAX_VARINT_BYTES
    ensures DecodeVarint(EncodeVarint(n)[..cut], place) == None
    decreases n
  {
    var bytes := EncodeVarint(n);
    if cut > 0 && place < MAX_VARINT_BYTES {
      assert n >= 128;
      CutVarintIsNone(n / 128, cut - 1, place + 1);
      assert bytes[..cut][1..] == EncodeVarint(n / 128)[..cut - 1];
    }
  }

  /** What the bytes of a varint say: seven bits each, the lowest first. */
  ghost function SevenBitValue(bytes: seq<Byte>): nat {
    if bytes == [] then 0 else bytes[0] % 128 + 128 * SevenBitValue(bytes[1..])
  }

  /** Every byte but the last has its top bit set. */
  ghost predicate IsVarint(bytes: seq<Byte>) {
    && bytes != []
    && bytes[|bytes| - 1] < 128
    && forall i :: 0 <= i < |bytes| - 1 ==> bytes[i] >= 128
  }

  ghost predicate EndsInZero(bytes: seq<Byte>) {
    bytes != [] && bytes[|bytes| - 1] == 0
  }

  lemma VarintContinues(first: Byte, rest: seq<Byte>)
    requires rest != []
    ensures IsVarint([first] + rest) <==> first >= 128 && IsVarint(rest)
    ensures EndsInZero([first] + rest) <==> EndsInZero(rest)
  {
    var bytes := [first] + rest;
    assert bytes[|bytes| - 1] == rest[|rest| - 1];
    assert bytes[0] == first;
    if IsVarint(bytes) {
      forall i | 0 <= i < |rest| - 1 ensures rest[i] >= 128 {
        assert rest[i] == bytes[i + 1];
      }
    }
    if first >= 128 && IsVarint(rest) {
      forall i | 0 <= i < |bytes| - 1 ensures bytes[i] >= 128 {
        assert i > 0 ==> bytes[i] == rest[i - 1];
      }
    }
  }

  lemma ValueContinues(first: Byte, rest: seq<Byte>)
    ensures SevenBitValue([first] + rest) == first % 128 + 128 * SevenBitValue(rest)
  {
    assert ([first] + rest)[1..] == rest;
  }

  lemma {:induction false} EncodedIsVarint(n: nat)
    ensures IsVarint(EncodeVarint(n)) && SevenBitValue(EncodeVarint(n)) == n
    ensures EndsInZero(EncodeVarint(n)) ==> n == 0
    decreases n
  {
    if n >= 128 {
      EncodedIsVarint(n / 128);
      VarintContinues(128 + n % 128, EncodeVarint(n / 128));
      ValueContinues(128 + n % 128, EncodeVarint(n / 128));
    }
  }

  lemma {:induction false} VarintIsEncoded(bytes: seq<Byte>)
    requires IsVarint(bytes) && (EndsInZero(bytes) ==> |bytes| == 1)
    ensures bytes == EncodeVarint(SevenBitValue(bytes))
    ensures !EndsInZero(bytes) ==> SevenBitValue(bytes) > 0
    decreases |bytes|
  {
    var first, rest := bytes[0], bytes[1..];
    assert bytes == [first] + rest;
    ValueContinues(first, rest);
    if rest != [] {
      VarintContinues(first, rest);
      VarintIsEncoded(rest);
      EncodedContinues(first, rest, SevenBitValue(rest), SevenBitValue(bytes));
    }
  }

  lemma EncodedContinues(first: Byte, rest: seq<Byte>, value: nat, n: nat)
    requires first >= 128 && n == first % 128 + 128 * value && value > 0 && rest == EncodeVarint(value)
    ensures n > 0 && [first] + rest == EncodeVarint(n)
  {
  }

  /** A length is written as the one varint of that value without a needless zero at its end. */
  lemma VarintIsExact(n: nat, bytes: seq<Byte>)
    ensures bytes == EncodeVarint(n)
       <==> IsVarint(bytes) && SevenBitValue(bytes) == n && (EndsInZero(bytes) ==> |bytes| == 1)
  {
    EncodedIsVarint(n);
    if IsVarint(bytes) && SevenBitValue(bytes) == n && (EndsInZero(bytes) ==> |bytes| == 1) {
      VarintIsEncoded(bytes);
    }
  }

  /** What reading the byte at `place` and those after it takes: ten bytes at most, the tenth 0 or 1. */
  ghost predicate IsRead(raw: seq<Byte>, place: nat, n: nat, used: nat) {
    && 0 < used <= |raw| && place + used <= 10
    && IsVarint(raw[..used]) && SevenBitValue(raw[..used]) == n
    && (place + used == 10 ==> raw[used - 1] < 2)
  }

  lemma ReadContinues(raw: seq<Byte>, place: nat, value: nat, n: nat, used: nat)
    requires raw != [] && raw[0] >= 128 && n == raw[0] - 128 + 128 * value
    ensures IsRead(raw, place, n, used + 1) <==> IsRead(raw[1..], place + 1, value, used)
  {
    if used == 0 {
      assert !IsVarint(raw[..1]);
    } else if used < |raw| {
      assert raw[..used + 1] == [raw[0]] + raw[1..][..used];
      VarintContinues(raw[0], raw[1..][..used]);
      ValueContinues(raw[0], raw[1..][..used]);
    }
  }

  lemma ReadEnds(raw: seq<Byte>, place: nat, n: nat, used: nat)
    requires raw != [] && raw[0] < 128
    ensures IsRead(raw, place, n, used)
       <==> used == 1 && n == raw[0] && place < 10 && (place == 9 ==> raw[0] < 2)
  {
    if 1 < used <= |raw| {
      assert raw[..used][0] < 128;
    } else if used == 1 {
      ValueContinues(raw[0], []);
      assert raw[..1] == [raw[0]] + [];
    }
  }

  /** What is read of any bytes at all. */
  lemma {:induction false} VarintReadsExactly(raw: seq<Byte>, place: nat, n: nat, used: nat)
    requires place <= 10
    ensures DecodeVarint(raw, place) == Some((n, used)) <==> IsRead(raw, place, n, used)
    decreases |raw|
  {
    if raw != [] && place < 10 {
      if raw[0] < 128 {
        ReadEnds(raw, place, n, used);
      } else if used > 0 && n >= raw[0] - 128 && (n - (raw[0] - 128)) % 128 == 0 {
        var value := (n - (raw[0] - 128)) / 128;
        VarintReadsExactly(raw[1..], place + 1, value, used - 1);
        ReadContinues(raw, place, value, n, used - 1);
      } else {
        NotSoRead(raw, place, n, used);
      }
    }
  }

  lemma NotSoRead(raw: seq<Byte>, place: nat, n: nat, used: nat)
    requires place < 10 && raw != [] && raw[0] >= 128
    requires used == 0 || n < raw[0] - 128 || (n - (raw[0] - 128)) % 128 != 0
    ensures !IsRead(raw, place, n, used) && DecodeVarint(raw, place) != Some((n, used))
  {
    if 0 < used <= |raw| {
      assert raw[..used] == [raw[0]] + raw[..used][1..];
      ValueContinues(raw[0], raw[..used][1..]);
    }
  }

  /** How a report becomes bytes and comes back; the wire format itself is not modelled. */
  datatype Codec<!R> = Codec(encode: R -> seq<Byte>, decode: seq<Byte> -> Option<R>)

  /** A report whose bytes have a 64-bit length and come back as that report. */
  predicate ReadsBack<R(==)>(codec: Codec<R>, report: R) {
    |codec.encode(report)| <= U64_MAX && codec.decode(codec.encode(report)) == Some(report)
  }

  predicate AllReadBack<R(==)>(codec: Codec<R>, reports: seq<R>) {
    forall i :: 0 <= i < |reports| ==> ReadsBack(codec, reports[i])
  }

  function Frame<R>(codec: Codec<R>, report: R): (bytes: seq<Byte>)
    ensures bytes != []
  {
    EncodeVarint(|codec.encode(report)|) + codec.encode(report)
  }

  /** A frame is a report's bytes behind the varint of how many they are. */
  lemma FrameIsDelimited<R>(codec: Codec<R>, report: R, used: nat)
    requires used + |codec.encode(report)| == |Frame(codec, report)|
    ensures var bytes := Frame(codec, report);
      && bytes[used..] == codec.encode(report)
      && IsVarint(bytes[..used]) && (EndsInZero(bytes[..used]) ==> used == 1)
      && SevenBitValue(bytes[..used]) == |codec.encode(report)|
  {
    var length := |codec.encode(report)|;
    assert Frame(codec, report)[..used] == EncodeVarint(length);
    VarintIsExact(length, EncodeVarint(length));
  }

  function FrameAll<R>(codec: Codec<R>, reports: seq<R>): seq<Byte> {
    if reports == [] then [] else Frame(codec, reports[0]) + FrameAll(codec, reports[1..])
  }

  /** The next report and how many bytes its frame took. */
  function ReadFrame<R>(codec: Codec<R>, raw: seq<Byte>): (r: Option<(R, nat)>)
    ensures r.Some? ==> 0 < r.value.1 <= |raw|
  {
    match DecodeVarint(raw, 0)
    case None => None
    case Some((length, used)) =>
      if length > |raw| - used then None
      else
        match codec.decode(raw[used..used + length])
        case None => None
        case Some(report) => Some((report, used + length))
  }

  function DecodeAll<R>(codec: Codec<R>, raw: seq<Byte>): seq<R>
    decreases |raw|
  {
    if raw == [] then []
    else
      match ReadFrame(codec, raw)
      case None => []
      case Some((report, used)) => [report] + DecodeAll(codec, raw[used..])
  }

  lemma FrameReadsBack<R>(codec: Codec<R>, report: R, rest: seq<Byte>)
    requires ReadsBack(codec, report)
    ensures ReadFrame(codec, Frame(codec, report) + rest) == Some((report, |Frame(codec, report)|))
  {
    var payload := codec.encode(report);
    var header := EncodeVarint(|payload|);
    var raw := Frame(codec, report) + rest;
    assert raw == header + (payload + rest);
    VarintReadsBack(|payload|, payload + rest);
    assert raw[|header|..|header| + |payload|] == payload;
  }

  /** A frame cut anywhere short of its end reads as nothing, whatever the codec. */
  lemma CutFrameIsNone<R>(codec: Codec<R>, report: R, cut: nat)
    requires |codec.encode(report)| <= U64_MAX && cut < |Frame(codec, report)|
    ensures ReadFrame(codec, Frame(codec, report)[..cut]) == None
  {
    var payload := codec.encode(report);
    var header := EncodeVarint(|payload|);
    var raw := Frame(codec, report)[..cut];
    if cut < |header| {
      assert raw == header[..cut];
      CutVarintIsNone(|payload|, cut, 0);
    } else {
      assert raw == header + payload[..cut - |header|];
      VarintReadsBack(|payload|, payload[..cut - |header|]);
    }
  }

  lemma DecodeTakesOne<R>(codec: Codec<R>, report: R, rest: seq<Byte>)
    requires ReadsBack(codec, report)
    ensures DecodeAll(codec, Frame(codec, report) + rest) == [report] + DecodeAll(codec, rest)
  {
    FrameReadsBack(codec, report, rest);
    assert (Frame(codec, report) + rest)[|Frame(codec, report)|..] == rest;
  }

  lemma FramesSplit<R>(codec: Codec<R>, reports: seq<R>, tail: seq<Byte>)
    requires reports != []
    ensures FrameAll(codec, reports) + tail == Frame(codec, reports[0]) + (FrameAll(codec, reports[1..]) + tail)
  {
  }

  lemma HeadFirst<R>(reports: seq<R>, rest: seq<R>)
    requires reports != []
    ensures [reports[0]] + (reports[1..] + rest) == reports + rest
  {
  }

  /** Whatever follows a run of whole frames, those come out first. */
  lemma {:induction false} EarlierReportsSurvive<R>(codec: Codec<R>, reports: seq<R>, tail: seq<Byte>)
    requires AllReadBack(codec, reports)
    ensures DecodeAll(codec, FrameAll(codec, reports) + tail) == reports + DecodeAll(codec, tail)
  {
    if reports == [] {
      assert FrameAll(codec, reports) + tail == tail;
    } else {
      FramesSplit(codec, reports, tail);
      DecodeTakesOne(codec, reports[0], FrameAll(codec, reports[1..]) + tail);
      EarlierReportsSurvive(codec, reports[1..], tail);
      HeadFirst(reports, DecodeAll(codec, tail));
    }
  }

  /**
    * Any list of frames followed by any strict prefix of another frame, the empty one included,
    * reads back as exactly that list. Only the reports of the list have to read back.
    */
  lemma JournalReadsBack<R>(codec: Codec<R>, reports: seq<R>, torn: R, cut: nat)
    requires AllReadBack(codec, reports)
    requires |codec.encode(torn)| <= U64_MAX && cut < |Frame(codec, torn)|
    ensures DecodeAll(codec, FrameAll(codec, reports) + Frame(codec, torn)[..cut]) == reports
  {
    EarlierReportsSurvive(codec, reports, Frame(codec, torn)[..cut]);
    CutFrameIsNone(codec, torn, cut);
  }

  lemma WholeJournalReadsBack<R>(codec: Codec<R>, reports: seq<R>)
    requires AllReadBack(codec, reports)
    ensures DecodeAll(codec, FrameAll(codec, reports)) == reports
  {
    EarlierReportsSurvive(codec, reports, []);
    assert FrameAll(codec, reports) + [] == FrameAll(codec, reports);
  }

  function PlaceOf<R(==)>(reports: seq<R>, report: R): (place: nat)
    ensures place <= |reports|
    ensures report in reports ==> place < |reports| && reports[place] == report
  {
    if reports == [] || reports[0] == report then 0 else 1 + PlaceOf(reports[1..], report)
  }

  function Unary(n: nat): (bytes: seq<Byte>)
    ensures |bytes| == n
  {
    seq(n, i => 0)
  }

  /** The codec of a known list of reports: each is told by its place. */
  function ListCodec<R(==)>(reports: seq<R>): Codec<R> {
    Codec((r: R) => Unary(PlaceOf(reports, r)),
          (bytes: seq<Byte>) => if |bytes| < |reports| then Some(reports[|bytes|]) else None)
  }

  /** For any reports at all there is a codec under which they all read back. */
  lemma AnyReportsHaveACodec<R>(reports: seq<R>)
    requires |reports| <= U64_MAX
    ensures AllReadBack(ListCodec(reports), reports)
  {
    forall i | 0 <= i < |reports| ensures ReadsBack(ListCodec(reports), reports[i]) {
      assert reports[i] in reports;
    }
  }

  lemma {:induction false} FramesConcatenate<R>(codec: Codec<R>, a: seq<R>, b: seq<R>)
    ensures FrameAll(codec, a + b) == FrameAll(codec, a) + FrameAll(codec, b)
  {
    if a == [] {
      assert a + b == b;
    } else {
      assert (a + b)[1..] == a[1..] + b;
      FramesConcatenate(codec, a[1..], b);
    }
  }

  lemma OneFrame<R>(codec: Codec<R>, report: R)
    ensures FrameAll(codec, [report]) == Frame(codec, report)
  {
    assert [report][1..] == [];
  }

  predicate WithinLimit(size: nat, limit: nat) {
    limit == 0 || size <= limit
  }

  function NewerHalf<R>(reports: seq<R>): seq<R> {
    reports[|reports| - |reports| / 2..]
  }

  /** What is left once the byte limit has been enforced: everything, or the newer half. */
  function Trimmed<R>(reports: seq<R>, size: nat, limit: nat): (kept: seq<R>)
    ensures |kept| <= |reports| && kept == reports[|reports| - |kept|..]
  {
    if WithinLimit(size, limit) then reports else NewerHalf(reports)
  }

  function AfterPush<R>(codec: Codec<R>, held: seq<R>, report: R, limit: nat): seq<R> {
    Trimmed(held + [report], |FrameAll(codec, held + [report])|, limit)
  }

  /** Half of the reports stay, rounded down, and they are the newest ones in their order. */
  lemma NewerHalfStays<R>(reports: seq<R>)
    ensures |NewerHalf(reports)| == |reports| / 2
    ensures reports == reports[..|reports| - |reports| / 2] + NewerHalf(reports)
    ensures |reports| >= 2 ==>
      NewerHalf(reports) != [] && NewerHalf(reports)[|reports| / 2 - 1] == reports[|reports| - 1]
    ensures |reports| == 1 ==> NewerHalf(reports) == []
  {
  }

  /** The report buffer: the journal file and its limit. A missing file holds no bytes. */
  class ReportBuffer<!R(==)> {
    const codec: Codec<R>
    const limit: nat
    var journal: seq<Byte>
    ghost var held: seq<R>

    /** The file holds whole frames of reports that read back. */
    ghost predicate Valid()
      reads this
    {
      AllReadBack(codec, held) && journal == FrameAll(codec, held)
    }

    constructor (codec: Codec<R>, limit: nat)
      ensures Valid() && held == [] && this.codec == codec && this.limit == limit
    {
      this.codec, this.limit := codec, limit;
      journal, held := [], [];
    }

    /** Read whatever bytes the file has; a tail that does not parse is discarded. */
    method Pending() returns (reports: seq<R>)
      ensures reports == DecodeAll(codec, journal)
      ensures Valid() ==> reports == held
    {
      reports := [];
      var raw := journal;
      while raw != []
        invariant reports + DecodeAll(codec, raw) == DecodeAll(codec, journal)
        decreases |raw|
      {
        match ReadFrame(codec, raw) {
          case None => break;
          case Some((report, used)) =>
            reports := reports + [report];
            raw := raw[used..];
        }
      }
      ghost var whole := held;
      if Valid() {
        WholeJournalReadsBack(codec, whole);
      }
    }

    method Replace(remaining: seq<R>)
      modifies this
      ensures journal == FrameAll(codec, remaining) && held == remaining
      ensures AllReadBack(codec, remaining) ==> Valid()
    {
      var encoded: seq<Byte> := [];
      for i := 0 to |remaining|
        invariant encoded == FrameAll(codec, remaining[..i])
      {
        assert remaining[..i + 1] == remaining[..i] + [remaining[i]];
        FramesConcatenate(codec, remaining[..i], [remaining[i]]);
        OneFrame(codec, remaining[i]);
        encoded := encoded + Frame(codec, remaining[i]);
      }
      assert remaining[..|remaining|] == remaining;
      journal, held := encoded, remaining;
    }

    /** Over the limit, the newer half of what can be read is written back, torn tail and all left behind. */
    method EnforceLimit()
      modifies this
      ensures WithinLimit(old(|journal|), limit) ==> journal == old(journal) && held == old(held)
      ensures !WithinLimit(old(|journal|), limit) ==>
        held == NewerHalf(DecodeAll(codec, old(journal))) && journal == FrameAll(codec, held)
      ensures old(Valid()) ==> Valid() && held == Trimmed(old(held), old(|journal|), limit)
      ensures limit == 0 || old(|journal|) <= limit ==> journal == old(journal)
      ensures 0 < limit < old(|journal|) ==>
        var pending := DecodeAll(codec, old(journal));
        |held| == |pending| / 2 && held == pending[|pending| - |pending| / 2..] && journal == FrameAll(codec, held)
    {
      if WithinLimit(|journal|, limit) {
        return;
      }
      var pending := Pending();
      var keep := |pending| / 2;
      Replace(pending[|pending| - keep..]);
    }

    /** The report goes to the end of the file, whatever the file ends in, and then the limit is enforced. */
    method Push(report: R)
      modifies this
      ensures var bytes := old(journal) + Frame(codec, report);
        if WithinLimit(|bytes|, limit) then journal == bytes
        else held == NewerHalf(DecodeAll(codec, bytes)) && journal == FrameAll(codec, held)
      ensures old(Valid()) && ReadsBack(codec, report) ==>
        Valid() && held == AfterPush(codec, old(held), report, limit)
      ensures old(Valid()) && ReadsBack(codec, report) ==>
        var all := old(held) + [report];
        if limit == 0 || old(|journal|) + |Frame(codec, report)| <= limit then held == all
        else held == all[|all| - |all| / 2..]
    {
      FramesConcatenate(codec, held, [report]);
      OneFrame(codec, report);
      journal := journal + Frame(codec, report);
      held := held + [report];
      EnforceLimit();
    }

    /** An append that was cut short by a crash. */
    method TornPush(report: R, cut: nat)
      requires |codec.encode(report)| <= U64_MAX && cut < |Frame(codec, report)|
      modifies this
      ensures journal == old(journal) + Frame(codec, report)[..cut]
      ensures old(Valid()) ==> DecodeAll(codec, journal) == old(held)
    {
      if Valid() {
        JournalReadsBack(codec, held, report, cut);
      }
      journal := journal + Frame(codec, report)[..cut];
    }
  }
}
