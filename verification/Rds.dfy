/**
  * RDS block coding and group synchronisation (EN 50067:1998, sections 2.3 and 2.4).
  * A machine word stands as the sequence of its bits, most significant first, which is also the
  * order blocks arrive in.
  */
module Rds {
  import opened Wrappers

  type Bits = seq<bool>

  const INFO_BITS: nat := 16
  const CHECK_BITS: nat := 10
  const BLOCK_BITS: nat := 26
  const GROUP_BLOCKS: nat := 4
  const SYNC_GROUPS: nat := 2

  function BitsOf(word: nat, width: nat): (bits: Bits)
    ensures |bits| == width
  {
    if width == 0 then [] else BitsOf(word / 2, width - 1) + [word % 2 == 1]
  }

  function Zeros(width: nat): (bits: Bits)
    ensures |bits| == width && forall i :: 0 <= i < width ==> !bits[i]
  {
    seq(width, _ => false)
  }

  function Xor(a: Bits, b: Bits): (bits: Bits)
    requires |a| == |b|
    ensures |bits| == |a| && forall i :: 0 <= i < |a| ==> bits[i] == (a[i] != b[i])
  {
    seq(|a|, i requires 0 <= i < |a| => a[i] != b[i])
  }

  /** x^10 + x^8 + x^7 + x^5 + x^4 + x^3 + 1. */
  const GENERATOR: Bits := BitsOf(0x5B9, 11)

  lemma GeneratorTerms()
    ensures GENERATOR == [true, false, true, true, false, true, true, true, false, false, true]
  {
  }

  datatype Offset = A | B | C | CPrime | D {
    function Word(): (word: Bits)
      ensures |word| == CHECK_BITS
    {
      match this
      case A => BitsOf(0x0FC, 10)
      case B => BitsOf(0x198, 10)
      case C => BitsOf(0x168, 10)
      case CPrime => BitsOf(0x350, 10)
      case D => BitsOf(0x1B4, 10)
    }
  }

  // The words of the standard, bit by bit.

  lemma WordOfA()
    ensures A.Word() == [false, false, true, true, true, true, true, true, false, false]
  {
  }

  lemma WordOfB()
    ensures B.Word() == [false, true, true, false, false, true, true, false, false, false]
  {
  }

  lemma WordOfC()
    ensures C.Word() == [false, true, false, true, true, false, true, false, false, false]
  {
  }

  lemma WordOfCPrime()
    ensures CPrime.Word() == [true, true, false, true, false, true, false, false, false, false]
  {
  }

  lemma WordOfD()
    ensures D.Word() == [false, true, true, false, true, true, false, true, false, false]
  {
  }

  /** The five offset words and the generator, bit by bit from the left. */
  lemma WordsOfTheStandard()
    ensures A.Word() == [false, false, true, true, true, true, true, true, false, false]
    ensures B.Word() == [false, true, true, false, false, true, true, false, false, false]
    ensures C.Word() == [false, true, false, true, true, false, true, false, false, false]
    ensures CPrime.Word() == [true, true, false, true, false, true, false, false, false, false]
    ensures D.Word() == [false, true, true, false, true, true, false, true, false, false]
    ensures GENERATOR == [true, false, true, true, false, true, true, true, false, false, true]
  {
    WordOfA();
    WordOfB();
    WordOfC();
    WordOfCPrime();
    WordOfD();
    GeneratorTerms();
  }

  function AtPosition(position: nat): seq<Offset> {
    if position % GROUP_BLOCKS == 0 then [A]
    else if position % GROUP_BLOCKS == 1 then [B]
    else if position % GROUP_BLOCKS == 2 then [C, CPrime]
    else [D]
  }

  // The checkword register.

  /** The register with the generator added, its leading term at place `k`. */
  function AddGenerator(register: Bits, k: nat): (r: Bits)
    requires |register| == BLOCK_BITS && k < INFO_BITS
    ensures |r| == BLOCK_BITS
  {
    seq(BLOCK_BITS, i requires 0 <= i < BLOCK_BITS =>
      if k <= i <= k + 10 then register[i] != GENERATOR[i - k] else register[i])
  }

  function Step(register: Bits, k: nat): (r: Bits)
    requires |register| == BLOCK_BITS && k < INFO_BITS
    ensures |r| == BLOCK_BITS
  {
    if register[k] then AddGenerator(register, k) else register
  }

  function Reduce(register: Bits, k: nat): (r: Bits)
    requires |register| == BLOCK_BITS && k <= INFO_BITS
    ensures |r| == BLOCK_BITS
    decreases INFO_BITS - k
  {
    if k == INFO_BITS then register else Reduce(Step(register, k), k + 1)
  }

  function CheckwordOf(info: Bits): (check: Bits)
    requires |info| == INFO_BITS
    ensures |check| == CHECK_BITS
  {
    Reduce(info + Zeros(CHECK_BITS), 0)[INFO_BITS..]
  }

  method Checkword(info: Bits) returns (check: Bits)
    requires |info| == INFO_BITS
    ensures check == CheckwordOf(info)
  {
    var register := info + Zeros(CHECK_BITS);
    var bit := INFO_BITS + CHECK_BITS;
    while bit > CHECK_BITS
      invariant CHECK_BITS <= bit <= BLOCK_BITS && |register| == BLOCK_BITS
      invariant Reduce(register, BLOCK_BITS - bit) == Reduce(info + Zeros(CHECK_BITS), 0)
    {
      bit := bit - 1;
      var place := BLOCK_BITS - 1 - bit;
      if register[place] {
        register := AddGenerator(register, place);
      }
    }
    check := register[INFO_BITS..];
  }

  function Encode(info: Bits, offset: Offset): (block: Bits)
    requires |info| == INFO_BITS
    ensures |block| == BLOCK_BITS
  {
    info + Xor(CheckwordOf(info), offset.Word())
  }

  function Information(block: Bits): Bits
    requires |block| == BLOCK_BITS
  {
    block[..INFO_BITS]
  }

  predicate Validates(block: Bits, offset: Offset)
    requires |block| == BLOCK_BITS
  {
    block[INFO_BITS..] == Xor(CheckwordOf(Information(block)), offset.Word())
  }

  predicate ValidAt(block: Bits, position: nat)
    requires |block| == BLOCK_BITS
  {
    exists i :: 0 <= i < |AtPosition(position)| && Validates(block, AtPosition(position)[i])
  }

  /** The order of a group: A, B, C or C', D. */
  predicate PassesAt(block: Bits, position: nat)
    requires |block| == 26
  {
    if position % 4 == 0 then Validates(block, A)
    else if position % 4 == 1 then Validates(block, B)
    else if position % 4 == 2 then Validates(block, C) || Validates(block, CPrime)
    else Validates(block, D)
  }

  lemma ValidInGroupOrder(block: Bits, position: nat)
    requires |block| == BLOCK_BITS
    ensures ValidAt(block, position) <==> PassesAt(block, position)
  {
    var offsets := AtPosition(position);
    if position % 4 == 2 {
      assert offsets == [C, CPrime];
      ValidAmongTwo(block, offsets, C, CPrime);
    } else {
      assert offsets == [offsets[0]];
    }
  }

  lemma ValidAmongTwo(block: Bits, offsets: seq<Offset>, a: Offset, b: Offset)
    requires |block| == BLOCK_BITS && offsets == [a, b]
    ensures (exists i :: 0 <= i < |offsets| && Validates(block, offsets[i]))
       <==> Validates(block, a) || Validates(block, b)
  {
    assert offsets[0] == a && offsets[1] == b;
  }

  // The register is linear, and what it leaves is a remainder.

  function Syndrome(block: Bits): (check: Bits)
    requires |block| == BLOCK_BITS
    ensures |check| == CHECK_BITS
  {
    Reduce(block, 0)[INFO_BITS..]
  }

  lemma StepIsLinear(a: Bits, b: Bits, k: nat)
    requires |a| == |b| == BLOCK_BITS && k < INFO_BITS
    ensures Step(Xor(a, b), k) == Xor(Step(a, k), Step(b, k))
  {
  }

  lemma {:induction false} ReduceIsLinear(a: Bits, b: Bits, k: nat)
    requires |a| == |b| == BLOCK_BITS && k <= INFO_BITS
    ensures Reduce(Xor(a, b), k) == Xor(Reduce(a, k), Reduce(b, k))
    decreases INFO_BITS - k
  {
    if k < INFO_BITS {
      StepIsLinear(a, b, k);
      ReduceIsLinear(Step(a, k), Step(b, k), k + 1);
    }
  }

  /** The checkword's register is additive: errors contribute their own syndrome. */
  lemma SyndromeIsLinear(a: Bits, b: Bits)
    requires |a| == |b| == BLOCK_BITS
    ensures Syndrome(Xor(a, b)) == Xor(Syndrome(a), Syndrome(b))
  {
    ReduceIsLinear(a, b, 0);
  }

  predicate ClearBelow(r: Bits, k: nat)
    requires k <= |r|
  {
    forall i :: 0 <= i < k ==> !r[i]
  }

  lemma StepClears(r: Bits, k: nat)
    requires |r| == BLOCK_BITS && k < INFO_BITS && ClearBelow(r, k)
    ensures ClearBelow(Step(r, k), k + 1)
  {
    GeneratorTerms();
  }

  lemma {:induction false} ReduceClears(r: Bits, k: nat)
    requires |r| == BLOCK_BITS && k <= INFO_BITS && ClearBelow(r, k)
    ensures ClearBelow(Reduce(r, k), INFO_BITS)
    decreases INFO_BITS - k
  {
    if k < INFO_BITS {
      StepClears(r, k);
      ReduceClears(Step(r, k), k + 1);
    }
  }

  lemma {:induction false} ReduceKeepsChecks(r: Bits, k: nat)
    requires |r| == BLOCK_BITS && k <= INFO_BITS && ClearBelow(r, INFO_BITS)
    ensures Reduce(r, k) == r
    decreases INFO_BITS - k
  {
    if k < INFO_BITS {
      ReduceKeepsChecks(r, k + 1);
    }
  }

  function Pad(check: Bits): (block: Bits)
    requires |check| == CHECK_BITS
    ensures |block| == BLOCK_BITS
  {
    Zeros(INFO_BITS) + check
  }

  lemma SyndromeOfPad(check: Bits)
    requires |check| == CHECK_BITS
    ensures Syndrome(Pad(check)) == check
  {
    ReduceKeepsChecks(Pad(check), 0);
  }

  lemma XorSwap(a: Bits, b: Bits, c: Bits)
    requires |a| == |b| == |c|
    ensures Xor(a, b) == c <==> b == Xor(a, c)
  {
    if b == Xor(a, c) {
      assert Xor(a, b) == c;
    }
    if Xor(a, b) == c {
      assert b == Xor(a, c);
    }
  }

  lemma SplitBlock(block: Bits)
    requires |block| == BLOCK_BITS
    ensures block == Xor(Information(block) + Zeros(CHECK_BITS), Pad(block[INFO_BITS..]))
  {
  }

  /** A block validates against exactly the offset its syndrome spells. */
  lemma ValidatesBySyndrome(block: Bits, offset: Offset)
    requires |block| == BLOCK_BITS
    ensures Validates(block, offset) <==> Syndrome(block) == offset.Word()
  {
    var info := Information(block) + Zeros(CHECK_BITS);
    var check := block[INFO_BITS..];
    SplitBlock(block);
    SyndromeIsLinear(info, Pad(check));
    SyndromeOfPad(check);
    XorSwap(CheckwordOf(Information(block)), check, offset.Word());
  }

  /** Every encoded block carries its own offset as syndrome, and its information unharmed. */
  lemma EncodeRoundTrips(info: Bits, offset: Offset)
    requires |info| == INFO_BITS
    ensures Information(Encode(info, offset)) == info
    ensures Syndrome(Encode(info, offset)) == offset.Word()
  {
    assert Information(Encode(info, offset)) == info;
    ValidatesBySyndrome(Encode(info, offset), offset);
  }

  // The remainder as EN 50067 defines it: division by the generator.

  /** The sum of the generator shifted to every place `quotient` marks, from place `k` on. */
  function Multiple(quotient: Bits, k: nat): (r: Bits)
    requires |quotient| == INFO_BITS && k <= INFO_BITS
    ensures |r| == BLOCK_BITS
    decreases INFO_BITS - k
  {
    if k == INFO_BITS then Zeros(BLOCK_BITS)
    else if quotient[k] then AddGenerator(Multiple(quotient, k + 1), k)
    else Multiple(quotient, k + 1)
  }

  lemma {:induction false} MultipleIsClearBelow(q: Bits, k: nat)
    requires |q| == INFO_BITS && k <= INFO_BITS
    ensures ClearBelow(Multiple(q, k), k)
    decreases INFO_BITS - k
  {
    if k < INFO_BITS {
      MultipleIsClearBelow(q, k + 1);
    }
  }

  lemma AddTwice(r: Bits, k: nat)
    requires |r| == BLOCK_BITS && k < INFO_BITS
    ensures AddGenerator(AddGenerator(r, k), k) == r
  {
  }

  lemma {:induction false} MultipleReducesToZero(q: Bits, k: nat)
    requires |q| == INFO_BITS && k <= INFO_BITS
    ensures Reduce(Multiple(q, k), k) == Zeros(BLOCK_BITS)
    decreases INFO_BITS - k
  {
    if k < INFO_BITS {
      MultipleReducesToZero(q, k + 1);
      MultipleIsClearBelow(q, k + 1);
      GeneratorTerms();
      AddTwice(Multiple(q, k + 1), k);
    }
  }

  /** The places where the register needed the generator. */
  function Quotient(register: Bits, k: nat): (q: Bits)
    requires |register| == BLOCK_BITS && k <= INFO_BITS
    ensures |q| == INFO_BITS - k
    decreases INFO_BITS - k
  {
    if k == INFO_BITS then [] else [register[k]] + Quotient(Step(register, k), k + 1)
  }

  lemma {:induction false} DivisionLaw(r: Bits, k: nat, q: Bits)
    requires |r| == BLOCK_BITS && k <= INFO_BITS && |q| == INFO_BITS && q[k..] == Quotient(r, k)
    ensures r == Xor(Multiple(q, k), Reduce(r, k))
    decreases INFO_BITS - k
  {
    if k < INFO_BITS {
      assert q[k] == r[k] by { assert q[k..][0] == q[k]; }
      assert q[k + 1..] == q[k..][1..];
      DivisionLaw(Step(r, k), k + 1, q);
      if r[k] {
        var rest := Multiple(q, k + 1);
        assert AddGenerator(Xor(rest, Reduce(r, k)), k) == Xor(AddGenerator(rest, k), Reduce(r, k));
        AddTwice(r, k);
      }
    }
  }

  /** A block's syndrome is the one word that differs from it by a multiple of the generator. */
  lemma SyndromeIsTheRemainder(block: Bits, check: Bits)
    requires |block| == BLOCK_BITS && |check| == CHECK_BITS
    ensures check == Syndrome(block)
       <==> exists q: Bits :: |q| == INFO_BITS && block == Xor(Multiple(q, 0), Pad(check))
  {
    if check == Syndrome(block) {
      var q := Quotient(block, 0);
      assert q[0..] == q;
      DivisionLaw(block, 0, q);
      ReduceClears(block, 0);
      assert Reduce(block, 0) == Pad(check);
      assert block == Xor(Multiple(q, 0), Pad(check));
    }
    if q: Bits :| |q| == INFO_BITS && block == Xor(Multiple(q, 0), Pad(check)) {
      MultipleReducesToZero(q, 0);
      SyndromeIsLinear(Multiple(q, 0), Pad(check));
      SyndromeOfPad(check);
      assert Xor(Zeros(BLOCK_BITS)[INFO_BITS..], check) == check;
    }
  }

  // What errors the code catches.

  predicate Clean(e: Bits) {
    forall i :: 0 <= i < |e| ==> !e[i]
  }

  /** Some bit is hit, and all hits fit a stretch of `width` bits. */
  ghost predicate BurstWithin(e: Bits, width: nat) {
    !Clean(e) && forall i, j :: 0 <= i <= j < |e| && e[i] && e[j] ==> j - i < width
  }

  /** A nonzero word that divides evenly reaches across at least eleven places. */
  lemma {:induction false} EvenDivisionIsWide(r: Bits, k: nat) returns (i: nat, j: nat)
    requires |r| == BLOCK_BITS && k <= INFO_BITS && ClearBelow(r, k)
    requires !Clean(r) && Clean(Reduce(r, k))
    ensures k <= i && i + 10 <= j < BLOCK_BITS && r[i] && r[j]
    decreases INFO_BITS - k
  {
    if k == INFO_BITS {
      assert false;
    } else {
      StepClears(r, k);
      GeneratorTerms();
      if !r[k] {
        i, j := EvenDivisionIsWide(r, k + 1);
      } else if Clean(Step(r, k)) {
        i, j := k, k + 10;
        assert !Step(r, k)[k + 10];
      } else {
        i, j := EvenDivisionIsWide(Step(r, k), k + 1);
        assert Step(r, k)[j] == r[j];
        i := k;
      }
    }
  }

  lemma BurstHasSyndrome(e: Bits)
    requires |e| == BLOCK_BITS && BurstWithin(e, 10)
    ensures Syndrome(e) != Zeros(CHECK_BITS)
  {
    if Syndrome(e) == Zeros(CHECK_BITS) {
      ReduceClears(e, 0);
      forall i | 0 <= i < BLOCK_BITS ensures !Reduce(e, 0)[i] {
        assert i >= INFO_BITS ==> Reduce(e, 0)[i] == Syndrome(e)[i - INFO_BITS];
      }
      var i, j := EvenDivisionIsWide(e, 0);
    }
  }

  // A single hit: the remainders of the powers of x.

  function Single(place: nat): (e: Bits)
    requires place < BLOCK_BITS
    ensures |e| == BLOCK_BITS
  {
    seq(BLOCK_BITS, i => i == place)
  }

  function ShiftLeft(e: Bits): (r: Bits)
    requires |e| == BLOCK_BITS
    ensures |r| == BLOCK_BITS
  {
    e[1..] + [false]
  }

  /** A remainder multiplied by x. */
  function TimesX(check: Bits): (r: Bits)
    requires |check| == CHECK_BITS
    ensures |r| == CHECK_BITS
  {
    var shifted := check + [false];
    (if check[0] then Xor(shifted, GENERATOR) else shifted)[1..]
  }

  lemma StepOfShift(e: Bits, k: nat)
    requires |e| == BLOCK_BITS && !e[0] && k + 1 < INFO_BITS
    ensures Step(ShiftLeft(e), k) == ShiftLeft(Step(e, k + 1)) && !Step(e, k + 1)[0]
  {
  }

  lemma {:induction false} ReduceOfShift(e: Bits, k: nat)
    requires |e| == BLOCK_BITS && !e[0] && k < INFO_BITS
    ensures Reduce(ShiftLeft(e), k) == Step(ShiftLeft(Reduce(e, k + 1)), INFO_BITS - 1)
    decreases INFO_BITS - k
  {
    if k + 1 < INFO_BITS {
      StepOfShift(e, k);
      ReduceOfShift(Step(e, k + 1), k + 1);
    } else {
      assert Reduce(ShiftLeft(e), k) == Reduce(Step(ShiftLeft(e), k), k + 1);
    }
  }

  lemma LastStep(r: Bits)
    requires |r| == BLOCK_BITS && ClearBelow(r, INFO_BITS)
    ensures Step(ShiftLeft(r), INFO_BITS - 1)[INFO_BITS..] == TimesX(r[INFO_BITS..])
  {
  }

  lemma SyndromeOfShift(e: Bits)
    requires |e| == BLOCK_BITS && !e[0]
    ensures Syndrome(ShiftLeft(e)) == TimesX(Syndrome(e))
  {
    ReduceOfShift(e, 0);
    assert Reduce(e, 0) == Reduce(e, 1);
    ReduceClears(e, 0);
    LastStep(Reduce(e, 0));
  }

  /** A ten-bit word, one field a bit, so that remainders can be computed. */
  datatype Word10 = Word10(a: bool, b: bool, c: bool, d: bool, e: bool, f: bool, g: bool, h: bool, i: bool, j: bool)

  function Packed(check: Bits): Word10
    requires |check| == CHECK_BITS
  {
    Word10(check[0], check[1], check[2], check[3], check[4], check[5], check[6], check[7], check[8], check[9])
  }

  function Doubled(w: Word10): Word10 {
    Word10(w.b, w.c != w.a, w.d != w.a, w.e, w.f != w.a, w.g != w.a, w.h != w.a, w.i, w.j, w.a)
  }

  lemma PackedTimesX(check: Bits)
    requires |check| == CHECK_BITS
    ensures Packed(TimesX(check)) == Doubled(Packed(check))
  {
    GeneratorTerms();
  }

  /** The remainder of x^power. */
  function PowerOfX(power: nat): Word10 {
    if power == 0 then Word10(false, false, false, false, false, false, false, false, false, true)
    else Doubled(PowerOfX(power - 1))
  }

  lemma SyndromeOfLast()
    ensures Packed(Syndrome(Single(BLOCK_BITS - 1))) == PowerOfX(0)
  {
    var one := seq(CHECK_BITS, i => i == CHECK_BITS - 1);
    assert Single(BLOCK_BITS - 1) == Pad(one);
    SyndromeOfPad(one);
  }

  lemma {:induction false} SyndromeOfSingle(place: nat)
    requires place < BLOCK_BITS
    ensures Packed(Syndrome(Single(place))) == PowerOfX(BLOCK_BITS - 1 - place)
    decreases BLOCK_BITS - place
  {
    if place == BLOCK_BITS - 1 {
      SyndromeOfLast();
    } else {
      SyndromeOfSingle(place + 1);
      assert Single(place) == ShiftLeft(Single(place + 1));
      SyndromeOfShift(Single(place + 1));
      PackedTimesX(Syndrome(Single(place + 1)));
    }
  }

  /** The two third-block offsets differ by this word. */
  const VERSION_SWAP: Bits := BitsOf(0x238, 10)

  lemma VersionSwapBits()
    ensures VERSION_SWAP == [true, false, false, false, true, true, true, false, false, false]
  {
  }

  lemma NoPowerSwaps(power: nat)
    requires power < BLOCK_BITS
    ensures PowerOfX(power) != Word10(true, false, false, false, true, true, true, false, false, false)
  {
    var swap := Word10(true, false, false, false, true, true, true, false, false, false);
    assert PowerOfX(0) != swap;
    assert PowerOfX(1) != swap;
    assert PowerOfX(2) != swap;
    assert PowerOfX(3) != swap;
    assert PowerOfX(4) != swap;
    assert PowerOfX(5) != swap;
    assert PowerOfX(6) != swap;
    assert PowerOfX(7) != swap;
    assert PowerOfX(8) != swap;
    assert PowerOfX(9) != swap;
    assert PowerOfX(10) != swap;
    assert PowerOfX(11) != swap;
    assert PowerOfX(12) != swap;
    assert PowerOfX(13) != swap;
    assert PowerOfX(14) != swap;
    assert PowerOfX(15) != swap;
    assert PowerOfX(16) != swap;
    assert PowerOfX(17) != swap;
    assert PowerOfX(18) != swap;
    assert PowerOfX(19) != swap;
    assert PowerOfX(20) != swap;
    assert PowerOfX(21) != swap;
    assert PowerOfX(22) != swap;
    assert PowerOfX(23) != swap;
    assert PowerOfX(24) != swap;
    assert PowerOfX(25) != swap;
  }

  /** No single hit turns a third block of one version into one of the other. */
  lemma SingleHitIsNoSwap(place: nat)
    requires place < BLOCK_BITS
    ensures Syndrome(Single(place)) != VERSION_SWAP
  {
    SyndromeOfSingle(place);
    NoPowerSwaps(BLOCK_BITS - 1 - place);
    VersionSwapBits();
  }

  lemma SingleIsBurst(place: nat)
    requires place < BLOCK_BITS
    ensures BurstWithin(Single(place), 10)
  {
    assert Single(place)[place];
  }

  lemma OffsetC()
    ensures C.Word() == [false, true, false, true, true, false, true, false, false, false]
  {
  }

  lemma OffsetCPrime()
    ensures CPrime.Word() == [true, true, false, true, false, true, false, false, false, false]
  {
  }

  lemma SwapBits(c: Bits, cPrime: Bits)
    requires c == [false, true, false, true, true, false, true, false, false, false]
    requires cPrime == [true, true, false, true, false, true, false, false, false, false]
    ensures Xor(c, cPrime) == [true, false, false, false, true, true, true, false, false, false]
    ensures Xor(cPrime, c) == Xor(c, cPrime)
  {
  }

  lemma SwapWord()
    ensures Xor(C.Word(), CPrime.Word()) == VERSION_SWAP
    ensures Xor(CPrime.Word(), C.Word()) == VERSION_SWAP
  {
    OffsetC();
    OffsetCPrime();
    SwapBits(C.Word(), CPrime.Word());
    VersionSwapBits();
  }

  lemma XorIdentity(a: Bits, e: Bits)
    requires |a| == |e|
    ensures Xor(a, e) == a <==> e == Zeros(|e|)
  {
    if Xor(a, e) == a {
      forall i | 0 <= i < |e| ensures !e[i] {
        assert Xor(a, e)[i] == a[i];
      }
      assert e == Zeros(|e|);
    }
    if e == Zeros(|e|) {
      assert Xor(a, e) == a;
    }
  }

  lemma HitSyndrome(info: Bits, offset: Offset, e: Bits)
    requires |info| == INFO_BITS && |e| == BLOCK_BITS
    ensures Syndrome(Xor(Encode(info, offset), e)) == Xor(offset.Word(), Syndrome(e))
  {
    EncodeRoundTrips(info, offset);
    SyndromeIsLinear(Encode(info, offset), e);
  }

  lemma SwapPasses(offset: Offset, syndrome: Bits)
    requires offset == C || offset == CPrime
    requires |syndrome| == CHECK_BITS
    ensures Xor(offset.Word(), syndrome) == (if offset == C then CPrime else C).Word() <==> syndrome == VERSION_SWAP
  {
    SwapWord();
    XorSwap(C.Word(), syndrome, CPrime.Word());
    XorSwap(CPrime.Word(), syndrome, C.Word());
  }

  lemma ValidAtBySyndrome(block: Bits, position: nat)
    requires |block| == BLOCK_BITS
    ensures position % GROUP_BLOCKS == 2 ==>
              (ValidAt(block, position) <==> Syndrome(block) == C.Word() || Syndrome(block) == CPrime.Word())
    ensures position % GROUP_BLOCKS != 2 ==>
              (ValidAt(block, position) <==> Syndrome(block) == AtPosition(position)[0].Word())
  {
    var offsets := AtPosition(position);
    ValidatesBySyndrome(block, offsets[0]);
    ValidatesBySyndrome(block, offsets[|offsets| - 1]);
  }

  lemma ThirdHitPasses(info: Bits, offset: Offset, e: Bits, position: nat)
    requires |info| == INFO_BITS && |e| == BLOCK_BITS && offset in AtPosition(position)
    requires position % GROUP_BLOCKS == 2
    ensures ValidAt(Xor(Encode(info, offset), e), position)
       <==> Syndrome(e) == Zeros(CHECK_BITS) || Syndrome(e) == VERSION_SWAP
  {
    HitSyndrome(info, offset, e);
    ValidAtBySyndrome(Xor(Encode(info, offset), e), position);
    XorIdentity(offset.Word(), Syndrome(e));
    SwapPasses(offset, Syndrome(e));
  }

  lemma OtherHitPasses(info: Bits, offset: Offset, e: Bits, position: nat)
    requires |info| == INFO_BITS && |e| == BLOCK_BITS && offset in AtPosition(position)
    requires position % GROUP_BLOCKS != 2
    ensures ValidAt(Xor(Encode(info, offset), e), position) <==> Syndrome(e) == Zeros(CHECK_BITS)
  {
    HitSyndrome(info, offset, e);
    ValidAtBySyndrome(Xor(Encode(info, offset), e), position);
    XorIdentity(offset.Word(), Syndrome(e));
  }

  /**
    * A hit block still validates at its position exactly when the error divides evenly, or when
    * it is a third block and the error's remainder swaps the two versions.
    */
  lemma HitPassesExactly(info: Bits, offset: Offset, e: Bits, position: nat)
    requires |info| == INFO_BITS && |e| == BLOCK_BITS && offset in AtPosition(position)
    ensures ValidAt(Xor(Encode(info, offset), e), position)
       <==> Syndrome(e) == Zeros(CHECK_BITS) || (position % GROUP_BLOCKS == 2 && Syndrome(e) == VERSION_SWAP)
  {
    if position % GROUP_BLOCKS == 2 {
      ThirdHitPasses(info, offset, e, position);
    } else {
      OtherHitPasses(info, offset, e, position);
    }
  }

  /** A seven-bit burst that the third position lets through: the reason bursts are only promised elsewhere. */
  lemma BurstSwapsVersions(info: Bits)
    requires |info| == INFO_BITS
    ensures BurstWithin(Pad(VERSION_SWAP), 7)
    ensures ValidAt(Xor(Encode(info, C), Pad(VERSION_SWAP)), 2)
  {
    VersionSwapBits();
    assert Pad(VERSION_SWAP)[16];
    SyndromeOfPad(VERSION_SWAP);
    HitPassesExactly(info, C, Pad(VERSION_SWAP), 2);
  }

  // Whole streams.

  function ReadBlock(bits: Bits, position: nat): (r: Option<Bits>)
    ensures r.Some? ==> |r.value| == BLOCK_BITS
  {
    if position + BLOCK_BITS <= |bits| then Some(bits[position..position + BLOCK_BITS]) else None
  }

  predicate BlockFits(bits: Bits, position: nat, index: nat) {
    var block := ReadBlock(bits, position);
    block.Some? && ValidAt(block.value, index)
  }

  predicate SyncsAt(bits: Bits, start: nat) {
    forall index :: 0 <= index < SYNC_GROUPS * GROUP_BLOCKS ==> BlockFits(bits, start + index * BLOCK_BITS, index)
  }

  /** The first place in `from..to` that passes. */
  function FirstFrom(passes: nat -> bool, from: nat, to: nat): Option<nat>
    decreases to - from
  {
    if from >= to then None
    else if passes(from) then Some(from)
    else FirstFrom(passes, from + 1, to)
  }

  lemma {:induction false} FirstFromFinds(passes: nat -> bool, from: nat, to: nat, s: nat)
    requires from <= s < to && passes(s)
    ensures FirstFrom(passes, from, to).Some?
    ensures var r := FirstFrom(passes, from, to).value; from <= r <= s && passes(r)
    decreases s - from
  {
    if !passes(from) {
      FirstFromFinds(passes, from + 1, to, s);
    }
  }

  function SyncingIn(bits: Bits): nat -> bool {
    (start: nat) => SyncsAt(bits, start)
  }

  function FindSync(bits: Bits): Option<nat> {
    FirstFrom(SyncingIn(bits), 0, BLOCK_BITS * GROUP_BLOCKS)
  }

  /** The scan misses no alignment within one group and never passes over an earlier one. */
  lemma FindSyncIsFirst(bits: Bits, s: nat)
    requires s < BLOCK_BITS * GROUP_BLOCKS && SyncsAt(bits, s)
    ensures FindSync(bits).Some? && FindSync(bits).value <= s && SyncsAt(bits, FindSync(bits).value)
  {
    FirstFromFinds(SyncingIn(bits), 0, BLOCK_BITS * GROUP_BLOCKS, s);
  }

  /** Two groups in a row, eight blocks of 26 bits, from this bit on. */
  ghost predicate TwoGroupsAt(bits: Bits, start: nat) {
    forall index: nat :: index < 8 ==> GroupBlockAt(bits, start, index)
  }

  predicate GroupBlockAt(bits: Bits, start: nat, index: nat) {
    start + 26 * index + 26 <= |bits| && PassesAt(bits[start + 26 * index..start + 26 * index + 26], index)
  }

  lemma SyncIsTwoGroups(bits: Bits, start: nat)
    ensures SyncsAt(bits, start) <==> TwoGroupsAt(bits, start)
  {
    forall index: nat | index < 8
      ensures BlockFits(bits, start + index * BLOCK_BITS, index) <==> GroupBlockAt(bits, start, index)
    {
      BlockFitsInGroup(bits, start, start + index * BLOCK_BITS, index);
    }
    if TwoGroupsAt(bits, start) {
      forall index | 0 <= index < SYNC_GROUPS * GROUP_BLOCKS
        ensures BlockFits(bits, start + index * BLOCK_BITS, index) {
        assert GroupBlockAt(bits, start, index);
      }
    }
  }

  lemma BlockFitsInGroup(bits: Bits, start: nat, position: nat, index: nat)
    requires position == start + 26 * index
    ensures BlockFits(bits, position, index) <==> GroupBlockAt(bits, start, index)
  {
    if position + 26 <= |bits| {
      ValidInGroupOrder(bits[position..position + 26], index);
    }
  }

  lemma {:induction false} FirstFromPasses(passes: nat -> bool, low: nat, high: nat)
    ensures FirstFrom(passes, low, high).Some? ==> IsFirst(passes, low, high, FirstFrom(passes, low, high).value)
    decreases high - low
  {
    if low < high && !passes(low) {
      FirstFromPasses(passes, low + 1, high);
    }
  }

  ghost predicate IsFirst(passes: nat -> bool, low: nat, high: nat, r: nat) {
    low <= r < high && passes(r) && forall s: nat :: low <= s < r ==> !passes(s)
  }

  lemma FoundIsFirst(bits: Bits, start: nat)
    requires FindSync(bits) == Some(start)
    ensures start < 104 && TwoGroupsAt(bits, start) && forall s: nat :: s < start ==> !TwoGroupsAt(bits, s)
  {
    FirstFromPasses(SyncingIn(bits), 0, BLOCK_BITS * GROUP_BLOCKS);
    assert IsFirst(SyncingIn(bits), 0, BLOCK_BITS * GROUP_BLOCKS, start);
    SyncIsTwoGroups(bits, start);
    forall s: nat | s < start ensures !TwoGroupsAt(bits, s) {
      SyncIsTwoGroups(bits, s);
      assert !SyncingIn(bits)(s);
    }
  }

  /** Synchronisation is found at a bit exactly when two groups lie there and at no earlier one of the first 104. */
  lemma FindSyncIsExact(bits: Bits, start: nat)
    ensures FindSync(bits) == Some(start) <==>
      start < 104 && TwoGroupsAt(bits, start) && forall s: nat :: s < start ==> !TwoGroupsAt(bits, s)
  {
    if FindSync(bits) == Some(start) {
      FoundIsFirst(bits, start);
    }
    if start < 104 && TwoGroupsAt(bits, start) {
      SyncIsTwoGroups(bits, start);
      FindSyncIsFirst(bits, start);
      FoundIsFirst(bits, FindSync(bits).value);
    }
  }

  datatype Decode = Decode(good: nat, bad: nat)

  function Counted(valid: bool, rest: Decode): Decode {
    if valid then Decode(rest.good + 1, rest.bad) else Decode(rest.good, rest.bad + 1)
  }

  /** How many of `k..n` pass and how many do not. */
  function CountFrom(passes: nat -> bool, k: nat, n: nat): (r: Decode)
    ensures k <= n ==> r.good + r.bad == n - k
    decreases n - k
  {
    if k >= n then Decode(0, 0) else Counted(passes(k), CountFrom(passes, k + 1, n))
  }

  lemma {:induction false} CountsAgree(p: nat -> bool, q: nat -> bool, k: nat, n: nat)
    requires forall i: nat :: k <= i < n ==> p(i) == q(i)
    ensures CountFrom(p, k, n) == CountFrom(q, k, n)
    decreases n - k
  {
    if k < n {
      CountsAgree(p, q, k + 1, n);
    }
  }

  ghost function PassingFrom(passes: nat -> bool, k: nat, n: nat): set<nat> {
    set i: nat | k <= i < n && passes(i)
  }

  /** Good is how many pass, and bad is how many do not. */
  lemma {:induction false} CountIsExact(passes: nat -> bool, k: nat, n: nat)
    requires k <= n
    ensures CountFrom(passes, k, n).good == |PassingFrom(passes, k, n)|
    ensures CountFrom(passes, k, n).bad == n - k - |PassingFrom(passes, k, n)|
    decreases n - k
  {
    if k < n {
      CountIsExact(passes, k + 1, n);
      var rest := PassingFrom(passes, k + 1, n);
      if passes(k) {
        assert PassingFrom(passes, k, n) == rest + {k};
      } else {
        assert PassingFrom(passes, k, n) == rest;
      }
    } else {
      assert PassingFrom(passes, k, n) == {};
    }
  }

  function WholeBlocks(bits: Bits, start: nat): nat {
    if |bits| < start then 0 else (|bits| - start) / BLOCK_BITS
  }

  function FittingIn(bits: Bits, start: nat): nat -> bool {
    (index: nat) => BlockFits(bits, start + index * BLOCK_BITS, index)
  }

  function DecodeOf(bits: Bits): Option<Decode> {
    match FindSync(bits)
    case None => None
    case Some(start) => Some(CountFrom(FittingIn(bits, start), 0, WholeBlocks(bits, start)))
  }

  /** The whole blocks from a synchronisation on that pass where they stand in the group. */
  ghost function PassingBlocks(bits: Bits, start: nat): (blocks: set<nat>) {
    set k: nat | k < (|bits| - start) / 26 && GroupBlockAt(bits, start, k)
  }

  lemma FittingIsPassing(bits: Bits, start: nat, n: nat)
    requires start <= |bits| && n == (|bits| - start) / 26
    ensures PassingFrom(FittingIn(bits, start), 0, n) == PassingBlocks(bits, start)
  {
    forall k: nat | k < n ensures FittingIn(bits, start)(k) <==> GroupBlockAt(bits, start, k) {
      FittingInGroup(bits, start, k);
    }
    SamePassing(FittingIn(bits, start), bits, start, n);
  }

  lemma FittingInGroup(bits: Bits, start: nat, k: nat)
    ensures FittingIn(bits, start)(k) <==> GroupBlockAt(bits, start, k)
  {
    BlockFitsInGroup(bits, start, start + k * BLOCK_BITS, k);
  }

  lemma SamePassing(passes: nat -> bool, bits: Bits, start: nat, n: nat)
    requires start <= |bits| && n == (|bits| - start) / 26
    requires forall k: nat :: k < n ==> (passes(k) <==> GroupBlockAt(bits, start, k))
    ensures PassingFrom(passes, 0, n) == PassingBlocks(bits, start)
  {
  }

  /** Whatever comes in: what is decoded is every whole block from the synchronisation on, good if it passes. */
  lemma DecodeIsExact(bits: Bits, start: nat)
    requires FindSync(bits) == Some(start) && start <= |bits|
    ensures DecodeOf(bits).Some?
    ensures DecodeOf(bits).value.good == |PassingBlocks(bits, start)|
    ensures DecodeOf(bits).value.good + DecodeOf(bits).value.bad == (|bits| - start) / 26
  {
    var n: nat := (|bits| - start) / 26;
    CountIsExact(FittingIn(bits, start), 0, n);
    FittingIsPassing(bits, start, n);
  }

  lemma ReadsWholeBlocks(bits: Bits, start: nat, index: nat)
    ensures ReadBlock(bits, start + index * BLOCK_BITS).Some? <==> index < WholeBlocks(bits, start)
  {
  }

  lemma FittingIsValid(bits: Bits, start: nat, index: nat)
    requires ReadBlock(bits, start + index * BLOCK_BITS).Some?
    ensures FittingIn(bits, start)(index) == ValidAt(ReadBlock(bits, start + index * BLOCK_BITS).value, index)
  {
  }

  /** What was counted so far, and what is left to count from `k` on. */
  predicate Together(whole: Decode, sofar: Decode, passes: nat -> bool, k: nat, n: nat) {
    var rest := CountFrom(passes, k, n);
    whole == Decode(sofar.good + rest.good, sofar.bad + rest.bad)
  }

  lemma CountSteps(whole: Decode, sofar: Decode, passes: nat -> bool, k: nat, next: nat, n: nat)
    requires k < n && next == k + 1 && Together(whole, sofar, passes, k, n)
    ensures Together(whole, Counted(passes(k), sofar), passes, next, n)
  {
  }

  /** Whether block `index` validates, or nothing when the bits do not reach that far. */
  method CheckBlock(bits: Bits, start: nat, index: nat, ghost passes: nat -> bool) returns (valid: Option<bool>)
    requires passes == FittingIn(bits, start)
    ensures valid.Some? <==> index < WholeBlocks(bits, start)
    ensures valid.Some? ==> valid.value == passes(index)
  {
    var block := ReadBlock(bits, start + index * BLOCK_BITS);
    ReadsWholeBlocks(bits, start, index);
    if block.None? {
      return None;
    }
    FittingIsValid(bits, start, index);
    valid := Some(ValidAt(block.value, index));
  }

  method CountBlocks(bits: Bits, start: nat) returns (r: Decode)
    ensures r == CountFrom(FittingIn(bits, start), 0, WholeBlocks(bits, start))
  {
    ghost var passes, n := FittingIn(bits, start), WholeBlocks(bits, start);
    ghost var whole := CountFrom(passes, 0, n);
    r := Decode(0, 0);
    var index := 0;
    while true
      invariant index <= n && Together(whole, r, passes, index, n)
      decreases n - index
    {
      var valid := CheckBlock(bits, start, index, passes);
      if valid.None? {
        break;
      }
      CountSteps(whole, r, passes, index, index + 1, n);
      if valid.value {
        r := r.(good := r.good + 1);
      } else {
        r := r.(bad := r.bad + 1);
      }
      index := index + 1;
    }
  }

  method DecodeStream(bits: Bits) returns (r: Option<Decode>)
    ensures r == DecodeOf(bits)
  {
    var sync := FindSync(bits);
    if sync.None? {
      return None;
    }
    var counts := CountBlocks(bits, sync.value);
    r := Some(counts);
  }

  // What a receiver gets: encoded blocks, errors added bit by bit, and a block cut short.

  datatype Sent = Sent(info: Bits, offset: Offset)

  /** Groups of four blocks with A, B, C or C' and D, one after another. */
  ghost predicate WellFormed(sent: seq<Sent>) {
    forall k :: 0 <= k < |sent| ==>
      && |sent[k].info| == 16
      && (k % 4 == 0 ==> sent[k].offset == A)
      && (k % 4 == 1 ==> sent[k].offset == B)
      && (k % 4 == 2 ==> sent[k].offset == C || sent[k].offset == CPrime)
      && (k % 4 == 3 ==> sent[k].offset == D)
  }

  lemma SentInPosition(sent: seq<Sent>, k: nat)
    requires WellFormed(sent) && k < |sent|
    ensures sent[k].offset in AtPosition(k)
  {
  }

  function EncodeAll(sent: seq<Sent>): (blocks: seq<Bits>)
    requires forall k :: 0 <= k < |sent| ==> |sent[k].info| == INFO_BITS
    ensures |blocks| == |sent|
    ensures forall k :: 0 <= k < |sent| ==> |blocks[k]| == BLOCK_BITS
    ensures forall k :: 0 <= k < |sent| ==> blocks[k] == Encode(sent[k].info, sent[k].offset)
  {
    seq(|sent|, k requires 0 <= k < |sent| => Encode(sent[k].info, sent[k].offset))
  }

  function Flatten(blocks: seq<Bits>): (bits: Bits)
    requires forall k :: 0 <= k < |blocks| ==> |blocks[k]| == BLOCK_BITS
    ensures |bits| == BLOCK_BITS * |blocks|
  {
    if blocks == [] then [] else Flatten(blocks[..|blocks| - 1]) + blocks[|blocks| - 1]
  }

  function Transmit(sent: seq<Sent>): (bits: Bits)
    requires forall k :: 0 <= k < |sent| ==> |sent[k].info| == INFO_BITS
    ensures |bits| == BLOCK_BITS * |sent|
  {
    Flatten(EncodeAll(sent))
  }

  function BlockOf(bits: Bits, k: nat): (block: Bits)
    requires BLOCK_BITS * (k + 1) <= |bits|
    ensures |block| == BLOCK_BITS
  {
    bits[BLOCK_BITS * k..BLOCK_BITS * (k + 1)]
  }

  /** A block is clean or takes one hit; outside the third position it may take a burst of ten bits or fewer. */
  ghost predicate Tolerable(e: Bits, position: nat) {
    || Clean(e)
    || (exists place: nat :: place < BLOCK_BITS && e == Single(place))
    || (position % GROUP_BLOCKS != 2 && BurstWithin(e, 10))
  }

  ghost predicate TolerableStream(errors: Bits, blocks: nat)
    requires |errors| == BLOCK_BITS * blocks
  {
    && (forall k :: 0 <= k < blocks ==> Tolerable(BlockOf(errors, k), k))
    && (forall k :: 0 <= k < blocks && k < SYNC_GROUPS * GROUP_BLOCKS ==> Clean(BlockOf(errors, k)))
  }

  function Received(sent: seq<Sent>, errors: Bits, tail: Bits): (bits: Bits)
    requires forall k :: 0 <= k < |sent| ==> |sent[k].info| == INFO_BITS
    requires |errors| == BLOCK_BITS * |sent|
    ensures |bits| == 26 * |sent| + |tail| && bits[26 * |sent|..] == tail
  {
    Xor(Transmit(sent), errors) + tail
  }

  /** Which blocks no error touched. */
  function UntouchedIn(errors: Bits): nat -> bool {
    (k: nat) => BLOCK_BITS * (k + 1) <= |errors| && Clean(BlockOf(errors, k))
  }

  lemma BlocksOfConcat(a: Bits, b: Bits, k: nat)
    requires BLOCK_BITS * (k + 1) <= |a|
    ensures BlockOf(a + b, k) == BlockOf(a, k)
  {
  }

  lemma LastBlock(a: Bits, b: Bits, k: nat)
    requires |a| == BLOCK_BITS * k && |b| == BLOCK_BITS
    ensures BlockOf(a + b, k) == b
  {
  }

  lemma {:induction false} FlattenedBlock(blocks: seq<Bits>, k: nat)
    requires forall i :: 0 <= i < |blocks| ==> |blocks[i]| == BLOCK_BITS
    requires k < |blocks|
    ensures BlockOf(Flatten(blocks), k) == blocks[k]
  {
    var n := |blocks| - 1;
    if k < n {
      FlattenedBlock(blocks[..n], k);
      BlocksOfConcat(Flatten(blocks[..n]), blocks[n], k);
    } else {
      LastBlock(Flatten(blocks[..n]), blocks[n], k);
    }
  }

  lemma TransmittedBlock(sent: seq<Sent>, k: nat)
    requires WellFormed(sent) && k < |sent|
    ensures BlockOf(Transmit(sent), k) == Encode(sent[k].info, sent[k].offset)
  {
    FlattenedBlock(EncodeAll(sent), k);
  }

  lemma BlockOfXor(a: Bits, b: Bits, k: nat)
    requires |a| == |b| && BLOCK_BITS * (k + 1) <= |a|
    ensures BlockOf(Xor(a, b), k) == Xor(BlockOf(a, k), BlockOf(b, k))
  {
  }

  lemma ReadIsBlock(bits: Bits, k: nat)
    requires BLOCK_BITS * (k + 1) <= |bits|
    ensures ReadBlock(bits, 0 + k * BLOCK_BITS) == Some(BlockOf(bits, k))
  {
  }

  lemma ReceivedBlock(sent: seq<Sent>, errors: Bits, tail: Bits, k: nat)
    requires WellFormed(sent) && k < |sent| && |errors| == BLOCK_BITS * |sent|
    ensures ReadBlock(Received(sent, errors, tail), 0 + k * BLOCK_BITS)
         == Some(Xor(Encode(sent[k].info, sent[k].offset), BlockOf(errors, k)))
  {
    var sound := Xor(Transmit(sent), errors);
    TransmittedBlock(sent, k);
    BlockOfXor(Transmit(sent), errors, k);
    BlocksOfConcat(sound, tail, k);
    ReadIsBlock(sound + tail, k);
  }

  /** What the decoder reads as block `k`, and what it makes of it. */
  lemma BlockVerdict(sent: seq<Sent>, errors: Bits, tail: Bits, k: nat)
    requires WellFormed(sent) && |errors| == BLOCK_BITS * |sent| && TolerableStream(errors, |sent|)
    requires k < |sent|
    ensures ReadBlock(Received(sent, errors, tail), 0 + k * BLOCK_BITS).Some?
    ensures ValidAt(ReadBlock(Received(sent, errors, tail), 0 + k * BLOCK_BITS).value, k) <==> Clean(BlockOf(errors, k))
  {
    ReceivedBlock(sent, errors, tail, k);
    SentInPosition(sent, k);
    TolerableIsDetected(sent[k].info, sent[k].offset, BlockOf(errors, k), k);
  }

  lemma CleanHasNoSyndrome(e: Bits)
    requires |e| == BLOCK_BITS && Clean(e)
    ensures Syndrome(e) == Zeros(CHECK_BITS)
  {
    assert e == Pad(Zeros(CHECK_BITS));
    SyndromeOfPad(Zeros(CHECK_BITS));
  }

  /** Within tolerance, a block passes exactly when nothing hit it. */
  lemma TolerableIsDetected(info: Bits, offset: Offset, e: Bits, position: nat)
    requires |info| == INFO_BITS && |e| == BLOCK_BITS && offset in AtPosition(position)
    requires Tolerable(e, position)
    ensures ValidAt(Xor(Encode(info, offset), e), position) <==> Clean(e)
  {
    HitPassesExactly(info, offset, e, position);
    if Clean(e) {
      CleanHasNoSyndrome(e);
    } else if place: nat :| place < BLOCK_BITS && e == Single(place) {
      SingleIsBurst(place);
      BurstHasSyndrome(e);
      SingleHitIsNoSwap(place);
    } else {
      BurstHasSyndrome(e);
    }
  }

  lemma SyncsAtTheStart(sent: seq<Sent>, errors: Bits, tail: Bits)
    requires WellFormed(sent) && |errors| == BLOCK_BITS * |sent| && TolerableStream(errors, |sent|)
    requires |sent| >= SYNC_GROUPS * GROUP_BLOCKS
    ensures SyncsAt(Received(sent, errors, tail), 0)
  {
    forall index | 0 <= index < SYNC_GROUPS * GROUP_BLOCKS
      ensures BlockFits(Received(sent, errors, tail), 0 + index * BLOCK_BITS, index)
    {
      BlockVerdict(sent, errors, tail, index);
    }
  }

  lemma VerdictsFollow(sent: seq<Sent>, errors: Bits, tail: Bits)
    requires WellFormed(sent) && |errors| == BLOCK_BITS * |sent| && TolerableStream(errors, |sent|)
    ensures forall k: nat :: k < |sent| ==> FittingIn(Received(sent, errors, tail), 0)(k) == UntouchedIn(errors)(k)
  {
    forall k: nat | k < |sent| ensures FittingIn(Received(sent, errors, tail), 0)(k) == UntouchedIn(errors)(k) {
      BlockVerdict(sent, errors, tail, k);
    }
  }

  lemma FindsTheStart(sent: seq<Sent>, errors: Bits, tail: Bits)
    requires WellFormed(sent) && |errors| == BLOCK_BITS * |sent| && TolerableStream(errors, |sent|)
    requires |sent| >= SYNC_GROUPS * GROUP_BLOCKS
    ensures FindSync(Received(sent, errors, tail)) == Some(0)
  {
    SyncsAtTheStart(sent, errors, tail);
    FindSyncIsFirst(Received(sent, errors, tail), 0);
  }

  lemma VerdictsAgree(sent: seq<Sent>, errors: Bits, tail: Bits)
    requires WellFormed(sent) && |errors| == BLOCK_BITS * |sent| && TolerableStream(errors, |sent|)
    ensures CountFrom(FittingIn(Received(sent, errors, tail), 0), 0, |sent|)
      == CountFrom(UntouchedIn(errors), 0, |sent|)
  {
    VerdictsFollow(sent, errors, tail);
    CountsAgree(FittingIn(Received(sent, errors, tail), 0), UntouchedIn(errors), 0, |sent|);
  }

  lemma WholeBlocksOf(bits: Bits, n: nat)
    requires BLOCK_BITS * n <= |bits| < BLOCK_BITS * (n + 1)
    ensures WholeBlocks(bits, 0) == n
  {
  }

  lemma DecodeFromStart(bits: Bits, n: nat)
    requires FindSync(bits) == Some(0) && WholeBlocks(bits, 0) == n
    ensures DecodeOf(bits) == Some(CountFrom(FittingIn(bits, 0), 0, n))
  {
  }

  /** The blocks no error touched. */
  ghost function UntouchedBlocks(errors: Bits, blocks: nat): set<nat>
    requires |errors| == 26 * blocks
  {
    set k: nat | k < blocks && forall i :: 26 * k <= i < 26 * k + 26 ==> !errors[i]
  }

  lemma UntouchedAre(errors: Bits, blocks: nat)
    requires |errors| == BLOCK_BITS * blocks
    ensures PassingFrom(UntouchedIn(errors), 0, blocks) == UntouchedBlocks(errors, blocks)
  {
    forall k: nat | k < blocks
      ensures UntouchedIn(errors)(k) <==> forall i :: 26 * k <= i < 26 * k + 26 ==> !errors[i]
    {
      var block := BlockOf(errors, k);
      forall i | 26 * k <= i < 26 * k + 26 ensures errors[i] == block[i - 26 * k] {
      }
      if !Clean(block) {
        var j :| 0 <= j < |block| && block[j];
        assert errors[26 * k + j];
      }
    }
  }

  /**
    * Two clean groups and then any number of blocks within tolerance: the stream synchronises at
    * its first bit, every block a hit touched is counted bad, every other block good.
    */
  lemma DecodeCountsEveryHit(sent: seq<Sent>, errors: Bits, tail: Bits)
    requires WellFormed(sent) && |errors| == 26 * |sent| && TolerableStream(errors, |sent|)
    requires |sent| >= 8 && |tail| < 26
    ensures FindSync(Received(sent, errors, tail)) == Some(0)
    ensures DecodeOf(Received(sent, errors, tail)).Some?
    ensures DecodeOf(Received(sent, errors, tail)).value.good == |UntouchedBlocks(errors, |sent|)|
    ensures DecodeOf(Received(sent, errors, tail)).value.bad == |sent| - |UntouchedBlocks(errors, |sent|)|
  {
    FindsTheStart(sent, errors, tail);
    DecodeCounts(sent, errors, tail);
    CountIsExact(UntouchedIn(errors), 0, |sent|);
    UntouchedAre(errors, |sent|);
  }

  lemma DecodeCounts(sent: seq<Sent>, errors: Bits, tail: Bits)
    requires WellFormed(sent) && |errors| == BLOCK_BITS * |sent| && TolerableStream(errors, |sent|)
    requires |sent| >= SYNC_GROUPS * GROUP_BLOCKS && |tail| < BLOCK_BITS
    ensures DecodeOf(Received(sent, errors, tail)) == Some(CountFrom(UntouchedIn(errors), 0, |sent|))
  {
    FindsTheStart(sent, errors, tail);
    VerdictsAgree(sent, errors, tail);
    WholeBlocksOf(Received(sent, errors, tail), |sent|);
    DecodeFromStart(Received(sent, errors, tail), |sent|);
  }

  // Differential coding, undone before any of this.

  function DifferentialEncode(data: Bits, previous: bool): Bits {
    if data == [] then [] else [data[0] != previous] + DifferentialEncode(data[1..], data[0] != previous)
  }

  function DifferentialDecode(transmitted: Bits, previous: bool): Bits {
    if transmitted == [] then []
    else [transmitted[0] != previous] + DifferentialDecode(transmitted[1..], transmitted[0])
  }

  /** A decoded bit says whether the transmitted one differs from the one before it. */
  lemma {:induction false} DecodedBitAt(transmitted: Bits, previous: bool, i: nat)
    requires i < |transmitted|
    ensures |DifferentialDecode(transmitted, previous)| == |transmitted|
    ensures DifferentialDecode(transmitted, previous)[i]
       <==> transmitted[i] != if i == 0 then previous else transmitted[i - 1]
    decreases |transmitted|
  {
    if |transmitted| > 1 {
      DecodedBitAt(transmitted[1..], transmitted[0], if i == 0 then 0 else i - 1);
    }
  }

  method UndoDifferential(transmitted: Bits) returns (data: Bits)
    ensures data == DifferentialDecode(transmitted, false)
  {
    data := [];
    var previous := false;
    for i := 0 to |transmitted|
      invariant data + DifferentialDecode(transmitted[i..], previous) == DifferentialDecode(transmitted, false)
    {
      assert transmitted[i..][1..] == transmitted[i + 1..];
      data := data + [transmitted[i] != previous];
      previous := transmitted[i];
    }
  }

  function Inverted(bits: Bits): (r: Bits)
    ensures |r| == |bits|
  {
    seq(|bits|, i requires 0 <= i < |bits| => !bits[i])
  }

  /** Decoding undoes encoding, and an inverted subcarrier changes nothing once both sides agree it is inverted. */
  lemma {:induction false} DifferentialRoundTrips(data: Bits, previous: bool)
    ensures DifferentialDecode(DifferentialEncode(data, previous), previous) == data
    ensures DifferentialDecode(Inverted(DifferentialEncode(data, previous)), !previous) == data
  {
    if data != [] {
      var first := data[0] != previous;
      DifferentialRoundTrips(data[1..], first);
      var sent := DifferentialEncode(data, previous);
      assert sent[1..] == DifferentialEncode(data[1..], first);
      assert Inverted(sent)[1..] == Inverted(sent[1..]);
      assert [data[0]] + data[1..] == data;
    }
  }

  /** A receiver that starts from the wrong polarity loses the first bit and no other. */
  lemma InversionCostsOneBit(data: Bits)
    requires data != []
    ensures var heard := DifferentialDecode(Inverted(DifferentialEncode(data, false)), false);
            heard != [] && heard[1..] == data[1..] && heard[0] != data[0]
  {
    var sent := DifferentialEncode(data, false);
    assert sent[1..] == DifferentialEncode(data[1..], data[0]);
    assert Inverted(sent)[1..] == Inverted(sent[1..]);
    DifferentialRoundTrips(data[1..], data[0]);
  }
}
