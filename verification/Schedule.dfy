/**
  * When a node is told to report: a slot of the fleet's cycle picked by its number, sent as a server
  * instant and waited for as a gap between two server stamps.
  */
module Schedule {
  import opened Wrappers
  import opened Integers
  import opened Fleet

  const U64_SPAN := 0x1_0000_0000_0000_0000

  const DEFAULT_CYCLE_MS := 60_000
  const SLOT_SPREAD := 2_654_435_761

  /** The cycles an operator may set, in seconds. */
  const MIN_REPORT_INTERVAL := 5
  const MAX_REPORT_INTERVAL := 300

  /** The first and last millisecond of the server's calendar. */
  const FIRST_MILLI := -8_334_601_228_800_000
  const LAST_MILLI := 8_210_266_876_799_999

  const MAX_DEFERRAL := 300_000_000_000
  const MAX_LIVE_SESSION := 600_000_000_000
  const MIN_LIVE_INTERVAL := 500_000_000

  function Saturate(x: int): int {
    if x > I64_MAX then I64_MAX else if x < I64_MIN then I64_MIN else x
  }

  /** What 64 bits do not hold becomes the end that is nearest to it. */
  lemma SaturateIsExact(x: int)
    ensures -0x8000_0000_0000_0000 <= Saturate(x) <= 0x7FFF_FFFF_FFFF_FFFF
    ensures x <= 0x7FFF_FFFF_FFFF_FFFF ==> x <= Saturate(x)
    ensures x >= -0x8000_0000_0000_0000 ==> Saturate(x) <= x
    ensures x > 0x7FFF_FFFF_FFFF_FFFF ==> Saturate(x) == 0x7FFF_FFFF_FFFF_FFFF
    ensures x < -0x8000_0000_0000_0000 ==> Saturate(x) == -0x8000_0000_0000_0000
  {
  }

  function Wrap(x: int): int {
    (x - I64_MIN) % U64_SPAN + I64_MIN
  }

  function CycleOf(cycleMs: int): (cycle: int)
    ensures cycle > 0
  {
    if cycleMs > 0 then cycleMs else DEFAULT_CYCLE_MS
  }

  /** The node's place in a cycle. */
  function SlotOf(node: int, cycle: int): (slot: int)
    requires cycle > 0
    ensures 0 <= slot < cycle
  {
    Wrap(node * SLOT_SPREAD) % cycle
  }

  /** The next report instant in milliseconds, if the calendar has it. */
  function ReportSchedule(node: int, millis: int, cycleMs: int): Option<int> {
    var cycle := CycleOf(cycleMs);
    var slot := SlotOf(node, cycle);
    var cycleStart := Saturate(millis - millis % cycle);
    var first := Saturate(cycleStart + slot);
    var next := if first <= millis then Saturate(first + cycle) else first;
    if FIRST_MILLI <= next <= LAST_MILLI then Some(next) else None
  }

  /** Wrapping brings a number into 64 bits by whole spans of 2^64. */
  lemma WrapIsExact(x: int)
    ensures -0x8000_0000_0000_0000 <= Wrap(x) <= 0x7FFF_FFFF_FFFF_FFFF
    ensures (x - Wrap(x)) % 0x1_0000_0000_0000_0000 == 0
  {
    var k := (x - I64_MIN) / U64_SPAN;
    assert x - Wrap(x) == U64_SPAN * k;
    SameRemainder(x - Wrap(x), 0, U64_SPAN, k);
  }

  /** A node's place in a cycle, in plain numbers. */
  lemma SlotIsExact(node: int, cycle: int)
    requires cycle > 0
    ensures 0 <= SlotOf(node, cycle) < cycle
    ensures exists product: int ::
      && -0x8000_0000_0000_0000 <= product <= 0x7FFF_FFFF_FFFF_FFFF
      && (node * 2_654_435_761 - product) % 0x1_0000_0000_0000_0000 == 0
      && SlotOf(node, cycle) == product % cycle
  {
    WrapIsExact(node * SLOT_SPREAD);
  }

  lemma SameRemainder(a: int, b: int, m: int, k: int)
    requires m > 0 && a - b == m * k
    ensures a % m == b % m
  {
    var q, r := b / m, b % m;
    assert a == m * (q + k) + r;
    DivisionIsUnique(a, m, q + k, r);
  }

  /** The cycle asked for, or a minute when none is set. */
  lemma CycleIsExact(cycleMs: int)
    ensures CycleOf(cycleMs) == if cycleMs >= 1 then cycleMs else 60_000
  {
  }

  /**
    * Whenever a cycle to either side stays within 64 bits, the schedule is the one instant strictly
    * ahead, by at most a cycle, on the node's slot, and it is given exactly when the calendar has it.
    */
  lemma ScheduleIsExact(node: int, millis: int, cycleMs: int, next: int)
    requires I64_MIN <= millis - CycleOf(cycleMs) && millis + CycleOf(cycleMs) <= I64_MAX
    requires millis < next <= millis + CycleOf(cycleMs) && next % CycleOf(cycleMs) == SlotOf(node, CycleOf(cycleMs))
    ensures ReportSchedule(node, millis, cycleMs)
         == if -8_334_601_228_800_000 <= next <= 8_210_266_876_799_999 then Some(next) else None
  {
    var cycle := CycleOf(cycleMs);
    var slot := SlotOf(node, cycle);
    var start := millis - millis % cycle;
    var first := start + slot;
    var mine := if first <= millis then first + cycle else first;
    assert start == cycle * (millis / cycle);
    DivisionIsUnique(first, cycle, millis / cycle, slot);
    SameRemainder(first + cycle, first, cycle, 1);
    assert mine % cycle == slot && millis < mine <= millis + cycle;
    NearAndEqual(mine, next, cycle);
  }

  /**
    * At any calendar instant and for any cycle that still ends inside the calendar, the schedule is
    * strictly ahead, by at most one cycle, and lies on the node's slot.
    */
  lemma ScheduleHitsTheSlot(node: int, millis: int, cycleMs: int)
    requires FIRST_MILLI <= millis - CycleOf(cycleMs) && millis + CycleOf(cycleMs) <= LAST_MILLI
    ensures var cycle := if cycleMs > 0 then cycleMs else 60_000;
      var next := ReportSchedule(node, millis, cycleMs);
      next.Some? && millis < next.value <= millis + cycle && next.value % cycle == SlotOf(node, cycle)
  {
    var cycle := CycleOf(cycleMs);
    var slot := SlotOf(node, cycle);
    var start := millis - millis % cycle;
    assert start == cycle * (millis / cycle);
    DivisionIsUnique(start + slot, cycle, millis / cycle, slot);
    SameRemainder(start + slot + cycle, start + slot, cycle, 1);
  }

  // Who shares a slot.

  function Gcd(a: nat, b: nat): nat
    decreases b
  {
    if b == 0 then a else Gcd(b, a % b)
  }

  lemma {:induction false} Bezout(a: nat, b: nat) returns (x: int, y: int)
    ensures a * x + b * y == Gcd(a, b)
    decreases b
  {
    if b == 0 {
      x, y := 1, 0;
    } else {
      var u, v := Bezout(b, a % b);
      x, y := v, u - a / b * v;
      BezoutStep(a, b, u, v);
    }
  }

  lemma BezoutStep(a: nat, b: nat, u: int, v: int)
    requires b > 0
    ensures a * v + b * (u - a / b * v) == b * u + a % b * v
  {
    var q, r := a / b, a % b;
    assert a == b * q + r;
    assert a * v == b * q * v + r * v;
    assert b * (u - q * v) == b * u - b * (q * v);
    assert b * (q * v) == b * q * v;
  }

  lemma {:induction false} GcdDivides(a: nat, b: nat) returns (k: nat, l: nat)
    ensures a == Gcd(a, b) * k && b == Gcd(a, b) * l
    decreases b
  {
    if b == 0 {
      k, l := 1, 0;
    } else {
      var m, n := GcdDivides(b, a % b);
      k, l := a / b * m + n, m;
      DivideStep(a, b, Gcd(b, a % b), m, n);
    }
  }

  lemma DivideStep(a: nat, b: nat, g: nat, m: nat, n: nat)
    requires b > 0 && b == g * m && a % b == g * n
    ensures a == g * (a / b * m + n)
  {
    var q := a / b;
    assert a == b * q + a % b;
    assert b * q == g * m * q == g * (q * m);
    assert g * (q * m + n) == g * (q * m) + g * n;
  }

  /** A factor with nothing in common with `m` cancels modulo `m`. */
  lemma Cancels(factor: nat, m: nat, d: int, k: int)
    requires m > 0 && Gcd(factor, m) == 1 && factor * d == m * k
    ensures d % m == 0
  {
    var x, y := Bezout(factor, m);
    CancelAlgebra(factor, m, d, k, x, y);
    SameRemainder(d, 0, m, k * x + d * y);
  }

  lemma CancelAlgebra(factor: int, m: int, d: int, k: int, x: int, y: int)
    requires factor * x + m * y == 1 && factor * d == m * k
    ensures d == m * (k * x + d * y)
  {
    calc {
      d;
      d * (factor * x + m * y);
      d * (factor * x) + d * (m * y);
      factor * d * x + m * (d * y);
      m * k * x + m * (d * y);
      m * (k * x) + m * (d * y);
      m * (k * x + d * y);
    }
  }

  /** The product still fits 64 bits. */
  predicate Fits(node: int) {
    I64_MIN <= node * SLOT_SPREAD <= I64_MAX
  }

  lemma SlotWithoutWrap(node: int, cycle: int)
    requires cycle > 0 && Fits(node)
    ensures SlotOf(node, cycle) == node * SLOT_SPREAD % cycle
  {
    DivisionIsUnique(node * SLOT_SPREAD - I64_MIN, U64_SPAN, 0, node * SLOT_SPREAD - I64_MIN);
  }

  /**
    * With no wrap and a cycle coprime with the multiplier, nodes share a slot exactly when their numbers
    * agree modulo the cycle.
    */
  lemma SlotsSharedExactly(a: int, b: int, cycle: nat)
    requires cycle > 0 && Gcd(SLOT_SPREAD, cycle) == 1 && Fits(a) && Fits(b)
    ensures SlotOf(a, cycle) == SlotOf(b, cycle) <==> a % cycle == b % cycle
  {
    SlotWithoutWrap(a, cycle);
    SlotWithoutWrap(b, cycle);
    if a % cycle == b % cycle {
      AgreeingShare(a, b, cycle);
    }
    if a * SLOT_SPREAD % cycle == b * SLOT_SPREAD % cycle {
      SharingAgree(a, b, cycle);
    }
  }

  lemma AgreeingShare(a: int, b: int, cycle: nat)
    requires cycle > 0 && a % cycle == b % cycle
    ensures a * SLOT_SPREAD % cycle == b * SLOT_SPREAD % cycle
  {
    var k := a / cycle - b / cycle;
    assert a - b == cycle * k;
    assert a * SLOT_SPREAD - b * SLOT_SPREAD == cycle * (k * SLOT_SPREAD) by {
      assert (a - b) * SLOT_SPREAD == cycle * k * SLOT_SPREAD;
    }
    SameRemainder(a * SLOT_SPREAD, b * SLOT_SPREAD, cycle, k * SLOT_SPREAD);
  }

  lemma SharingAgree(a: int, b: int, cycle: nat)
    requires cycle > 0 && Gcd(SLOT_SPREAD, cycle) == 1
    requires a * SLOT_SPREAD % cycle == b * SLOT_SPREAD % cycle
    ensures a % cycle == b % cycle
  {
    var k := a * SLOT_SPREAD / cycle - b * SLOT_SPREAD / cycle;
    assert a * SLOT_SPREAD - b * SLOT_SPREAD == cycle * k;
    Cancels(SLOT_SPREAD, cycle, a - b, k);
    var q := (a - b) / cycle;
    assert a - b == cycle * q;
    SameRemainder(a, b, cycle, q);
  }

  /** Of any `cycle` consecutive numbers, exactly one takes each slot. */
  lemma ConsecutiveNodesFillTheCycle(base: int, cycle: nat, slot: nat) returns (node: int)
    requires slot < cycle && Gcd(SLOT_SPREAD, cycle) == 1
    requires forall id :: base <= id < base + cycle ==> Fits(id)
    ensures base <= node < base + cycle && SlotOf(node, cycle) == slot
    ensures forall other :: base <= other < base + cycle && SlotOf(other, cycle) == slot ==> other == node
  {
    var x, y := Bezout(SLOT_SPREAD, cycle);
    var want := slot * x;
    node := base + (want - base) % cycle;
    var q := (want - base) / cycle;
    assert want - node == cycle * q;
    InverseHits(node, cycle, slot, x, y, q);
    SlotWithoutWrap(node, cycle);
    forall other | base <= other < base + cycle && SlotOf(other, cycle) == slot ensures other == node {
      SlotsSharedExactly(other, node, cycle);
      NearAndEqual(other, node, cycle);
    }
  }

  lemma InverseHits(node: int, cycle: nat, slot: nat, x: int, y: int, q: int)
    requires slot < cycle && SLOT_SPREAD * x + cycle * y == 1 && slot * x - node == cycle * q
    ensures node * SLOT_SPREAD % cycle == slot
  {
    calc {
      node * SLOT_SPREAD;
      (slot * x - cycle * q) * SLOT_SPREAD;
      slot * x * SLOT_SPREAD - cycle * q * SLOT_SPREAD;
      slot * (SLOT_SPREAD * x) - cycle * (q * SLOT_SPREAD);
      slot * (1 - cycle * y) - cycle * (q * SLOT_SPREAD);
      slot - slot * (cycle * y) - cycle * (q * SLOT_SPREAD);
      slot - cycle * (slot * y) - cycle * (q * SLOT_SPREAD);
    }
    assert cycle * (slot * y) + cycle * (q * SLOT_SPREAD) == cycle * (slot * y + q * SLOT_SPREAD);
    SameRemainder(node * SLOT_SPREAD, slot, cycle, -(slot * y + q * SLOT_SPREAD));
    DivisionIsUnique(slot, cycle, 0, slot);
  }

  lemma NearAndEqual(a: int, b: int, m: nat)
    requires m > 0 && a % m == b % m && a - b < m && b - a < m
    ensures a == b
  {
    var d := a / m - b / m;
    assert a - b == m * d;
    MultiplesAreApart(d, m);
  }

  /** A cycle with a factor in common with the multiplier puts different numbers on one slot. */
  lemma CommonFactorCollides(cycle: nat) returns (node: nat)
    requires cycle > 0 && Gcd(SLOT_SPREAD, cycle) > 1 && Fits(cycle)
    ensures 0 < node < cycle && SlotOf(node, cycle) == SlotOf(0, cycle) && node % cycle != 0 % cycle
  {
    var k, l := GcdDivides(SLOT_SPREAD, cycle);
    node := l;
    SmallerFactor(Gcd(SLOT_SPREAD, cycle), k, l, cycle);
    SameRemainder(node * SLOT_SPREAD, 0, cycle, k);
    SlotWithoutWrap(node, cycle);
    SlotWithoutWrap(0, cycle);
    DivisionIsUnique(node, cycle, 0, node);
  }

  lemma SmallerFactor(g: nat, k: nat, l: nat, cycle: nat)
    requires cycle > 0 && g > 1 && cycle == g * l && SLOT_SPREAD == g * k
    ensures 0 < l < cycle && l * SLOT_SPREAD == cycle * k
  {
    assert l == 0 ==> g * l == 0;
    assert g * l == l + (g - 1) * l;
    calc {
      l * SLOT_SPREAD;
      l * (g * k);
      g * l * k;
      cycle * k;
    }
  }

  // Every cycle an operator may set is coprime with the multiplier.

  predicate NoDivisor(n: nat, from: nat, until: nat)
    requires from > 0
    decreases until - from
  {
    from >= until || (n % from != 0 && NoDivisor(n, from + 1, until))
  }

  lemma {:induction false} NoDivisorAt(n: nat, from: nat, until: nat, d: nat)
    requires 0 < from <= d < until && NoDivisor(n, from, until)
    ensures n % d != 0
    decreases until - from
  {
    if from < d {
      NoDivisorAt(n, from + 1, until, d);
    }
  }

  lemma NoDivisorFirstQuarter(d: nat)
    requires 2 <= d < 75
    ensures SLOT_SPREAD % d != 0
  {
    assert NoDivisor(2_654_435_761, 2, 15);
    assert NoDivisor(2_654_435_761, 15, 30);
    assert NoDivisor(2_654_435_761, 30, 45);
    assert NoDivisor(2_654_435_761, 45, 60);
    assert NoDivisor(2_654_435_761, 60, 75);
    NoDivisorAt(2_654_435_761, if d < 15 then 2 else d / 15 * 15, d / 15 * 15 + 15, d);
  }

  lemma NoDivisorSecondQuarter(d: nat)
    requires 75 <= d < 150
    ensures SLOT_SPREAD % d != 0
  {
    assert NoDivisor(2_654_435_761, 75, 90);
    assert NoDivisor(2_654_435_761, 90, 105);
    assert NoDivisor(2_654_435_761, 105, 120);
    assert NoDivisor(2_654_435_761, 120, 135);
    assert NoDivisor(2_654_435_761, 135, 150);
    NoDivisorAt(2_654_435_761, d / 15 * 15, d / 15 * 15 + 15, d);
  }

  lemma NoDivisorThirdQuarter(d: nat)
    requires 150 <= d < 225
    ensures SLOT_SPREAD % d != 0
  {
    assert NoDivisor(2_654_435_761, 150, 165);
    assert NoDivisor(2_654_435_761, 165, 180);
    assert NoDivisor(2_654_435_761, 180, 195);
    assert NoDivisor(2_654_435_761, 195, 210);
    assert NoDivisor(2_654_435_761, 210, 225);
    NoDivisorAt(2_654_435_761, d / 15 * 15, d / 15 * 15 + 15, d);
  }

  lemma NoDivisorFourthQuarter(d: nat)
    requires 225 <= d < 301
    ensures SLOT_SPREAD % d != 0
  {
    assert NoDivisor(2_654_435_761, 225, 240);
    assert NoDivisor(2_654_435_761, 240, 255);
    assert NoDivisor(2_654_435_761, 255, 270);
    assert NoDivisor(2_654_435_761, 270, 285);
    assert NoDivisor(2_654_435_761, 285, 301);
    NoDivisorAt(2_654_435_761, if d < 285 then d / 15 * 15 else 285, if d < 285 then d / 15 * 15 + 15 else 301, d);
  }

  /** The multiplier has no divisor as small as an interval in seconds. */
  lemma SpreadHasNoSmallDivisor(d: nat)
    requires 2 <= d <= MAX_REPORT_INTERVAL
    ensures SLOT_SPREAD % d != 0
  {
    if d < 75 {
      NoDivisorFirstQuarter(d);
    } else if d < 150 {
      NoDivisorSecondQuarter(d);
    } else if d < 225 {
      NoDivisorThirdQuarter(d);
    } else {
      NoDivisorFourthQuarter(d);
    }
  }

  lemma SecondsAreCoprime(seconds: nat)
    requires 0 < seconds <= MAX_REPORT_INTERVAL
    ensures Gcd(SLOT_SPREAD, seconds) == 1
  {
    var g := Gcd(SLOT_SPREAD, seconds);
    var k, l := GcdDivides(SLOT_SPREAD, seconds);
    DivisorIsSmall(g, l, seconds);
    if g > 1 {
      SameRemainder(SLOT_SPREAD, 0, g, k);
      SpreadHasNoSmallDivisor(g);
    }
  }

  lemma DivisorIsSmall(g: nat, l: nat, n: nat)
    requires n > 0 && n == g * l
    ensures 0 < g <= n
  {
    assert g == 0 ==> g * l == 0;
    assert l == 0 ==> g * l == 0;
    assert g * l == g + g * (l - 1);
  }

  lemma ThousandIsCoprime()
    ensures Gcd(SLOT_SPREAD, 1_000) == 1
  {
    assert Gcd(239, 44) == 1;
    assert Gcd(1_000, 761) == 1;
  }

  /** What is coprime with two numbers is coprime with their product. */
  lemma CoprimeWithProduct(n: nat, a: nat, b: nat)
    requires Gcd(n, a) == 1 && Gcd(n, b) == 1
    ensures Gcd(n, a * b) == 1
  {
    var x, y := Bezout(n, a);
    var u, v := Bezout(n, b);
    ProductAlgebra(n, a, b, x, y, u, v);
    var k, l := GcdDivides(n, a * b);
    DividesOne(Gcd(n, a * b), k, l, n, a * b, n * x * u + x * (b * v) + u * (a * y), y * v);
  }

  lemma ProductAlgebra(n: int, a: int, b: int, x: int, y: int, u: int, v: int)
    requires n * x + a * y == 1 && n * u + b * v == 1
    ensures n * (n * x * u + x * (b * v) + u * (a * y)) + a * b * (y * v) == 1
  {
    var nx, ay, nu, bv := n * x, a * y, n * u, b * v;
    assert (nx + ay) * (nu + bv) == nx * nu + nx * bv + ay * nu + ay * bv;
    assert nx * nu == n * (n * x * u);
    assert nx * bv == n * (x * bv);
    assert ay * nu == n * (u * ay);
    assert ay * bv == a * b * (y * v);
  }

  lemma DividesOne(g: nat, k: nat, l: nat, n: nat, m: nat, x: int, y: int)
    requires n == g * k && m == g * l && n * x + m * y == 1
    ensures g == 1
  {
    var q := k * x + l * y;
    assert g * q == 1 by {
      assert g * k * x == g * (k * x) && g * l * y == g * (l * y);
    }
    assert q <= 0 ==> g * q <= 0;
    assert g == 0 ==> g * q == 0;
    assert g * q == g + g * (q - 1);
    assert q >= 1 ==> g * (q - 1) >= 0;
  }

  /** Every cycle an operator may set is coprime with the multiplier. */
  lemma OperatorCyclesAreCoprime(seconds: nat)
    requires MIN_REPORT_INTERVAL <= seconds <= MAX_REPORT_INTERVAL
    ensures Gcd(SLOT_SPREAD, seconds * 1_000) == 1
  {
    SecondsAreCoprime(seconds);
    ThousandIsCoprime();
    CoprimeWithProduct(SLOT_SPREAD, seconds, 1_000);
  }

  /** The cycle used when none is set is one of them. */
  lemma DefaultCycleIsCoprime()
    ensures Gcd(SLOT_SPREAD, DEFAULT_CYCLE_MS) == 1
  {
    OperatorCyclesAreCoprime(60);
  }

  /** Whatever interval is set, nodes share a slot exactly when their numbers agree modulo the cycle. */
  lemma OperatorSlotsSharedExactly(a: int, b: int, seconds: nat)
    requires MIN_REPORT_INTERVAL <= seconds <= MAX_REPORT_INTERVAL && Fits(a) && Fits(b)
    ensures SlotOf(a, seconds * 1_000) == SlotOf(b, seconds * 1_000) <==> a % (seconds * 1_000) == b % (seconds * 1_000)
  {
    OperatorCyclesAreCoprime(seconds);
    SlotsSharedExactly(a, b, seconds * 1_000);
  }

  // Numbers whose product wraps.

  /** How often the product goes round 64 bits. */
  function Wraps(node: int): int {
    (node * SLOT_SPREAD - I64_MIN) / U64_SPAN
  }

  lemma WrapTakesSpans(node: int)
    ensures Wrap(node * SLOT_SPREAD) == node * SLOT_SPREAD - Wraps(node) * U64_SPAN
    ensures Wraps(node) == 0 <==> Fits(node)
  {
    var x := node * SLOT_SPREAD - I64_MIN;
    assert x == x / U64_SPAN * U64_SPAN + x % U64_SPAN;
  }

  lemma SameExactly(a: int, b: int, m: int)
    requires m > 0
    ensures a % m == b % m <==> (a - b) % m == 0
  {
    if a % m == b % m {
      var k := a / m - b / m;
      assert a - b == m * k;
      SameRemainder(a - b, 0, m, k);
    }
    if (a - b) % m == 0 {
      var k := (a - b) / m;
      assert a - b == m * k;
      SameRemainder(a, b, m, k);
    }
  }

  lemma SpreadDistributes(a: int, b: int)
    ensures Wrap(a * SLOT_SPREAD) - Wrap(b * SLOT_SPREAD) == (a - b) * SLOT_SPREAD - (Wraps(a) - Wraps(b)) * U64_SPAN
  {
    WrapTakesSpans(a);
    WrapTakesSpans(b);
  }

  /** For any two numbers and any cycle, wrapped or not, when they share a slot. */
  lemma SlotsSharedWithWraps(a: int, b: int, cycle: nat)
    requires cycle > 0
    ensures SlotOf(a, cycle) == SlotOf(b, cycle)
       <==> ((a - b) * 2_654_435_761 - (Wraps(a) - Wraps(b)) * 0x1_0000_0000_0000_0000) % cycle == 0
  {
    SpreadDistributes(a, b);
    SameExactly(Wrap(a * SLOT_SPREAD), Wrap(b * SLOT_SPREAD), cycle);
  }

  /** Numbers that agree modulo the cycle share a slot exactly when what they wrap by does too. */
  lemma AgreeingNodesShareExactly(a: int, b: int, cycle: nat)
    requires cycle > 0 && a % cycle == b % cycle
    ensures SlotOf(a, cycle) == SlotOf(b, cycle) <==> (Wraps(a) - Wraps(b)) * 0x1_0000_0000_0000_0000 % cycle == 0
  {
    SlotsSharedWithWraps(a, b, cycle);
    SameExactly(a, b, cycle);
    var k := (a - b) / cycle;
    var spread, spans := (a - b) * SLOT_SPREAD, (Wraps(a) - Wraps(b)) * U64_SPAN;
    assert a - b == cycle * k;
    assert spread == cycle * (k * SLOT_SPREAD) by {
      assert (cycle * k) * SLOT_SPREAD == cycle * (k * SLOT_SPREAD);
    }
    SameRemainder(-spans, spread - spans, cycle, -(k * SLOT_SPREAD));
    SameExactly(0, spans, cycle);
  }

  /** Two numbers that agree modulo the default cycle, wrap differently, and do not share a slot. */
  lemma WrappedNodeLeavesItsSlot()
    ensures var a, b := 3_474_701_544, 3_474_641_544;
      a % DEFAULT_CYCLE_MS == b % DEFAULT_CYCLE_MS && SlotOf(a, DEFAULT_CYCLE_MS) != SlotOf(b, DEFAULT_CYCLE_MS)
  {
  }

  // Waiting for it.

  predicate IsTimestamp(t: Timestamp) {
    I64_MIN <= t.seconds <= I64_MAX && -0x8000_0000 <= t.nanos <= 0x7FFF_FFFF
  }

  /** Nanoseconds from one stamp to a later one, none for an earlier one, in saturating 64 bits. */
  function Gap(since: Timestamp, until: Timestamp): int {
    var seconds := Saturate(until.seconds - since.seconds);
    var nanos := Saturate(until.nanos - since.nanos);
    var total := Saturate(Saturate(seconds * 1_000_000_000) + nanos);
    if total < 0 then 0 else total
  }

  function ScheduleDelay(next: Option<Timestamp>, serverTime: Option<Timestamp>): Option<int> {
    if next.None? || serverTime.None? then None else Some(Min(Gap(serverTime.value, next.value), MAX_DEFERRAL))
  }

  /** How long a live session runs on and how often it is sampled; a number of zero ends it. */
  function LiveSession(sessionId: nat, issued: Option<Timestamp>, expires: Option<Timestamp>,
                       intervalMs: nat): Option<(int, int)> {
    if sessionId == 0 || issued.None? || expires.None? then None
    else
      var remaining := Min(Gap(issued.value, expires.value), MAX_LIVE_SESSION);
      if remaining == 0 then None
      else
        var interval := intervalMs * 1_000_000;
        Some((remaining, if interval < MIN_LIVE_INTERVAL then MIN_LIVE_INTERVAL else interval))
  }

  /** Saturation is never seen through the cap: the capped gap is the exact difference, clamped. */
  lemma CappedGapIsExact(since: Timestamp, until: Timestamp, cap: int)
    requires IsTimestamp(since) && IsTimestamp(until) && 0 <= cap <= 600_000_000_000
    ensures var exact := (until.seconds - since.seconds) * 1_000_000_000 + (until.nanos - since.nanos);
      Min(Gap(since, until), cap) == if exact <= 0 then 0 else if exact >= cap then cap else exact
  {
  }

  /**
    * A session command is live exactly when it is numbered, stamped and still ahead; it runs for the
    * exact gap up to ten minutes and is sampled as asked, but no more often than every half second.
    */
  lemma LiveSessionIsExact(sessionId: nat, issued: Option<Timestamp>, expires: Option<Timestamp>, intervalMs: nat)
    requires issued.Some? ==> IsTimestamp(issued.value)
    requires expires.Some? ==> IsTimestamp(expires.value)
    ensures var live := LiveSession(sessionId, issued, expires, intervalMs);
      && (live.Some? <==>
            sessionId != 0 && issued.Some? && expires.Some? && NanosOf(expires.value) > NanosOf(issued.value))
      && (live.Some? ==>
        var exact := NanosOf(expires.value) - NanosOf(issued.value);
        && live.value.0 == (if exact >= 600_000_000_000 then 600_000_000_000 else exact)
        && live.value.1 == (if intervalMs >= 500 then intervalMs * 1_000_000 else 500_000_000))
  {
    if issued.Some? && expires.Some? {
      CappedGapIsExact(issued.value, expires.value, MAX_LIVE_SESSION);
    }
  }

  function StampOfMillis(millis: int): Timestamp {
    Timestamp(millis / 1_000, millis % 1_000 * 1_000_000)
  }

  /**
    * A node that waits the delay it was sent, from the moment the acknowledgement was stamped,
    * reports on its slot, whatever its own clock reads: exactly when the schedule is no more than
    * the cap away from the stamp. The stamp is taken just before the schedule is, so a cycle as
    * long as the cap can miss by the time between the two.
    */
  lemma WaitingHitsTheSlot(node: int, millis: int, cycleMs: int, stamped: Timestamp)
    requires FIRST_MILLI <= millis - CycleOf(cycleMs) && millis + CycleOf(cycleMs) <= LAST_MILLI
    requires IsTimestamp(stamped) && NanosOf(stamped) <= millis * 1_000_000 + 999_999
    ensures var next := ReportSchedule(node, millis, cycleMs);
      next.Some? &&
      var delay := ScheduleDelay(Some(StampOfMillis(next.value)), Some(stamped));
      delay.Some? && (NanosOf(stamped) + delay.value == next.value * 1_000_000
        <==> next.value * 1_000_000 - NanosOf(stamped) <= 300_000_000_000)
  {
    ScheduleHitsTheSlot(node, millis, cycleMs);
    var next := ReportSchedule(node, millis, cycleMs).value;
    var stamp := StampOfMillis(next);
    assert NanosOf(stamp) == next * 1_000_000;
    CappedGapIsExact(stamped, stamp, MAX_DEFERRAL);
  }

  /** With any interval an operator may set and a stamp of the scheduling instant, the cap never bites. */
  lemma OperatorCyclesNeverHitTheCap(node: int, millis: int, seconds: int)
    requires MIN_REPORT_INTERVAL <= seconds <= MAX_REPORT_INTERVAL
    requires FIRST_MILLI + 1_000_000 <= millis <= LAST_MILLI - 1_000_000
    ensures var next := ReportSchedule(node, millis, seconds * 1_000);
      next.Some? &&
      ScheduleDelay(Some(StampOfMillis(next.value)), Some(StampOfMillis(millis)))
        == Some((next.value - millis) * 1_000_000)
  {
    ScheduleHitsTheSlot(node, millis, seconds * 1_000);
    var next := ReportSchedule(node, millis, seconds * 1_000).value;
    assert NanosOf(StampOfMillis(next)) == next * 1_000_000 && NanosOf(StampOfMillis(millis)) == millis * 1_000_000;
    CappedGapIsExact(StampOfMillis(millis), StampOfMillis(next), MAX_DEFERRAL);
  }
}
