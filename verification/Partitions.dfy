/** The measurements table by day: daily partitions made ahead, dropped behind, and a default for the rest. */
module Partitions {
  import opened Wrappers
  import opened PartitionNames

  datatype Row = Row(day: Date, id: nat)

  /** A partition holds one day; the default one holds every day without a partition of its own. */
  datatype Partition = Partition(start: Date, rows: seq<Row>)

  datatype Table = Table(parts: map<string, Partition>, others: seq<Row>)

  function OfDay(rows: seq<Row>, day: Date, wanted: bool): (r: seq<Row>)
    ensures forall row :: row in r <==> row in rows && (row.day == day) == wanted
  {
    if rows == [] then []
    else
      var front, last := OfDay(rows[..|rows| - 1], day, wanted), rows[|rows| - 1];
      assert rows == rows[..|rows| - 1] + [last];
      if (last.day == day) == wanted then front + [last] else front
  }

  function InsertOf(t: Table, row: Row): Table
    requires IsDate(row.day)
  {
    var name := PartitionName(row.day);
    if name in t.parts then t.(parts := t.parts[name := t.parts[name].(rows := t.parts[name].rows + [row])])
    else t.(others := t.others + [row])
  }

  /** Make a day's partition and move its rows over, unless it is there or the calendar ends. */
  function EnsureDayOf(t: Table, start: Date, known: set<string>): (Table, bool)
    requires IsDate(start)
  {
    if NextDay(start).None? || PartitionName(start) in known then (t, false)
    else
      (Table(t.parts[PartitionName(start) := Partition(start, OfDay(t.others, start, true))],
        OfDay(t.others, start, false)), true)
  }

  function EnsureFrom(t: Table, known: set<string>, start: Date, last: Date): (Table, seq<string>)
    requires IsDate(start)
    decreases Rank(last) - Rank(start)
  {
    if Before(last, start) then (t, [])
    else
      var (after, made) := EnsureDayOf(t, start, known);
      var name := PartitionName(start);
      var created := if made then [name] else [];
      var known' := if made then known + {name} else known;
      match NextDay(start)
      case None => (after, created)
      case Some(next) =>
        var (rest, more) := EnsureFrom(after, known', next, last);
        (rest, created + more)
  }

  function Existing(t: Table): set<string> {
    t.parts.Keys + {DEFAULT_PARTITION}
  }

  /** Whether `drop_before` takes a partition of this name. */
  predicate EndsBy(name: string, cutoff: Date) {
    name != DEFAULT_PARTITION &&
    var start := ParsePartitionName(name);
    start.Some? && NextDay(start.value).Some? && Rank(NextDay(start.value).value) <= Rank(cutoff)
  }

  function DropOf(t: Table, cutoff: Date): Table {
    t.(parts := map name | name in t.parts && !EndsBy(name, cutoff) :: t.parts[name])
  }

  /** What was created so far, put before what is created from here on. */
  function Along(created: seq<string>, rest: (Table, seq<string>)): (Table, seq<string>) {
    (rest.0, created + rest.1)
  }

  lemma EnsureFromSteps(t: Table, known: set<string>, start: Date, last: Date, created: seq<string>)
    requires IsDate(start) && !Before(last, start)
    ensures var (after, made) := EnsureDayOf(t, start, known);
      var name := PartitionName(start);
      var created' := if made then created + [name] else created;
      Along(created, EnsureFrom(t, known, start, last))
      == match NextDay(start)
         case None => (after, created')
         case Some(next) => Along(created', EnsureFrom(after, if made then known + {name} else known, next, last))
  {
    var (after, made) := EnsureDayOf(t, start, known);
    var name := PartitionName(start);
    if NextDay(start).Some? {
      var more := EnsureFrom(after, if made then known + {name} else known, NextDay(start).value, last).1;
      assert created + ([name] + more) == created + [name] + more;
      assert created + ([] + more) == created + more;
    }
    assert created + [] == created;
  }

  class PartitionedTable {
    var parts: map<string, Partition>
    var others: seq<Row>

    function Contents(): Table
      reads this
    {
      Table(parts, others)
    }

    constructor ()
      ensures Contents() == Table(map[], [])
    {
      parts, others := map[], [];
    }

    method Insert(row: Row)
      requires IsDate(row.day)
      modifies this
      ensures Contents() == InsertOf(old(Contents()), row)
    {
      var name := PartitionName(row.day);
      if name in parts {
        parts := parts[name := parts[name].(rows := parts[name].rows + [row])];
      } else {
        others := others + [row];
      }
    }

    method EnsureDay(start: Date, known: set<string>) returns (made: bool)
      requires IsDate(start)
      modifies this
      ensures (Contents(), made) == EnsureDayOf(old(Contents()), start, known)
    {
      if NextDay(start).None? || PartitionName(start) in known {
        return false;
      }
      parts := parts[PartitionName(start) := Partition(start, OfDay(others, start, true))];
      others := OfDay(others, start, false);
      made := true;
    }

    method EnsureRange(first: Date, last: Date) returns (created: seq<string>)
      requires IsDate(first)
      modifies this
      ensures (Contents(), created) == EnsureFrom(old(Contents()), Existing(old(Contents())), first, last)
    {
      var known := Existing(Contents());
      var start := first;
      created := [];
      ghost var target := EnsureFrom(Contents(), known, start, last);
      assert created + target.1 == target.1;
      while !Before(last, start)
        invariant IsDate(start)
        invariant target == Along(created, EnsureFrom(Contents(), known, start, last))
        decreases Rank(last) - Rank(start)
      {
        EnsureFromSteps(Contents(), known, start, last, created);
        var made := EnsureDay(start, known);
        if made {
          known := known + {PartitionName(start)};
          created := created + [PartitionName(start)];
        }
        var next := NextDay(start);
        if next.None? {
          return;
        }
        start := next.value;
      }
      assert created + [] == created;
    }

    method DropBefore(cutoff: Date) returns (dropped: set<string>)
      modifies this
      ensures Contents() == DropOf(old(Contents()), cutoff)
      ensures dropped == old(parts).Keys - parts.Keys
    {
      var left := parts.Keys;
      dropped := {};
      ghost var before := parts;
      while left != {}
        invariant left <= before.Keys && others == old(others)
        invariant forall name :: name in parts <==> name in before && (name in left || !EndsBy(name, cutoff))
        invariant forall name :: name in parts ==> parts[name] == before[name]
        invariant forall name :: name in dropped <==> name in before && name !in parts
        decreases |left|
      {
        var name :| name in left;
        left := left - {name};
        if EndsBy(name, cutoff) {
          parts := parts - {name};
          dropped := dropped + {name};
        }
      }
      assert parts == DropOf(Table(before, others), cutoff).parts;
      assert dropped == before.Keys - parts.Keys;
    }
  }

  // What every operation keeps.

  /** Every partition is named after its day and holds only that day; the default holds no such day. */
  ghost predicate Tidy(t: Table) {
    && (forall name :: name in t.parts ==> PartitionHolds(name, t.parts[name]))
    && (forall row :: row in t.others ==> IsDate(row.day) && PartitionName(row.day) !in t.parts)
  }

  ghost predicate PartitionHolds(name: string, part: Partition) {
    && IsDate(part.start) && NextDay(part.start).Some? && name == PartitionName(part.start)
    && forall row :: row in part.rows ==> row.day == part.start
  }

  /** How often a row is stored, in its day's partition or in the default one. */
  function CountOf(t: Table, row: Row): nat
    requires IsDate(row.day)
  {
    multiset(t.others)[row] + (if PartitionName(row.day) in t.parts
      then multiset(t.parts[PartitionName(row.day)].rows)[row] else 0)
  }

  lemma {:induction false} OfDaySplits(rows: seq<Row>, day: Date, row: Row)
    ensures multiset(OfDay(rows, day, true))[row] + multiset(OfDay(rows, day, false))[row] == multiset(rows)[row]
  {
    if rows != [] {
      OfDaySplits(rows[..|rows| - 1], day, row);
      assert rows == rows[..|rows| - 1] + [rows[|rows| - 1]];
    }
  }

  lemma InsertKeepsTidy(t: Table, row: Row)
    requires Tidy(t) && IsDate(row.day)
    ensures Tidy(InsertOf(t, row))
  {
    var name := PartitionName(row.day);
    if name in t.parts {
      assert PartitionHolds(name, t.parts[name]);
      NamesDiffer(t.parts[name].start, row.day);
    }
  }

  lemma InsertCounts(t: Table, row: Row, other: Row)
    requires IsDate(row.day) && IsDate(other.day)
    ensures CountOf(InsertOf(t, row), other) == CountOf(t, other) + if row == other then 1 else 0
  {
    if PartitionName(row.day) in t.parts && PartitionName(other.day) == PartitionName(row.day) {
      NamesDiffer(row.day, other.day);
    }
  }

  lemma EnsureDayKeepsTidy(t: Table, start: Date, known: set<string>)
    requires Tidy(t) && IsDate(start)
    ensures Tidy(EnsureDayOf(t, start, known).0)
  {
    var after := EnsureDayOf(t, start, known).0;
    forall row | row in after.others ensures IsDate(row.day) && PartitionName(row.day) !in after.parts {
      if PartitionName(row.day) == PartitionName(start) {
        NamesDiffer(row.day, start);
      }
    }
  }

  /** Making a day's partition moves rows and loses none. */
  lemma EnsureDayCounts(t: Table, start: Date, known: set<string>, row: Row)
    requires Tidy(t) && IsDate(start) && t.parts.Keys <= known && IsDate(row.day)
    ensures CountOf(EnsureDayOf(t, start, known).0, row) == CountOf(t, row)
  {
    OfDaySplits(t.others, start, row);
    if PartitionName(row.day) == PartitionName(start) {
      NamesDiffer(row.day, start);
    }
  }

  lemma {:induction false} EnsureFromKeepsTidy(t: Table, known: set<string>, start: Date, last: Date)
    requires Tidy(t) && IsDate(start)
    ensures var after := EnsureFrom(t, known, start, last).0;
      Tidy(after) && t.parts.Keys <= after.parts.Keys
    decreases Rank(last) - Rank(start)
  {
    if !Before(last, start) && NextDay(start).Some? {
      var (after, made) := EnsureDayOf(t, start, known);
      EnsureDayKeepsTidy(t, start, known);
      EnsureFromKeepsTidy(after, if made then known + {PartitionName(start)} else known, NextDay(start).value, last);
    }
  }

  /** Making partitions ahead neither loses nor doubles a row. */
  lemma {:induction false} EnsureFromCounts(t: Table, known: set<string>, start: Date, last: Date, row: Row)
    requires Tidy(t) && IsDate(start) && t.parts.Keys <= known && IsDate(row.day)
    ensures CountOf(EnsureFrom(t, known, start, last).0, row) == CountOf(t, row)
    decreases Rank(last) - Rank(start)
  {
    if !Before(last, start) {
      var (after, made) := EnsureDayOf(t, start, known);
      EnsureDayCounts(t, start, known, row);
      if NextDay(start).Some? {
        EnsureDayKeepsTidy(t, start, known);
        EnsureFromCounts(after, if made then known + {PartitionName(start)}
          else known, NextDay(start).value, last, row);
      }
    }
  }

  /** Names the partitions that are there, and nothing else but the default. */
  ghost predicate Knows(known: set<string>, t: Table) {
    t.parts.Keys <= known && known <= Existing(t)
  }

  lemma NameIsNotDefault(d: Date)
    requires IsDate(d)
    ensures PartitionName(d) != DEFAULT_PARTITION
  {
    NameReadsBack(d);
    DefaultIsNoDay();
  }

  lemma EnsureDayMakes(t: Table, start: Date, known: set<string>)
    requires IsDate(start) && Knows(known, t) && NextDay(start).Some?
    ensures var (after, made) := EnsureDayOf(t, start, known);
      && PartitionName(start) in after.parts
      && Knows(if made then known + {PartitionName(start)} else known, after)
  {
    NameIsNotDefault(start);
  }

  lemma LastDayIsLast(start: Date, day: Date)
    requires IsDate(start) && NextDay(start).None? && IsDate(day) && Rank(start) <= Rank(day)
    ensures day == start
  {
    assert day.year >= start.year;
    RankIsInjective(start, day);
  }

  /** Afterwards every day of the range has its partition, but the calendar's very last day. */
  lemma {:induction false} EnsureCoversRange(t: Table, known: set<string>, start: Date, last: Date, day: Date)
    requires Tidy(t) && IsDate(start) && Knows(known, t) && IsDate(day)
    requires Rank(start) <= Rank(day) <= Rank(last) && NextDay(day).Some?
    ensures PartitionName(day) in EnsureFrom(t, known, start, last).0.parts
    decreases Rank(last) - Rank(start)
  {
    if NextDay(start).None? {
      LastDayIsLast(start, day);
    } else {
      var (after, made) := EnsureDayOf(t, start, known);
      var known' := if made then known + {PartitionName(start)} else known;
      var next := NextDay(start).value;
      EnsureDayMakes(t, start, known);
      EnsureDayKeepsTidy(t, start, known);
      if Rank(start) == Rank(day) {
        RankIsInjective(start, day);
        EnsureFromKeepsTidy(after, known', next, last);
      } else {
        NothingBetween(start, day);
        EnsureCoversRange(after, known', next, last, day);
      }
    }
  }

  /** The days of a range that get a partition. */
  ghost predicate Wanted(day: Date, first: Date, last: Date) {
    !Before(day, first) && !Before(last, day) && day != Date(262_142, 12, 31)
  }

  lemma FirstOrLater(day: Date, start: Date, last: Date)
    requires IsDate(day) && IsDate(start) && !Before(last, start)
    ensures NextDay(start).Some? ==>
      (Wanted(day, start, last) <==> day == start || Wanted(day, NextDay(start).value, last))
    ensures NextDay(start).None? ==> !Wanted(day, start, last)
  {
    DaysCountUp(start);
    if NextDay(start).Some? {
      NothingBetween(start, day);
    } else if Rank(start) <= Rank(day) {
      LastDayIsLast(start, day);
    }
    if Rank(day) == Rank(start) {
      RankIsInjective(day, start);
    }
  }

  /** What one day adds to the names there are. */
  lemma EnsureDayAdds(t: Table, known: set<string>, start: Date, day: Date)
    requires IsDate(start) && IsDate(day) && Knows(known, t)
    ensures var (after, made) := EnsureDayOf(t, start, known);
      && (PartitionName(day) in after.parts <==>
            PartitionName(day) in t.parts || (day == start && NextDay(start).Some?))
      && (made <==> PartitionName(start) in after.parts && PartitionName(start) !in t.parts)
  {
    NameIsNotDefault(start);
    if PartitionName(day) == PartitionName(start) {
      NamesDiffer(day, start);
    }
  }

  /** A day has a partition afterwards exactly when it had one or is in the range, but for the calendar's last. */
  lemma {:induction false} EnsureMakesExactly(t: Table, known: set<string>, start: Date, last: Date, day: Date)
    requires IsDate(start) && Knows(known, t) && IsDate(day)
    ensures PartitionName(day) in EnsureFrom(t, known, start, last).0.parts
       <==> PartitionName(day) in t.parts || Wanted(day, start, last)
    decreases Rank(last) - Rank(start)
  {
    if !Before(last, start) {
      var (after, made) := EnsureDayOf(t, start, known);
      EnsureDayAdds(t, known, start, day);
      FirstOrLater(day, start, last);
      if NextDay(start).Some? {
        EnsureDayMakes(t, start, known);
        EnsureMakesExactly(after, if made then known + {PartitionName(start)} else known, NextDay(start).value, last,
                           day);
      }
    }
  }

  /** Names of days from `first` on, in the order of the days. */
  ghost predicate NamesAscend(names: seq<string>, first: Date) {
    && (forall i :: 0 <= i < |names| ==>
          ParsePartitionName(names[i]).Some? && !Before(ParsePartitionName(names[i]).value, first))
    && (forall i, j :: 0 <= i < j < |names| && ParsePartitionName(names[i]).Some? && ParsePartitionName(names[j]).Some?
          ==> Before(ParsePartitionName(names[i]).value, ParsePartitionName(names[j]).value))
  }

  lemma NamesAscendFromFirst(start: Date, next: Date, names: seq<string>)
    requires IsDate(start) && NextDay(start) == Some(next) && NamesAscend(names, next)
    ensures NamesAscend(names, start) && NamesAscend([PartitionName(start)] + names, start)
  {
    NameReadsBack(start);
    var all := [PartitionName(start)] + names;
    forall i | 0 <= i < |all|
      ensures ParsePartitionName(all[i]).Some? && !Before(ParsePartitionName(all[i]).value, start)
    {
      assert i > 0 ==> all[i] == names[i - 1];
    }
    forall i, j | 0 <= i < j < |all|
      ensures Before(ParsePartitionName(all[i]).value, ParsePartitionName(all[j]).value)
    {
      assert all[j] == names[j - 1];
      assert i > 0 ==> all[i] == names[i - 1];
    }
  }

  /** The names reported are the ones that came, each once, in the order of their days. */
  lemma {:induction false} EnsureReportsExactly(t: Table, known: set<string>, start: Date, last: Date, day: Date)
    requires IsDate(start) && Knows(known, t) && IsDate(day)
    ensures var (after, created) := EnsureFrom(t, known, start, last);
      && NamesAscend(created, start)
      && (PartitionName(day) in created <==> PartitionName(day) in after.parts && PartitionName(day) !in t.parts)
    decreases Rank(last) - Rank(start)
  {
    if !Before(last, start) {
      var (after, made) := EnsureDayOf(t, start, known);
      EnsureDayAdds(t, known, start, day);
      EnsureDayAdds(t, known, start, start);
      if NextDay(start).Some? {
        var next := NextDay(start).value;
        var known' := if made then known + {PartitionName(start)} else known;
        EnsureDayMakes(t, start, known);
        EnsureReportsExactly(after, known', next, last, day);
        NamesAscendFromFirst(start, next, EnsureFrom(after, known', next, last).1);
        if PartitionName(day) == PartitionName(start) {
          NamesDiffer(day, start);
          EnsureMakesExactly(after, known', next, last, day);
        }
      }
    }
  }

  /** Where every day of the range is known, nothing is made. */
  lemma {:induction false} CoveredRangeMakesNothing(t: Table, known: set<string>, start: Date, last: Date)
    requires IsDate(start)
    requires forall day :: IsDate(day) && Rank(start) <= Rank(day) <= Rank(last) && NextDay(day).Some? ==>
      PartitionName(day) in known
    ensures EnsureFrom(t, known, start, last) == (t, [])
    decreases Rank(last) - Rank(start)
  {
    if !Before(last, start) && NextDay(start).Some? {
      assert PartitionName(start) in known;
      CoveredRangeMakesNothing(t, known, NextDay(start).value, last);
      var none: seq<string> := [];
      assert none + none == none;
    }
  }

  /** Ensuring a range a second time creates nothing and moves nothing. */
  lemma EnsuringTwiceIsOnce(t: Table, first: Date, last: Date)
    requires Tidy(t) && IsDate(first)
    ensures var after := EnsureFrom(t, Existing(t), first, last).0;
      EnsureFrom(after, Existing(after), first, last) == (after, [])
  {
    var after := EnsureFrom(t, Existing(t), first, last).0;
    forall day | IsDate(day) && Rank(first) <= Rank(day) <= Rank(last) && NextDay(day).Some?
      ensures PartitionName(day) in Existing(after)
    {
      EnsureCoversRange(t, Existing(t), first, last, day);
    }
    CoveredRangeMakesNothing(after, Existing(after), first, last);
  }

  // Dropping.

  /** A day's partition is dropped exactly when the whole day lies before the cutoff. */
  lemma DropsExactly(day: Date, cutoff: Date)
    requires IsDate(day) && IsDate(cutoff)
    ensures EndsBy(PartitionName(day), cutoff) <==> NextDay(day).Some? && Before(day, cutoff)
  {
    NameReadsBack(day);
    NameIsNotDefault(day);
    if NextDay(day).Some? {
      NothingBetween(day, cutoff);
    }
  }

  lemma DropKeepsTidy(t: Table, cutoff: Date)
    requires Tidy(t)
    ensures Tidy(DropOf(t, cutoff))
  {
  }

  /** Dropping loses no row of the cutoff day or later, and leaves no partition that ended by it. */
  lemma DropCounts(t: Table, cutoff: Date, row: Row)
    requires Tidy(t) && IsDate(cutoff) && IsDate(row.day)
    ensures !Before(row.day, cutoff) ==> CountOf(DropOf(t, cutoff), row) == CountOf(t, row)
    ensures Before(row.day, cutoff) ==> PartitionName(row.day) !in DropOf(t, cutoff).parts
  {
    DropsExactly(row.day, cutoff);
    if PartitionName(row.day) in t.parts {
      assert PartitionHolds(PartitionName(row.day), t.parts[PartitionName(row.day)]);
      NamesDiffer(row.day, t.parts[PartitionName(row.day)].start);
    }
  }

  // Any sequence of operations.

  datatype Step =
    | Inserted(row: Row)
    | Ensured(first: Date, last: Date)
    | Dropped(cutoff: Date)

  predicate IsStep(step: Step) {
    match step
    case Inserted(row) => IsDate(row.day)
    case Ensured(first, last) => IsDate(first) && IsDate(last)
    case Dropped(cutoff) => IsDate(cutoff)
  }

  function After(t: Table, step: Step): Table
    requires IsStep(step)
  {
    match step
    case Inserted(row) => InsertOf(t, row)
    case Ensured(first, last) => EnsureFrom(t, Existing(t), first, last).0
    case Dropped(cutoff) => DropOf(t, cutoff)
  }

  function AfterAll(steps: seq<Step>): Table
    requires forall step :: step in steps ==> IsStep(step)
  {
    if steps == [] then Table(map[], [])
    else After(AfterAll(steps[..|steps| - 1]), steps[|steps| - 1])
  }

  function Inserts(steps: seq<Step>, row: Row): nat {
    if steps == [] then 0
    else Inserts(steps[..|steps| - 1], row) + if steps[|steps| - 1] == Inserted(row) then 1 else 0
  }

  lemma StepKeepsTidy(t: Table, step: Step)
    requires Tidy(t) && IsStep(step)
    ensures Tidy(After(t, step))
  {
    match step
    case Inserted(row) => InsertKeepsTidy(t, row);
    case Ensured(first, last) => EnsureFromKeepsTidy(t, Existing(t), first, last);
    case Dropped(cutoff) => DropKeepsTidy(t, cutoff);
  }

  /** After any operations, no day with a partition has a row in the default one. */
  lemma {:induction false} AlwaysTidy(steps: seq<Step>)
    requires forall step :: step in steps ==> IsStep(step)
    ensures Tidy(AfterAll(steps))
  {
    if steps != [] {
      AlwaysTidy(steps[..|steps| - 1]);
      StepKeepsTidy(AfterAll(steps[..|steps| - 1]), steps[|steps| - 1]);
    }
  }

  lemma StepCounts(t: Table, step: Step, row: Row)
    requires Tidy(t) && IsStep(step) && IsDate(row.day)
    requires step.Dropped? ==> !Before(row.day, step.cutoff)
    ensures CountOf(After(t, step), row) == CountOf(t, row) + if step == Inserted(row) then 1 else 0
  {
    match step
    case Inserted(other) => InsertCounts(t, other, row);
    case Ensured(first, last) => EnsureFromCounts(t, Existing(t), first, last, row);
    case Dropped(cutoff) => DropCounts(t, cutoff, row);
  }

  /** After any operations whose cutoffs do not pass its day, a row is stored as often as it was inserted. */
  lemma {:induction false} RowsAreConserved(steps: seq<Step>, row: Row)
    requires (forall step :: step in steps ==> IsStep(step)) && IsDate(row.day)
    requires forall step :: step in steps && step.Dropped? ==> !Before(row.day, step.cutoff)
    ensures CountOf(AfterAll(steps), row) == Inserts(steps, row)
  {
    if steps != [] {
      var front, last := steps[..|steps| - 1], steps[|steps| - 1];
      assert last in steps && forall step :: step in front ==> step in steps;
      RowsAreConserved(front, row);
      AlwaysTidy(front);
      StepCounts(AfterAll(front), last, row);
    }
  }
}
