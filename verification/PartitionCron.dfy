/** The weekly partitions of ping_logs (workers/partition_cron.go): what one run creates, when the next run is due, and which
    instants have a partition after any pattern of failed runs. Instants are seconds since midnight of day 0, UTC. */
module PartitionCron {
  import opened Arithmetic
  import opened Calendar
  import opened Common

  const DAY: int := 86_400
  const WEEK: int := 604_800
  /** A run is due five minutes into Monday. */
  const RUN_OFFSET: int := 300
  const WEEKS_AHEAD: nat := 4

  /** A partition holds the days from .. to, the last excluded. */
  datatype Range = Range(from: int, to: int) {
    predicate Overlaps(other: Range) {
      from < other.to && other.from < to
    }
  }

  function DayOf(t: nat): nat {
    t / 86_400
  }

  /** Go numbers weekdays from Sunday, 0, and the program counts Sunday as 7. */
  function Weekday(day: nat): int {
    var weekday := (day + 1) % 7;
    if weekday == 0 then 7 else weekday
  }

  /** The Monday the program starts from. */
  function MondayOf(day: nat): int {
    day - (Weekday(day) - 1)
  }

  lemma MondayOfIs(day: nat)
    ensures MondayOf(day) == day - day % 7 && 0 <= MondayOf(day) <= day < MondayOf(day) + 7 && IsMonday(MondayOf(day))
  {
    ModAbsorb(day, 1, 7);
    var q := day / 7;
    assert day - day % 7 == 7 * q;
    DivModUnique(7 * q, 7, q, 0);
  }

  /** nextMonday: the program's arithmetic on the current instant. */
  function NextRun(now: nat): int {
    var daysUntilMonday := (8 - Weekday(DayOf(now))) % 7;
    var days := if daysUntilMonday == 0 then 7 else daysUntilMonday;
    (DayOf(now) + days) * DAY + RUN_OFFSET
  }

  /** The next run is five minutes into the Monday after the current week, never more than a week and five minutes away. */
  lemma NextRunIs(now: nat)
    ensures NextRun(now) == (MondayOf(DayOf(now)) + 7) * 86_400 + 300
    ensures now < NextRun(now) <= now + WEEK + 300
  {
    MondayOfIs(DayOf(now));
    assert 1 <= Weekday(DayOf(now)) <= 7;
  }

  /** Every partition is one week long, begins on a Monday and is named after it. */
  ghost predicate Aligned(tables: map<string, Range>) {
    forall name :: name in tables ==>
                     tables[name].from >= 0 && IsMonday(tables[name].from) && tables[name].to == tables[name].from + 7
                     && name == NameOf(tables[name].from)
  }

  ghost predicate Disjoint(tables: map<string, Range>) {
    forall a, b :: a in tables && b in tables && a != b ==> !tables[a].Overlaps(tables[b])
  }

  /** Some partition takes rows of the day. */
  ghost predicate HasPartition(tables: map<string, Range>, day: int) {
    exists name :: name in tables && tables[name].from <= day < tables[name].to
  }

  lemma MondaysApart(a: nat, b: nat)
    requires IsMonday(a) && IsMonday(b) && a < b
    ensures a + 7 <= b
  {
    assert a == 7 * (a / 7) && b == 7 * (b / 7);
  }

  lemma WeeksApart(table: Range, from: nat)
    requires table.from >= 0 && IsMonday(table.from) && table.to == table.from + 7 && IsMonday(from) && table.from != from
    ensures !table.Overlaps(Range(from, from + 7))
  {
    hide IsMonday;
    if table.from < from {
      MondaysApart(table.from, from);
    } else {
      MondaysApart(from, table.from);
    }
  }

  /** Partitions named after their Mondays never overlap. */
  lemma AlignedIsDisjoint(tables: map<string, Range>)
    requires Aligned(tables)
    ensures Disjoint(tables)
  {
    hide NameOf, IsMonday, Range.Overlaps;
    forall a, b | a in tables && b in tables && a != b ensures !tables[a].Overlaps(tables[b]) {
      WeeksApart(tables[a], tables[b].from);
    }
  }

  /** The tables after creating one week, if its name is free. */
  function WithWeek(tables: map<string, Range>, from: nat): map<string, Range> {
    if NameOf(from) in tables then tables else tables[NameOf(from) := Range(from, from + 7)]
  }

  /** The tables after creating n weeks from a Monday on, those already there kept. */
  function WithWeeks(tables: map<string, Range>, monday: nat, n: nat): map<string, Range> {
    if n == 0 then tables else WithWeek(WithWeeks(tables, monday, n - 1), monday + 7 * (n - 1))
  }

  lemma MondayPlus(monday: nat, n: nat)
    requires IsMonday(monday)
    ensures IsMonday(monday + 7 * n)
  {
    AddMultiple(monday, 7, n);
  }

  /** Creating a week whose name is free never clashes with a partition, and a week whose name is taken is there. */
  lemma NameTellsWeek(tables: map<string, Range>, from: nat)
    requires Aligned(tables) && IsMonday(from)
    ensures NameOf(from) in tables ==> tables[NameOf(from)] == Range(from, from + 7)
    ensures NameOf(from) !in tables ==> forall name :: name in tables ==> !tables[name].Overlaps(Range(from, from + 7))
    ensures Aligned(tables[NameOf(from) := Range(from, from + 7)])
  {
    hide NameOf, IsMonday, Range.Overlaps;
    if NameOf(from) in tables {
      NameInjective(tables[NameOf(from)].from, from);
    }
    forall name | name in tables && NameOf(from) !in tables ensures !tables[name].Overlaps(Range(from, from + 7)) {
      WeeksApart(tables[name], from);
    }
  }

  /** After creating n weeks exactly the old days and those weeks have partitions. */
  lemma {:induction false} WithWeeksCovers(tables: map<string, Range>, monday: nat, n: nat)
    requires Aligned(tables) && IsMonday(monday)
    ensures Aligned(WithWeeks(tables, monday, n))
    ensures forall day :: HasPartition(WithWeeks(tables, monday, n), day)
                          <==> HasPartition(tables, day) || monday <= day < monday + 7 * n
  {
    NextWeeks(tables, monday, n);
    hide *;
    if n > 0 {
      WithWeeksCovers(tables, monday, n - 1);
      MondayPlus(monday, n - 1);
      OneMoreWeek(WithWeeks(tables, monday, n - 1), monday + 7 * (n - 1));
    }
  }

  lemma NextWeeks(tables: map<string, Range>, monday: nat, n: nat)
    ensures n == 0 ==> WithWeeks(tables, monday, n) == tables
    ensures n > 0 ==> WithWeeks(tables, monday, n) == WithWeek(WithWeeks(tables, monday, n - 1), monday + 7 * (n - 1))
  {}

  lemma OneMoreWeek(tables: map<string, Range>, from: nat)
    requires Aligned(tables) && IsMonday(from)
    ensures var after := WithWeek(tables, from);
            Aligned(after) && forall day :: HasPartition(after, day) <==> HasPartition(tables, day) || from <= day < from + 7
  {
    NameTellsWeek(tables, from);
    hide NameOf, Aligned, IsMonday;
    var name := NameOf(from);
    var after := WithWeek(tables, from);
    forall day ensures HasPartition(after, day) <==> HasPartition(tables, day) || from <= day < from + 7 {
      if from <= day < from + 7 {
        assert name in after && after[name].from <= day < after[name].to;
      }
      if HasPartition(tables, day) {
        var x :| x in tables && tables[x].from <= day < tables[x].to;
        assert x in after && after[x].from <= day < after[x].to;
      }
    }
  }

  /** Where a run stops: nowhere, or at creating or indexing the partition of one week. */
  datatype Fault = NoFault | CreateFails(week: nat) | IndexFails(week: nat)

  /** How many weeks a run creates. */
  function Created(fault: Fault): nat {
    match fault
    case NoFault => WEEKS_AHEAD
    case CreateFails(week) => if week < WEEKS_AHEAD then week else WEEKS_AHEAD
    case IndexFails(week) => if week < WEEKS_AHEAD then week + 1 else WEEKS_AHEAD
  }

  predicate Completes(fault: Fault) {
    fault.NoFault? || fault.week >= WEEKS_AHEAD
  }

  class PartitionTable {
    var tables: map<string, Range>

    constructor ()
      ensures tables == map[]
    {
      tables := map[];
    }

    /** CREATE TABLE IF NOT EXISTS: a taken name is skipped, an overlapping range would be refused. */
    method CreateIfAbsent(name: string, range: Range) returns (refused: bool)
      modifies this
      ensures name in old(tables) ==> tables == old(tables) && !refused
      ensures name !in old(tables) ==>
                && (refused <==> exists other :: other in old(tables) && old(tables)[other].Overlaps(range))
                && tables == if refused then old(tables) else old(tables)[name := range]
    {
      if name in tables {
        return false;
      }
      if exists other :: other in tables && tables[other].Overlaps(range) {
        return true;
      }
      tables := tables[name := range];
      return false;
    }

    /** One run at an instant. No create is ever refused, so the run fails only where the database does, and a completed run
        covers four weeks from its Monday on. */
    method EnsurePartitions(now: nat, fault: Fault) returns (failed: bool)
      requires Aligned(tables)
      modifies this
      ensures failed <==> !Completes(fault)
      ensures MondayOf(DayOf(now)) >= 0 && tables == WithWeeks(old(tables), MondayOf(DayOf(now)), Created(fault))
      ensures Created(fault) == if fault.CreateFails? && fault.week < 4 then fault.week
                                else if fault.IndexFails? && fault.week < 4 then fault.week + 1 else 4
      ensures Aligned(tables) && Disjoint(tables)
      ensures forall day :: HasPartition(tables, day)
                            <==> HasPartition(old(tables), day)
                                 || MondayOf(DayOf(now)) <= day < MondayOf(DayOf(now)) + 7 * Created(fault)
    {
      var weekday := (DayOf(now) + 1) % 7;
      if weekday == 0 {
        weekday := 7;
      }
      MondayOfIs(DayOf(now));
      var monday := DayOf(now) - (weekday - 1);
      assert monday == MondayOf(DayOf(now));
      hide MondayOf, IsMonday;
      failed := CreateWeeks(monday, fault);
      WithWeeksCovers(old(tables), monday, Created(fault));
      AlignedIsDisjoint(tables);
    }

    method CreateWeeks(monday: nat, fault: Fault) returns (failed: bool)
      requires Aligned(tables) && IsMonday(monday)
      modifies this
      ensures failed <==> !Completes(fault)
      ensures tables == WithWeeks(old(tables), monday, Created(fault))
    {
      hide Aligned, IsMonday, WithWeek, WithWeeks;
      NextWeeks(tables, monday, 0);
      for i := 0 to WEEKS_AHEAD
        invariant Aligned(tables) && tables == WithWeeks(old(tables), monday, i)
        invariant fault.NoFault? || fault.week >= i
      {
        NextWeeks(old(tables), monday, i + 1);
        MondayPlus(monday, i);
        if fault == CreateFails(i) {
          return true;
        }
        var refused := CreateWeek(monday + 7 * i);
        if refused {
          return true;
        }
        if fault == IndexFails(i) {
          return true;
        }
      }
      return false;
    }

    method CreateWeek(from: nat) returns (refused: bool)
      requires Aligned(tables) && IsMonday(from)
      modifies this
      ensures !refused && tables == WithWeek(old(tables), from) && Aligned(tables)
    {
      NameTellsWeek(tables, from);
      hide Aligned, NameOf, IsMonday;
      refused := CreateIfAbsent(NameOf(from), Range(from, from + 7));
    }
  }

  // ---- Runs ----

  /** The first run may start at any instant; every later run starts when nextMonday said so. */
  function RunTime(start: nat, i: nat): (t: int)
    ensures t >= 0
    decreases i
  {
    if i == 0 then start
    else
      NextRunIs(RunTime(start, i - 1));
      NextRun(RunTime(start, i - 1))
  }

  /** Run i works in the i-th week after the first. */
  lemma {:induction false} RunWeek(start: nat, i: nat)
    ensures MondayOf(DayOf(RunTime(start, i))) == MondayOf(DayOf(start)) + 7 * i
    ensures i > 0 ==> RunTime(start, i) == (MondayOf(DayOf(start)) + 7 * i) * DAY + RUN_OFFSET
  {
    MondayOfIs(DayOf(start));
    if i > 0 {
      RunWeek(start, i - 1);
      NextRunIs(RunTime(start, i - 1));
      var monday := MondayOf(DayOf(start)) + 7 * i;
      DivModUnique(monday * 86_400 + RUN_OFFSET, 86_400, monday, RUN_OFFSET);
      MondayPlus(MondayOf(DayOf(start)), i);
      MondayOfIs(monday);
      hide MondayOf;
    }
  }

  /** The tables after the first runs, from those held before, such as the ones the schema creates. */
  function TablesAfter(held: map<string, Range>, start: nat, faults: seq<Fault>): map<string, Range> {
    if faults == [] then held
    else
      var n := |faults| - 1;
      MondayOfIs(DayOf(RunTime(start, n)));
      WithWeeks(TablesAfter(held, start, faults[..n]), MondayOf(DayOf(RunTime(start, n))), Created(faults[n]))
  }

  /** Some run reached the week: run k, in week k, created enough weeks. */
  ghost predicate Reached(faults: seq<Fault>, week: nat) {
    exists k :: 0 <= k < |faults| && k <= week < k + Created(faults[k])
  }

  lemma NoRuns(held: map<string, Range>, start: nat)
    ensures TablesAfter(held, start, []) == held
  {}

  lemma {:induction false} TablesAfterAre(held: map<string, Range>, start: nat, faults: seq<Fault>)
    requires Aligned(held)
    ensures Aligned(TablesAfter(held, start, faults))
    ensures forall day :: HasPartition(TablesAfter(held, start, faults), day)
                          <==> HasPartition(held, day)
                               || exists k :: 0 <= k < |faults| && DayIn(start, k, Created(faults[k]), day)
  {
    hide *;
    NoRuns(held, start);
    if faults != [] {
      var n := |faults| - 1;
      TablesAfterAre(held, start, faults[..n]);
      LastRun(held, start, faults);
      forall day
        ensures HasPartition(TablesAfter(held, start, faults), day)
            <==> HasPartition(held, day) || exists k :: 0 <= k < |faults| && DayIn(start, k, Created(faults[k]), day)
      {
        OneMoreRun(start, faults, day);
      }
    }
  }

  lemma OneMoreRun(start: nat, faults: seq<Fault>, day: int)
    requires faults != []
    ensures var n := |faults| - 1;
            (exists k :: 0 <= k < |faults| && DayIn(start, k, Created(faults[k]), day))
            <==> (exists k :: 0 <= k < n && DayIn(start, k, Created(faults[..n][k]), day)) || DayIn(start, n, Created(faults[n]), day)
  {
    hide *;
    assert forall k :: 0 <= k < |faults| - 1 ==> faults[..|faults| - 1][k] == faults[k];
  }

  lemma TablesAfterLast(held: map<string, Range>, start: nat, faults: seq<Fault>)
    requires faults != []
    ensures var n := |faults| - 1;
            && MondayOf(DayOf(RunTime(start, n))) >= 0
            && TablesAfter(held, start, faults)
               == WithWeeks(TablesAfter(held, start, faults[..n]), MondayOf(DayOf(RunTime(start, n))), Created(faults[n]))
  {
    MondayOfIs(DayOf(RunTime(start, |faults| - 1)));
    hide MondayOf, DayOf, RunTime, WithWeeks, Created, IsMonday;
  }

  /** What the last run adds. */
  lemma LastRun(held: map<string, Range>, start: nat, faults: seq<Fault>)
    requires faults != [] && Aligned(TablesAfter(held, start, faults[..|faults| - 1]))
    ensures var n := |faults| - 1;
            && Aligned(TablesAfter(held, start, faults))
            && (forall day :: HasPartition(TablesAfter(held, start, faults), day)
                              <==> HasPartition(TablesAfter(held, start, faults[..n]), day) || DayIn(start, n, Created(faults[n]), day))
  {
    var n := |faults| - 1;
    hide Aligned, HasPartition, MondayOf, RunTime, Created, TablesAfter, WithWeeks, IsMonday, DayOf;
    TablesAfterLast(held, start, faults);
    RunWeek(start, n);
    MondayOfIs(DayOf(start));
    MondayPlus(MondayOf(DayOf(start)), n);
    WithWeeksCovers(TablesAfter(held, start, faults[..n]), MondayOf(DayOf(start)) + 7 * n, Created(faults[n]));
  }

  /** The day lies in one of the first weeks from week k on. */
  predicate DayIn(start: nat, k: nat, weeks: nat, day: int) {
    MondayOf(DayOf(start)) + 7 * k <= day < MondayOf(DayOf(start)) + 7 * k + 7 * weeks
  }

  /** The week after the first in which an instant lies. */
  function WeekAfter(start: nat, t: nat): int {
    (DayOf(t) - MondayOf(DayOf(start))) / 7
  }

  /** How many runs were due by an instant: those of earlier weeks, and that of its own week from its fifth minute on. */
  function RunsBy(start: nat, t: nat): int {
    if WeekAfter(start, t) == 0 || t >= RunTime(start, Max(WeekAfter(start, t), 0)) then WeekAfter(start, t) + 1
    else WeekAfter(start, t)
  }

  /** Coverage in closed form: an instant has a partition exactly when it had one before the first run, or one of the runs due
      by then reached its week. */
  lemma CoveredIff(held: map<string, Range>, start: nat, t: nat, faults: seq<Fault>)
    requires Aligned(held) && t >= start && |faults| == RunsBy(start, t)
    ensures WeekAfter(start, t) >= 0
    ensures HasPartition(TablesAfter(held, start, faults), DayOf(t))
            <==> HasPartition(held, DayOf(t)) || Reached(faults, WeekAfter(start, t))
  {
    hide *;
    WeekIs(start, t);
    TablesAfterAre(held, start, faults);
    ReachedIs(start, t, faults);
  }

  lemma WeekIs(start: nat, t: nat)
    requires t >= start
    ensures var week, first := WeekAfter(start, t), MondayOf(DayOf(start));
            week >= 0 && first + 7 * week <= DayOf(t) < first + 7 * week + 7
  {
    MondayOfIs(DayOf(start));
    DivMono(start, t, 86_400);
    hide MondayOf, IsMonday;
  }

  lemma ReachedIs(start: nat, t: nat, faults: seq<Fault>)
    requires t >= start && WeekAfter(start, t) >= 0
    ensures Reached(faults, WeekAfter(start, t)) <==> exists k :: 0 <= k < |faults| && DayIn(start, k, Created(faults[k]), DayOf(t))
  {
    var week := WeekAfter(start, t);
    WeekIs(start, t);
    hide Created, WeekAfter, MondayOf, DayOf;
    forall k: nat | k < |faults|
      ensures DayIn(start, k, Created(faults[k]), DayOf(t)) <==> k <= week < k + Created(faults[k])
    {
    }
    hide DayIn;
  }

  /** Of any three runs in a row at least one completes. */
  ghost predicate NeverThreeFailures(faults: seq<Fault>) {
    forall i :: 0 <= i && i + 2 < |faults| ==> Completes(faults[i]) || Completes(faults[i + 1]) || Completes(faults[i + 2])
  }

  lemma CreatedBounds(fault: Fault)
    ensures Created(fault) <= 4 && (Completes(fault) ==> Created(fault) == 4)
  {}

  lemma ReachedThroughTwoFailures(faults: seq<Fault>, week: nat)
    requires week <= |faults| <= week + 1 && faults != [] && Completes(faults[0]) && NeverThreeFailures(faults)
    ensures Reached(faults, week)
  {
    hide Completes, Created;
    var k := 0;
    if week >= 4 {
      assert Completes(faults[week - 3]) || Completes(faults[week - 3 + 1]) || Completes(faults[week - 3 + 2]);
      k := if Completes(faults[week - 3]) then week - 3 else if Completes(faults[week - 2]) then week - 2 else week - 1;
    }
    CreatedBounds(faults[k]);
    assert k <= week < k + Created(faults[k]);
  }

  lemma ReachedByTheLastThree(faults: seq<Fault>, week: nat)
    requires 3 <= week == |faults|
    ensures Reached(faults, week)
            <==> Created(faults[week - 1]) > 1 || Created(faults[week - 2]) > 2 || Created(faults[week - 3]) > 3
  {
    hide Created;
    if Reached(faults, week) {
      var k :| 0 <= k < |faults| && k <= week < k + Created(faults[k]);
      CreatedBounds(faults[k]);
      assert k == week - 1 || k == week - 2 || k == week - 3;
    } else {
      assert !(week - 1 <= week < week - 1 + Created(faults[week - 1]));
      assert !(week - 2 <= week < week - 2 + Created(faults[week - 2]));
      assert !(week - 3 <= week < week - 3 + Created(faults[week - 3]));
    }
  }

  lemma ReachedByOwnRun(faults: seq<Fault>, week: nat)
    requires |faults| == week + 1 && Created(faults[week]) > 0
    ensures Reached(faults, week)
  {
    assert week <= week < week + Created(faults[week]);
  }

  lemma RunsDue(start: nat, t: nat)
    requires t >= start
    ensures 0 <= WeekAfter(start, t) <= RunsBy(start, t) <= WeekAfter(start, t) + 1 && RunsBy(start, t) > 0
    ensures WeekAfter(start, t) > 0
            ==> RunsBy(start, t) == WeekAfter(start, t) + (if t >= RunTime(start, WeekAfter(start, t)) then 1 else 0)
  {
    MondayOfIs(DayOf(start));
    DivMono(start, t, 86_400);
    hide MondayOf, RunTime;
  }

  /** If the first run completes and never three runs in a row fail, every instant from the start on has a partition. */
  lemma CoveredThroughTwoFailures(held: map<string, Range>, start: nat, t: nat, faults: seq<Fault>)
    requires Aligned(held) && t >= start && |faults| == RunsBy(start, t)
    requires faults != [] ==> Completes(faults[0])
    requires NeverThreeFailures(faults)
    ensures HasPartition(TablesAfter(held, start, faults), DayOf(t))
  {
    hide *;
    RunsDue(start, t);
    CoveredIff(held, start, t, faults);
    ReachedThroughTwoFailures(faults, WeekAfter(start, t));
  }

  /** The five minutes before a Monday's run have a partition exactly when they had one before the first run or one of the last
      three runs got far enough; after three complete failures they have none else, and the run itself ends the gap if it
      creates at least one week. */
  lemma MondayMorningIff(held: map<string, Range>, start: nat, t: nat, faults: seq<Fault>)
    requires Aligned(held) && t >= start && |faults| == RunsBy(start, t) && WeekAfter(start, t) >= 3
    ensures WeekAfter(start, t) <= |faults|
    ensures var week := WeekAfter(start, t);
            t < RunTime(start, week) ==>
              (HasPartition(TablesAfter(held, start, faults), DayOf(t))
               <==> HasPartition(held, DayOf(t))
                    || Created(faults[week - 1]) > 1 || Created(faults[week - 2]) > 2 || Created(faults[week - 3]) > 3)
    ensures var week := WeekAfter(start, t);
            t >= RunTime(start, week) ==>
              |faults| == week + 1 && (Created(faults[week]) > 0 ==> HasPartition(TablesAfter(held, start, faults), DayOf(t)))
  {
    hide *;
    var week := WeekAfter(start, t);
    RunsDue(start, t);
    CoveredIff(held, start, t, faults);
    if t < RunTime(start, week) {
      ReachedByTheLastThree(faults, week);
    } else if Created(faults[week]) > 0 {
      ReachedByOwnRun(faults, week);
    }
  }

  /** The partitions that the schema creates by hand, four weeks from 19 May 2025 on. */
  const SCHEMA: map<string, Range> := map["ping_logs_2025_w21" := Range(739389, 739396),
                                          "ping_logs_2025_w22" := Range(739396, 739403),
                                          "ping_logs_2025_w23" := Range(739403, 739410),
                                          "ping_logs_2025_w24" := Range(739410, 739417)]

  lemma NamesOfMay2025(k: nat)
    requires k < 4
    ensures NameOf(739389 + 7 * k) == "ping_logs_2025_w2" + [Digit(1 + k)] && IsMonday(739389 + 7 * k)
  {
    SchemaNamesAgree(k);
    assert Decimal(2025) == "2025" by {
      assert Decimal(20) == "20";
    }
  }

  lemma OneMoreTable(tables: map<string, Range>, name: string, from: nat)
    requires Aligned(tables) && IsMonday(from) && name == NameOf(from)
    ensures Aligned(tables[name := Range(from, from + 7)])
  {
    hide NameOf, IsMonday;
  }

  lemma SchemaNames()
    ensures NameOf(739389) == "ping_logs_2025_w21" && NameOf(739396) == "ping_logs_2025_w22"
    ensures NameOf(739403) == "ping_logs_2025_w23" && NameOf(739410) == "ping_logs_2025_w24"
    ensures IsMonday(739389) && IsMonday(739396) && IsMonday(739403) && IsMonday(739410)
  {
    assert Digit(1) == '1' && Digit(2) == '2' && Digit(3) == '3' && Digit(4) == '4';
    hide NameOf, IsMonday, Digit;
    NamesOfMay2025(0);
    NamesOfMay2025(1);
    NamesOfMay2025(2);
    NamesOfMay2025(3);
  }

  /** The schema's partitions fit the cron's scheme, so the cron can start from them. */
  lemma SchemaIsAligned()
    ensures Aligned(SCHEMA)
  {
    assert Aligned(map[]);
    hide NameOf, IsMonday, Aligned;
    SchemaNames();
    OneMoreTable(map[], NameOf(739389), 739389);
    var one := map[NameOf(739389) := Range(739389, 739396)];
    OneMoreTable(one, NameOf(739396), 739396);
    var two := one[NameOf(739396) := Range(739396, 739403)];
    OneMoreTable(two, NameOf(739403), 739403);
    var three := two[NameOf(739403) := Range(739403, 739410)];
    OneMoreTable(three, NameOf(739410), 739410);
    assert SCHEMA == three[NameOf(739410) := Range(739410, 739417)];
  }
}
