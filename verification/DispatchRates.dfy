/** How many dispatches fit into a span of time, over every interleaving of scheduler, re-sync and API commands. */
module DispatchRates {
  import opened Arithmetic
  import opened Common
  import opened DispatchSpacing
  import opened SchedulerModel

  /** Dispatches of a monitor whose time lies in [a, b]. */
  function DispatchesWithin(trace: seq<Step>, id: string, a: int, b: int): nat {
    if trace == [] then 0
    else
      var last := trace[|trace| - 1];
      DispatchesWithin(trace[..|trace| - 1], id, a, b)
      + Bit(last.Dispatch? && last.id == id && a <= last.now <= b)
  }

  /** All dispatches whose time lies in [a, b]. */
  function AllDispatchesWithin(trace: seq<Step>, a: int, b: int): nat {
    if trace == [] then 0
    else
      var last := trace[|trace| - 1];
      AllDispatchesWithin(trace[..|trace| - 1], a, b) + Bit(last.Dispatch? && a <= last.now <= b)
  }

  /** The time k intervals take. */
  function Span(k: int, interval: int): int {
    k * interval
  }

  lemma SpanStep(k: int, interval: nat)
    ensures Span(k + 1, interval) == Span(k, interval) + interval
    ensures Span(k - 1, interval) <= Span(k, interval)
    ensures k <= 0 ==> Span(k, interval) <= 0
  {}

  /** c dispatches inside [a, b], e of them early, stretch over the intervals between the others. */
  predicate Stretched(c: nat, e: nat, last: Option<int>, interval: nat, a: int, b: int) {
    c > 0 ==> last.Some? && Span(c - 1 - e, interval) <= Min(last.value, b) - a
  }

  lemma StretchedStep(c: nat, e: nat, last: Option<int>, interval: nat, a: int, b: int, now: int)
    requires Stretched(c, e, last, interval, a, b)
    requires last.Some? ==> last.value <= now
    ensures Stretched(c + Bit(a <= now <= b), e + Bit(last.Some? && now < last.value + interval), Some(now), interval, a, b)
  {
    SpanStep(c - 1 - e, interval);
    SpanStep(c - e, interval);
    hide Span;
  }

  /** A dispatch does not lie before the last one of its monitor. */
  lemma DispatchFollows(s0: State, init: seq<Step>, step: Step)
    requires Sound(s0) && Legal(s0, init) && Enabled(Run(s0, init), step) && step.Dispatch?
    ensures LastDispatch(init, step.id).Some? ==> LastDispatch(init, step.id).value <= step.now
  {
    if LastDispatch(init, step.id).Some? {
      LastBeforeTick(s0, init, step.id);
    }
    hide Legal, Run, LastDispatch;
  }

  lemma LastEnabled(s0: State, trace: seq<Step>)
    requires Start(s0) && Legal(s0, trace)
    ensures trace != [] ==>
              Sound(s0) && Legal(s0, trace[..|trace| - 1]) && Enabled(Run(s0, trace[..|trace| - 1]), trace[|trace| - 1])
  {
    hide Run, Enabled;
  }

  lemma {:induction false} WindowStretch(s0: State, trace: seq<Step>, id: string, interval: nat, a: int, b: int)
    requires Start(s0) && Legal(s0, trace)
    requires forall k :: 0 <= k < |trace| && trace[k].Dispatch? && trace[k].id == id ==> trace[k].interval == interval
    ensures Stretched(DispatchesWithin(trace, id, a, b), EarlyCount(trace, id), LastDispatch(trace, id), interval, a, b)
  {
    hide Run, Legal, Enabled, Apply, Sound, Start;
    LastEnabled(s0, trace);
    if trace != [] {
      var init, step := trace[..|trace| - 1], trace[|trace| - 1];
      WindowStretch(s0, init, id, interval, a, b);
      if step.Dispatch? && step.id == id {
        hide Stretched;
        DispatchFollows(s0, init, step);
        StretchedStep(DispatchesWithin(init, id, a, b), EarlyCount(init, id), LastDispatch(init, id), interval, a, b, step.now);
      }
    }
  }

  /** Only a monitor armed late has an early dispatch, and only one. */
  lemma {:induction false} EarlyCountBound(s0: State, trace: seq<Step>, id: string)
    requires Start(s0) && Legal(s0, trace)
    ensures EarlyCount(trace, id) <= Bit(ArmedLate(s0, trace, id))
  {
    AtMostOneEarly(s0, trace, id);
    if EarlyCount(trace, id) > 0 {
      var j := CountedIsEarly(trace, id);
      EarlyIff(s0, trace, j);
      hide Legal, Run, Start, IsLateArm;
    }
  }

  lemma {:induction false} CountedIsEarly(trace: seq<Step>, id: string) returns (j: nat)
    requires EarlyCount(trace, id) > 0
    ensures j < |trace| && IsEarly(trace, j) && trace[j].id == id
  {
    var init, last := trace[..|trace| - 1], trace[|trace| - 1];
    if EarlyCount(init, id) > 0 {
      j := CountedIsEarly(init, id);
      var i :| 0 <= i < j && init[i].Dispatch? && init[i].id == id && init[j].now < init[i].now + init[j].interval;
      assert trace[i] == init[i] && trace[j] == init[j];
    } else {
      j := |init|;
      var i := LastDispatchAt(init, id);
      assert trace[i] == init[i];
    }
  }

  /** How many dispatches fit: a span of length L holds at most L div interval + 1 of one monitor, and one more if some Create
      armed the monitor late. */
  lemma DispatchRate(s0: State, trace: seq<Step>, id: string, a: int, length: nat)
    requires Start(s0) && Legal(s0, trace) && id in Run(s0, trace).rows
    ensures Run(s0, trace).rows[id].interval > 0
    ensures DispatchesWithin(trace, id, a, a + length)
            <= length / Run(s0, trace).rows[id].interval + 1 + Bit(ArmedLate(s0, trace, id))
  {
    SoundRun(s0, trace);
    var interval := Run(s0, trace).rows[id].interval;
    IntervalsAgree(s0, trace, id);
    EarlyCountBound(s0, trace, id);
    WindowStretch(s0, trace, id, interval, a, a + length);
    hide Legal, Run, Start, Sound, ArmedLate;
    var c: int, e: int := DispatchesWithin(trace, id, a, a + length), EarlyCount(trace, id);
    if c > 0 {
      Fits(c - 1 - e, interval, length);
    }
  }

  lemma Fits(k: int, interval: nat, length: nat)
    requires interval > 0 && Span(k, interval) <= length
    ensures k <= length / interval
  {
    if length / interval < k {
      MulMono(interval, length / interval + 1, k);
      MulSum(interval, length / interval, 1);
    }
  }

  lemma IntervalsAgree(s0: State, trace: seq<Step>, id: string)
    requires Legal(s0, trace) && id in Run(s0, trace).rows
    ensures forall k :: 0 <= k < |trace| && trace[k].Dispatch? && trace[k].id == id
                        ==> trace[k].interval == Run(s0, trace).rows[id].interval
  {
    hide Legal, Run;
    forall k | 0 <= k < |trace| && trace[k].Dispatch? && trace[k].id == id
      ensures trace[k].interval == Run(s0, trace).rows[id].interval
    {
      DispatchedAtInterval(s0, trace, k);
    }
  }

  /** How many dispatches fit into a span, over all monitors. */
  ghost function Capacity(rows: map<string, Row>, length: nat): int {
    SumOver(rows.Keys, id => Slots(rows, length, id))
  }

  function Slots(rows: map<string, Row>, length: nat, id: string): int {
    if id in rows && rows[id].interval > 0 then length / rows[id].interval + 1 else 0
  }

  /** The monitors whose Create armed them late. */
  ghost function LateMonitors(s0: State, trace: seq<Step>): set<string> {
    set id | id in Run(s0, trace).rows && ArmedLate(s0, trace, id)
  }

  /** The same for all monitors together, over every interleaving: the intervals that fit, and one for each monitor armed
      late. */
  lemma TotalDispatchRate(s0: State, trace: seq<Step>, a: int, length: nat)
    requires Start(s0) && Legal(s0, trace)
    ensures AllDispatchesWithin(trace, a, a + length) <= Capacity(Run(s0, trace).rows, length) + |LateMonitors(s0, trace)|
  {
    var rows, late := Run(s0, trace).rows, LateMonitors(s0, trace);
    var each, slots := id => DispatchesWithin(trace, id, a, a + length), id => Slots(rows, length, id);
    var bound := id => Slots(rows, length, id) + Bit(id in late);
    assert Sound(s0);
    DispatchesByMonitor(s0, trace, rows.Keys, a, a + length);
    forall id | id in rows.Keys ensures each(id) <= bound(id) {
      DispatchRate(s0, trace, id, a, length);
    }
    hide Run, Legal, Slots, ArmedLate;
    SumOverMono(rows.Keys, each, bound);
    SumWithMarks(rows.Keys, slots, bound, late);
  }

  /** Marking the elements of a subset raises a sum by its size. */
  lemma {:induction false} SumWithMarks<K(!new)>(s: set<K>, f: K -> int, g: K -> int, marked: set<K>)
    requires marked <= s
    requires forall k :: k in s ==> g(k) == f(k) + Bit(k in marked)
    ensures SumOver(s, g) == SumOver(s, f) + |marked|
    decreases |s|
  {
    if s != {} {
      var k :| k in s;
      SumOverRemove(s, f, k);
      SumOverRemove(s, g, k);
      SumWithMarks(s - {k}, f, g, marked - {k});
    }
  }

  lemma {:induction false} DispatchesByMonitor(s0: State, trace: seq<Step>, ids: set<string>, a: int, b: int)
    requires Sound(s0) && Legal(s0, trace) && Run(s0, trace).rows.Keys <= ids
    ensures AllDispatchesWithin(trace, a, b) == SumOver(ids, id => DispatchesWithin(trace, id, a, b))
  {
    var each := id => DispatchesWithin(trace, id, a, b);
    if trace == [] {
      SumOverZero(ids, each);
    } else {
      var init, step := trace[..|trace| - 1], trace[|trace| - 1];
      var before := id => DispatchesWithin(init, id, a, b);
      SoundRun(s0, init);
      RowsStep(Run(s0, init), step);
      DispatchesByMonitor(s0, init, ids, a, b);
      if step.Dispatch? {
        SumOverBump(ids, before, each, step.id);
      } else {
        SumOverMono(ids, before, each);
        SumOverMono(ids, each, before);
      }
    }
  }
}
