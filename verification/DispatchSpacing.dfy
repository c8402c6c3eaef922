/** How far apart the dispatches of one monitor are, over every interleaving of scheduler, re-sync and API commands. */
module DispatchSpacing {
  import opened Arithmetic
  import opened Common
  import opened SchedulerModel

  function LastDispatch(trace: seq<Step>, id: string): Option<int> {
    if trace == [] then None
    else
      var last := trace[|trace| - 1];
      if last.Dispatch? && last.id == id then Some(last.now) else LastDispatch(trace[..|trace| - 1], id)
  }

  /** Dispatch j comes sooner than its interval after an earlier dispatch of the same monitor. */
  ghost predicate IsEarly(trace: seq<Step>, j: nat) {
    && j < |trace| && trace[j].Dispatch?
    && exists i :: 0 <= i < j && trace[i].Dispatch? && trace[i].id == trace[j].id
                   && trace[j].now < trace[i].now + trace[j].interval
  }

  /** Early dispatches of one monitor. */
  function EarlyCount(trace: seq<Step>, id: string): nat {
    if trace == [] then 0
    else
      var init, last := trace[..|trace| - 1], trace[|trace| - 1];
      EarlyCount(init, id)
      + (if last.Dispatch? && last.id == id && LastDispatch(init, id).Some?
            && last.now < LastDispatch(init, id).value + last.interval then 1 else 0)
  }

  /** The schedule could still dispatch the monitor before it is due again: its score lies too low, or it is missing and
      could be re-added too early, or the running tick holds it although it fetched it too early. */
  ghost predicate Hot(s: State, id: string, last: int)
    requires id in s.rows
  {
    var due := last + s.rows[id].interval;
    || (s.clock < due && !(id in s.zset && s.zset[id] >= due))
    || (id in s.tick.Members() && s.tick.now < due)
  }

  function Bit(b: bool): nat {
    if b then 1 else 0
  }

  /** Only the first write of a Create can make a monitor hot, and only before the monitor is due again. */
  lemma HeatStep(s: State, step: Step, id: string, last: int)
    requires Sound(s) && Enabled(s, step) && id in s.rows && last <= s.clock
    requires !(step.Dispatch? && step.id == id)
    requires step == Arm(id) ==> s.clock >= last + s.rows[id].interval
    ensures Hot(Apply(s, step), id, last) ==> Hot(s, id, last)
    ensures id in Apply(s, step).arming ==> id in s.arming
  {}

  /** A dispatch leaves its monitor cool, and an early one needs a hot monitor. */
  lemma DispatchStep(s: State, step: Step)
    requires Sound(s) && Enabled(s, step) && step.Dispatch?
    ensures step.id in s.rows && step.now <= Apply(s, step).clock && !Hot(Apply(s, step), step.id, step.now)
    ensures forall last :: step.now < last + step.interval ==> Hot(s, step.id, last)
    ensures Apply(s, step).arming == s.arming
  {}

  /** The account kept per monitor: early dispatches so far, the outstanding write of its Create, and its heat. */
  ghost predicate WithinBudget(s: State, trace: seq<Step>, id: string) {
    match LastDispatch(trace, id)
    case None => EarlyCount(trace, id) == 0
    case Some(last) =>
      && id in s.rows && last <= s.clock
      && EarlyCount(trace, id) + Bit(id in s.arming) + Bit(Hot(s, id, last)) <= 1
  }

  lemma {:induction false} Budget(s0: State, trace: seq<Step>, id: string)
    requires Start(s0) && Legal(s0, trace)
    ensures Sound(Run(s0, trace)) && WithinBudget(Run(s0, trace), trace, id)
  {
    SoundRun(s0, trace);
    if trace != [] {
      var init, step := trace[..|trace| - 1], trace[|trace| - 1];
      var s := Run(s0, init);
      Budget(s0, init, id);
      RowsStep(s, step);
      if step.Dispatch? && step.id == id {
        DispatchStep(s, step);
      } else if LastDispatch(init, id).Some? && step != Arm(id) {
        HeatStep(s, step, id, LastDispatch(init, id).value);
      }
      hide Hot, Legal;
    }
  }

  /** Dispatches of one monitor happen in clock order. */
  lemma {:induction false} LastIsLatest(s0: State, trace: seq<Step>, id: string, i: nat)
    requires Sound(s0) && Legal(s0, trace) && i < |trace| && trace[i].Dispatch? && trace[i].id == id
    ensures LastDispatch(trace, id).Some? && trace[i].now <= LastDispatch(trace, id).value <= Run(s0, trace).clock
  {
    var init, step := trace[..|trace| - 1], trace[|trace| - 1];
    SoundRun(s0, init);
    RowsStep(Run(s0, init), step);
    if i < |trace| - 1 {
      LastIsLatest(s0, init, id, i);
      LastBeforeTick(s0, init, id);
    }
  }

  /** The last dispatch of a monitor does not lie after the running tick's reading of the clock. */
  lemma {:induction false} LastBeforeTick(s0: State, trace: seq<Step>, id: string)
    requires Sound(s0) && Legal(s0, trace) && LastDispatch(trace, id).Some?
    ensures LastDispatch(trace, id).value <= Run(s0, trace).clock
    ensures !Run(s0, trace).tick.Idle? ==> LastDispatch(trace, id).value <= Run(s0, trace).tick.now
  {
    var init, step := trace[..|trace| - 1], trace[|trace| - 1];
    SoundRun(s0, init);
    RowsStep(Run(s0, init), step);
    if !(step.Dispatch? && step.id == id) {
      LastBeforeTick(s0, init, id);
    }
  }

  /** An early dispatch, wherever it is in the trace, is counted. */
  lemma {:induction false} EarlyIsCounted(s0: State, trace: seq<Step>, j: nat)
    requires Sound(s0) && Legal(s0, trace) && IsEarly(trace, j)
    ensures EarlyCount(trace, trace[j].id) >= EarlyCount(trace[..j], trace[j].id) + 1
  {
    var init, id := trace[..|trace| - 1], trace[j].id;
    if j < |trace| - 1 {
      assert init[..j] == trace[..j];
      EarlyIsCounted(s0, init, j);
    } else {
      var i :| 0 <= i < j && trace[i].Dispatch? && trace[i].id == id && trace[j].now < trace[i].now + trace[j].interval;
      LastIsLatest(s0, init, id, i);
    }
  }

  lemma {:induction false} LegalPrefix(s0: State, trace: seq<Step>, k: nat)
    requires Legal(s0, trace) && k <= |trace|
    ensures Legal(s0, trace[..k])
  {
    if k == |trace| {
      assert trace[..k] == trace;
    } else {
      assert trace[..|trace| - 1][..k] == trace[..k];
      LegalPrefix(s0, trace[..|trace| - 1], k);
    }
  }

  lemma AtMostOneEarly(s0: State, trace: seq<Step>, id: string)
    requires Start(s0) && Legal(s0, trace)
    ensures Sound(s0) && EarlyCount(trace, id) <= 1
  {
    Budget(s0, trace, id);
    hide Legal, Run, Hot, EarlyCount, LastDispatch;
  }

  lemma EarlyInPrefix(trace: seq<Step>, lo: nat, hi: nat)
    requires IsEarly(trace, lo) && lo < hi < |trace|
    ensures IsEarly(trace[..hi], lo) && trace[..hi][lo] == trace[lo] && trace[..hi][..lo] == trace[..lo]
  {
    var i :| 0 <= i < lo && trace[i].Dispatch? && trace[i].id == trace[lo].id && trace[lo].now < trace[i].now + trace[lo].interval;
    assert trace[..hi][i] == trace[i];
  }

  /** With Create split into its two writes, every monitor is dispatched early at most once in its lifetime. */
  lemma EarlyAtMostOnce(s0: State, trace: seq<Step>, j: nat, k: nat)
    requires Start(s0) && Legal(s0, trace)
    requires IsEarly(trace, j) && IsEarly(trace, k) && trace[j].id == trace[k].id
    ensures j == k
  {
    var lo, hi := if j < k then j else k, if j < k then k else j;
    if lo < hi {
      EarlyInPrefix(trace, lo, hi);
      hide *;
      AtMostOneEarly(s0, trace, trace[hi].id);
      LegalPrefix(s0, trace, hi);
      EarlyIsCounted(s0, trace[..hi], lo);
      EarlyIsCounted(s0, trace, hi);
    }
  }

  /** Command k is the arming write of a Create whose monitor was dispatched before and is not due again. */
  ghost predicate IsLateArm(s0: State, trace: seq<Step>, k: nat) {
    && k < |trace| && trace[k].Arm? && LastDispatch(trace[..k], trace[k].id).Some?
    && trace[k].id in Run(s0, trace[..k]).rows
    && Run(s0, trace[..k]).clock < LastDispatch(trace[..k], trace[k].id).value + Run(s0, trace[..k]).rows[trace[k].id].interval
  }

  /** Some Create of the monitor armed it late. */
  ghost predicate ArmedLate(s0: State, trace: seq<Step>, id: string) {
    exists k: nat :: IsLateArm(s0, trace, k) && trace[k].id == id
  }

  lemma LateArmInPrefix(s0: State, trace: seq<Step>, k: nat)
    requires trace != [] && k < |trace| - 1
    ensures IsLateArm(s0, trace[..|trace| - 1], k) <==> IsLateArm(s0, trace, k)
  {
    assert trace[..|trace| - 1][..k] == trace[..k];
  }

  /** The last command of a run that leaves a monitor hot is not its dispatch, and either found it hot or armed it late. */
  lemma HotBefore(s0: State, trace: seq<Step>, id: string)
    requires Start(s0) && Legal(s0, trace) && LastDispatch(trace, id).Some?
    requires id in Run(s0, trace).rows ==> Hot(Run(s0, trace), id, LastDispatch(trace, id).value)
    ensures trace != []
    ensures var init, n := trace[..|trace| - 1], |trace| - 1;
            && Legal(s0, init) && LastDispatch(init, id) == LastDispatch(trace, id)
            && !(trace[n].Dispatch? && trace[n].id == id)
            && id in Run(s0, init).rows
            && (Hot(Run(s0, init), id, LastDispatch(init, id).value) || (trace[n] == Arm(id) && IsLateArm(s0, trace, n)))
  {
    var init, step := trace[..|trace| - 1], trace[|trace| - 1];
    var s := Run(s0, init);
    SoundRun(s0, init);
    RowsStep(s, step);
    if step.Dispatch? {
      DispatchStep(s, step);
    }
    assert !(step.Dispatch? && step.id == id);
    LastBeforeTick(s0, init, id);
    DispatchedHasRow(s0, init, id);
    var last := LastDispatch(init, id).value;
    if !(step == Arm(id) && s.clock < last + s.rows[id].interval) {
      HeatStep(s, step, id, last);
    }
    hide Hot, Legal, Sound, Apply, Enabled;
  }

  /** A hot monitor was armed late after its last dispatch. */
  lemma {:induction false} HotSince(s0: State, trace: seq<Step>, id: string) returns (k: nat)
    requires Start(s0) && Legal(s0, trace) && LastDispatch(trace, id).Some?
    requires id in Run(s0, trace).rows ==> Hot(Run(s0, trace), id, LastDispatch(trace, id).value)
    ensures k < |trace| && IsLateArm(s0, trace, k) && trace[k].id == id
    ensures LastDispatch(trace[..k], id) == LastDispatch(trace, id)
    ensures forall m :: k < m < |trace| ==> !(trace[m].Dispatch? && trace[m].id == id)
  {
    hide *;
    HotBefore(s0, trace, id);
    var init, n := trace[..|trace| - 1], |trace| - 1;
    if trace[n] == Arm(id) && IsLateArm(s0, trace, n) {
      k := n;
    } else {
      k := HotSince(s0, init, id);
      LateArmInPrefix(s0, trace, k);
      assert init[..k] == trace[..k];
    }
  }

  /** A dispatch is of a monitor that has a row, at that row's interval. */
  lemma DispatchedAtInterval(s0: State, trace: seq<Step>, j: nat)
    requires Legal(s0, trace) && j < |trace| && trace[j].Dispatch?
    ensures trace[j].id in Run(s0, trace).rows && trace[j].interval == Run(s0, trace).rows[trace[j].id].interval
  {
    RowsPersist(s0, trace, j);
    RowsPersist(s0, trace, j + 1);
    assert trace[..j + 1][..j] == trace[..j];
  }

  lemma {:induction false} DispatchedHasRow(s0: State, trace: seq<Step>, id: string)
    requires Sound(s0) && Legal(s0, trace) && LastDispatch(trace, id).Some?
    ensures id in Run(s0, trace).rows
  {
    var init, step := trace[..|trace| - 1], trace[|trace| - 1];
    RowsStep(Run(s0, init), step);
    if step.Dispatch? && step.id == id {
      SoundRun(s0, init);
    } else {
      DispatchedHasRow(s0, init, id);
    }
  }

  /** Which dispatch the last one was. */
  lemma {:induction false} LastDispatchAt(trace: seq<Step>, id: string) returns (i: nat)
    requires LastDispatch(trace, id).Some?
    ensures i < |trace| && trace[i].Dispatch? && trace[i].id == id && trace[i].now == LastDispatch(trace, id).value
  {
    var last := trace[|trace| - 1];
    if last.Dispatch? && last.id == id {
      i := |trace| - 1;
    } else {
      i := LastDispatchAt(trace[..|trace| - 1], id);
    }
  }

  /** Dispatch j is the first after the late arming write k, and its tick read the clock before the monitor was due. */
  ghost predicate FollowsLateArm(s0: State, trace: seq<Step>, k: nat, j: nat) {
    && k < j < |trace| && trace[j].Dispatch? && IsLateArm(s0, trace, k) && trace[k].id == trace[j].id
    && (forall m :: k < m < j ==> !(trace[m].Dispatch? && trace[m].id == trace[j].id))
    && trace[j].now < LastDispatch(trace[..k], trace[j].id).value + trace[j].interval
  }

  /** The exact condition: a dispatch is early exactly when it is the first one after an arming write that came after a
      dispatch and before the monitor was due, in a tick that still began before it was due. */
  lemma EarlyIff(s0: State, trace: seq<Step>, j: nat)
    requires Start(s0) && Legal(s0, trace)
    ensures IsEarly(trace, j) <==> exists k :: FollowsLateArm(s0, trace, k, j)
  {
    if IsEarly(trace, j) {
      var k := EarlyFollowsLateArm(s0, trace, j);
    }
    if k: nat :| FollowsLateArm(s0, trace, k, j) {
      var i := LastDispatchAt(trace[..k], trace[j].id);
      assert trace[i] == trace[..k][i];
    }
  }

  lemma EarlyFollowsLateArm(s0: State, trace: seq<Step>, j: nat) returns (k: nat)
    requires Start(s0) && Legal(s0, trace) && IsEarly(trace, j)
    ensures FollowsLateArm(s0, trace, k, j)
  {
    var before, id := trace[..j], trace[j].id;
    LegalUntil(s0, trace, j);
    var i :| 0 <= i < j && trace[i].Dispatch? && trace[i].id == id && trace[j].now < trace[i].now + trace[j].interval;
    assert Sound(s0) && before[i] == trace[i];
    LastIsLatest(s0, before, id, i);
    SoundRun(s0, before);
    DispatchStep(Run(s0, before), trace[j]);
    hide Hot, Legal, Sound, Apply, Enabled, Run;
    k := HotSince(s0, before, id);
    assert before[..k] == trace[..k] && before[k] == trace[k];
    assert forall m :: k < m < j ==> before[m] == trace[m];
  }

  lemma {:induction false} LegalUntil(s0: State, trace: seq<Step>, k: nat)
    requires Legal(s0, trace) && k < |trace|
    ensures Legal(s0, trace[..k]) && Enabled(Run(s0, trace[..k]), trace[k])
  {
    hide Enabled, Run;
    if k < |trace| - 1 {
      assert trace[..|trace| - 1][..k] == trace[..k];
      LegalUntil(s0, trace[..|trace| - 1], k);
    }
  }

  /** Any two dispatches of a monitor that no Create armed late lie at least its interval apart, through every pause, resume,
      deletion, ghost removal, re-sync and restart in between. */
  lemma Spacing(s0: State, trace: seq<Step>, i: nat, j: nat)
    requires Start(s0) && Legal(s0, trace)
    requires i < j < |trace| && trace[i].Dispatch? && trace[j].Dispatch? && trace[i].id == trace[j].id
    requires !ArmedLate(s0, trace, trace[j].id)
    ensures trace[j].now - trace[i].now >= trace[j].interval
    ensures trace[j].id in Run(s0, trace).rows && trace[j].interval == Run(s0, trace).rows[trace[j].id].interval
  {
    EarlyIff(s0, trace, j);
    DispatchedAtInterval(s0, trace, j);
    hide Start, Legal, Run, IsLateArm;
  }

  /** Every Create writes its first score right after its row, with nothing in between. */
  ghost predicate CreatesAreAtomic(trace: seq<Step>) {
    forall k :: 0 <= k < |trace| && trace[k].Arm? ==> 0 < k && trace[k - 1].Insert? && trace[k - 1].id == trace[k].id
  }

  /** An arming write directly after its row is never late. */
  lemma AtomicIsNotLate(s0: State, trace: seq<Step>, id: string)
    requires Start(s0) && Legal(s0, trace) && CreatesAreAtomic(trace)
    ensures !ArmedLate(s0, trace, id)
  {
    forall k: nat ensures !IsLateArm(s0, trace, k) {
      if k < |trace| && trace[k].Arm? && LastDispatch(trace[..k], trace[k].id).Some? {
        var x := trace[k].id;
        assert trace[..k] == trace[..k - 1] + [trace[k - 1]];
        assert LastDispatch(trace[..k], x) == LastDispatch(trace[..k - 1], x);
        LegalUntil(s0, trace, k - 1);
        DispatchedHasRow(s0, trace[..k - 1], x);
        assert false;
      }
    }
  }
}
