/** A late arming write does harm whenever the rest of the system lets it: from every state right after one there is a
    continuation that dispatches the monitor early. */
module LateArming {
  import opened Common
  import opened SchedulerModel
  import opened DispatchSpacing

  /** One more command that is no dispatch. */
  lemma Quietly(s0: State, trace: seq<Step>, step: Step, id: string) returns (t: seq<Step>)
    requires Legal(s0, trace) && Enabled(Run(s0, trace), step) && !step.Dispatch?
    ensures trace <= t && Legal(s0, t) && Run(s0, t) == Apply(Run(s0, trace), step)
    ensures LastDispatch(t, id) == LastDispatch(trace, id)
  {
    hide Legal, Run, Enabled, Apply;
    Extend(s0, trace, step);
    t := trace + [step];
    assert t[..|trace|] == trace;
  }

  /** A scheduled, undeleted monitor in an idle system, and what the commands below keep of it. */
  ghost predicate Scheduled(s: State, id: string, interval: int, now: int, zset: map<string, int>) {
    && id in s.rows && !s.rows[id].deleted && s.rows[id].interval == interval
    && s.clock == now && s.zset == zset && s.tick.Idle?
  }

  lemma RestartKeeps(s: State, id: string)
    requires id in s.rows && !s.rows[id].deleted
    ensures Enabled(s, Restart) && Scheduled(Apply(s, Restart), id, s.rows[id].interval, s.clock, s.zset)
  {}

  lemma TopUpFunds(s: State, id: string, interval: int, now: int, zset: map<string, int>) returns (step: Step)
    requires Scheduled(s, id, interval, now, zset)
    ensures !step.Dispatch? && Enabled(s, step) && Scheduled(Apply(s, step), id, interval, now, zset)
    ensures var s' := Apply(s, step); s'.rows[id].owner in s'.credits && s'.credits[s'.rows[id].owner] > 0
  {
    var owner := s.rows[id].owner;
    step := TopUp(owner, if owner in s.credits && s.credits[owner] < 0 then 1 - s.credits[owner] else 1);
  }

  lemma ResumeEnables(s: State, id: string, interval: int, now: int, zset: map<string, int>)
    requires Scheduled(s, id, interval, now, zset) && s.rows[id].owner in s.credits && s.credits[s.rows[id].owner] > 0
    ensures Enabled(s, SetActive(id, true)) && Scheduled(Apply(s, SetActive(id, true)), id, interval, now, zset)
    ensures Eligible(Apply(s, SetActive(id, true)), id)
  {}

  lemma FetchFinds(s: State, id: string, interval: int, now: int, zset: map<string, int>)
    requires Scheduled(s, id, interval, now, zset) && Eligible(s, id)
    requires id in zset && zset[id] <= now && |DueSet(zset, now)| <= BATCH
    ensures Enabled(s, Fetch(DueSet(zset, now)))
    ensures var s' := Apply(s, Fetch(DueSet(zset, now)));
            s' == s.(tick := Fetched(now, DueSet(zset, now))) && Enabled(s', FindMany)
  {
    assert id in DueSet(zset, now);
    assert IsFetch(zset, now, DueSet(zset, now));
  }

  lemma LookupAllows(s: State, id: string, interval: int, now: int, due: set<string>)
    requires id in s.rows && s.rows[id].interval == interval && Eligible(s, id) && s.tick == Fetched(now, due) && id in due
    ensures Enabled(Apply(s, FindMany), Dispatch(id, now, interval))
  {}

  /** From a system with a due monitor and room in the next fetch, a few commands later its dispatch is possible. */
  lemma DispatchPossible(s0: State, trace: seq<Step>, id: string) returns (t: seq<Step>)
    requires Legal(s0, trace)
    requires var s := Run(s0, trace);
             && id in s.rows && !s.rows[id].deleted && id in s.zset && s.zset[id] <= s.clock
             && |DueSet(s.zset, s.clock)| <= BATCH
    ensures trace <= t && Legal(s0, t) && LastDispatch(t, id) == LastDispatch(trace, id)
    ensures var s := Run(s0, trace); Enabled(Run(s0, t), Dispatch(id, s.clock, s.rows[id].interval))
  {
    var s := Run(s0, trace);
    var interval, now, zset := s.rows[id].interval, s.clock, s.zset;
    RestartKeeps(s, id);
    assert id in DueSet(zset, now);
    hide *;
    t := Quietly(s0, trace, Restart, id);
    var fund := TopUpFunds(Run(s0, t), id, interval, now, zset);
    var t2 := Quietly(s0, t, fund, id);
    ResumeEnables(Run(s0, t2), id, interval, now, zset);
    var t3 := Quietly(s0, t2, SetActive(id, true), id);
    t := FetchedAndFound(s0, t3, id, interval, now, zset);
  }

  lemma FetchedAndFound(s0: State, trace: seq<Step>, id: string, interval: int, now: int, zset: map<string, int>)
    returns (t: seq<Step>)
    requires Legal(s0, trace) && Scheduled(Run(s0, trace), id, interval, now, zset) && Eligible(Run(s0, trace), id)
    requires id in zset && zset[id] <= now && |DueSet(zset, now)| <= BATCH
    ensures trace <= t && Legal(s0, t) && LastDispatch(t, id) == LastDispatch(trace, id)
    ensures Enabled(Run(s0, t), Dispatch(id, now, interval))
  {
    var s, due := Run(s0, trace), DueSet(zset, now);
    assert id in due && id in s.rows && s.rows[id].interval == interval;
    assert Eligible(s.(tick := Fetched(now, due)), id);
    hide *;
    FetchFinds(s, id, interval, now, zset);
    t := Quietly(s0, trace, Fetch(due), id);
    LookupAllows(Run(s0, t), id, interval, now, due);
    t := Quietly(s0, t, FindMany, id);
  }

  lemma JustArmed(s0: State, trace: seq<Step>)
    requires Start(s0) && Legal(s0, trace) && trace != [] && IsLateArm(s0, trace, |trace| - 1)
    ensures var s, id := Run(s0, trace), trace[|trace| - 1].id;
            && id in s.rows && id in s.zset && s.zset[id] == 0
            && LastDispatch(trace, id).Some? && s.clock < LastDispatch(trace, id).value + s.rows[id].interval
  {
    SoundRun(s0, trace);
    hide Legal, Sound;
  }

  /** From every reachable state right after a late arming write, if the monitor is not deleted and no more monitors are due
      than a tick fetches, some continuation dispatches the monitor early. */
  lemma LateArmCanBeEarly(s0: State, trace: seq<Step>) returns (t: seq<Step>)
    requires Start(s0) && Legal(s0, trace) && trace != [] && IsLateArm(s0, trace, |trace| - 1)
    requires Run(s0, trace).clock >= 0 && |DueSet(Run(s0, trace).zset, Run(s0, trace).clock)| <= 100
    requires trace[|trace| - 1].id in Run(s0, trace).rows ==> !Run(s0, trace).rows[trace[|trace| - 1].id].deleted
    ensures trace <= t && Legal(s0, t) && IsEarly(t, |t| - 1) && t[|t| - 1].id == trace[|trace| - 1].id
  {
    JustArmed(s0, trace);
    hide *;
    var s, id := Run(s0, trace), trace[|trace| - 1].id;
    t := DispatchPossible(s0, trace, id);
    var i := LastDispatchAt(t, id);
    var dispatch := Dispatch(id, s.clock, s.rows[id].interval);
    Extend(s0, t, dispatch);
    t := t + [dispatch];
    EarlyAtEnd(t, i);
  }

  lemma EarlyAtEnd(t: seq<Step>, i: nat)
    requires i < |t| - 1 && t[i].Dispatch? && t[|t| - 1].Dispatch? && t[i].id == t[|t| - 1].id
    requires t[|t| - 1].now < t[i].now + t[|t| - 1].interval
    ensures IsEarly(t, |t| - 1)
  {}
}
