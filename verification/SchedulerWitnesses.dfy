/** Two concrete runs: the early dispatch that a Create split in two allows, and the race that lets a re-sync miss a
    resumed monitor. They show that the hypotheses of the spacing and coverage theorems are needed. */
module SchedulerWitnesses {
  import opened Common
  import opened SchedulerModel
  import opened DispatchSpacing
  import opened Coverage

  const EMPTY := State(1000, map[], map[7 := 5], map[], {}, Idle, Quiet)

  const ROW := Row(7, "d", 60, true, false)
  /** Monitor "m" is scheduled, its Create still owing the score 0. */
  const UNARMED := State(1000, map["m" := ROW], map[7 := 5], map["m" := 1000], {"m"}, Idle, Quiet)
  const ARMED := UNARMED.(zset := map["m" := 0], arming := {})

  /** A re-sync schedules the new monitor before its Create has written the score 0. */
  const CREATED_AND_SYNCED: seq<Step> := [Insert("m", 7, "d", 60), SyncRead, SyncAdd("m", 1000), SyncEnd]
  const DISPATCHING_TICK: seq<Step> := [Fetch({"m"}), FindMany, Dispatch("m", 1000, 60), EndTick]
  const SPLIT_CREATE: seq<Step> := CREATED_AND_SYNCED + DISPATCHING_TICK + [Arm("m")] + DISPATCHING_TICK

  /** What each command does to the states of the two runs. */
  lemma CreateAndSync()
    ensures Leads(EMPTY, Insert("m", 7, "d", 60), UNARMED.(zset := map[]))
    ensures Leads(UNARMED.(zset := map[]), SyncRead, UNARMED.(zset := map[], sync := Adding(1000, {"m"})))
    ensures Leads(UNARMED.(zset := map[], sync := Adding(1000, {"m"})), SyncAdd("m", 1000), UNARMED.(sync := Adding(1000, {})))
    ensures Leads(UNARMED.(sync := Adding(1000, {})), SyncEnd, UNARMED)
  {}

  lemma WriteAndEnd(start: State)
    requires start == UNARMED || start == ARMED
    ensures Leads(start.(tick := Writing(1000, {}, {"m"})), Dispatch("m", 1000, 60),
                  start.(zset := map["m" := 1060], tick := Writing(1000, {}, {})))
    ensures Leads(start.(zset := map["m" := 1060], tick := Writing(1000, {}, {})), EndTick, start.(zset := map["m" := 1060]))
  {}

  lemma FetchAndFind(start: State)
    requires start == UNARMED || start == ARMED || start == PAUSED
    ensures Leads(start, Fetch({"m"}), start.(tick := Fetched(1000, {"m"})))
    ensures start.rows == map["m" := ROW]
            ==> Leads(start.(tick := Fetched(1000, {"m"})), FindMany, start.(tick := Writing(1000, {}, {"m"})))
    ensures start == PAUSED
            ==> Leads(start.(tick := Fetched(1000, {"m"})), FindMany, start.(tick := Writing(1000, {"m"}, {})))
  {
    assert DueSet(start.zset, 1000) == {"m"};
  }

  lemma Scheduled() returns (t: seq<Step>)
    ensures t == CREATED_AND_SYNCED && Legal(EMPTY, t) && Run(EMPTY, t) == UNARMED
  {
    t := [];
    assert Legal(EMPTY, t) && Run(EMPTY, t) == EMPTY;
    CreateAndSync();
    hide Legal, Run, Leads;
    t := Go(EMPTY, t, Insert("m", 7, "d", 60), UNARMED.(zset := map[]));
    t := Go(EMPTY, t, SyncRead, UNARMED.(zset := map[], sync := Adding(1000, {"m"})));
    t := Go(EMPTY, t, SyncAdd("m", 1000), UNARMED.(sync := Adding(1000, {})));
    t := Go(EMPTY, t, SyncEnd, UNARMED);
  }

  /** Four steps in a row. */
  lemma FourSteps(before: seq<Step>, steps: seq<Step>, s0: State, s1: State, s2: State, s3: State, s4: State)
    returns (t: seq<Step>)
    requires |steps| == 4 && Legal(EMPTY, before) && Run(EMPTY, before) == s0
    requires Leads(s0, steps[0], s1) && Leads(s1, steps[1], s2) && Leads(s2, steps[2], s3) && Leads(s3, steps[3], s4)
    ensures t == before + steps && Legal(EMPTY, t) && Run(EMPTY, t) == s4
  {
    hide *;
    t := Go(EMPTY, before, steps[0], s1);
    t := Go(EMPTY, t, steps[1], s2);
    t := Go(EMPTY, t, steps[2], s3);
    t := Go(EMPTY, t, steps[3], s4);
  }

  lemma Dispatched(start: State, before: seq<Step>) returns (t: seq<Step>)
    requires Legal(EMPTY, before) && Run(EMPTY, before) == start
    requires start == UNARMED || start == ARMED
    ensures t == before + DISPATCHING_TICK && Legal(EMPTY, t)
    ensures Run(EMPTY, t) == start.(zset := map["m" := 1060])
  {
    FetchAndFind(start);
    WriteAndEnd(start);
    hide Legal, Run, Leads;
    t := FourSteps(before, DISPATCHING_TICK, start,
                   start.(tick := Fetched(1000, {"m"})), start.(tick := Writing(1000, {}, {"m"})),
                   start.(zset := map["m" := 1060], tick := Writing(1000, {}, {})), start.(zset := map["m" := 1060]));
  }

  lemma EarlyAtEleven(t: seq<Step>)
    requires t == SPLIT_CREATE
    ensures IsEarly(t, 11)
  {
    assert t[6] == t[11] == Dispatch("m", 1000, 60);
  }

  /** With Create split, a monitor can be dispatched twice in one second. */
  lemma EarlyDispatchHappens()
    ensures Start(EMPTY) && Legal(EMPTY, SPLIT_CREATE) && IsEarly(SPLIT_CREATE, 11)
  {
    assert Leads(UNARMED.(zset := map["m" := 1060]), Arm("m"), ARMED);
    hide Leads, Run, Legal, IsEarly;
    var t := Scheduled();
    t := Dispatched(UNARMED, t);
    t := Go(EMPTY, t, Arm("m"), ARMED);
    t := Dispatched(ARMED, t);
    assert t == SPLIT_CREATE;
    EarlyAtEleven(t);
  }

  /** A paused monitor is fetched and looked up, then resumed and seen by a whole re-sync, and only then removed. */
  const PAUSED_LOOKUP: seq<Step> := [Insert("m", 7, "d", 60), Arm("m"), SetActive("m", false), Fetch({"m"}), FindMany]
  const RESYNC_AND_REMOVE: seq<Step> := [SyncRead, SyncAdd("m", 1000), SyncEnd, Remove("m"), EndTick]
  const RACE: seq<Step> := PAUSED_LOOKUP + [SetActive("m", true)] + RESYNC_AND_REMOVE

  const PAUSED := ARMED.(rows := map["m" := ROW.(active := false)])
  const DOOMED := ARMED.(tick := Writing(1000, {"m"}, {}))

  lemma CreateAndPause()
    ensures Leads(EMPTY, Insert("m", 7, "d", 60), UNARMED.(zset := map[]))
    ensures Leads(UNARMED.(zset := map[]), Arm("m"), ARMED)
    ensures Leads(ARMED, SetActive("m", false), PAUSED)
    ensures Leads(PAUSED.(tick := Writing(1000, {"m"}, {})), SetActive("m", true), DOOMED)
  {}

  lemma SyncAgain()
    ensures Leads(DOOMED, SyncRead, DOOMED.(sync := Adding(1000, {"m"})))
    ensures Leads(DOOMED.(sync := Adding(1000, {"m"})), SyncAdd("m", 1000), DOOMED.(sync := Adding(1000, {})))
  {}

  lemma EndAndRemove()
    ensures Leads(DOOMED.(sync := Adding(1000, {})), SyncEnd, DOOMED)
    ensures Leads(DOOMED, Remove("m"), ARMED.(zset := map[], tick := Writing(1000, {}, {})))
    ensures Leads(ARMED.(zset := map[], tick := Writing(1000, {}, {})), EndTick, ARMED.(zset := map[]))
  {}

  lemma LookedUpWhilePaused() returns (t: seq<Step>)
    ensures t == PAUSED_LOOKUP && Legal(EMPTY, t) && Run(EMPTY, t) == PAUSED.(tick := Writing(1000, {"m"}, {}))
  {
    t := [];
    assert Legal(EMPTY, t) && Run(EMPTY, t) == EMPTY;
    CreateAndPause();
    FetchAndFind(PAUSED);
    hide Legal, Run, Leads;
    t := Go(EMPTY, t, Insert("m", 7, "d", 60), UNARMED.(zset := map[]));
    t := Go(EMPTY, t, Arm("m"), ARMED);
    t := Go(EMPTY, t, SetActive("m", false), PAUSED);
    t := Go(EMPTY, t, Fetch({"m"}), PAUSED.(tick := Fetched(1000, {"m"})));
    t := Go(EMPTY, t, FindMany, PAUSED.(tick := Writing(1000, {"m"}, {})));
  }

  lemma RemovedAfterResync(before: seq<Step>) returns (t: seq<Step>)
    requires Legal(EMPTY, before) && Run(EMPTY, before) == DOOMED
    ensures t == before + RESYNC_AND_REMOVE && Legal(EMPTY, t) && Run(EMPTY, t) == ARMED.(zset := map[])
  {
    SyncAgain();
    EndAndRemove();
    hide Legal, Run, Leads;
    t := Go(EMPTY, before, SyncRead, DOOMED.(sync := Adding(1000, {"m"})));
    t := Go(EMPTY, t, SyncAdd("m", 1000), DOOMED.(sync := Adding(1000, {})));
    t := Go(EMPTY, t, SyncEnd, DOOMED);
    t := Go(EMPTY, t, Remove("m"), ARMED.(zset := map[], tick := Writing(1000, {}, {})));
    t := Go(EMPTY, t, EndTick, ARMED.(zset := map[]));
  }

  /** A re-sync that runs between a tick's lookup and its removals can leave a resumed monitor unscheduled. */
  lemma ResyncCanMissAResumedMonitor()
    ensures Start(EMPTY) && Legal(EMPTY, RACE) && RACE[6].SyncRead? && OutcomeOf(RACE, 6).Finished?
    ensures Eligible(Run(EMPTY, RACE), "m") && "m" !in Run(EMPTY, RACE).zset
    ensures "m" !in Run(EMPTY, RACE).arming && !EnabledSince(EMPTY, RACE, 6, "m")
  {
    CreateAndPause();
    hide Leads;
    var t := LookedUpWhilePaused();
    t := Go(EMPTY, t, SetActive("m", true), DOOMED);
    t := RemovedAfterResync(t);
    hide Run, Legal;
    assert t == RACE;
    NothingEnables(EMPTY, RACE);
    SyncFinished();
  }

  lemma NothingEnables(s0: State, trace: seq<Step>)
    requires trace == RACE
    ensures !EnabledSince(s0, trace, 6, "m")
  {
    assert trace[6] == SyncRead && trace[7] == SyncAdd("m", 1000) && trace[8] == SyncEnd && trace[9] == Remove("m")
           && trace[10] == EndTick;
  }

  lemma SyncFinished()
    ensures OutcomeOf(RACE, 6).Finished?
  {
    assert RACE[..10] == RACE[..9] + [Remove("m")];
    assert RACE[..10][..9] == RACE[..9] && RACE[..9][..8] == RACE[..8] && RACE[..8][..7] == RACE[..7];
    assert OutcomeOf(RACE[..7], 6).Running?;
    assert OutcomeOf(RACE[..8], 6).Running?;
    assert OutcomeOf(RACE[..9], 6).Finished?;
    assert OutcomeOf(RACE[..10], 6).Finished?;
  }

  /** The step is possible and leads to the state spelled out. */
  ghost predicate Leads(s: State, step: Step, after: State) {
    Enabled(s, step) && Same(Apply(s, step), after)
  }

  /** One more step of a concrete run. */
  lemma Go(s0: State, trace: seq<Step>, step: Step, after: State) returns (longer: seq<Step>)
    requires Legal(s0, trace) && Leads(Run(s0, trace), step, after) == true
    ensures longer == trace + [step] && Legal(s0, longer) && Run(s0, longer) == after
  {
    longer := trace + [step];
    SameIsEqual(Apply(Run(s0, trace), step), after);
    hide Enabled, Apply, Run, Legal, Same;
    Extend(s0, trace, step);
  }

  lemma SameIsEqual(s: State, t: State)
    requires Same(s, t)
    ensures s == t
  {}

  /** Equality of states, set by set. */
  ghost predicate Same(s: State, t: State) {
    && s.clock == t.clock && s.rows == t.rows && s.credits == t.credits && s.zset == t.zset && s.arming == t.arming
    && (match (s.tick, t.tick)
        case (Idle, Idle) => true
        case (Fetched(a, due), Fetched(b, due')) => a == b && due == due'
        case (Writing(a, missing, found), Writing(b, missing', found')) => a == b && missing == missing' && found == found'
        case _ => false)
    && (match (s.sync, t.sync)
        case (Quiet, Quiet) => true
        case (Adding(a, todo), Adding(b, todo')) => a == b && todo == todo'
        case _ => false)
  }
}
