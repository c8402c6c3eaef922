/** Which active, funded monitors can be missing from the schedule: what the periodic re-sync repairs, and the one
    interleaving it does not. */
module Coverage {
  import opened Common
  import opened SchedulerModel

  /** A command that can leave a monitor eligible but unscheduled: its Create's arming write failing or being cut off by a
      restart, a resume, or its owner's credits rising above zero. */
  predicate Enables(s: State, step: Step, id: string) {
    || step == ArmFails(id)
    || (step.Restart? && id in s.arming)
    || (step.SetActive? && step.id == id && step.active)
    || (step.TopUp? && id in s.rows && s.rows[id].owner == step.owner
        && (step.owner in s.credits ==> s.credits[step.owner] <= 0))
  }

  /** Such a command came at position r or later. */
  ghost predicate EnabledSince(s0: State, trace: seq<Step>, r: nat, id: string) {
    exists k :: r <= k < |trace| && Enables(Run(s0, trace[..k]), trace[k], id)
  }

  /** What became of the re-sync that began at position r: still running, finished, or cut short. */
  datatype Outcome = Running | Finished | CutShort

  ghost function OutcomeOf(trace: seq<Step>, r: nat): Outcome
    requires r < |trace|
  {
    if |trace| == r + 1 then Running
    else
      Continued(OutcomeOf(trace[..|trace| - 1], r), trace[|trace| - 1])
  }

  function Continued(outcome: Outcome, step: Step): Outcome {
    if !outcome.Running? then outcome
    else if step.SyncEnd? then Finished
    else if step.SyncFails? || step.Restart? then CutShort
    else Running
  }

  /** A re-sync read the monitors at position r, when no running tick was about to remove this one. */
  ghost predicate SyncsUndisturbed(s0: State, trace: seq<Step>, r: nat, id: string) {
    && r < |trace| && trace[r].SyncRead?
    && !(Run(s0, trace[..r]).tick.Writing? && id in Run(s0, trace[..r]).tick.missing)
  }

  lemma {:induction false} EnabledSinceGrows(s0: State, trace: seq<Step>, r: nat, id: string)
    requires trace != [] && r <= |trace| - 1
    ensures EnabledSince(s0, trace[..|trace| - 1], r, id) ==> EnabledSince(s0, trace, r, id)
    ensures Enables(Run(s0, trace[..|trace| - 1]), trace[|trace| - 1], id) ==> EnabledSince(s0, trace, r, id)
  {
    var init := trace[..|trace| - 1];
    assert forall k :: 0 <= k < |init| ==> init[..k] == trace[..k];
    if EnabledSince(s0, init, r, id) {
      var k :| r <= k < |init| && Enables(Run(s0, init[..k]), init[k], id);
      assert Enables(Run(s0, trace[..k]), trace[k], id);
    }
  }

  /** The last command since position r that removed, added or armed the monitor removed it. */
  function RemovedLast(trace: seq<Step>, r: nat, id: string): bool
    requires r < |trace|
  {
    |trace| != r + 1 && RemovedAfter(RemovedLast(trace[..|trace| - 1], r, id), trace[|trace| - 1], id)
  }

  function RemovedAfter(removed: bool, step: Step, id: string): bool {
    if step == Remove(id) then true
    else if step == Arm(id) || (step.SyncAdd? && step.id == id) then false
    else removed
  }

  /** Why an eligible monitor may be missing: it was enabled since the re-sync, its Create is still under way, the re-sync has
      yet to reach it, or it was removed. With no tick about to remove it when the re-sync read, it is not removed either. */
  ghost predicate Explained(s: State, id: string, outcome: Outcome, since: bool, removed: bool, undisturbed: bool) {
    && (outcome.Running? ==> s.sync.Adding?)
    && (removed ==> id !in s.zset)
    && (Eligible(s, id) && !since ==>
          && (undisturbed ==> !removed && !(s.tick.Writing? && id in s.tick.missing))
          && (outcome.Running? ==> id in s.zset || id in s.arming || id in s.sync.todo || removed)
          && (outcome.Finished? ==> id in s.zset || id in s.arming || removed))
  }

  /** A monitor that is eligible after a step that did not enable it was eligible before, or was just inserted. */
  lemma EligibleBefore(s: State, step: Step, id: string)
    requires Enabled(s, step) && !Enables(s, step, id) && Eligible(Apply(s, step), id)
    ensures Eligible(s, id) || (step.Insert? && step.id == id && id !in s.rows)
  {}

  lemma ExplainedStep(s: State, step: Step, id: string, outcome: Outcome, since: bool, removed: bool, undisturbed: bool)
    requires Sound(s) && Enabled(s, step) && Explained(s, id, outcome, since, removed, undisturbed)
    requires step.Insert? && step.id == id ==> !removed
    ensures Explained(Apply(s, step), id, Continued(outcome, step), since || Enables(s, step, id),
                      RemovedAfter(removed, step, id), undisturbed)
  {
    if Eligible(Apply(s, step), id) && !Enables(s, step, id) {
      EligibleBefore(s, step, id);
    }
    hide IsFetch, DueSet;
  }

  /** Only monitors with a row are removed. */
  lemma {:induction false} RemovedHasRow(s0: State, trace: seq<Step>, r: nat, id: string)
    requires Sound(s0) && Legal(s0, trace) && r < |trace| && RemovedLast(trace, r, id)
    ensures id in Run(s0, trace).rows
  {
    var init, step := trace[..|trace| - 1], trace[|trace| - 1];
    SoundRun(s0, init);
    RowsStep(Run(s0, init), step);
    if step != Remove(id) {
      RemovedHasRow(s0, init, r, id);
    }
  }

  lemma {:induction false} ExplainedRun(s0: State, trace: seq<Step>, r: nat, id: string)
    requires Sound(s0) && Legal(s0, trace) && r < |trace| && trace[r].SyncRead?
    ensures Explained(Run(s0, trace), id, OutcomeOf(trace, r), EnabledSince(s0, trace, r, id), RemovedLast(trace, r, id),
                      SyncsUndisturbed(s0, trace, r, id))
  {
    var init, step := trace[..|trace| - 1], trace[|trace| - 1];
    var s := Run(s0, init);
    SoundRun(s0, init);
    EnabledSinceGrows(s0, trace, r, id);
    if |trace| != r + 1 {
      assert init[..r] == trace[..r];
      ExplainedRun(s0, init, r, id);
      if RemovedLast(init, r, id) {
        RemovedHasRow(s0, init, r, id);
      }
      ExplainedStep(s, step, id, OutcomeOf(init, r), EnabledSince(s0, init, r, id), RemovedLast(init, r, id),
                    SyncsUndisturbed(s0, init, r, id));
      if EnabledSince(s0, trace, r, id) {
        var k :| r <= k < |trace| && Enables(Run(s0, trace[..k]), trace[k], id);
        assert k < |init| ==> init[..k] == trace[..k];
      }
    } else {
      assert init == trace[..r];
    }
  }

  /** The exact condition: once a re-sync has finished, an active, funded monitor whose Create is not under way and that
      nothing enabled since that re-sync read the monitors is unscheduled exactly when the last command since then that
      removed, added or armed it removed it. */
  lemma MissingIff(s0: State, trace: seq<Step>, r: nat, id: string)
    requires Sound(s0) && Legal(s0, trace) && r < |trace| && trace[r].SyncRead? && OutcomeOf(trace, r).Finished?
    requires Eligible(Run(s0, trace), id) && id !in Run(s0, trace).arming && !EnabledSince(s0, trace, r, id)
    ensures id !in Run(s0, trace).zset <==> RemovedLast(trace, r, id)
  {
    ExplainedRun(s0, trace, r, id);
  }

  /** Such a removal was decided before the re-sync read: the tick that ran then held the monitor as missing. */
  lemma RemovedOnlyIfDisturbed(s0: State, trace: seq<Step>, r: nat, id: string)
    requires Sound(s0) && Legal(s0, trace) && r < |trace| && trace[r].SyncRead?
    requires Eligible(Run(s0, trace), id) && !EnabledSince(s0, trace, r, id) && RemovedLast(trace, r, id)
    ensures !SyncsUndisturbed(s0, trace, r, id)
  {
    ExplainedRun(s0, trace, r, id);
  }

  /** Coverage: once a re-sync that no tick disturbed has finished, an active, funded monitor that is not scheduled has its
      Create still under way, or since that re-sync read the monitors it lost its Create's arming write, was resumed, or had
      its owner's empty account topped up. */
  lemma MissingOnlyIfEnabledSince(s0: State, trace: seq<Step>, r: nat, id: string)
    requires Sound(s0) && Legal(s0, trace) && SyncsUndisturbed(s0, trace, r, id) && OutcomeOf(trace, r).Finished?
    requires Eligible(Run(s0, trace), id) && id !in Run(s0, trace).zset
    ensures EnabledSince(s0, trace, r, id) || id in Run(s0, trace).arming
  {
    hide *;
    if !EnabledSince(s0, trace, r, id) && id !in Run(s0, trace).arming {
      UndisturbedIsSync(s0, trace, r, id);
      MissingIff(s0, trace, r, id);
      RemovedOnlyIfDisturbed(s0, trace, r, id);
      assert false;
    }
  }

  lemma UndisturbedIsSync(s0: State, trace: seq<Step>, r: nat, id: string)
    requires SyncsUndisturbed(s0, trace, r, id)
    ensures r < |trace| && trace[r].SyncRead?
  {}

  /** A whole re-sync only adds: it never moves a score that is already there. */
  lemma SyncKeepsScores(s: State, step: Step)
    requires Enabled(s, step) && (step.SyncRead? || step.SyncAdd? || step.SyncEnd? || step.SyncFails?)
    ensures forall id :: id in s.zset ==> id in Apply(s, step).zset && Apply(s, step).zset[id] == s.zset[id]
    ensures forall id :: id in Apply(s, step).zset && id !in s.zset ==> step == SyncAdd(id, Apply(s, step).zset[id])
  {}
}
