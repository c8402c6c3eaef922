/** Whom the scheduler's two database queries let through (db/repositories/monitor.go), over every interleaving: what a tick
    dispatches, puts off or removes, and what a re-sync adds, is decided by the rows and credits its own query saw. */
module Lookups {
  import opened Common
  import opened SchedulerModel
  import D = DispatchSpacing

  /** The commands between which a tick's lookup counts. */
  predicate IsTickBoundary(step: Step) {
    step.Fetch? || step.FindMany? || step.FindFails? || step.EndTick? || step.Restart?
  }

  predicate IsSyncBoundary(step: Step) {
    step.SyncRead? || step.SyncEnd? || step.SyncFails? || step.Restart?
  }

  /** Command f is the lookup of the tick that is under way before command j. */
  ghost predicate IsLookup(trace: seq<Step>, f: nat, j: nat) {
    f < j <= |trace| && trace[f].FindMany? && forall m :: f < m < j ==> !IsTickBoundary(trace[m])
  }

  /** Command r is the read of the re-sync that is under way before command j. */
  ghost predicate IsRead(trace: seq<Step>, r: nat, j: nat) {
    r < j <= |trace| && trace[r].SyncRead? && forall m :: r < m < j ==> !IsSyncBoundary(trace[m])
  }

  /** A command of a tick after number f removes the monitor. */
  ghost predicate Removed(trace: seq<Step>, f: nat, j: nat, id: string) {
    exists k :: f < k < j <= |trace| && trace[k] == Remove(id)
  }

  /** A command of a tick after number f dispatches the monitor or puts it off. */
  ghost predicate Served(trace: seq<Step>, f: nat, j: nat, id: string) {
    exists k :: f < k < j <= |trace| && (trace[k].Dispatch? || trace[k].BackOff?) && trace[k].id == id
  }

  ghost predicate Added(trace: seq<Step>, r: nat, j: nat, id: string) {
    exists k :: r < k < j <= |trace| && trace[k].SyncAdd? && trace[k].id == id
  }

  /** What is left to write of what the lookup in state seen decided. */
  ghost predicate TickLeft(seen: State, s: State, trace: seq<Step>, f: nat) {
    && seen.tick.Fetched? && s.tick.Writing?
    && (forall id :: id in s.tick.missing ==> id in seen.tick.due && !Eligible(seen, id))
    && (forall id :: id in s.tick.found ==> id in seen.tick.due && Eligible(seen, id))
    && (forall id :: id in seen.tick.due && !Eligible(seen, id) ==> id in s.tick.missing || Removed(trace, f, |trace|, id))
    && (forall id :: id in seen.tick.due && Eligible(seen, id) ==> id in s.tick.found || Served(trace, f, |trace|, id))
    && (forall id :: Removed(trace, f, |trace|, id) ==> id in seen.tick.due && !Eligible(seen, id))
    && (forall id :: Served(trace, f, |trace|, id) ==> id in seen.tick.due && Eligible(seen, id))
  }

  ghost predicate SyncLeft(seen: State, s: State, trace: seq<Step>, r: nat) {
    && s.sync.Adding?
    && (forall id :: id in s.sync.todo ==> Eligible(seen, id))
    && (forall id :: Eligible(seen, id) ==> id in s.sync.todo || Added(trace, r, |trace|, id))
    && (forall id :: Added(trace, r, |trace|, id) ==> Eligible(seen, id))
  }

  lemma OneMore(trace: seq<Step>, f: nat, id: string)
    requires trace != [] && f < |trace| - 1
    ensures var init, last := trace[..|trace| - 1], trace[|trace| - 1];
            && (Removed(trace, f, |trace|, id) <==> Removed(init, f, |init|, id) || last == Remove(id))
            && (Served(trace, f, |trace|, id)
                <==> Served(init, f, |init|, id) || ((last.Dispatch? || last.BackOff?) && last.id == id))
            && (Added(trace, f, |trace|, id) <==> Added(init, f, |init|, id) || (last.SyncAdd? && last.id == id))
  {
    var init, n := trace[..|trace| - 1], |trace| - 1;
    if k :| f < k < n && init[k] == Remove(id) {
      assert trace[k] == Remove(id);
    }
    if k :| f < k < n && (init[k].Dispatch? || init[k].BackOff?) && init[k].id == id {
      assert trace[k] == init[k];
    }
    if k :| f < k < n && init[k].SyncAdd? && init[k].id == id {
      assert trace[k] == init[k];
    }
    assert forall k :: 0 <= k < n ==> init[k] == trace[k];
  }

  /** What a command does to the decisions still to be written. */
  lemma WriteStep(s: State, step: Step)
    requires s.tick.Writing? && Enabled(s, step) && !IsTickBoundary(step)
    ensures var tick := Apply(s, step).tick;
            && tick.Writing?
            && (forall id :: id in tick.missing <==> id in s.tick.missing && step != Remove(id))
            && (forall id :: id in tick.found <==> id in s.tick.found && !((step.Dispatch? || step.BackOff?) && step.id == id))
    ensures step.Remove? ==> step.id in s.tick.missing
    ensures step.Dispatch? || step.BackOff? ==> step.id in s.tick.found
  {}

  lemma AddStep(s: State, step: Step)
    requires s.sync.Adding? && Enabled(s, step) && !IsSyncBoundary(step)
    ensures var sync := Apply(s, step).sync;
            && sync.Adding?
            && (forall id :: id in sync.todo <==> id in s.sync.todo && !(step.SyncAdd? && step.id == id))
    ensures step.SyncAdd? ==> step.id in s.sync.todo
  {}

  lemma TickLeftStep(seen: State, s: State, trace: seq<Step>, f: nat)
    requires trace != [] && f < |trace| - 1 && TickLeft(seen, s, trace[..|trace| - 1], f)
    requires Enabled(s, trace[|trace| - 1]) && !IsTickBoundary(trace[|trace| - 1])
    ensures TickLeft(seen, Apply(s, trace[|trace| - 1]), trace, f)
  {
    var init, last := trace[..|trace| - 1], trace[|trace| - 1];
    WriteStep(s, last);
    hide Removed, Served, Added, Eligible, Apply, Enabled;
    forall id
      ensures Removed(trace, f, |trace|, id) <==> Removed(init, f, |init|, id) || last == Remove(id)
      ensures Served(trace, f, |trace|, id)
         <==> Served(init, f, |init|, id) || ((last.Dispatch? || last.BackOff?) && last.id == id)
    {
      OneMore(trace, f, id);
    }
  }

  lemma SyncLeftStep(seen: State, s: State, trace: seq<Step>, r: nat)
    requires trace != [] && r < |trace| - 1 && SyncLeft(seen, s, trace[..|trace| - 1], r)
    requires Enabled(s, trace[|trace| - 1]) && !IsSyncBoundary(trace[|trace| - 1])
    ensures SyncLeft(seen, Apply(s, trace[|trace| - 1]), trace, r)
  {
    var init, last := trace[..|trace| - 1], trace[|trace| - 1];
    AddStep(s, last);
    hide Removed, Served, Added, Eligible, Apply, Enabled;
    forall id ensures Added(trace, r, |trace|, id) <==> Added(init, r, |init|, id) || (last.SyncAdd? && last.id == id) {
      OneMore(trace, r, id);
    }
  }

  /** The first state of a tick's decisions: those of its lookup. */
  lemma LookedUp(s: State, trace: seq<Step>)
    requires trace != [] && trace[|trace| - 1].FindMany? && Enabled(s, FindMany)
    ensures TickLeft(s, Apply(s, FindMany), trace, |trace| - 1)
  {
    hide Eligible;
  }

  lemma ReadUp(s: State, trace: seq<Step>)
    requires trace != [] && trace[|trace| - 1].SyncRead? && Enabled(s, SyncRead)
    ensures SyncLeft(s, Apply(s, SyncRead), trace, |trace| - 1)
  {
    assert forall id :: Eligible(s, id) ==> id in s.rows;
    hide Eligible;
  }

  lemma LookupOneMore(trace: seq<Step>, f: nat)
    requires trace != [] && f < |trace| - 1
    ensures IsLookup(trace[..|trace| - 1], f, |trace| - 1) && !IsTickBoundary(trace[|trace| - 1]) ==> IsLookup(trace, f, |trace|)
    ensures IsRead(trace[..|trace| - 1], f, |trace| - 1) && !IsSyncBoundary(trace[|trace| - 1]) ==> IsRead(trace, f, |trace|)
    ensures trace[..|trace| - 1][..f] == trace[..f]
  {
    var init := trace[..|trace| - 1];
    assert forall k :: 0 <= k < |init| ==> init[k] == trace[k];
    hide IsTickBoundary, IsSyncBoundary;
  }

  lemma NotWriting(s: State, step: Step)
    requires Enabled(s, step) && Apply(s, step).tick.Writing?
    ensures step.FindMany? || (s.tick.Writing? && !IsTickBoundary(step))
  {}

  lemma NotAdding(s: State, step: Step)
    requires Enabled(s, step) && Apply(s, step).sync.Adding?
    ensures step.SyncRead? || (s.sync.Adding? && !IsSyncBoundary(step))
  {}

  lemma LookupBefore(trace: seq<Step>, f: nat)
    ensures IsLookup(trace, f, |trace|) || IsRead(trace, f, |trace|) ==> f < |trace|
  {}

  /** While a tick writes, its lookup accounts for everything it wrote and has left to write. */
  lemma {:induction false} TickSince(s0: State, trace: seq<Step>) returns (f: nat)
    requires Start(s0) && Legal(s0, trace) && Run(s0, trace).tick.Writing?
    ensures IsLookup(trace, f, |trace|) && TickLeft(Run(s0, trace[..f]), Run(s0, trace), trace, f)
  {
    var init, n := trace[..|trace| - 1], |trace| - 1;
    var s := Run(s0, init);
    NotWriting(s, trace[n]);
    if trace[n].FindMany? {
      f := n;
      LookedUp(s, trace);
    } else {
      hide TickLeft, IsLookup, Enabled, Apply, IsTickBoundary;
      f := TickSince(s0, init);
      LookupBefore(init, f);
      LookupOneMore(trace, f);
      TickLeftStep(Run(s0, trace[..f]), s, trace, f);
    }
  }

  lemma {:induction false} SyncSince(s0: State, trace: seq<Step>) returns (r: nat)
    requires Start(s0) && Legal(s0, trace) && Run(s0, trace).sync.Adding?
    ensures IsRead(trace, r, |trace|) && SyncLeft(Run(s0, trace[..r]), Run(s0, trace), trace, r)
  {
    var init, n := trace[..|trace| - 1], |trace| - 1;
    var s := Run(s0, init);
    NotAdding(s, trace[n]);
    if trace[n].SyncRead? {
      r := n;
      ReadUp(s, trace);
    } else {
      hide SyncLeft, IsRead, Enabled, Apply, IsSyncBoundary;
      r := SyncSince(s0, init);
      LookupBefore(init, r);
      LookupOneMore(trace, r);
      SyncLeftStep(Run(s0, trace[..r]), s, trace, r);
    }
  }

  lemma InPrefix(trace: seq<Step>, f: nat, j: nat)
    requires j <= |trace|
    ensures IsLookup(trace[..j], f, j) ==> IsLookup(trace, f, j)
    ensures IsRead(trace[..j], f, j) ==> IsRead(trace, f, j)
    ensures f <= j ==> trace[..j][..f] == trace[..f]
    ensures forall id :: Removed(trace[..j], f, j, id) <==> Removed(trace, f, j, id)
    ensures forall id :: Served(trace[..j], f, j, id) <==> Served(trace, f, j, id)
    ensures forall id :: Added(trace[..j], f, j, id) <==> Added(trace, f, j, id)
  {
    assert forall k :: 0 <= k < j ==> trace[..j][k] == trace[k];
    hide IsTickBoundary, IsSyncBoundary;
  }

  /** A tick dispatches or puts off only fetched monitors that were active, undeleted and funded when its lookup read them, and
      removes only fetched members that were not. */
  lemma WritesFollowLookup(s0: State, trace: seq<Step>, j: nat) returns (f: nat)
    requires Start(s0) && Legal(s0, trace) && j < |trace|
    requires trace[j].Remove? || trace[j].Dispatch? || trace[j].BackOff?
    ensures IsLookup(trace, f, j)
    ensures var s, id := Run(s0, trace[..f]), trace[j].id;
            && s.tick.Fetched? && id in s.tick.due
            && (trace[j].Remove?
                <==> !(id in s.rows && s.rows[id].active && !s.rows[id].deleted
                       && s.rows[id].owner in s.credits && s.credits[s.rows[id].owner] > 0))
  {
    hide Run, Legal, IsLookup, Removed, Served, Start;
    D.LegalUntil(s0, trace, j);
    f := TickSince(s0, trace[..j]);
    LookupBefore(trace[..j], f);
    InPrefix(trace, f, j);
  }

  /** A finished tick has removed exactly the fetched members that were not active, undeleted and funded when its lookup read
      them, and dispatched or put off exactly the others. */
  lemma FinishedTick(s0: State, trace: seq<Step>, j: nat) returns (f: nat)
    requires Start(s0) && Legal(s0, trace) && j < |trace| && trace[j].EndTick?
    ensures IsLookup(trace, f, j)
    ensures var s := Run(s0, trace[..f]);
            && s.tick.Fetched?
            && (forall id :: Served(trace, f, j, id)
                  <==> id in s.tick.due && id in s.rows && s.rows[id].active && !s.rows[id].deleted
                       && s.rows[id].owner in s.credits && s.credits[s.rows[id].owner] > 0)
            && (forall id :: Removed(trace, f, j, id) <==> id in s.tick.due && !Served(trace, f, j, id))
  {
    hide Run, Legal, IsLookup, Removed, Served, Start;
    D.LegalUntil(s0, trace, j);
    f := TickSince(s0, trace[..j]);
    LookupBefore(trace[..j], f);
    InPrefix(trace, f, j);
  }

  /** A re-sync adds only monitors that were active, undeleted and funded when it read, and a finished one has offered exactly
      those. */
  lemma AddsFollowRead(s0: State, trace: seq<Step>, j: nat) returns (r: nat)
    requires Start(s0) && Legal(s0, trace) && j < |trace| && (trace[j].SyncAdd? || trace[j].SyncEnd?)
    ensures IsRead(trace, r, j)
    ensures var s := Run(s0, trace[..r]);
            && (trace[j].SyncAdd? ==>
                  var id := trace[j].id;
                  && id in s.rows && s.rows[id].active && !s.rows[id].deleted
                  && s.rows[id].owner in s.credits && s.credits[s.rows[id].owner] > 0)
            && (trace[j].SyncEnd? ==>
                  forall id :: Added(trace, r, j, id)
                    <==> id in s.rows && s.rows[id].active && !s.rows[id].deleted
                         && s.rows[id].owner in s.credits && s.credits[s.rows[id].owner] > 0)
  {
    hide Run, Legal, IsRead, Added, Start;
    D.LegalUntil(s0, trace, j);
    r := SyncSince(s0, trace[..j]);
    LookupBefore(trace[..j], r);
    InPrefix(trace, r, j);
  }
}
