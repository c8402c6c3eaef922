/** An overdue monitor cannot be starved: its rank among the scheduled monitors falls by a full batch with every tick that
    passes it over. */
module BoundedFetch {
  import opened Arithmetic
  import opened Common
  import opened SchedulerModel

  /** The other members at or below a monitor's score. */
  function Ahead(zset: map<string, int>, id: string): set<string>
    requires id in zset
  {
    set x | x in zset && x != id && zset[x] <= zset[id]
  }

  /** Ticks that ran to their end. */
  function TicksDone(trace: seq<Step>): nat {
    if trace == [] then 0 else TicksDone(trace[..|trace| - 1]) + (if trace[|trace| - 1].EndTick? then 1 else 0)
  }

  ghost predicate NoArming(trace: seq<Step>) {
    forall k :: 0 <= k < |trace| ==> !trace[k].Arm?
  }

  ghost predicate IsFetched(trace: seq<Step>, id: string) {
    exists k :: 0 <= k < |trace| && trace[k].Fetch? && id in trace[k].due
  }

  /** What a re-sync under way may still add at or below a score: nothing if it read the clock after that score. */
  function Pending(s: State, score: int): set<string> {
    if s.sync.Adding? && s.sync.since <= score then s.sync.todo else {}
  }

  /** The monitors that can be fetched before an overdue one: those ahead of it, and those a re-sync may still put there. */
  function Rank(s: State, id: string): nat
    requires id in s.zset
  {
    |Ahead(s.zset, id)| + |Pending(s, s.zset[id])|
  }

  /** The monitor is scheduled at a score the clock has passed. */
  ghost predicate Overdue(s: State, id: string, score: int) {
    id in s.zset && s.zset[id] == score && score < s.clock
  }

  /** While the monitor waits, every finished tick has taken a full batch away from ahead of it, and the members a running
      tick still has to write are ahead of it as well. */
  ghost predicate Waiting(s: State, id: string, score: int, rank: nat, done: nat) {
    && Overdue(s, id, score)
    && id !in s.tick.Members()
    && s.tick.Members() <= Ahead(s.zset, id) && |s.tick.Members()| <= BATCH
    && (!s.tick.Idle? ==> s.tick.now > score)
    && (s.tick.Fetched? ==> |s.tick.due| == BATCH)
    && (if s.tick.Writing? then Rank(s, id) - |s.tick.Members()| + BATCH * (done + 1) <= rank
        else Rank(s, id) + BATCH * done <= rank)
  }

  lemma RemoveOne<T>(a: set<T>, b: set<T>, x: T)
    requires x in b && b <= a
    ensures |a - {x}| - |b - {x}| == |a| - |b| && b - {x} <= a - {x} && |b - {x}| <= |b|
  {}

  lemma FetchPassesOver(s: State, due: set<string>, id: string)
    requires id in s.zset && s.zset[id] <= s.clock && IsFetch(s.zset, s.clock, due) && id !in due
    ensures |due| == BATCH && due <= Ahead(s.zset, id)
  {
    assert id in DueSet(s.zset, s.clock) - due;
  }

  /** A member written back or removed by the tick leaves the range ahead of the monitor. */
  lemma WriteMoves(s: State, step: Step, id: string, score: int)
    requires Sound(s) && Enabled(s, step) && Overdue(s, id, score) && id !in s.tick.Members()
    requires (step.Remove? || step.Dispatch? || step.BackOff?) && s.tick.now > score
    ensures var s' := Apply(s, step);
            && Overdue(s', id, score)
            && s'.tick.Writing? && s'.tick.now == s.tick.now && Pending(s', score) == Pending(s, score)
            && step.id in s.tick.Members() && s'.tick.Members() == s.tick.Members() - {step.id}
            && Ahead(s'.zset, id) == Ahead(s.zset, id) - {step.id}
  {}

  /** The account of a waiting monitor when x leaves both the members of the tick and the range ahead. */
  lemma Shrink(s: State, s': State, id: string, score: int, rank: nat, done: nat, x: string)
    requires Waiting(s, id, score, rank, done) && s.tick.Writing? && x in s.tick.Members()
    requires Overdue(s', id, score) && s'.tick.Writing? && s'.tick.now == s.tick.now && Pending(s', score) == Pending(s, score)
    requires s'.tick.Members() == s.tick.Members() - {x} && Ahead(s'.zset, id) == Ahead(s.zset, id) - {x}
    ensures Waiting(s', id, score, rank, done)
  {
    RemoveOne(Ahead(s.zset, id), s.tick.Members(), x);
    hide Ahead, Pending;
  }

  lemma WriteStep(s: State, step: Step, id: string, score: int, rank: nat, done: nat)
    requires Sound(s) && Enabled(s, step) && Waiting(s, id, score, rank, done)
    requires step.Remove? || step.Dispatch? || step.BackOff?
    ensures Waiting(Apply(s, step), id, score, rank, done)
  {
    WriteMoves(s, step, id, score);
    hide *;
    Shrink(s, Apply(s, step), id, score, rank, done, step.id);
  }

  lemma FindStep(s: State, id: string, score: int, rank: nat, done: nat)
    requires Sound(s) && s.tick.Fetched? && Waiting(s, id, score, rank, done)
    ensures Waiting(Apply(s, FindMany), id, score, rank, done)
  {
    assert Apply(s, FindMany).tick.Members() == s.tick.due;
    assert Pending(Apply(s, FindMany), score) == Pending(s, score);
    hide Ahead, Pending;
  }

  /** Every other step but an addition keeps the members ahead, and leaves no more to be added there. */
  lemma OthersKeep(s: State, step: Step, id: string, score: int)
    requires Sound(s) && Enabled(s, step) && Overdue(s, id, score)
    requires !(step.Remove? || step.Dispatch? || step.BackOff? || step.FindMany? || step.Arm? || step.SyncAdd?)
    ensures Overdue(Apply(s, step), id, score)
    ensures Ahead(Apply(s, step).zset, id) == Ahead(s.zset, id) && Pending(Apply(s, step), score) <= Pending(s, score)
  {}

  /** An addition moves at most one monitor from what may still be added ahead to what is ahead. */
  lemma AddKeeps(s: State, step: Step, id: string, score: int)
    requires Sound(s) && Enabled(s, step) && Overdue(s, id, score) && step.SyncAdd?
    ensures Overdue(Apply(s, step), id, score)
    ensures Ahead(s.zset, id) <= Ahead(Apply(s, step).zset, id)
    ensures |Ahead(Apply(s, step).zset, id)| + |Pending(Apply(s, step), score)| <= |Ahead(s.zset, id)| + |Pending(s, score)|
  {
    var s' := Apply(s, step);
    if s.sync.since <= score {
      assert Pending(s', score) == Pending(s, score) - {step.id};
      assert Ahead(s'.zset, id) <= Ahead(s.zset, id) + {step.id};
      SubsetSize(Ahead(s'.zset, id), Ahead(s.zset, id) + {step.id});
    } else {
      assert Ahead(s'.zset, id) == Ahead(s.zset, id);
    }
  }

  lemma RankKept(s: State, step: Step, id: string, score: int)
    requires Sound(s) && Enabled(s, step) && Overdue(s, id, score)
    requires !(step.Remove? || step.Dispatch? || step.BackOff? || step.FindMany? || step.Arm?)
    ensures Overdue(Apply(s, step), id, score)
    ensures Ahead(s.zset, id) <= Ahead(Apply(s, step).zset, id) && Rank(Apply(s, step), id) <= Rank(s, id)
  {
    if step.SyncAdd? {
      AddKeeps(s, step, id, score);
    } else {
      OthersKeep(s, step, id, score);
      SubsetSize(Pending(Apply(s, step), score), Pending(s, score));
    }
    hide Apply, Enabled, Sound, Ahead, Pending;
  }

  lemma TickOfOthers(s: State, step: Step)
    requires Enabled(s, step)
    requires !(step.Remove? || step.Dispatch? || step.BackOff? || step.FindMany?)
    ensures Apply(s, step).tick ==
            if step.Fetch? then Fetched(s.clock, step.due)
            else if step.FindFails? || step.EndTick? || step.Restart? then Idle else s.tick
    ensures step.EndTick? ==> s.tick.Writing? && s.tick.Members() == {}
    ensures step.FindFails? ==> s.tick.Fetched?
    ensures step.Fetch? ==> s.tick.Idle? && IsFetch(s.zset, s.clock, step.due)
  {}

  lemma OtherStep(s: State, step: Step, id: string, score: int, rank: nat, done: nat)
    requires Sound(s) && Enabled(s, step) && Waiting(s, id, score, rank, done)
    requires !(step.Remove? || step.Dispatch? || step.BackOff? || step.FindMany? || step.Arm?)
    requires step.Fetch? ==> id !in step.due
    ensures Waiting(Apply(s, step), id, score, rank, done + (if step.EndTick? then 1 else 0))
  {
    RankKept(s, step, id, score);
    TickOfOthers(s, step);
    if step.Fetch? {
      FetchPassesOver(s, step.due, id);
    }
    hide Apply, Enabled, Sound, Ahead, Rank;
  }

  lemma {:induction false} WaitingRun(s: State, trace: seq<Step>, id: string)
    requires Sound(s) && s.tick.Idle? && Legal(s, trace) && NoArming(trace) && !IsFetched(trace, id)
    requires id in s.zset && s.zset[id] < s.clock
    ensures Waiting(Run(s, trace), id, s.zset[id], Rank(s, id), TicksDone(trace))
  {
    if trace != [] {
      var init, step := trace[..|trace| - 1], trace[|trace| - 1];
      WaitingRun(s, init, id);
      SoundRun(s, init);
      var before, rank, done := Run(s, init), Rank(s, id), TicksDone(init);
      if step.Remove? || step.Dispatch? || step.BackOff? {
        WriteStep(before, step, id, s.zset[id], rank, done);
      } else if step.FindMany? {
        FindStep(before, id, s.zset[id], rank, done);
      } else {
        OtherStep(before, step, id, s.zset[id], rank, done);
      }
    }
  }

  /** Every finished tick that passes an overdue monitor over lowers its rank by a whole batch. */
  lemma RankFalls(s: State, trace: seq<Step>, id: string)
    requires Sound(s) && s.tick.Idle? && Legal(s, trace) && NoArming(trace) && !IsFetched(trace, id)
    requires id in s.zset && s.zset[id] < s.clock && Run(s, trace).tick.Idle?
    ensures id in Run(s, trace).zset
    ensures Rank(Run(s, trace), id) + 100 * TicksDone(trace) <= Rank(s, id)
  {
    WaitingRun(s, trace, id);
  }

  lemma BatchesFit(s: State, trace: seq<Step>, id: string)
    requires Sound(s) && s.tick.Idle? && Legal(s, trace) && NoArming(trace) && !IsFetched(trace, id)
    requires id in s.zset && s.zset[id] < s.clock
    ensures BATCH * TicksDone(trace) <= Rank(s, id)
  {
    WaitingRun(s, trace, id);
    SubsetSize(Run(s, trace).tick.Members(), Ahead(Run(s, trace).zset, id));
  }

  /** Bounded waiting: an overdue monitor with r members at or below its score, or that a re-sync under way may still put
      there, is fetched before r div 100 + 1 ticks have ended, whatever re-syncs, pauses, failures and restarts do, as long as
      no Create arms a new monitor. */
  lemma FetchedInTime(s: State, trace: seq<Step>, id: string)
    requires Sound(s) && s.tick.Idle? && Legal(s, trace) && NoArming(trace)
    requires id in s.zset && s.zset[id] < s.clock
    requires TicksDone(trace) >= Rank(s, id) / 100 + 1
    ensures IsFetched(trace, id)
  {
    if !IsFetched(trace, id) {
      BatchesFit(s, trace, id);
    }
  }

  /** Without a re-sync under way, or with one that read the clock after the monitor was due, only the members ahead count. */
  lemma RankWithoutSync(s: State, id: string)
    requires id in s.zset && (s.sync.Adding? ==> s.zset[id] < s.sync.since)
    ensures Rank(s, id) == |Ahead(s.zset, id)|
  {}
}
