/** The job scheduler as a state machine whose steps are single Redis or SQL commands, so that a trace of steps is any
    interleaving of the one-second tick (workers/schedular.go), the periodic re-sync (services/schedular_sync.go) and the
    monitor API (services/monitor_service.go). Times are Unix seconds of one clock. A member "sched:monitor:<id>" of the
    sorted set scheduler:due is written as its id. */
module SchedulerModel {
  import opened Common

  /** A tick fetches at most this many members. */
  const BATCH: nat := 100
  /** Seconds by which a due monitor without a node is put off. */
  const BACKOFF: int := 5
  /** Intervals below the floor are replaced by the default. */
  const MIN_INTERVAL: int := 30
  const DEFAULT_INTERVAL: int := 60

  /** A monitor's row. The domain stands for cleanDomain of its target URL. */
  datatype Row = Row(owner: int, domain: string, interval: int, active: bool, deleted: bool)

  /** Where the only scheduler goroutine is: between ticks, after the fetch, or writing its decisions back. */
  datatype Tick = Idle | Fetched(now: int, due: set<string>) | Writing(now: int, missing: set<string>, found: set<string>) {
    function Members(): set<string> {
      match this
      case Idle => {}
      case Fetched(_, due) => due
      case Writing(_, missing, found) => missing + found
    }
  }

  /** A re-sync has read the active monitors at an instant and still has to offer some of them. */
  datatype Sync = Quiet | Adding(since: int, todo: set<string>)

  datatype State = State(clock: int, rows: map<string, Row>, credits: map<int, int>, zset: map<string, int>,
                         arming: set<string>, tick: Tick, sync: Sync)

  datatype Step =
    | Advance(now: int)
    | Insert(id: string, owner: int, domain: string, interval: int)
    | Arm(id: string)
    | ArmFails(id: string)
    | SetActive(id: string, active: bool)
    | SoftDelete(id: string, owner: int)
    | Charge(owner: int)
    | TopUp(owner: int, amount: int)
    | SyncRead
    | SyncAdd(id: string, score: int)
    | SyncEnd
    | SyncFails
    | Fetch(due: set<string>)
    | FindMany
    | FindFails
    | Remove(id: string)
    | Dispatch(id: string, now: int, interval: int)
    | BackOff(id: string)
    | EndTick
    | Restart

  /** The shared filter of FindActive and FindMany: active, not deleted, and the owner has credits left. */
  predicate Eligible(s: State, id: string) {
    && id in s.rows
    && s.rows[id].active && !s.rows[id].deleted
    && s.rows[id].owner in s.credits && s.credits[s.rows[id].owner] > 0
  }

  function DueSet(zset: map<string, int>, now: int): set<string> {
    set id | id in zset && zset[id] <= now
  }

  /** ZRANGEBYSCORE -inf now LIMIT 0 100: the lowest scores first, ties in any order. */
  ghost predicate IsFetch(zset: map<string, int>, now: int, due: set<string>) {
    && due <= DueSet(zset, now)
    && |due| <= BATCH
    && (|due| < BATCH ==> due == DueSet(zset, now))
    && forall x, y :: x in due && y in DueSet(zset, now) - due ==> zset[x] <= zset[y]
  }

  /** Whether the program can take the step now. */
  ghost predicate Enabled(s: State, step: Step) {
    match step
    case Advance(now) => now >= s.clock
    case Insert(id, _, _, interval) => id !in s.rows && interval >= MIN_INTERVAL
    case Arm(id) => id in s.arming
    case ArmFails(id) => id in s.arming
    case SetActive(_, _) => true
    case SoftDelete(_, _) => true
    case Charge(owner) => owner in s.credits && s.credits[owner] > 0
    case TopUp(_, amount) => amount > 0
    case SyncRead => s.sync.Quiet?
    case SyncAdd(id, score) => s.sync.Adding? && id in s.sync.todo && s.sync.since <= score <= s.clock
    case SyncEnd => s.sync.Adding? && s.sync.todo == {}
    case SyncFails => s.sync.Adding?
    case Fetch(due) => s.tick.Idle? && due != {} && IsFetch(s.zset, s.clock, due)
    case FindMany => s.tick.Fetched?
    case FindFails => s.tick.Fetched?
    case Remove(id) => s.tick.Writing? && id in s.tick.missing
    case Dispatch(id, now, interval) =>
      s.tick.Writing? && id in s.tick.found && now == s.tick.now && id in s.rows && interval == s.rows[id].interval
    case BackOff(id) => s.tick.Writing? && id in s.tick.found
    case EndTick => s.tick.Writing? && s.tick.missing == {} && s.tick.found == {}
    case Restart => true
  }

  function Apply(s: State, step: Step): State {
    match step
    case Advance(now) => s.(clock := now)
    case Insert(id, owner, domain, interval) =>
      s.(rows := s.rows[id := Row(owner, domain, interval, true, false)], arming := s.arming + {id})
    case Arm(id) => s.(zset := s.zset[id := 0], arming := s.arming - {id})
    case ArmFails(id) => s.(arming := s.arming - {id})
    case SetActive(id, active) =>
      if id in s.rows && !s.rows[id].deleted then s.(rows := s.rows[id := s.rows[id].(active := active)]) else s
    case SoftDelete(id, owner) =>
      if id in s.rows && s.rows[id].owner == owner then s.(rows := s.rows[id := s.rows[id].(deleted := true)]) else s
    case Charge(owner) => if owner in s.credits then s.(credits := s.credits[owner := s.credits[owner] - 1]) else s
    case TopUp(owner, amount) =>
      s.(credits := s.credits[owner := (if owner in s.credits then s.credits[owner] else 0) + amount])
    case SyncRead => s.(sync := Adding(s.clock, set id | id in s.rows && Eligible(s, id)))
    case SyncAdd(id, score) =>
      var s' := if s.sync.Adding? then s.(sync := s.sync.(todo := s.sync.todo - {id})) else s;
      if id in s.zset then s' else s'.(zset := s.zset[id := score])
    case SyncEnd => s.(sync := Quiet)
    case SyncFails => s.(sync := Quiet)
    case Fetch(due) => s.(tick := Fetched(s.clock, due))
    case FindMany =>
      if s.tick.Fetched? then
        s.(tick := Writing(s.tick.now, set id | id in s.tick.due && !Eligible(s, id),
                           set id | id in s.tick.due && Eligible(s, id)))
      else s
    case FindFails => s.(tick := Idle)
    case Remove(id) =>
      if s.tick.Writing? then s.(zset := s.zset - {id}, tick := s.tick.(missing := s.tick.missing - {id})) else s
    case Dispatch(id, now, interval) => WriteBack(s, id, now + interval)
    case BackOff(id) => if s.tick.Writing? then WriteBack(s, id, s.tick.now + BACKOFF) else s
    case EndTick => s.(tick := Idle)
    case Restart => s.(arming := {}, tick := Idle, sync := Quiet)
  }

  function WriteBack(s: State, id: string, score: int): State {
    if s.tick.Writing? then s.(zset := s.zset[id := score], tick := s.tick.(found := s.tick.found - {id})) else s
  }

  function Run(s0: State, trace: seq<Step>): State {
    if trace == [] then s0 else Apply(Run(s0, trace[..|trace| - 1]), trace[|trace| - 1])
  }

  ghost predicate Legal(s0: State, trace: seq<Step>) {
    trace == []
    || (Legal(s0, trace[..|trace| - 1]) && Enabled(Run(s0, trace[..|trace| - 1]), trace[|trace| - 1]))
  }

  /** An empty schedule: no monitors yet, any accounts, any time. */
  predicate Start(s: State) {
    s.rows == map[] && s.zset == map[] && s.arming == {} && s.tick.Idle? && s.sync.Quiet?
  }

  /** What every step keeps: all ids are those of rows, rows keep their floor, a tick began in the past, and what it may still
      write back is scheduled. */
  ghost predicate Sound(s: State) {
    && s.zset.Keys <= s.rows.Keys
    && s.arming <= s.rows.Keys
    && s.tick.Members() <= s.rows.Keys
    && (s.sync.Adding? ==> s.sync.todo <= s.rows.Keys && s.sync.since <= s.clock)
    && (!s.tick.Idle? ==> s.tick.now <= s.clock)
    && (s.tick.Fetched? ==> s.tick.due <= s.zset.Keys)
    && (s.tick.Writing? ==> s.tick.missing !! s.tick.found && s.tick.found <= s.zset.Keys)
    && (forall id :: id in s.rows ==> s.rows[id].interval >= MIN_INTERVAL)
  }

  lemma SoundStep(s: State, step: Step)
    requires Sound(s) && Enabled(s, step)
    ensures Sound(Apply(s, step))
  {}

  lemma RowsStep(s: State, step: Step)
    requires Enabled(s, step)
    ensures s.rows.Keys <= Apply(s, step).rows.Keys && s.clock <= Apply(s, step).clock
    ensures forall id :: id in s.rows ==> Apply(s, step).rows[id].interval == s.rows[id].interval
  {}

  lemma {:induction false} SoundRun(s0: State, trace: seq<Step>)
    requires Sound(s0) && Legal(s0, trace)
    ensures Sound(Run(s0, trace))
  {
    if trace != [] {
      SoundRun(s0, trace[..|trace| - 1]);
      SoundStep(Run(s0, trace[..|trace| - 1]), trace[|trace| - 1]);
    }
  }

  /** Monitors are never dropped and never change their interval, and the clock never goes back. */
  lemma {:induction false} RowsPersist(s0: State, trace: seq<Step>, k: nat)
    requires Legal(s0, trace) && k <= |trace|
    ensures var before, after := Run(s0, trace[..k]), Run(s0, trace);
            && Legal(s0, trace[..k])
            && before.rows.Keys <= after.rows.Keys && before.clock <= after.clock
            && forall id :: id in before.rows ==> after.rows[id].interval == before.rows[id].interval
  {
    if k == |trace| {
      assert trace[..k] == trace;
    } else {
      var init := trace[..|trace| - 1];
      RowsPersist(s0, init, k);
      assert init[..k] == trace[..k];
      RowsStep(Run(s0, init), trace[|trace| - 1]);
    }
  }

  /** What an owner can spend; an unknown one has nothing. */
  function Balance(s: State, owner: int): int {
    if owner in s.credits then s.credits[owner] else 0
  }

  function Bought(trace: seq<Step>, owner: int): int {
    if trace == [] then 0
    else
      var last := trace[|trace| - 1];
      Bought(trace[..|trace| - 1], owner) + (if last.TopUp? && last.owner == owner then last.amount else 0)
  }

  function Spent(trace: seq<Step>, owner: int): nat {
    if trace == [] then 0 else Spent(trace[..|trace| - 1], owner) + (if trace[|trace| - 1] == Charge(owner) then 1 else 0)
  }

  lemma BalanceStep(s: State, step: Step, owner: int)
    requires Enabled(s, step)
    ensures Balance(Apply(s, step), owner)
            == Balance(s, owner) + (if step.TopUp? && step.owner == owner then step.amount else 0)
               - (if step == Charge(owner) then 1 else 0)
    ensures step == Charge(owner) ==> Balance(s, owner) > 0
  {}

  /** Credits are conserved: an owner has what it began with and bought, less one for every check settled, and never spends
      more than that. */
  lemma {:induction false} CreditsBalance(s0: State, trace: seq<Step>, owner: int)
    requires Legal(s0, trace)
    ensures Balance(Run(s0, trace), owner) == Balance(s0, owner) + Bought(trace, owner) - Spent(trace, owner)
    ensures Balance(s0, owner) >= 0 ==> Spent(trace, owner) <= Balance(s0, owner) + Bought(trace, owner)
  {
    if trace != [] {
      var init := trace[..|trace| - 1];
      CreditsBalance(s0, init, owner);
      BalanceStep(Run(s0, init), trace[|trace| - 1], owner);
      BoughtIsPositive(s0, trace, owner);
      hide Balance, Apply, Enabled;
    }
  }

  lemma BoughtIsPositive(s0: State, trace: seq<Step>, owner: int)
    requires Legal(s0, trace) && trace != []
    ensures Bought(trace, owner) >= Bought(trace[..|trace| - 1], owner)
  {
    hide Apply;
  }

  lemma ArmingStep(s: State, step: Step, id: string)
    requires Enabled(s, step) && id in Apply(s, step).arming
    ensures (step.Insert? && step.id == id) || (id in s.arming && step != Arm(id) && step != ArmFails(id) && !step.Restart?)
  {}

  /** A Create that still owes its arming write: it stored its row at i, and nothing has ended it since. */
  lemma {:induction false} ArmingSince(s0: State, trace: seq<Step>, id: string) returns (i: nat)
    requires Start(s0) && Legal(s0, trace) && id in Run(s0, trace).arming
    ensures i < |trace| && trace[i].Insert? && trace[i].id == id
    ensures forall k :: i < k < |trace| ==> trace[k] != Arm(id) && trace[k] != ArmFails(id) && !trace[k].Restart?
  {
    var init, last := trace[..|trace| - 1], trace[|trace| - 1];
    ArmingStep(Run(s0, init), last, id);
    if last.Insert? && last.id == id {
      i := |init|;
    } else {
      hide Apply, Enabled;
      i := ArmingSince(s0, init, id);
    }
  }

  /** Every arming write belongs to a Create that stored its row before, wrote no score since and was not cut off by a
      restart. */
  lemma {:induction false} ArmFollowsInsert(s0: State, trace: seq<Step>, j: nat) returns (i: nat)
    requires Start(s0) && Legal(s0, trace) && j < |trace| && trace[j].Arm?
    ensures i < j && trace[i].Insert? && trace[i].id == trace[j].id
    ensures forall k :: i < k < j ==> trace[k] != Arm(trace[j].id) && trace[k] != ArmFails(trace[j].id) && !trace[k].Restart?
  {
    var init := trace[..|trace| - 1];
    if j == |init| {
      i := ArmingSince(s0, init, trace[j].id);
    } else {
      hide Enabled;
      i := ArmFollowsInsert(s0, init, j);
    }
  }

  /** Traces are built one step at a time. */
  lemma Extend(s0: State, trace: seq<Step>, step: Step)
    requires Legal(s0, trace) && Enabled(Run(s0, trace), step)
    ensures Legal(s0, trace + [step]) && Run(s0, trace + [step]) == Apply(Run(s0, trace), step)
  {
    assert (trace + [step])[..|trace|] == trace;
  }

  /** The trace is legal from an empty schedule and ends in state s. */
  ghost predicate Reaches(s0: State, trace: seq<Step>, s: State) {
    if trace == [] then Start(s0) && s == s0
    else
      var init, last := trace[..|trace| - 1], trace[|trace| - 1];
      Reaches(s0, init, Run(s0, init)) && Enabled(Run(s0, init), last) && s == Apply(Run(s0, init), last)
  }

  lemma {:induction false} ReachesIsRun(s0: State, trace: seq<Step>, s: State)
    requires Reaches(s0, trace, s)
    ensures Start(s0) && Legal(s0, trace) && s == Run(s0, trace) && Sound(s)
  {
    if trace != [] {
      var init := trace[..|trace| - 1];
      ReachesIsRun(s0, init, Run(s0, init));
      SoundStep(Run(s0, init), trace[|trace| - 1]);
    }
  }

  lemma ReachesStep(s0: State, trace: seq<Step>, s: State, step: Step)
    requires Reaches(s0, trace, s) && Enabled(s, step)
    ensures Reaches(s0, trace + [step], Apply(s, step))
  {
    ReachesIsRun(s0, trace, s);
    assert (trace + [step])[..|trace|] == trace;
  }
}
