/** The ledger and its only payout worker as one state machine (workers/solana_sync.go, db/repositories/solana.go): a step
    is a committed settlement, a single database command of the worker, the return of one on-chain submission, or a crash. */
module PayoutModel {
  import opened Common
  import opened Ledger

  /** A worker's fetch returns at most this many events. */
  const FETCH_LIMIT: nat := 10

  /** How a database command can end: carried out, not carried out, or carried out with its reply lost. */
  datatype Write = Applied | Failed | ReplyLost {
    predicate TakesEffect() { !Failed? }
    predicate IsReported() { Applied? }
  }

  /** How a submission can end: returned with a signature, returned with an error, or on chain although an error returned. */
  datatype Submission = Submitted(signature: string) | Rejected | SubmittedSilently

  /** Where the worker is: polling, before the next event of a batch, or with an event in hand. */
  datatype Worker =
    | Polling
    | Batch(todo: seq<nat>)
    | Sending(id: nat, todo: seq<nat>)
    | Succeeded(id: nat, signature: string, todo: seq<nat>)
    | Unsent(id: nat, todo: seq<nat>)

  /** The last field remembers the events whose submission returned with a signature. */
  datatype State = State(ledger: Ledger, worker: Worker, sent: set<nat>)

  datatype Step =
    | Register(runner: string)
    | Restake(runner: string, stake: int)
    | AddMonitor(monitor: string, owner: int)
    | TopUp(owner: int, credits: nat)
    | SettleCheck(monitor: string, runner: string)
    | Fetch(ids: seq<nat>)
    | MarkProcessing(id: nat, write: Write)
    | Send(id: nat, payee: string, amount: int, submission: Submission)
    | MarkDone(id: nat, write: Write)
    | MarkPendingAgain(id: nat, write: Write)
    | EndBatch
    | Crash

  /** A reply of FetchPending: the oldest pending events in order, at most ten. A scan that ends early yields fewer. */
  ghost predicate IsFetch(events: seq<Event>, ids: seq<nat>) {
    && |ids| <= FETCH_LIMIT
    && (forall i, j :: 0 <= i < j < |ids| ==> ids[i] < ids[j])
    && (forall i :: 0 <= i < |ids| ==> ids[i] < |events| && events[ids[i]].status.Pending?)
    && (forall i, x :: 0 <= i < |ids| && 0 <= x < ids[i] && events[x].status.Pending? ==> x in ids[..i])
  }

  ghost predicate Enabled(s: State, step: Step) {
    match step
    case Register(runner) => runner !in s.ledger.runners
    case Restake(runner, _) => runner in s.ledger.runners
    case AddMonitor(monitor, _) => monitor !in s.ledger.monitors
    case TopUp(_, _) => true
    case SettleCheck(monitor, runner) => CanSettle(s.ledger, monitor, runner)
    case Fetch(ids) => s.worker.Polling? && IsFetch(s.ledger.events, ids)
    case MarkProcessing(id, _) => s.worker.Batch? && s.worker.todo != [] && id == s.worker.todo[0] && id < |s.ledger.events|
    case Send(id, payee, amount, _) =>
      s.worker.Sending? && id == s.worker.id && id < |s.ledger.events|
      && payee == s.ledger.events[id].owner && amount == s.ledger.events[id].amount
    case MarkDone(id, _) => s.worker.Succeeded? && id == s.worker.id && id < |s.ledger.events|
    case MarkPendingAgain(id, _) => s.worker.Unsent? && id == s.worker.id && id < |s.ledger.events|
    case EndBatch => s.worker.Batch? && s.worker.todo == []
    case Crash => true
  }

  function SetEvent(l: Ledger, id: nat, e: Event): Ledger
    requires id < |l.events|
  {
    l.(events := l.events[id := e])
  }

  function Apply(s: State, step: Step, threshold: int): State
    requires Enabled(s, step)
  {
    var l := s.ledger;
    match step
    case Register(runner) => s.(ledger := l.(runners := l.runners[runner := Runner(0, 0, 0)]))
    case Restake(runner, stake) => s.(ledger := l.(runners := l.runners[runner := l.runners[runner].(stake := stake)]))
    case AddMonitor(monitor, owner) => s.(ledger := l.(monitors := l.monitors[monitor := MonitorRow(owner, 0)]))
    case TopUp(owner, credits) =>
      s.(ledger := l.(credits := l.credits[owner := (if owner in l.credits then l.credits[owner] else 0) + credits]))
    case SettleCheck(monitor, runner) => s.(ledger := Settle(l, monitor, runner, threshold))
    case Fetch(ids) => s.(worker := Batch(ids))
    case MarkProcessing(id, write) =>
      var rest := s.worker.todo[1..];
      State(if write.TakesEffect() then SetEvent(l, id, l.events[id].(status := Processing)) else l,
            if write.IsReported() then Sending(id, rest) else Batch(rest), s.sent)
    case Send(id, _, _, submission) =>
      if submission.Submitted? then State(l, Succeeded(id, submission.signature, s.worker.todo), s.sent + {id})
      else State(l, Unsent(id, s.worker.todo), s.sent)
    case MarkDone(id, write) =>
      State(if write.TakesEffect() then SetEvent(l, id, l.events[id].(status := Done, signature := Some(s.worker.signature))) else l,
            Batch(s.worker.todo), s.sent)
    case MarkPendingAgain(id, write) =>
      var e := l.events[id];
      State(if write.TakesEffect() then SetEvent(l, id, e.(status := Pending, retries := e.retries + 1)) else l,
            Batch(s.worker.todo), s.sent)
    case EndBatch => s.(worker := Polling)
    case Crash => s.(worker := Polling)
  }

  ghost function Run(s0: State, trace: seq<Step>, threshold: int): State {
    if trace == [] then s0
    else
      var before, step := Run(s0, trace[..|trace| - 1], threshold), trace[|trace| - 1];
      if Enabled(before, step) then Apply(before, step, threshold) else before
  }

  ghost predicate Legal(s0: State, trace: seq<Step>, threshold: int) {
    trace == []
    || (Legal(s0, trace[..|trace| - 1], threshold) && Enabled(Run(s0, trace[..|trace| - 1], threshold), trace[|trace| - 1]))
  }

  /** No runners and payouts yet; any users and monitors. */
  predicate Start(s: State) {
    s.ledger.runners == map[] && s.ledger.events == [] && s.worker.Polling? && s.sent == {}
  }
}
