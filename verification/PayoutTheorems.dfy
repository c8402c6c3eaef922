/** What holds in every reachable state of ledger and payout worker: conservation of tokens, and at most one successful
    submission per payout. */
module PayoutTheorems {
  import opened Common
  import opened Ledger
  import opened PayoutModel

  /** Where a sent event can be, and what the worker holds: only pending events are ahead of it, the event in hand is being
      processed, and an event once sent is never sent again. */
  ghost predicate WorkerSound(s: State) {
    var events := s.ledger.events;
    && (forall id :: id in s.sent ==> id < |events| && !events[id].status.Pending?)
    && (forall id :: 0 <= id < |events| && events[id].status.Done? ==> id in s.sent)
    && (match s.worker
        case Polling => true
        case Batch(todo) => Ahead(s, todo)
        case Sending(id, todo) => Ahead(s, todo) && InHand(s, id, todo) && id !in s.sent
        case Succeeded(id, _, todo) => Ahead(s, todo) && InHand(s, id, todo) && id in s.sent
        case Unsent(id, todo) => Ahead(s, todo) && InHand(s, id, todo) && id !in s.sent)
  }

  ghost predicate Ahead(s: State, todo: seq<nat>) {
    && (forall i, j :: 0 <= i < j < |todo| ==> todo[i] != todo[j])
    && (forall i :: 0 <= i < |todo| ==> todo[i] < |s.ledger.events| && s.ledger.events[todo[i]].status.Pending?)
  }

  ghost predicate InHand(s: State, id: nat, todo: seq<nat>) {
    id < |s.ledger.events| && s.ledger.events[id].status.Processing? && id !in todo
  }

  /** The steps that leave the worker alone. */
  predicate IsLedgerStep(step: Step) {
    step.Register? || step.Restake? || step.AddMonitor? || step.TopUp? || step.SettleCheck?
  }

  lemma LedgerStep(s: State, step: Step, threshold: int)
    requires WorkerSound(s) && Enabled(s, step) && IsLedgerStep(step)
    ensures WorkerSound(Apply(s, step, threshold))
  {
    var s' := Apply(s, step, threshold);
    assert s'.worker == s.worker && s'.sent == s.sent && s.ledger.events <= s'.ledger.events;
    assert forall i :: |s.ledger.events| <= i < |s'.ledger.events| ==> s'.ledger.events[i].status.Pending?;
    hide Apply, Enabled;
  }

  lemma MarkStep(s: State, step: Step, threshold: int)
    requires WorkerSound(s) && Enabled(s, step) && (step.MarkProcessing? || step.MarkDone? || step.MarkPendingAgain?)
    ensures WorkerSound(Apply(s, step, threshold))
  {
    var s' := Apply(s, step, threshold);
    var todo := if s.worker.Batch? then s.worker.todo[1..] else s.worker.todo;
    assert s'.sent == s.sent && s'.worker.todo == todo;
    assert step.id !in todo;
    assert |s'.ledger.events| == |s.ledger.events|;
    assert forall i :: 0 <= i < |s.ledger.events| && i != step.id ==> s'.ledger.events[i] == s.ledger.events[i];
    assert Ahead(s', todo);
  }

  lemma WorkerStep(s: State, step: Step, threshold: int)
    requires WorkerSound(s) && Enabled(s, step)
    ensures WorkerSound(Apply(s, step, threshold))
  {
    if IsLedgerStep(step) {
      LedgerStep(s, step, threshold);
    } else if step.MarkProcessing? || step.MarkDone? || step.MarkPendingAgain? {
      MarkStep(s, step, threshold);
    }
  }

  /** Amounts and payees never change, done is terminal, and sent events stay sent. */
  lemma EventsPersist(s: State, step: Step, threshold: int)
    requires WorkerSound(s) && Enabled(s, step)
    ensures var events, events' := s.ledger.events, Apply(s, step, threshold).ledger.events;
            && |events| <= |events'| && s.sent <= Apply(s, step, threshold).sent
            && (forall i :: 0 <= i < |events| ==> events'[i].owner == events[i].owner && events'[i].amount == events[i].amount)
            && (forall i :: 0 <= i < |events| && events[i].status.Done? ==> events'[i] == events[i])
  {}

  /** Changing an event's status leaves what was paid out in all. */
  lemma {:induction false} StatusKeepsAmounts(events: seq<Event>, events': seq<Event>, runner: string)
    requires |events| == |events'|
    requires forall i :: 0 <= i < |events| ==> events'[i].owner == events[i].owner && events'[i].amount == events[i].amount
    ensures PaidOut(events, runner, ANY) == PaidOut(events', runner, ANY)
  {
    if events != [] {
      var k := |events| - 1;
      StatusKeepsAmounts(events[..k], events'[..k], runner);
      assert events'[k].owner == events[k].owner;
      assert events'[k].amount == events[k].amount;
      AnyStatus(events[k].status);
      AnyStatus(events'[k].status);
    }
  }

  lemma BooksKeptByStatus(l: Ledger, l': Ledger, threshold: int)
    requires Books(l, threshold) && l'.runners == l.runners && |l'.events| == |l.events|
    requires forall i :: 0 <= i < |l.events| ==> l'.events[i].owner == l.events[i].owner && l'.events[i].amount == l.events[i].amount
    ensures Books(l', threshold)
  {
    forall runner | runner in l'.runners ensures Balanced(l', threshold, runner) {
      assert Balanced(l, threshold, runner);
      StatusKeepsAmounts(l.events, l'.events, runner);
    }
  }

  lemma BooksKeptByRegistration(l: Ledger, threshold: int, runner: string)
    requires threshold > 0 && Books(l, threshold) && runner !in l.runners
    ensures Books(l.(runners := l.runners[runner := Runner(0, 0, 0)]), threshold)
  {
    var l' := l.(runners := l.runners[runner := Runner(0, 0, 0)]);
    NothingPaidOut(l.events, runner, ANY);
    forall p | p in l'.runners ensures Balanced(l', threshold, p) {
      assert p != runner ==> Balanced(l, threshold, p);
    }
  }

  lemma BooksKeptByStake(l: Ledger, threshold: int, runner: string, stake: int)
    requires Books(l, threshold) && runner in l.runners
    ensures Books(l.(runners := l.runners[runner := l.runners[runner].(stake := stake)]), threshold)
  {
    var l' := l.(runners := l.runners[runner := l.runners[runner].(stake := stake)]);
    forall p | p in l'.runners ensures Balanced(l', threshold, p) {
      assert Balanced(l, threshold, p);
    }
  }

  lemma BooksStep(s: State, step: Step, threshold: int)
    requires threshold > 0 && WorkerSound(s) && Enabled(s, step) && Books(s.ledger, threshold)
    ensures Books(Apply(s, step, threshold).ledger, threshold)
  {
    match step {
      case Register(runner) => BooksKeptByRegistration(s.ledger, threshold, runner);
      case Restake(runner, stake) => BooksKeptByStake(s.ledger, threshold, runner, stake);
      case SettleCheck(monitor, runner) => SettleKeepsBooks(s.ledger, monitor, runner, threshold);
      case _ =>
        hide Books;
        BooksKeptByStatus(s.ledger, Apply(s, step, threshold).ledger, threshold);
    }
  }

  /** What the submissions that returned a signature paid a runner. */
  function Submitted(trace: seq<Step>, runner: string): int {
    if trace == [] then 0
    else
      var last := trace[|trace| - 1];
      Submitted(trace[..|trace| - 1], runner)
      + (if last.Send? && last.submission.Submitted? && last.payee == runner then last.amount else 0)
  }

  /** The amounts of a runner's events in a set. */
  function AmountsIn(events: seq<Event>, ids: set<nat>, runner: string): int {
    if events == [] then 0
    else
      var k := |events| - 1;
      AmountsIn(events[..k], ids, runner) + (if k in ids && events[k].owner == runner then events[k].amount else 0)
  }

  lemma {:induction false} AmountsPersist(events: seq<Event>, events': seq<Event>, ids: set<nat>, runner: string)
    requires |events| <= |events'| && forall id :: id in ids ==> id < |events|
    requires forall i :: 0 <= i < |events| ==> events'[i].owner == events[i].owner && events'[i].amount == events[i].amount
    ensures AmountsIn(events', ids, runner) == AmountsIn(events, ids, runner)
    decreases |events'|
  {
    if |events| < |events'| {
      AmountsPersist(events, events'[..|events'| - 1], ids, runner);
    } else {
      AmountsAgree(events, events', ids, runner);
    }
  }

  lemma {:induction false} AmountsAgree(events: seq<Event>, events': seq<Event>, ids: set<nat>, runner: string)
    requires |events| == |events'|
    requires forall i :: 0 <= i < |events| ==> events'[i].owner == events[i].owner && events'[i].amount == events[i].amount
    ensures AmountsIn(events', ids, runner) == AmountsIn(events, ids, runner)
  {
    if events != [] {
      AmountsAgree(events[..|events| - 1], events'[..|events| - 1], ids, runner);
    }
  }

  lemma {:induction false} AmountsOfOneMore(events: seq<Event>, ids: set<nat>, id: nat, runner: string)
    requires id !in ids
    ensures AmountsIn(events, ids + {id}, runner)
            == AmountsIn(events, ids, runner)
               + (if id < |events| && events[id].owner == runner then events[id].amount else 0)
  {
    if events != [] {
      AmountsOfOneMore(events[..|events| - 1], ids, id, runner);
    }
  }

  /** Sent events count among those being processed or done. */
  lemma {:induction false} SentAreProcessed(events: seq<Event>, ids: set<nat>, runner: string)
    requires forall i :: 0 <= i < |events| ==> events[i].amount >= 0 && (i in ids ==> !events[i].status.Pending?)
    ensures AmountsIn(events, ids, runner) <= PaidOut(events, runner, {Processing, Done})
  {
    if events != [] {
      SentAreProcessed(events[..|events| - 1], ids, runner);
    }
  }

  lemma {:induction false} ByStatus(events: seq<Event>, runner: string)
    ensures PaidOut(events, runner, ANY) == PaidOut(events, runner, {Pending}) + PaidOut(events, runner, {Processing, Done})
  {
    if events != [] {
      ByStatus(events[..|events| - 1], runner);
    }
  }

  lemma {:induction false} Sound(s0: State, trace: seq<Step>, threshold: int)
    requires threshold > 0 && Start(s0) && Legal(s0, trace, threshold)
    ensures WorkerSound(Run(s0, trace, threshold)) && Books(Run(s0, trace, threshold).ledger, threshold)
  {
    if trace != [] {
      var init, step := trace[..|trace| - 1], trace[|trace| - 1];
      Sound(s0, init, threshold);
      hide WorkerSound, Books, Enabled, Apply, Start;
      WorkerStep(Run(s0, init, threshold), step, threshold);
      BooksStep(Run(s0, init, threshold), step, threshold);
    }
  }

  /** What the worker's own step does to the sent events: only an event not sent before joins them. */
  lemma SentStep(s: State, step: Step, threshold: int)
    requires WorkerSound(s) && Enabled(s, step)
    ensures var s' := Apply(s, step, threshold);
            if step.Send? && step.submission.Submitted? then
              && step.id !in s.sent && s'.sent == s.sent + {step.id} && s'.ledger == s.ledger
              && step.id < |s.ledger.events| && s.ledger.events[step.id].owner == step.payee
              && s.ledger.events[step.id].amount == step.amount
            else s'.sent == s.sent
  {}

  lemma {:induction false} SubmittedIsSent(s0: State, trace: seq<Step>, threshold: int, runner: string)
    requires threshold > 0 && Start(s0) && Legal(s0, trace, threshold)
    ensures var s := Run(s0, trace, threshold); Submitted(trace, runner) == AmountsIn(s.ledger.events, s.sent, runner)
  {
    if trace != [] {
      var init, step := trace[..|trace| - 1], trace[|trace| - 1];
      var s, s' := Run(s0, init, threshold), Run(s0, trace, threshold);
      SubmittedIsSent(s0, init, threshold, runner);
      Sound(s0, init, threshold);
      SentStep(s, step, threshold);
      EventsPersist(s, step, threshold);
      assert forall id :: id in s.sent ==> id < |s.ledger.events|;
      hide WorkerSound, Books, Enabled, Apply, Start;
      if step.Send? && step.submission.Submitted? {
        AmountsOfOneMore(s.ledger.events, s.sent, step.id, runner);
      } else {
        AmountsPersist(s.ledger.events, s'.ledger.events, s.sent, runner);
      }
    }
  }

  /** Conservation: in every reachable state a runner's earnings are its open balance plus its pending, processing and done
      payouts; the balance is below the threshold and every payout less than one greatest reward above it; and what was
      submitted successfully is at most what is processing or done. */
  lemma Conservation(s0: State, trace: seq<Step>, threshold: int, runner: string)
    requires threshold > 0 && Start(s0) && Legal(s0, trace, threshold) && runner in Run(s0, trace, threshold).ledger.runners
    ensures var l := Run(s0, trace, threshold).ledger;
            && l.runners[runner].earned
               == l.runners[runner].balance + PaidOut(l.events, runner, {Pending}) + PaidOut(l.events, runner, {Processing, Done})
            && 0 <= l.runners[runner].balance < threshold
            && (forall i :: 0 <= i < |l.events| ==> threshold <= l.events[i].amount < threshold + 500)
            && Submitted(trace, runner) <= PaidOut(l.events, runner, {Processing, Done})
  {
    var s := Run(s0, trace, threshold);
    Sound(s0, trace, threshold);
    assert Balanced(s.ledger, threshold, runner);
    ByStatus(s.ledger.events, runner);
    SubmittedIsSent(s0, trace, threshold, runner);
    SentAreProcessed(s.ledger.events, s.sent, runner);
  }

  /** The command by which the worker took up the event in hand. */
  lemma {:induction false} SendingSince(s0: State, trace: seq<Step>, threshold: int) returns (k: nat)
    requires Start(s0) && Legal(s0, trace, threshold) && Run(s0, trace, threshold).worker.Sending?
    ensures k < |trace| && trace[k] == MarkProcessing(Run(s0, trace, threshold).worker.id, Applied)
    ensures forall m :: k < m < |trace| ==> IsLedgerStep(trace[m])
  {
    var init, step := trace[..|trace| - 1], trace[|trace| - 1];
    var s := Run(s0, init, threshold);
    assert Run(s0, trace, threshold) == Apply(s, step, threshold);
    SendingBefore(s, step, threshold);
    hide Apply, Enabled, IsLedgerStep;
    if step.MarkProcessing? {
      k := |init|;
    } else {
      k := SendingSince(s0, init, threshold);
    }
  }

  lemma SendingBefore(s: State, step: Step, threshold: int)
    requires Enabled(s, step) && Apply(s, step, threshold).worker.Sending?
    ensures var worker := Apply(s, step, threshold).worker;
            step == MarkProcessing(worker.id, Applied) || (IsLedgerStep(step) && s.worker == worker)
  {}

  lemma SendsInHand(s: State, step: Step)
    requires Enabled(s, step) && step.Send?
    ensures s.worker.Sending? && s.worker.id == step.id
  {}

  /** Every submission follows the reported mark of its own event, with nothing of the worker, and no crash, in between. */
  lemma {:induction false} SendFollowsMark(s0: State, trace: seq<Step>, threshold: int, j: nat) returns (k: nat)
    requires Start(s0) && Legal(s0, trace, threshold) && j < |trace| && trace[j].Send?
    ensures k < j && trace[k] == MarkProcessing(trace[j].id, Applied)
    ensures forall m :: k < m < j ==> IsLedgerStep(trace[m])
  {
    hide Enabled, Apply, Start, IsLedgerStep;
    var init := trace[..|trace| - 1];
    if j == |init| {
      SendsInHand(Run(s0, init, threshold), trace[j]);
      k := SendingSince(s0, init, threshold);
    } else {
      k := SendFollowsMark(s0, init, threshold, j);
    }
  }

  /** A step that takes up an event: a fetch that returns it, or a command or submission for it before it is sent. */
  predicate TakesUp(step: Step, id: nat) {
    || (step.Fetch? && id in step.ids)
    || (step.MarkProcessing? && step.id == id)
    || (step.Send? && step.id == id)
    || (step.MarkPendingAgain? && step.id == id)
  }

  lemma SentIsLeftAlone(s: State, step: Step, id: nat)
    requires WorkerSound(s) && Enabled(s, step) && id in s.sent
    ensures !TakesUp(step, id)
  {}

  lemma {:induction false} SentBefore(s0: State, trace: seq<Step>, threshold: int, j: nat)
    requires threshold > 0 && Start(s0) && Legal(s0, trace, threshold)
    requires j < |trace| && trace[j].Send? && trace[j].submission.Submitted?
    ensures trace[j].id in Run(s0, trace, threshold).sent
  {
    var init, step := trace[..|trace| - 1], trace[|trace| - 1];
    Sound(s0, init, threshold);
    EventsPersist(Run(s0, init, threshold), step, threshold);
    SentStep(Run(s0, init, threshold), step, threshold);
    hide WorkerSound, Books, Enabled, Apply, Start;
    if j < |init| {
      SentBefore(s0, init, threshold, j);
    }
  }

  lemma {:induction false} LegalPrefix(s0: State, trace: seq<Step>, threshold: int, k: nat)
    requires Legal(s0, trace, threshold) && k < |trace|
    ensures Legal(s0, trace[..k], threshold) && Enabled(Run(s0, trace[..k], threshold), trace[k])
  {
    hide Enabled, Run;
    if k < |trace| - 1 {
      LegalPrefix(s0, trace[..|trace| - 1], threshold, k);
      assert trace[..|trace| - 1][..k] == trace[..k];
    }
  }

  /** At most once: after a submission of a payout returned a signature, that payout is never fetched, marked, submitted or
      put back again, whatever commands fail and however often the worker crashes. */
  lemma AtMostOnce(s0: State, trace: seq<Step>, threshold: int, j: nat, k: nat)
    requires threshold > 0 && Start(s0) && Legal(s0, trace, threshold)
    requires j < k < |trace| && trace[j].Send? && trace[j].submission.Submitted?
    ensures !TakesUp(trace[k], trace[j].id)
  {
    LegalPrefix(s0, trace, threshold, k);
    assert trace[..k][j] == trace[j];
    SentBefore(s0, trace[..k], threshold, j);
    Sound(s0, trace[..k], threshold);
    hide WorkerSound, Books, Enabled, Apply, Start, Run, Legal, TakesUp;
    SentIsLeftAlone(Run(s0, trace[..k], threshold), trace[k], trace[j].id);
  }

  /** Done payouts were sent, and stay as they are. */
  lemma {:induction false} DoneIsTerminal(s0: State, trace: seq<Step>, threshold: int, k: nat, id: nat)
    requires threshold > 0 && Start(s0) && Legal(s0, trace, threshold) && k <= |trace|
    requires id < |Run(s0, trace[..k], threshold).ledger.events| && Run(s0, trace[..k], threshold).ledger.events[id].status.Done?
    ensures id < |Run(s0, trace, threshold).ledger.events| && id in Run(s0, trace, threshold).sent
    ensures Run(s0, trace, threshold).ledger.events[id] == Run(s0, trace[..k], threshold).ledger.events[id]
  {
    if k == |trace| {
      assert trace[..k] == trace;
      Sound(s0, trace, threshold);
    } else {
      var init := trace[..|trace| - 1];
      assert init[..k] == trace[..k];
      DoneIsTerminal(s0, init, threshold, k, id);
      Sound(s0, init, threshold);
      EventsPersist(Run(s0, init, threshold), trace[|trace| - 1], threshold);
      hide WorkerSound, Books, Enabled, Apply, Start;
    }
  }

  /** How often an event was put back to pending. */
  function Returns(trace: seq<Step>, id: nat): nat {
    if trace == [] then 0
    else
      var last := trace[|trace| - 1];
      Returns(trace[..|trace| - 1], id)
      + (if last.MarkPendingAgain? && last.id == id && last.write.TakesEffect() then 1 else 0)
  }

  lemma RetryStep(s: State, step: Step, threshold: int, id: nat)
    requires Enabled(s, step)
    ensures var events, events' := s.ledger.events, Apply(s, step, threshold).ledger.events;
            && |events| <= |events'|
            && (step.MarkPendingAgain? ==> step.id < |events|)
            && (id < |events| ==>
                  events'[id].retries == events[id].retries
                                         + (if step.MarkPendingAgain? && step.id == id && step.write.TakesEffect() then 1 else 0))
            && (|events| <= id < |events'| ==> events'[id].retries == 0)
  {}

  /** The retry counter of a payout counts exactly its effective returns to pending. */
  lemma {:induction false} RetriesCountReturns(s0: State, trace: seq<Step>, threshold: int, id: nat)
    requires Start(s0) && Legal(s0, trace, threshold)
    ensures var events := Run(s0, trace, threshold).ledger.events;
            if id < |events| then events[id].retries == Returns(trace, id) else Returns(trace, id) == 0
  {
    if trace != [] {
      var init, step := trace[..|trace| - 1], trace[|trace| - 1];
      RetriesCountReturns(s0, init, threshold, id);
      RetryStep(Run(s0, init, threshold), step, threshold, id);
      hide Enabled, Apply;
    }
  }

  /** Submissions of a payout that reached the chain. */
  function Landings(trace: seq<Step>, id: nat): nat {
    if trace == [] then 0
    else
      var last := trace[|trace| - 1];
      Landings(trace[..|trace| - 1], id) + (if last.Send? && last.id == id && !last.submission.Rejected? then 1 else 0)
  }

  /** The last submission of the payout reached the chain although its call reported an error. */
  predicate LastSilent(trace: seq<Step>, id: nat) {
    if trace == [] then false
    else
      var last := trace[|trace| - 1];
      if last.Send? && last.id == id then last.submission.SubmittedSilently? else LastSilent(trace[..|trace| - 1], id)
  }

  predicate PutsBack(step: Step, id: nat) {
    step.MarkPendingAgain? && step.id == id && step.write.TakesEffect()
  }

  /** How often the payout was put back after a submission that had reached the chain. */
  function SilentReturns(trace: seq<Step>, id: nat): nat {
    if trace == [] then 0
    else
      var init, last := trace[..|trace| - 1], trace[|trace| - 1];
      SilentReturns(init, id) + (if PutsBack(last, id) && LastSilent(init, id) then 1 else 0)
  }

  predicate Lands(step: Step, id: nat) {
    step.Send? && step.id == id && !step.submission.Rejected?
  }

  /** The payout landed and was not put back since. */
  predicate Afloat(trace: seq<Step>, id: nat) {
    trace != []
    && (Lands(trace[|trace| - 1], id) || (!PutsBack(trace[|trace| - 1], id) && Afloat(trace[..|trace| - 1], id)))
  }

  function Bit(b: bool): nat {
    if b then 1 else 0
  }

  /** A payout afloat is neither pending nor about to be submitted, and one in hand after a failed call is afloat exactly when
      that call was silent. */
  ghost predicate Floats(s: State, id: nat, afloat: bool, silent: bool) {
    && (afloat ==> id < |s.ledger.events| && !s.ledger.events[id].status.Pending? && !(s.worker.Sending? && s.worker.id == id))
    && (s.worker.Unsent? && s.worker.id == id ==> (afloat <==> silent))
  }

  lemma FloatsStep(s: State, step: Step, threshold: int, id: nat, afloat: bool, silent: bool)
    requires WorkerSound(s) && Enabled(s, step) && Floats(s, id, afloat, silent)
    ensures Lands(step, id) ==> !afloat && !PutsBack(step, id)
    ensures PutsBack(step, id) ==> (afloat <==> silent)
    ensures Floats(Apply(s, step, threshold), id, Lands(step, id) || (!PutsBack(step, id) && afloat),
                   if step.Send? && step.id == id then step.submission.SubmittedSilently? else silent)
  {}

  /** The exact number of landings: one for every put-back after a silent one, and one more while the payout is afloat. */
  lemma {:induction false} LandingsExact(s0: State, trace: seq<Step>, threshold: int, id: nat)
    requires threshold > 0 && Start(s0) && Legal(s0, trace, threshold)
    ensures Landings(trace, id) == SilentReturns(trace, id) + Bit(Afloat(trace, id))
    ensures Floats(Run(s0, trace, threshold), id, Afloat(trace, id), LastSilent(trace, id))
  {
    if trace != [] {
      var init, step := trace[..|trace| - 1], trace[|trace| - 1];
      LandingsExact(s0, init, threshold, id);
      Sound(s0, init, threshold);
      FloatsStep(Run(s0, init, threshold), step, threshold, id, Afloat(init, id), LastSilent(init, id));
      hide WorkerSound, Books, Enabled, Apply, Start, Floats, PutsBack;
    }
  }

  /** The exact condition: a payout reaches the chain more than once exactly when it was put back after a submission that had
      landed silently, and landed again afterwards. */
  lemma LandsAgainIff(s0: State, trace: seq<Step>, threshold: int, id: nat)
    requires threshold > 0 && Start(s0) && Legal(s0, trace, threshold)
    ensures Landings(trace, id) > 1
            <==> exists k, m :: 0 <= k < m < |trace| && PutsBack(trace[k], id) && LastSilent(trace[..k], id) && Lands(trace[m], id)
  {
    if Landings(trace, id) > 1 {
      var k, m := LandedAgain(s0, trace, threshold, id);
    }
    if k, m :| 0 <= k < m < |trace| && PutsBack(trace[k], id) && LastSilent(trace[..k], id) && Lands(trace[m], id) {
      LastSilentLanded(trace[..k], id);
      LandingsGrow(trace, k, m, id);
    }
  }

  lemma {:induction false} LandedAgain(s0: State, trace: seq<Step>, threshold: int, id: nat) returns (k: nat, m: nat)
    requires threshold > 0 && Start(s0) && Legal(s0, trace, threshold) && Landings(trace, id) > 1
    ensures k < m < |trace| && PutsBack(trace[k], id) && LastSilent(trace[..k], id) && Lands(trace[m], id)
  {
    var init := trace[..|trace| - 1];
    hide PutsBack, LastSilent, Start, Run, Enabled, Floats;
    if Landings(init, id) > 1 {
      k, m := LandedAgain(s0, init, threshold, id);
      assert init[..k] == trace[..k];
    } else {
      m := |init|;
      LandingsExact(s0, init, threshold, id);
      LandingsExact(s0, trace, threshold, id);
      NotPutBackByLanding(trace[m], id);
      assert SilentReturns(trace, id) == SilentReturns(init, id);
      k := SilentReturnAt(init, id);
      assert init[..k] == trace[..k];
    }
  }

  lemma NotPutBackByLanding(step: Step, id: nat)
    ensures Lands(step, id) ==> !PutsBack(step, id)
  {}

  lemma {:induction false} SilentReturnAt(trace: seq<Step>, id: nat) returns (k: nat)
    requires SilentReturns(trace, id) > 0
    ensures k < |trace| && PutsBack(trace[k], id) && LastSilent(trace[..k], id)
  {
    var init := trace[..|trace| - 1];
    if SilentReturns(init, id) > 0 {
      k := SilentReturnAt(init, id);
      assert init[..k] == trace[..k];
    } else {
      k := |init|;
    }
  }

  lemma {:induction false} LastSilentLanded(trace: seq<Step>, id: nat)
    requires LastSilent(trace, id)
    ensures Landings(trace, id) >= 1
  {
    var last := trace[|trace| - 1];
    if !(last.Send? && last.id == id) {
      LastSilentLanded(trace[..|trace| - 1], id);
    }
  }

  lemma {:induction false} LandingsGrow(trace: seq<Step>, k: nat, m: nat, id: nat)
    requires k <= m < |trace| && Lands(trace[m], id)
    ensures Landings(trace, id) >= Landings(trace[..k], id) + 1
  {
    var init := trace[..|trace| - 1];
    if m < |init| {
      LandingsGrow(init, k, m, id);
      assert init[..k] == trace[..k];
    } else {
      LandingsMono(init, k, id);
      assert init[..k] == trace[..k];
    }
  }

  lemma {:induction false} LandingsMono(trace: seq<Step>, k: nat, id: nat)
    requires k <= |trace|
    ensures Landings(trace[..k], id) <= Landings(trace, id)
  {
    if k == |trace| {
      assert trace[..k] == trace;
    } else {
      LandingsMono(trace[..|trace| - 1], k, id);
      assert trace[..|trace| - 1][..k] == trace[..k];
    }
  }
}
