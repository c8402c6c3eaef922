/** A concrete family of runs: a submission that reaches the chain but reports an error is retried, so the bound on landings
    is tight. */
module PayoutWitnesses {
  import opened Common
  import opened Ledger
  import opened PayoutModel
  import opened PayoutTheorems

  /** The step leads from one state to another. */
  ghost predicate Leads(s: State, step: Step, s': State, threshold: int) {
    Enabled(s, step) && Apply(s, step, threshold) == s'
  }

  lemma Go(s0: State, trace: seq<Step>, s: State, step: Step, s': State, threshold: int) returns (t: seq<Step>)
    requires Legal(s0, trace, threshold) && Run(s0, trace, threshold) == s && Leads(s, step, s', threshold)
    ensures t == trace + [step] && Legal(s0, t, threshold) && Run(s0, t, threshold) == s'
    ensures forall id ::
              Landings(t, id) == Landings(trace, id) + (if step.Send? && step.id == id && !step.submission.Rejected? then 1 else 0)
  {
    t := trace + [step];
    assert t[..|t| - 1] == trace;
  }

  const OPENING := Ledger(map[7 := 1], map["m" := MonitorRow(7, 0)], map[], [])
  const EARNED := Ledger(map[7 := 0], map["m" := MonitorRow(7, CHECK_COST)], map["r" := Runner(0, 0, 100)],
                         [Event("r", 100, Pending, 0, None)])

  const OPENED := State(OPENING, Polling, {})
  const REGISTERED := State(OPENING.(runners := map["r" := Runner(0, 0, 0)]), Polling, {})

  function With(status: Status, retries: nat, worker: PayoutModel.Worker): State {
    State(EARNED.(events := [Event("r", 100, status, retries, None)]), worker, {})
  }

  lemma FirstSteps()
    ensures Leads(OPENED, Register("r"), REGISTERED, 100)
    ensures Leads(REGISTERED, SettleCheck("m", "r"), With(Pending, 0, Polling), 100)
  {
    var l := OPENING.(runners := map["r" := Runner(0, 0, 0)]);
    var after := Settle(l, "m", "r", 100);
    assert after.credits == EARNED.credits && after.monitors == EARNED.monitors && after.runners == EARNED.runners;
    assert after.events == EARNED.events;
  }

  lemma TakeUp(retries: nat)
    ensures Leads(With(Pending, retries, Polling), Fetch([0]), With(Pending, retries, Batch([0])), 100)
    ensures Leads(With(Pending, retries, Batch([0])), MarkProcessing(0, Applied), With(Processing, retries, Sending(0, [])), 100)
    ensures Leads(With(Processing, retries, Sending(0, [])), Send(0, "r", 100, SubmittedSilently), With(Processing, retries, Unsent(0, [])), 100)
    ensures Leads(With(Processing, retries, Unsent(0, [])), MarkPendingAgain(0, Applied), With(Pending, retries + 1, Batch([])), 100)
    ensures Leads(With(Pending, retries, Batch([])), EndBatch, With(Pending, retries, Polling), 100)
  {
    assert [0][1..] == [];
    assert With(Pending, retries, Polling).ledger.events[0 := Event("r", 100, Processing, retries, None)]
        == With(Processing, retries, Polling).ledger.events;
  }

  lemma SubmitSilently(s0: State, trace: seq<Step>, retries: nat) returns (t: seq<Step>)
    requires Legal(s0, trace, 100) && Run(s0, trace, 100) == With(Pending, retries, Polling)
    ensures Legal(s0, t, 100) && Run(s0, t, 100) == With(Pending, retries + 1, Polling) && Landings(t, 0) == Landings(trace, 0) + 1
  {
    TakeUp(retries);
    TakeUp(retries + 1);
    hide *;
    t := Go(s0, trace, With(Pending, retries, Polling), Fetch([0]), With(Pending, retries, Batch([0])), 100);
    t := Go(s0, t, With(Pending, retries, Batch([0])), MarkProcessing(0, Applied), With(Processing, retries, Sending(0, [])), 100);
    t := Go(s0, t, With(Processing, retries, Sending(0, [])), Send(0, "r", 100, SubmittedSilently), With(Processing, retries, Unsent(0, [])), 100);
    t := Go(s0, t, With(Processing, retries, Unsent(0, [])), MarkPendingAgain(0, Applied), With(Pending, retries + 1, Batch([])), 100);
    t := Go(s0, t, With(Pending, retries + 1, Batch([])), EndBatch, With(Pending, retries + 1, Polling), 100);
  }

  /** The bound is reached: a submission that lands although its call reports an error is retried, and one payout of one
      runner lands as often as one likes. */
  lemma {:induction false} RetriesCanPayAgain(n: nat) returns (t: seq<Step>)
    ensures Start(OPENED) && Legal(OPENED, t, 100)
    ensures Run(OPENED, t, 100) == With(Pending, n, Polling) && Landings(t, 0) == n
    decreases n
  {
    if n == 0 {
      t := [];
      assert Landings(t, 0) == 0 && Legal(OPENED, t, 100) && Run(OPENED, t, 100) == OPENED;
      FirstSteps();
      hide *;
      t := Go(OPENED, t, OPENED, Register("r"), REGISTERED, 100);
      t := Go(OPENED, t, REGISTERED, SettleCheck("m", "r"), With(Pending, 0, Polling), 100);
    } else {
      t := RetriesCanPayAgain(n - 1);
      t := SubmitSilently(OPENED, t, n - 1);
    }
  }
}
