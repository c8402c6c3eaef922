/** The end-to-end bound: how many checks a run can settle, through any interleaving of scheduling, submissions and
    settlements, packets put back included. */
module PipelineTheorems {
  import opened Common
  import S = SchedulerModel
  import D = DispatchRates
  import opened AntiCheat
  import opened Dispatching
  import opened Ledger
  import opened Packets
  import opened Pipeline

  /** Settling a packet of one result does nothing, or settles that result. */
  lemma SettlementIs(s: State, fault: Fault, threshold: int)
    requires s.queue != [] && |s.queue[0].results| == 1
    ensures var o, item, runner := Settlement(s, fault, threshold), s.queue[0].results[0], s.queue[0].runner;
            if fault.Aborts() || !CanSettle(s.ledger, item.monitor, runner) then o.charged == [] && o.logged == [] && o.ledger == s.ledger
            else
              && o.charged == [item] && o.logged == (if fault == CommitReplyLost then [] else [item])
              && o.ledger == Settle(s.ledger, item.monitor, runner, threshold)
  {
    var packet := s.queue[0];
    var faults := seq(|packet.results|, _ => fault);
    assert packet.results[..0] == [] && faults[..0] == [] && faults[0] == fault;
    assert Process(s.ledger, packet.runner, packet.results[..0], faults[..0], threshold) == Packets.Outcome(s.ledger, [], []);
    hide Settle, CanSettle;
  }

  /** Handling the packet at the head settles its check or leaves the ledger alone, and the packet stays exactly when its check
      was settled, its log prepared and not inserted. */
  lemma ConsumeIs(s: State, fault: Fault, inserted: bool, threshold: int)
    requires Coupled(s) && Enabled(s, Consume(fault, inserted))
    ensures |s.queue[0].results| == 1
    ensures var s', item, runner := Apply(s, Consume(fault, inserted), threshold), s.queue[0].results[0], s.queue[0].runner;
            var settles := !fault.Aborts() && CanSettle(s.ledger, item.monitor, runner);
            && s'.guards == s.guards
            && s'.queue == (if settles && fault != CommitReplyLost && !inserted then s.queue else s.queue[1..])
            && s'.ledger == (if settles then Settle(s.ledger, item.monitor, runner, threshold) else s.ledger)
  {
    assert s.queue[0] in s.queue;
    SettlementIs(s, fault, threshold);
    hide Settlement, Settle, CanSettle, Seen;
  }

  /** What the scheduler sees of it. */
  lemma SeenIs(s: State, fault: Fault, inserted: bool, threshold: int)
    requires s.queue != [] && |s.queue[0].results| == 1
    ensures var item, runner := s.queue[0].results[0], s.queue[0].runner;
            var settles := !fault.Aborts() && CanSettle(s.ledger, item.monitor, runner);
            && (settles <==> Settlement(s, fault, threshold).charged != [])
            && (settles ==> Payer(s.ledger, item.monitor).Some?)
            && Seen(s, Consume(fault, inserted), threshold)
               == if settles then [S.Charge(Payer(s.ledger, item.monitor).value)] else []
  {
    SettlementIs(s, fault, threshold);
    hide Settlement, Settle, Payer;
  }

  /** A settlement charges the same account as the scheduler's charge. */
  lemma ChargeCouples(s: State, monitor: string, runner: string, threshold: int)
    requires Coupled(s) && CanSettle(s.ledger, monitor, runner)
    ensures var charge, after := S.Charge(Payer(s.ledger, monitor).value), Settle(s.ledger, monitor, runner, threshold);
            && S.Enabled(s.sched, charge)
            && after.credits == S.Apply(s.sched, charge).credits
            && after.monitors.Keys == s.ledger.monitors.Keys && S.Apply(s.sched, charge).rows == s.sched.rows
            && (forall id :: id in s.sched.rows ==> after.monitors[id].owner == s.sched.rows[id].owner)
  {
    hide Rewarded, PayoutOf;
  }

  lemma ConsumeSched(s: State, fault: Fault, inserted: bool, threshold: int)
    requires Enabled(s, Consume(fault, inserted))
    ensures var seen := Seen(s, Consume(fault, inserted), threshold);
            Apply(s, Consume(fault, inserted), threshold).sched == (if seen == [] then s.sched else S.Apply(s.sched, seen[0]))
  {
    hide Settlement, Seen, Requeues, S.Apply;
  }

  /** A settlement looks to the scheduler like one charge of the owner's credits, or like nothing. */
  lemma SettleSeen(s: State, fault: Fault, inserted: bool, threshold: int)
    requires Coupled(s) && Enabled(s, Consume(fault, inserted))
    ensures var s', seen := Apply(s, Consume(fault, inserted), threshold), Seen(s, Consume(fault, inserted), threshold);
            && |seen| <= 1 && Coupled(s')
            && (seen == [] <==> Settlement(s, fault, threshold).charged == [])
            && (forall own :: own in seen ==> own.Charge? && S.Enabled(s.sched, own))
            && s'.sched == (if seen == [] then s.sched else S.Apply(s.sched, seen[0]))
  {
    assert s.queue[0] in s.queue && forall p :: p in s.queue[1..] ==> p in s.queue;
    hide Settlement, Settle, CanSettle, Payer, Seen, Apply, S.Apply, S.Enabled;
    ConsumeIs(s, fault, inserted, threshold);
    SeenIs(s, fault, inserted, threshold);
    ConsumeSched(s, fault, inserted, threshold);
    if Seen(s, Consume(fault, inserted), threshold) != [] {
      ChargeCouples(s, s.queue[0].results[0].monitor, s.queue[0].runner, threshold);
    }
  }

  lemma ScheduleSeen(s: State, own: S.Step, nonce: string, threshold: int)
    requires Coupled(s) && Enabled(s, Schedule(own, nonce))
    ensures Coupled(Apply(s, Schedule(own, nonce), threshold))
  {}

  lemma SubmitSeen(s: State, step: Step, threshold: int)
    requires Coupled(s) && step.Submit?
    ensures Enabled(s, step) && Coupled(Apply(s, step, threshold)) && Apply(s, step, threshold).sched == s.sched
  {
    hide Present;
  }

  /** The scheduler within the machine runs like the scheduler alone. */
  lemma {:induction false} SchedulerWithin(s0: State, trace: seq<Step>, threshold: int)
    requires Start(s0) && Legal(s0, trace, threshold)
    ensures var s, seen := Run(s0, trace, threshold), SeenTrace(s0, trace, threshold);
            Coupled(s) && S.Legal(s0.sched, seen) && S.Run(s0.sched, seen) == s.sched
  {
    if trace != [] {
      var init, step := trace[..|trace| - 1], trace[|trace| - 1];
      SchedulerWithin(s0, init, threshold);
      var s, before := Run(s0, init, threshold), SeenTrace(s0, init, threshold);
      match step {
        case Schedule(own, nonce) => ScheduleSeen(s, own, nonce, threshold);
        case Submit(_, _, _, _) => SubmitSeen(s, step, threshold);
        case Consume(fault, inserted) => SettleSeen(s, fault, inserted, threshold);
      }
      var seen := Seen(s, step, threshold);
      assert |seen| <= 1 && (seen != [] ==> S.Enabled(s.sched, seen[0]));
      assert Apply(s, step, threshold).sched == if seen == [] then s.sched else S.Apply(s.sched, seen[0]);
      hide Start, Enabled, Apply, Seen, Coupled, S.Enabled, S.Apply;
      if seen == [] {
        assert before + seen == before;
      } else {
        S.Extend(s0.sched, before, seen[0]);
        assert before + seen == before + [seen[0]];
      }
    }
  }

  function DispatchCount(trace: seq<S.Step>): nat {
    if trace == [] then 0 else DispatchCount(trace[..|trace| - 1]) + (if trace[|trace| - 1].Dispatch? then 1 else 0)
  }

  /** The step brings a result into the queue. */
  predicate Accepts(s: State, step: Step) {
    step.Submit? && Present(s.guards, step.result, step.at, step.signed, step.published).1.Accepted?
  }

  /** The step settles a check: it charges somebody. */
  predicate Charges(s: State, step: Step, threshold: int) {
    step.Consume? && s.queue != [] && Settlement(s, step.fault, threshold).charged != []
  }

  function Bit(b: bool): nat {
    if b then 1 else 0
  }

  /** Results that reached the queue. */
  ghost function AcceptedCount(s0: State, trace: seq<Step>, threshold: int): nat {
    if trace == [] then 0
    else
      var init := trace[..|trace| - 1];
      AcceptedCount(s0, init, threshold) + Bit(Accepts(Run(s0, init, threshold), trace[|trace| - 1]))
  }

  /** Settlements that charged somebody. */
  ghost function SettledCount(s0: State, trace: seq<Step>, threshold: int): nat {
    if trace == [] then 0
    else
      var init := trace[..|trace| - 1];
      SettledCount(s0, init, threshold) + Bit(Charges(Run(s0, init, threshold), trace[|trace| - 1], threshold))
  }

  /** Packets put back after a failed log insert. */
  ghost function RequeuedCount(s0: State, trace: seq<Step>, threshold: int): nat {
    if trace == [] then 0
    else
      var init := trace[..|trace| - 1];
      RequeuedCount(s0, init, threshold) + Bit(Requeues(Run(s0, init, threshold), trace[|trace| - 1], threshold))
  }

  lemma PresentCounts(g: Guards, r: Result, at: int, signed: bool, published: bool)
    ensures var (g', outcome) := Present(g, r, at, signed, published);
            && Issues(g'.events) == Issues(g.events)
            && Consumptions(g'.events) >= Consumptions(g.events) + (if outcome.Accepted? then 1 else 0)
  {
    var events := g.events + [Presented(r.nonce, at)];
    assert events[..|events| - 1] == g.events;
    hide RateAccepts, LatencyAccepts;
  }

  lemma IssuingCounts(g: Guards, own: S.Step, nonce: string)
    ensures Issues(Issuing(g, own, nonce).events) == Issues(g.events) + (if own.Dispatch? then 1 else 0)
    ensures Consumptions(Issuing(g, own, nonce).events) == Consumptions(g.events)
  {
    if own.Dispatch? {
      assert Issuing(g, own, nonce).events[..|g.events|] == g.events;
    }
  }

  /** What a step does to the four accounts. */
  lemma StepCounts(s: State, step: Step, threshold: int)
    requires Enabled(s, step)
    ensures var s' := Apply(s, step, threshold);
            && |s'.queue| == |s.queue| + Bit(Accepts(s, step)) + Bit(Requeues(s, step, threshold)) - Bit(step.Consume?)
            && Bit(Charges(s, step, threshold)) <= Bit(step.Consume?)
            && Consumptions(s'.guards.events) >= Consumptions(s.guards.events) + Bit(Accepts(s, step))
            && Issues(s'.guards.events) == Issues(s.guards.events) + Bit(step.Schedule? && step.step.Dispatch?)
  {
    match step {
      case Schedule(own, nonce) => IssuingCounts(s.guards, own, nonce);
      case Submit(r, at, signed, published) => PresentCounts(s.guards, r, at, signed, published);
      case Consume(_, _) =>
    }
    hide Present, Settlement, Issuing, Mirrored, Seen;
  }

  /** The accounts along the run: settled and still queued results were accepted or put back, accepted ones consumed a nonce,
      and every dispatch issued one. */
  lemma {:induction false} Accounts(s0: State, trace: seq<Step>, threshold: int)
    requires Start(s0) && Legal(s0, trace, threshold)
    ensures var s := Run(s0, trace, threshold);
            && SettledCount(s0, trace, threshold) + |s.queue|
               <= AcceptedCount(s0, trace, threshold) + RequeuedCount(s0, trace, threshold)
            && AcceptedCount(s0, trace, threshold) <= Consumptions(s.guards.events)
            && Issues(s.guards.events) == DispatchCount(SeenTrace(s0, trace, threshold))
  {
    if trace != [] {
      var init, step := trace[..|trace| - 1], trace[|trace| - 1];
      hide Start, Seen, Accepts, Charges, Requeues, Coupled, Apply, Enabled, S.Enabled, S.Apply, Bit, Consumptions, Issues, DispatchCount;
      Accounts(s0, init, threshold);
      var s := Run(s0, init, threshold);
      SchedulerWithin(s0, init, threshold);
      SeenDispatches(s, step, threshold);
      DispatchesJoin(SeenTrace(s0, init, threshold), Seen(s, step, threshold));
      StepCounts(s, step, threshold);
    } else {
      NothingYet(s0);
    }
  }

  lemma NothingYet(s0: State)
    requires Start(s0)
    ensures s0.queue == [] && Consumptions(s0.guards.events) == 0 && Issues(s0.guards.events) == 0 && DispatchCount([]) == 0
    ensures S.Start(s0.sched)
  {}

  lemma SeenDispatches(s: State, step: Step, threshold: int)
    requires Coupled(s) && Enabled(s, step)
    ensures |Seen(s, step, threshold)| <= 1
    ensures DispatchCount(Seen(s, step, threshold)) == Bit(step.Schedule? && step.step.Dispatch?)
  {
    if step.Consume? {
      SettleSeen(s, step.fault, step.inserted, threshold);
    }
    var seen := Seen(s, step, threshold);
    hide Seen;
    if seen != [] {
      assert seen[..0] == [];
    }
  }

  lemma DispatchesJoin(a: seq<S.Step>, b: seq<S.Step>)
    requires |b| <= 1
    ensures DispatchCount(a + b) == DispatchCount(a) + DispatchCount(b)
  {
    if b == [] {
      assert a + b == a;
    } else {
      assert (a + b)[..|a|] == a && b[..0] == [];
    }
  }

  /** All dispatches of a scheduler run lie between its first and last reading of the clock. */
  lemma {:induction false} AllWithinTheRun(s0: S.State, trace: seq<S.Step>, b: int)
    requires S.Start(s0) && S.Legal(s0, trace) && b >= S.Run(s0, trace).clock
    ensures var s := S.Run(s0, trace); s.clock >= s0.clock && (!s.tick.Idle? ==> s0.clock <= s.tick.now <= s.clock)
    ensures D.AllDispatchesWithin(trace, s0.clock, b) == DispatchCount(trace)
  {
    if trace != [] {
      var init, step := trace[..|trace| - 1], trace[|trace| - 1];
      S.RowsPersist(s0, trace, |trace| - 1);
      AllWithinTheRun(s0, init, b);
      TickTimes(S.Run(s0, init), step, s0.clock);
      hide S.Apply, S.Enabled;
    }
  }

  lemma TickTimes(s: S.State, step: S.Step, start: int)
    requires S.Enabled(s, step) && s.clock >= start && (!s.tick.Idle? ==> start <= s.tick.now <= s.clock)
    ensures var s' := S.Apply(s, step); s'.clock >= s.clock && (!s'.tick.Idle? ==> start <= s'.tick.now <= s'.clock)
    ensures step.Dispatch? ==> start <= step.now <= s.clock
  {}

  /** Settlements are at most the accepted results and those put back; accepted results at most the consumed nonces; these at
      most the issued ones, which are as many as the dispatches. */
  lemma Chain(s0: State, trace: seq<Step>, threshold: int)
    requires Start(s0) && Legal(s0, trace, threshold)
    ensures var events := Run(s0, trace, threshold).guards.events;
            && SettledCount(s0, trace, threshold) <= AcceptedCount(s0, trace, threshold) + RequeuedCount(s0, trace, threshold)
            && AcceptedCount(s0, trace, threshold) <= Consumptions(events)
            && Consumptions(events) <= Issues(events)
            && Issues(events) == DispatchCount(SeenTrace(s0, trace, threshold))
  {
    hide *;
    Accounts(s0, trace, threshold);
    ConsumedAtMostIssued(Run(s0, trace, threshold).guards.events);
  }

  /** The dispatches of a run are at most the intervals, plus one, that fit into it, over all monitors, and one more for each
      monitor that its Create armed late. */
  lemma DispatchesFit(s0: S.State, seen: seq<S.Step>)
    requires S.Start(s0) && S.Legal(s0, seen)
    ensures S.Run(s0, seen).clock >= s0.clock
    ensures DispatchCount(seen)
            <= D.Capacity(S.Run(s0, seen).rows, S.Run(s0, seen).clock - s0.clock) + |D.LateMonitors(s0, seen)|
  {
    hide *;
    AllWithinTheRun(s0, seen, S.Run(s0, seen).clock);
    D.TotalDispatchRate(s0, seen, s0.clock, S.Run(s0, seen).clock - s0.clock);
  }

  /** End to end, over every run: no more checks are settled than the monitors' intervals allow dispatches in its length, plus
      one for each monitor armed late and one for each packet put back after a failed log insert. */
  lemma EndToEnd(s0: State, trace: seq<Step>, threshold: int)
    requires Start(s0) && Legal(s0, trace, threshold)
    ensures var s := Run(s0, trace, threshold);
            && s.sched.clock >= s0.sched.clock
            && SettledCount(s0, trace, threshold)
               <= D.Capacity(s.sched.rows, s.sched.clock - s0.sched.clock)
                  + |D.LateMonitors(s0.sched, SeenTrace(s0, trace, threshold))| + RequeuedCount(s0, trace, threshold)
  {
    hide *;
    NothingYet(s0);
    SchedulerWithin(s0, trace, threshold);
    Chain(s0, trace, threshold);
    DispatchesFit(s0.sched, SeenTrace(s0, trace, threshold));
  }

  lemma LastStep(s0: State, trace: seq<Step>, threshold: int)
    requires Legal(s0, trace, threshold) && trace != []
    ensures var init, step := trace[..|trace| - 1], trace[|trace| - 1];
            && Legal(s0, init, threshold) && Enabled(Run(s0, init, threshold), step)
            && Run(s0, trace, threshold) == Apply(Run(s0, init, threshold), step, threshold)
  {
    hide Apply, Enabled;
  }

  /** Nonces are issued once each. */
  ghost predicate NoncesDiffer(events: seq<NonceEvent<string>>) {
    forall a, b :: 0 <= a < b < |events| && events[a].Issued? && events[b].Issued? ==> events[a].nonce != events[b].nonce
  }

  lemma OneMoreEvent(before: seq<NonceEvent<string>>, after: seq<NonceEvent<string>>)
    requires NoncesDiffer(before) && before <= after && |after| <= |before| + 1
    requires |after| > |before| && after[|before|].Issued? ==> IsFresh(before, after[|before|].nonce)
    ensures NoncesDiffer(after)
  {}

  lemma {:induction false} IssuedOnce(s0: State, trace: seq<Step>, threshold: int)
    requires Start(s0) && Legal(s0, trace, threshold)
    ensures NoncesDiffer(Run(s0, trace, threshold).guards.events)
  {
    if trace != [] {
      hide *;
      LastStep(s0, trace, threshold);
      var s := Run(s0, trace[..|trace| - 1], threshold);
      IssuedOnce(s0, trace[..|trace| - 1], threshold);
      EventsGrow(s, trace[|trace| - 1], threshold);
      OneMoreEvent(s.guards.events, Run(s0, trace, threshold).guards.events);
    }
  }

  lemma EventsGrow(s: State, step: Step, threshold: int)
    requires Enabled(s, step)
    ensures var before, after := s.guards.events, Apply(s, step, threshold).guards.events;
            && before <= after && |after| <= |before| + 1
            && (|after| > |before| && after[|before|].Issued? ==> IsFresh(before, after[|before|].nonce))
  {
    hide Settlement, Seen, Mirrored, Consumes, RateAccepts, LatencyAccepts;
  }

  lemma NonceStays(s: State, step: Step, threshold: int, nonce: string, i: nat)
    requires Enabled(s, step) && i < |s.guards.events| && s.guards.events[i].Issued? && s.guards.events[i].nonce == nonce
    requires step.Submit? ==> step.result.nonce != nonce
    ensures var events, events' := s.guards.events, Apply(s, step, threshold).guards.events;
            events <= events' && forall k :: |events| <= k < |events'| ==> events'[k].nonce != nonce
  {
    hide Settlement, Seen, Mirrored, Consumes, RateAccepts, LatencyAccepts;
  }

  lemma NonceIssued(s: State, step: Step, threshold: int)
    requires Enabled(s, step) && step.Schedule? && step.step.Dispatch?
    ensures var expires := (step.step.now + NonceTtl(step.step.interval)) * 1000;
            Apply(s, step, threshold).guards.events == s.guards.events + [Issued(step.nonce, expires)]
  {
    hide NonceTtl, Mirrored, S.Enabled, S.Apply;
  }

  /** The event by which dispatch d issued its nonce, if nobody has presented it since. */
  lemma {:induction false} IssuedAt(s0: State, trace: seq<Step>, threshold: int, d: nat) returns (i: nat)
    requires Legal(s0, trace, threshold) && d < |trace| && trace[d].Schedule? && trace[d].step.Dispatch?
    requires forall k :: d < k < |trace| && trace[k].Submit? ==> trace[k].result.nonce != trace[d].nonce
    ensures var events, sent := Run(s0, trace, threshold).guards.events, trace[d].step;
            && i < |events| && events[i] == Issued(trace[d].nonce, (sent.now + NonceTtl(sent.interval)) * 1000)
            && forall k :: i < k < |events| ==> events[k].nonce != trace[d].nonce
  {
    hide Apply, Enabled, NonceTtl;
    var init, last := trace[..|trace| - 1], trace[|trace| - 1];
    if d == |init| {
      NonceIssued(Run(s0, init, threshold), last, threshold);
      i := |Run(s0, init, threshold).guards.events|;
    } else {
      i := IssuedAt(s0, init, threshold, d);
      NonceStays(Run(s0, init, threshold), last, threshold, trace[d].nonce, i);
    }
  }

  /** The first presentation of a dispatch's nonce gets past the nonce check exactly within a quarter of an hour, or two
      intervals, of the dispatch. */
  lemma NonceLasts(s0: State, trace: seq<Step>, threshold: int, d: nat, r: Result, at: int, signed: bool, published: bool)
    requires Start(s0) && Legal(s0, trace, threshold)
    requires d < |trace| && trace[d].Schedule? && trace[d].step.Dispatch? && trace[d].nonce == r.nonce
    requires forall k :: d < k < |trace| && trace[k].Submit? ==> trace[k].result.nonce != r.nonce
    ensures var sent, outcome := trace[d].step, Present(Run(s0, trace, threshold).guards, r, at, signed, published).1;
            outcome != BadNonce <==> at < (sent.now + 900) * 1000 || at < (sent.now + 2 * sent.interval) * 1000
  {
    var g, sent := Run(s0, trace, threshold).guards, trace[d].step;
    DispatchedNonce(s0, trace, threshold, d);
    var i := IssuedAt(s0, trace, threshold, d);
    hide Run, Legal, Start, Present;
    PresentIs(g, r, at, signed, published);
    assert g.events[i].Issued? && g.events[i].nonce == r.nonce;
    assert forall k :: 0 <= k < |g.events| && k != i && g.events[k].nonce == r.nonce ==> k < i;
  }

  lemma {:induction false} DispatchedNonce(s0: State, trace: seq<Step>, threshold: int, d: nat)
    requires Legal(s0, trace, threshold) && d < |trace| && trace[d].Schedule?
    ensures trace[d].nonce != ""
  {
    if d < |trace| - 1 {
      DispatchedNonce(s0, trace[..|trace| - 1], threshold, d);
    }
  }

  /** No nonce lets two results through. */
  lemma NonceLetsOneThrough(s0: State, trace: seq<Step>, threshold: int, i: nat, k: nat)
    requires Start(s0) && Legal(s0, trace, threshold)
    requires i < |Run(s0, trace, threshold).guards.events| && k < |Run(s0, trace, threshold).guards.events| && i != k
    requires Run(s0, trace, threshold).guards.events[i].nonce == Run(s0, trace, threshold).guards.events[k].nonce
    ensures !(Consumes(Run(s0, trace, threshold).guards.events, i) && Consumes(Run(s0, trace, threshold).guards.events, k))
  {
    var events := Run(s0, trace, threshold).guards.events;
    IssuedOnce(s0, trace, threshold);
    hide Run, Legal, Start;
    var lo, hi := if i < k then i else k, if i < k then k else i;
    if Consumes(events, hi) && events[lo].Presented? {
      SingleUse(events, lo, hi);
    }
  }
}
