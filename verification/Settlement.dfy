/** The settlement path as the program runs it: the payout procedure (solana.sql), the transaction around it
    (db/repositories/storage.go), the packet loop (services/ping_log_service.go) and the queue consumer
    (workers/result_processor.go). */
module Settlement {
  import opened Common
  import opened Ledger
  import opened Packets

  datatype Response = Response(created: bool, amount: int, rewardDelta: int, owner: string)

  datatype PingLog = PingLog(monitor: string, runner: string, totalUs: nat, statusCode: int, success: bool, timestampMs: int)

  function LogOf(item: Item, runner: string, now: int): PingLog {
    PingLog(item.monitor, runner, item.totalUs, item.statusCode, item.success,
            if item.timestampMs > 0 then item.timestampMs else now)
  }

  function LogsOf(items: seq<Item>, runner: string, now: int): (logs: seq<PingLog>)
    ensures |logs| == |items| && forall i :: 0 <= i < |logs| ==> logs[i] == LogOf(items[i], runner, now)
  {
    seq(|items|, i requires 0 <= i < |items| => LogOf(items[i], runner, now))
  }

  class Storage {
    const threshold: int
    var credits: map<int, int>
    var monitors: map<string, MonitorRow>
    var runners: map<string, Runner>
    var events: seq<Event>
    var logs: seq<PingLog>

    ghost function Snapshot(): Ledger
      reads this
    {
      Ledger(credits, monitors, runners, events)
    }

    constructor (threshold: int, credits: map<int, int>, monitors: map<string, MonitorRow>, runners: map<string, Runner>)
      requires threshold > 0
      ensures this.threshold == threshold && Snapshot() == Ledger(credits, monitors, runners, []) && logs == []
    {
      this.threshold, this.credits, this.monitors, this.runners := threshold, credits, monitors, runners;
      events, logs := [], [];
    }

    /** create_payout_event_if_threshold. An unknown runner yields a row of NULLs and changes nothing. */
    method CreatePayoutEventIfThreshold(pubkey: string)
      returns (created: bool, amount: int, rewardDelta: int, nodePubkey: Option<string>)
      modifies this`runners, this`events
      ensures pubkey !in old(runners) ==>
                runners == old(runners) && events == old(events) && !created && amount == rewardDelta == 0 && nodePubkey == None
      ensures pubkey in old(runners) ==>
                var r := old(runners)[pubkey];
                && runners == old(runners)[pubkey := Rewarded(r, threshold)]
                && events == old(events) + PayoutOf(pubkey, r, threshold)
                && nodePubkey == Some(pubkey)
                && rewardDelta == runners[pubkey].earned - r.earned
                && (created <==> |events| > |old(events)|)
                && amount == if created then events[|events| - 1].amount else 0
    {
      if pubkey !in runners {
        return false, 0, 0, None;
      }
      var r := runners[pubkey];
      var multiplier := 1.0;
      if r.stake >= 20 {
        multiplier := 1.5 + (r.stake - 20) as real * 0.01;
      }
      if multiplier > 5.0 {
        multiplier := 5.0;
      }
      var newReward := 0.010 * multiplier;
      if newReward > 0.50 {
        newReward := 0.50;
      }
      assert newReward == RewardTokens(r.stake);
      RewardIsWhole(r.stake);
      hide RewardTokens, Multiplier;
      rewardDelta := ToUnits(newReward);
      hide ToUnits, Reward;
      var newBalance := r.balance + rewardDelta;
      runners := runners[pubkey := Runner(r.stake, if newBalance >= threshold then 0 else newBalance, r.earned + rewardDelta)];
      nodePubkey := Some(pubkey);
      if newBalance >= threshold {
        events := events + [Event(pubkey, newBalance, Pending, 0, None)];
        created, amount := true, newBalance;
      } else {
        created, amount := false, 0;
      }
    }

    /** One settlement as a transaction, at the token cost its only caller passes: it happens as a whole and is reported, or
        it leaves no trace, or its commit's reply is lost and it happens unreported. */
    method ProcessJobSettlement(monitorID: string, runnerPubkey: string, fault: Fault) returns (result: Option<Response>)
      modifies this`credits, this`monitors, this`runners, this`events
      ensures !(fault.NoFault? || fault.CommitReplyLost?) || !CanSettle(old(Snapshot()), monitorID, runnerPubkey)
              ==> Snapshot() == old(Snapshot()) && result == None
      ensures (fault.NoFault? || fault.CommitReplyLost?) && CanSettle(old(Snapshot()), monitorID, runnerPubkey)
              ==> Snapshot() == Settle(old(Snapshot()), monitorID, runnerPubkey, threshold)
                  && (result.Some? <==> fault.NoFault?)
      ensures result.Some? ==>
                && result.value.owner == runnerPubkey
                && result.value.rewardDelta == Reward(old(runners)[runnerPubkey].stake)
                && result.value.created == (|events| > |old(events)|)
                && result.value.amount == if result.value.created then events[|events| - 1].amount else 0
    {
      result := None;
      if fault == BeginFails {
        return;
      }
      var saved := (credits, monitors, runners, events);
      if !(monitorID != "" && monitorID in monitors && monitors[monitorID].owner in credits && credits[monitors[monitorID].owner] > 0) {
        return;
      }
      var row := monitors[monitorID];
      credits := credits[row.owner := credits[row.owner] - 1];
      if fault == SpendFails {
        credits := saved.0;
        return;
      }
      monitors := monitors[monitorID := row.(spent := row.spent + CHECK_COST)];
      var created, amount, rewardDelta, owner := CreatePayoutEventIfThreshold(runnerPubkey);
      if fault == PayoutFails || owner.None? || fault == CommitFails {
        credits, monitors, runners, events := saved.0, saved.1, saved.2, saved.3;
        return;
      }
      if fault == CommitReplyLost {
        return;
      }
      result := Some(Response(created, amount, rewardDelta, owner.value));
    }

    /** Settles the results of a packet one by one and inserts a log for each that was reported settled. Blank monitors are
        skipped and errors of single results ignored. */
    method ProcessPacket(packet: Packet, faults: seq<Fault>, inserted: bool, now: int) returns (failed: bool)
      requires |faults| == |packet.results|
      modifies this
      ensures var o := Process(old(Snapshot()), packet.runner, packet.results, faults, threshold);
              && Snapshot() == o.ledger
              && (failed <==> o.logged != [] && !inserted)
              && logs == old(logs) + (if inserted then LogsOf(o.logged, packet.runner, now) else [])
      ensures var logged := Process(old(Snapshot()), packet.runner, packet.results, faults, threshold).logged;
              inserted ==>
                && |logs| == |old(logs)| + |logged| && old(logs) <= logs
                && forall i :: 0 <= i < |logged| ==>
                     var row, item := logs[|old(logs)| + i], logged[i];
                     && row.monitor == item.monitor && row.runner == packet.runner
                     && row.totalUs == item.totalUs && row.statusCode == item.statusCode && row.success == item.success
                     && row.timestampMs == if item.timestampMs > 0 then item.timestampMs else now
    {
      var logsToInsert: seq<PingLog> := [];
      assert packet.results[..0] == [] && faults[..0] == [];
      for i := 0 to |packet.results|
        invariant Snapshot() == Process(old(Snapshot()), packet.runner, packet.results[..i], faults[..i], threshold).ledger
        invariant logsToInsert == LogsOf(Process(old(Snapshot()), packet.runner, packet.results[..i], faults[..i], threshold).logged,
                                         packet.runner, now)
        invariant logs == old(logs)
      {
        var r := packet.results[i];
        ProcessStep(old(Snapshot()), packet.runner, packet.results, faults, threshold, i, now);
        hide Process, Settle, LogsOf, LogOf;
        if r.monitor == "" {
          continue;
        }
        var response := ProcessJobSettlement(r.monitor, packet.runner, faults[i]);
        if response.None? {
          continue;
        }
        var ts := now;
        if r.timestampMs > 0 {
          ts := r.timestampMs;
        }
        logsToInsert := logsToInsert + [PingLog(r.monitor, packet.runner, r.totalUs, r.statusCode, r.success, ts)];
      }
      assert packet.results[..|packet.results|] == packet.results && faults[..|faults|] == faults;
      failed := false;
      if |logsToInsert| > 0 {
        if !inserted {
          return true;
        }
        logs := logs + logsToInsert;
      }
    }
  }

  /** One more result of a packet. */
  lemma ProcessStep(l: Ledger, runner: string, results: seq<Item>, faults: seq<Fault>, threshold: int, i: nat, now: int)
    requires |faults| == |results| && i < |results|
    ensures var before := Process(l, runner, results[..i], faults[..i], threshold);
            var after := Process(l, runner, results[..i + 1], faults[..i + 1], threshold);
            var settles := !faults[i].Aborts() && CanSettle(before.ledger, results[i].monitor, runner);
            && after.ledger == (if settles then Settle(before.ledger, results[i].monitor, runner, threshold) else before.ledger)
            && LogsOf(after.logged, runner, now)
               == LogsOf(before.logged, runner, now) + (if settles && faults[i].NoFault? then [LogOf(results[i], runner, now)] else [])
  {
    assert results[..i + 1][..i] == results[..i] && faults[..i + 1][..i] == faults[..i];
  }

  /** A message of processing_queue: a packet, or a body that does not parse. */
  datatype Message = Malformed | Good(packet: Packet)

  /** What becomes of a delivery: Requeue is a negative acknowledgement that puts the message back. */
  datatype Verdict = Ack | Drop | Requeue

  class ResultProcessor {
    const store: Storage
    ghost const start: Ledger
    var queue: seq<Message>
    var verdicts: seq<Verdict>
    ghost var history: seq<Attempt>

    ghost predicate Valid()
      reads this, store
    {
      && WellFormed(history)
      && store.Snapshot() == LedgerAfter(start, history, store.threshold)
      && |store.logs| == Written(start, history, store.threshold)
    }

    constructor (store: Storage, queue: seq<Message>)
      requires store.logs == []
      ensures Valid() && this.store == store && this.queue == queue && history == [] && verdicts == []
    {
      this.store, this.queue := store, queue;
      start := store.Snapshot();
      verdicts, history := [], [];
    }

    /** Handles the message at the head of the queue. Every handled delivery gets exactly one verdict; only a message whose
        logs could not be inserted is put back, at the head, where the broker tries to keep it. */
    method Handle(faults: seq<Fault>, inserted: bool, now: int) returns (verdict: Verdict)
      requires Valid() && queue != [] && (queue[0].Good? ==> |faults| == |queue[0].packet.results|)
      modifies this`queue, this`verdicts, this`history, store
      ensures Valid() && verdicts == old(verdicts) + [verdict]
      ensures old(queue)[0].Malformed? ==>
                verdict == Drop && queue == old(queue)[1..] && history == old(history) && store.Snapshot() == old(store.Snapshot())
      ensures old(queue)[0].Good? ==>
                var a := Attempt(old(queue)[0].packet, faults, inserted);
                && history == old(history) + [a]
                && (verdict == if Attempted(old(store.Snapshot()), a, store.threshold).logged != [] && !inserted then Requeue else Ack)
                && queue == if verdict == Requeue then old(queue) else old(queue)[1..]
    {
      match queue[0] {
      case Malformed =>
        verdict := Drop;
        queue := queue[1..];
      case Good(packet) =>
        ghost var a := Attempt(packet, faults, inserted);
        var failed := store.ProcessPacket(packet, faults, inserted, now);
        verdict := if failed then Requeue else Ack;
        if verdict != Requeue {
          queue := queue[1..];
        }
        history := history + [a];
        assert history[..|history| - 1] == old(history);
      }
      verdicts := verdicts + [verdict];
    }

    /** Whatever was delivered so far, the log table holds no more rows than credits were charged, all charged credits were
        taken from somebody, and the runners' books balance if they did at the start. */
    lemma StoreIsConsistent()
      requires Valid() && store.threshold > 0
      ensures start.credits.Keys == store.credits.Keys
      ensures var after := store.Snapshot(); |store.logs| <= SumOver(start.credits.Keys, u => Lost(start, after, u))
      ensures Books(start, store.threshold) ==> Books(store.Snapshot(), store.threshold)
    {
      LogsNeverExceedCharges(start, history, store.threshold);
      CreditsConserved(start, history, store.threshold);
      if Books(start, store.threshold) {
        HistoryKeepsBooks(start, history, store.threshold);
      }
    }
  }
}
