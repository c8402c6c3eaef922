/** What a packet of results does to the ledger (services/ping_log_service.go), and what any sequence of deliveries does,
    redeliveries included (workers/result_processor.go). */
module Packets {
  import opened Common
  import opened Ledger

  /** One result of a packet. Times are milliseconds. */
  datatype Item = Item(monitor: string, totalUs: nat, statusCode: int, success: bool, timestampMs: int)

  datatype Packet = Packet(runner: string, results: seq<Item>)

  /** How a settlement's transaction can fail: at one of its statements, or after it was committed. */
  datatype Fault = NoFault | BeginFails | SpendFails | PayoutFails | CommitFails | CommitReplyLost {
    predicate Aborts() {
      !NoFault? && !CommitReplyLost?
    }
  }

  /** The ledger after some results, those that were charged, and those of them a log was prepared for. */
  datatype Outcome = Outcome(ledger: Ledger, charged: seq<Item>, logged: seq<Item>)

  function Process(l: Ledger, runner: string, results: seq<Item>, faults: seq<Fault>, threshold: int): Outcome
    requires |faults| == |results|
  {
    if results == [] then Outcome(l, [], [])
    else
      var k := |results| - 1;
      var o, item := Process(l, runner, results[..k], faults[..k], threshold), results[k];
      if faults[k].Aborts() || !CanSettle(o.ledger, item.monitor, runner) then o
      else Outcome(Settle(o.ledger, item.monitor, runner, threshold), o.charged + [item],
                   if faults[k].NoFault? then o.logged + [item] else o.logged)
  }

  /** How many of the results an owner has to pay for. */
  function Claims(l: Ledger, results: seq<Item>, owner: int): nat {
    if results == [] then 0
    else
      Claims(l, results[..|results| - 1], owner)
      + (if Payer(l, results[|results| - 1].monitor) == Some(owner) then 1 else 0)
  }

  /** How many of the results belong to a monitor. */
  function OfMonitor(results: seq<Item>, monitor: string): nat {
    if results == [] then 0
    else
      OfMonitor(results[..|results| - 1], monitor) + (if results[|results| - 1].monitor == monitor then 1 else 0)
  }

  /** First come, first served: a result is paid for while fewer earlier results claimed its owner than it had credits. */
  function Served(l: Ledger, results: seq<Item>): seq<Item> {
    if results == [] then []
    else
      var init, last := results[..|results| - 1], results[|results| - 1];
      var payer := Payer(l, last.monitor);
      if payer.Some? && Claims(l, init, payer.value) < l.credits[payer.value] then Served(l, init) + [last]
      else Served(l, init)
  }

  /** Settlements never change who pays. */
  ghost predicate SamePayers(l: Ledger, l': Ledger) {
    && l'.credits.Keys == l.credits.Keys && l'.monitors.Keys == l.monitors.Keys && l'.runners.Keys == l.runners.Keys
    && (forall m :: m in l.monitors ==> l'.monitors[m].owner == l.monitors[m].owner)
  }

  /** The accounts after charging some results to one runner: every owner pays one credit and every monitor 0.010 token for
      each result of theirs, and the runner gets a reward for each. */
  ghost predicate Accounted(l: Ledger, l': Ledger, runner: string, charged: seq<Item>, threshold: int) {
    && SamePayers(l, l')
    && (forall o :: o in l.credits ==> l'.credits[o] == l.credits[o] - Claims(l, charged, o))
    && (forall m :: m in l.monitors ==> l'.monitors[m].spent == l.monitors[m].spent + 100 * OfMonitor(charged, m))
    && (runner !in l.runners ==> charged == [] && l'.runners == l.runners && l'.events == l.events)
    && (runner in l.runners ==>
          && l'.runners == l.runners[runner := RewardedTimes(l.runners[runner], threshold, |charged|)]
          && l'.events == l.events + PayoutsOf(runner, l.runners[runner], threshold, |charged|))
  }

  lemma AccountedOne(l: Ledger, now: Ledger, runner: string, charged: seq<Item>, item: Item, threshold: int)
    requires Accounted(l, now, runner, charged, threshold) && CanSettle(now, item.monitor, runner)
    ensures Accounted(l, Settle(now, item.monitor, runner, threshold), runner, charged + [item], threshold)
  {
    assert (charged + [item])[..|charged|] == charged;
    hide Rewarded, PayoutOf;
  }

  /** Whatever fails, the accounts agree with the results charged; only results of known monitors are charged, and only
      charged ones logged; and no owner's credits fall below zero. */
  lemma {:induction false} EveryChargeIsAccounted(l: Ledger, runner: string, results: seq<Item>, faults: seq<Fault>, threshold: int)
    requires |faults| == |results|
    ensures var o := Process(l, runner, results, faults, threshold);
            && Accounted(l, o.ledger, runner, o.charged, threshold)
            && |o.logged| <= |o.charged|
            && (forall item :: item in o.charged ==> item in results && item.monitor != "" && item.monitor in l.monitors)
            && (forall item :: item in o.logged ==> item in o.charged)
            && (forall u :: u in l.credits ==> o.ledger.credits[u] >= Min(l.credits[u], 0))
  {
    if results != [] {
      var k := |results| - 1;
      EveryChargeIsAccounted(l, runner, results[..k], faults[..k], threshold);
      var o := Process(l, runner, results[..k], faults[..k], threshold);
      if !faults[k].Aborts() && CanSettle(o.ledger, results[k].monitor, runner) {
        AccountedOne(l, o.ledger, runner, o.charged, results[k], threshold);
        hide Accounted;
      }
    }
  }

  /** Without a lost reply exactly the charged results are logged. */
  lemma {:induction false} ChargedAreLogged(l: Ledger, runner: string, results: seq<Item>, faults: seq<Fault>, threshold: int)
    requires |faults| == |results| && CommitReplyLost !in faults
    ensures Process(l, runner, results, faults, threshold).logged == Process(l, runner, results, faults, threshold).charged
  {
    if results != [] {
      var k := |results| - 1;
      assert CommitReplyLost !in faults[..k] && faults[k] in faults;
      ChargedAreLogged(l, runner, results[..k], faults[..k], threshold);
    }
  }

  lemma ClaimsLast(l: Ledger, results: seq<Item>, last: Item, owner: int)
    ensures Claims(l, results + [last], owner) == Claims(l, results, owner) + (if Payer(l, last.monitor) == Some(owner) then 1 else 0)
  {
    assert (results + [last])[..|results|] == results;
    hide Payer;
  }

  lemma ServedLast(l: Ledger, results: seq<Item>)
    requires results != []
    ensures var init, last := results[..|results| - 1], results[|results| - 1];
            var payer := Payer(l, last.monitor);
            && results == init + [last]
            && (payer.Some? ==> payer.value in l.credits)
            && Served(l, results) == if payer.Some? && Claims(l, init, payer.value) < l.credits[payer.value]
                                     then Served(l, init) + [last] else Served(l, init)
  {
    hide Claims;
  }

  lemma {:induction false} ClaimsOfServed(l: Ledger, results: seq<Item>, owner: int)
    requires owner in l.credits
    ensures Claims(l, Served(l, results), owner) == Min(Max(l.credits[owner], 0), Claims(l, results, owner))
  {
    if results != [] {
      hide Claims, Served, Payer;
      var init, last := results[..|results| - 1], results[|results| - 1];
      ClaimsOfServed(l, init, owner);
      ServedLast(l, results);
      ClaimsLast(l, init, last, owner);
      ClaimsLast(l, Served(l, init), last, owner);
    }
  }

  function Faultless(n: nat): (faults: seq<Fault>)
    ensures |faults| == n
  {
    seq(n, _ => NoFault)
  }

  /** Packet settlement: for a known runner and without transient errors, exactly the first min(credits, results) results
      of every owner are charged and logged, in the order of the packet. */
  lemma {:induction false} FirstComeFirstServed(l: Ledger, runner: string, results: seq<Item>, threshold: int)
    requires runner in l.runners
    ensures var o := Process(l, runner, results, Faultless(|results|), threshold);
            && o.charged == o.logged == Served(l, results)
            && o.ledger.credits.Keys == l.credits.Keys
            && (forall u :: u in l.credits ==>
                  o.ledger.credits[u] == l.credits[u] - Min(Max(l.credits[u], 0), Claims(l, results, u)))
  {
    var o := Process(l, runner, results, Faultless(|results|), threshold);
    EveryChargeIsAccounted(l, runner, results, Faultless(|results|), threshold);
    if results != [] {
      var k := |results| - 1;
      var init, item := results[..k], results[k];
      FirstComeFirstServed(l, runner, init, threshold);
      assert Faultless(|results|)[..k] == Faultless(k);
      EveryChargeIsAccounted(l, runner, init, Faultless(k), threshold);
      var before := Process(l, runner, init, Faultless(k), threshold).ledger;
      assert CanSettle(before, item.monitor, runner)
          <==> Payer(l, item.monitor).Some? && Claims(l, init, Payer(l, item.monitor).value) < l.credits[Payer(l, item.monitor).value] by {
        assert Payer(before, item.monitor) == Payer(l, item.monitor);
      }
    }
    assert o.charged == Served(l, results);
    forall u | u in l.credits
      ensures o.ledger.credits[u] == l.credits[u] - Min(Max(l.credits[u], 0), Claims(l, results, u))
    {
      ClaimsOfServed(l, results, u);
    }
  }

  /** A packet keeps the books of every runner. */
  lemma {:induction false} PacketKeepsBooks(l: Ledger, runner: string, results: seq<Item>, faults: seq<Fault>, threshold: int)
    requires |faults| == |results| && threshold > 0 && Books(l, threshold)
    ensures Books(Process(l, runner, results, faults, threshold).ledger, threshold)
  {
    if results != [] {
      var k := |results| - 1;
      PacketKeepsBooks(l, runner, results[..k], faults[..k], threshold);
      var before := Process(l, runner, results[..k], faults[..k], threshold).ledger;
      hide Books;
      if CanSettle(before, results[k].monitor, runner) {
        SettleKeepsBooks(before, results[k].monitor, runner, threshold);
      }
    }
  }

  /** One handling of a packet: the faults of its settlements, and whether the logs could be inserted. */
  datatype Attempt = Attempt(packet: Packet, faults: seq<Fault>, inserted: bool)

  ghost predicate WellFormed(history: seq<Attempt>) {
    forall k :: 0 <= k < |history| ==> |history[k].faults| == |history[k].packet.results|
  }

  function Attempted(l: Ledger, a: Attempt, threshold: int): Outcome
    requires |a.faults| == |a.packet.results|
  {
    Process(l, a.packet.runner, a.packet.results, a.faults, threshold)
  }

  /** The log rows an attempt leaves in the database. */
  function RowsWritten(l: Ledger, a: Attempt, threshold: int): seq<Item>
    requires |a.faults| == |a.packet.results|
  {
    if a.inserted then Attempted(l, a, threshold).logged else []
  }

  /** The ledger after all attempts so far. */
  ghost function LedgerAfter(l: Ledger, history: seq<Attempt>, threshold: int): Ledger
    requires WellFormed(history)
  {
    if history == [] then l
    else Attempted(LedgerAfter(l, history[..|history| - 1], threshold), history[|history| - 1], threshold).ledger
  }

  ghost function Charged(l: Ledger, history: seq<Attempt>, threshold: int): nat
    requires WellFormed(history)
  {
    if history == [] then 0
    else
      var init, last := history[..|history| - 1], history[|history| - 1];
      Charged(l, init, threshold) + |Attempted(LedgerAfter(l, init, threshold), last, threshold).charged|
  }

  ghost function Written(l: Ledger, history: seq<Attempt>, threshold: int): nat
    requires WellFormed(history)
  {
    if history == [] then 0
    else
      var init, last := history[..|history| - 1], history[|history| - 1];
      Written(l, init, threshold) + |RowsWritten(LedgerAfter(l, init, threshold), last, threshold)|
  }

  /** Attempt k charged something although its logs could not be inserted. */
  ghost predicate LosesLogs(l: Ledger, history: seq<Attempt>, threshold: int, k: nat)
    requires WellFormed(history)
  {
    && k < |history| && !history[k].inserted
    && Attempted(LedgerAfter(l, history[..k], threshold), history[k], threshold).charged != []
  }

  /** Over all deliveries and redeliveries no more logs are written than credits charged, and exactly as many when no
      insert failed for a packet that charged anything, if every commit was acknowledged. */
  lemma {:induction false} LogsNeverExceedCharges(l: Ledger, history: seq<Attempt>, threshold: int)
    requires WellFormed(history)
    ensures Written(l, history, threshold) <= Charged(l, history, threshold)
    ensures (forall k :: 0 <= k < |history| ==> CommitReplyLost !in history[k].faults)
            ==> (Written(l, history, threshold) == Charged(l, history, threshold)
                 <==> forall k: nat :: !LosesLogs(l, history, threshold, k))
  {
    if history != [] {
      var n := |history| - 1;
      var init, a := history[..n], history[n];
      LogsNeverExceedCharges(l, init, threshold);
      var before := LedgerAfter(l, init, threshold);
      EveryChargeIsAccounted(before, a.packet.runner, a.packet.results, a.faults, threshold);
      if CommitReplyLost !in a.faults {
        ChargedAreLogged(before, a.packet.runner, a.packet.results, a.faults, threshold);
      }
      LossesOfOneMore(l, history, threshold);
      hide Process, Accounted, LosesLogs;
    }
  }

  lemma LossesOfOneMore(l: Ledger, history: seq<Attempt>, threshold: int)
    requires WellFormed(history) && history != []
    ensures var n := |history| - 1;
            && (forall k: nat :: k != n ==> (LosesLogs(l, history, threshold, k) <==> LosesLogs(l, history[..n], threshold, k)))
            && !LosesLogs(l, history[..n], threshold, n)
            && (LosesLogs(l, history, threshold, n)
                <==> !history[n].inserted && Attempted(LedgerAfter(l, history[..n], threshold), history[n], threshold).charged != [])
  {
    hide Process, LedgerAfter;
    assert forall k :: 0 <= k < |history| ==> history[..|history| - 1][..k] == history[..k];
  }

  /** The books hold after any history. */
  lemma {:induction false} HistoryKeepsBooks(l: Ledger, history: seq<Attempt>, threshold: int)
    requires WellFormed(history) && threshold > 0 && Books(l, threshold)
    ensures Books(LedgerAfter(l, history, threshold), threshold)
  {
    if history != [] {
      var n := |history| - 1;
      HistoryKeepsBooks(l, history[..n], threshold);
      PacketKeepsBooks(LedgerAfter(l, history[..n], threshold), history[n].packet.runner, history[n].packet.results,
                       history[n].faults, threshold);
      hide Books;
    }
  }

  /** What an owner's credits have lost. */
  function Lost(l: Ledger, l': Ledger, owner: int): int {
    if owner in l.credits && owner in l'.credits then l.credits[owner] - l'.credits[owner] else 0
  }

  /** The charges of a packet are the credits lost by all owners together. */
  lemma {:induction false} PacketConservesCredits(l: Ledger, runner: string, results: seq<Item>, faults: seq<Fault>,
                                                  threshold: int, start: Ledger)
    requires |faults| == |results| && l.credits.Keys == start.credits.Keys
    ensures var o := Process(l, runner, results, faults, threshold);
            && o.ledger.credits.Keys == start.credits.Keys
            && SumOver(start.credits.Keys, u => Lost(start, o.ledger, u))
               == SumOver(start.credits.Keys, u => Lost(start, l, u)) + |o.charged|
  {
    if results != [] {
      var k := |results| - 1;
      PacketConservesCredits(l, runner, results[..k], faults[..k], threshold, start);
      var o := Process(l, runner, results[..k], faults[..k], threshold);
      if !faults[k].Aborts() && CanSettle(o.ledger, results[k].monitor, runner) {
        var after := Settle(o.ledger, results[k].monitor, runner, threshold);
        SumOverBump(start.credits.Keys, u => Lost(start, o.ledger, u), u => Lost(start, after, u),
                    o.ledger.monitors[results[k].monitor].owner);
      }
    }
  }

  /** Conservation of credits: over any history, the credits charged are exactly the credits all owners have lost. */
  lemma {:induction false} CreditsConserved(l: Ledger, history: seq<Attempt>, threshold: int)
    requires WellFormed(history)
    ensures LedgerAfter(l, history, threshold).credits.Keys == l.credits.Keys
    ensures SumOver(l.credits.Keys, u => Lost(l, LedgerAfter(l, history, threshold), u)) == Charged(l, history, threshold)
  {
    if history == [] {
      SumOverZero(l.credits.Keys, u => Lost(l, l, u));
    } else {
      var n := |history| - 1;
      CreditsConserved(l, history[..n], threshold);
      var before := LedgerAfter(l, history[..n], threshold);
      PacketConservesCredits(before, history[n].packet.runner, history[n].packet.results, history[n].faults, threshold, l);
      hide Process;
    }
  }

  function SettledIfPossible(l: Ledger, monitor: string, runner: string, threshold: int): Ledger {
    if CanSettle(l, monitor, runner) then Settle(l, monitor, runner, threshold) else l
  }

  lemma LastResult(l: Ledger, runner: string, results: seq<Item>, init: seq<Item>, last: Item, threshold: int)
    requires results == init + [last]
    ensures Process(l, runner, results, Faultless(|results|), threshold).ledger
            == SettledIfPossible(Process(l, runner, init, Faultless(|init|), threshold).ledger, last.monitor, runner, threshold)
  {
    assert results[..|init|] == init && Faultless(|results|)[..|init|] == Faultless(|init|);
  }

  /** Results of two packets in a row are settled like those of one. */
  lemma {:induction false} ProcessTogether(l: Ledger, runner: string, a: seq<Item>, b: seq<Item>, threshold: int)
    ensures Process(l, runner, a + b, Faultless(|a + b|), threshold).ledger
            == Process(Process(l, runner, a, Faultless(|a|), threshold).ledger, runner, b, Faultless(|b|), threshold).ledger
  {
    if b == [] {
      assert a + b == a;
    } else {
      hide *;
      var init, last := b[..|b| - 1], b[|b| - 1];
      ProcessTogether(l, runner, a, init, threshold);
      assert b == init + [last] && a + b == (a + init) + [last];
      LastResult(l, runner, a + b, a + init, last, threshold);
      LastResult(Process(l, runner, a, Faultless(|a|), threshold).ledger, runner, b, init, last, threshold);
    }
  }

  function Repeated(items: seq<Item>, n: nat): seq<Item> {
    if n == 0 then [] else Repeated(items, n - 1) + items
  }

  /** A packet that comes back n times because its logs cannot be inserted. */
  function Redelivered(packet: Packet, n: nat): (history: seq<Attempt>)
    ensures |history| == n && forall k :: 0 <= k < n ==> history[k] == Attempt(packet, Faultless(|packet.results|), false)
  {
    seq(n, _ => Attempt(packet, Faultless(|packet.results|), false))
  }

  lemma {:induction false} ClaimsTogether(l: Ledger, a: seq<Item>, b: seq<Item>, owner: int)
    ensures Claims(l, a + b, owner) == Claims(l, a, owner) + Claims(l, b, owner)
  {
    if b == [] {
      assert a + b == a;
    } else {
      ClaimsTogether(l, a, b[..|b| - 1], owner);
      assert (a + b)[..|a| + |b| - 1] == a + b[..|b| - 1];
    }
  }

  lemma {:induction false} ClaimsRepeated(l: Ledger, items: seq<Item>, n: nat, owner: int)
    ensures Claims(l, Repeated(items, n), owner) == Times(n, Claims(l, items, owner))
  {
    if n > 0 {
      ClaimsRepeated(l, items, n - 1, owner);
      ClaimsTogether(l, Repeated(items, n - 1), items, owner);
      TimesStep(n - 1, Claims(l, items, owner));
    }
  }

  lemma {:induction false} RedeliveryRepeats(l: Ledger, packet: Packet, n: nat, threshold: int)
    ensures LedgerAfter(l, Redelivered(packet, n), threshold)
            == Process(l, packet.runner, Repeated(packet.results, n), Faultless(|Repeated(packet.results, n)|), threshold).ledger
    ensures Written(l, Redelivered(packet, n), threshold) == 0
  {
    if n > 0 {
      RedeliveryRepeats(l, packet, n - 1, threshold);
      assert Redelivered(packet, n)[..n - 1] == Redelivered(packet, n - 1);
      ProcessTogether(l, packet.runner, Repeated(packet.results, n - 1), packet.results, threshold);
      hide Process, Faultless;
    }
  }

  /** Redelivery charges again: while the log insert keeps failing, every return of a packet charges its owners anew, until
      their credits are gone, and no log is ever written. */
  lemma RedeliveryChargesAgain(l: Ledger, packet: Packet, n: nat, threshold: int, owner: int)
    requires packet.runner in l.runners && owner in l.credits
    ensures Written(l, Redelivered(packet, n), threshold) == 0
    ensures owner in LedgerAfter(l, Redelivered(packet, n), threshold).credits
    ensures LedgerAfter(l, Redelivered(packet, n), threshold).credits[owner]
            == l.credits[owner] - Min(Max(l.credits[owner], 0), Times(n, Claims(l, packet.results, owner)))
  {
    RedeliveryRepeats(l, packet, n, threshold);
    FirstComeFirstServed(l, packet.runner, Repeated(packet.results, n), threshold);
    ClaimsRepeated(l, packet.results, n, owner);
  }
}
