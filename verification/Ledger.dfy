/** The settlement ledger: what one paid check does to credits, monitor usage, the runner's balance and the payout events
    (db/repositories/storage.go, solana.sql). Token amounts are whole numbers of 1/10000 token, the scale of the balance
    columns; a stake is a whole number of tokens. */
module Ledger {
  import opened Arithmetic
  import opened Common

  /** What a check costs the monitor's usage account: 0.010 token. */
  const CHECK_COST: int := 100
  const UNITS_PER_TOKEN: real := 10000.0

  datatype Status = Pending | Processing | Done

  /** A row of solana_sync_events. Rows are never deleted, so an event's index is its id, in order of creation. */
  datatype Event = Event(owner: string, amount: int, status: Status, retries: nat, signature: Option<string>)

  datatype MonitorRow = MonitorRow(owner: int, spent: int)

  datatype Runner = Runner(stake: int, balance: int, earned: int)

  datatype Ledger = Ledger(credits: map<int, int>, monitors: map<string, MonitorRow>, runners: map<string, Runner>,
                           events: seq<Event>)

  /** The multiplier as the procedure computes it. */
  function Multiplier(stake: int): real {
    var raw := if stake >= 20 then 1.5 + (stake - 20) as real * 0.01 else 1.0;
    if raw > 5.0 then 5.0 else raw
  }

  /** The reward of one check as the procedure computes it, in tokens. */
  function RewardTokens(stake: int): real {
    var reward := 0.010 * Multiplier(stake);
    if reward > 0.50 then 0.50 else reward
  }

  /** The same reward in units. */
  function Reward(stake: int): int {
    if stake < 20 then 100 else Min(150 + (stake - 20), 500)
  }

  /** Rounding to the four decimals of a column. */
  function ToUnits(tokens: real): int {
    (tokens * UNITS_PER_TOKEN + 0.5).Floor
  }

  /** Every reward is a whole number of units between 0.01 and 0.05 token, so storing it loses nothing, and the cap of 0.50
      token is never reached. */
  lemma RewardIsWhole(stake: int)
    ensures RewardTokens(stake) * UNITS_PER_TOKEN == Reward(stake) as real
    ensures ToUnits(RewardTokens(stake)) == Reward(stake) && 100 <= Reward(stake) <= 500
    ensures 0.010 * Multiplier(stake) <= 0.05
    ensures Reward(stake) == if stake < 20 then 100 else if stake < 370 then 130 + stake else 500
  {
    if stake >= 20 {
      assert (stake - 20) as real * 0.01 * 100.0 == (stake - 20) as real;
    }
  }

  /** More stake never earns less. */
  lemma RewardMonotone(a: int, b: int)
    requires a <= b
    ensures Reward(a) <= Reward(b) && RewardTokens(a) <= RewardTokens(b)
  {
    RewardIsWhole(a);
    RewardIsWhole(b);
  }

  /** The balance a reward leads to, before the threshold is looked at. */
  function Reached(r: Runner): int {
    r.balance + Reward(r.stake)
  }

  /** A runner row after one reward: reaching the threshold empties the balance into a payout. */
  function Rewarded(r: Runner, threshold: int): Runner {
    Runner(r.stake, if Reached(r) >= threshold then 0 else Reached(r), r.earned + Reward(r.stake))
  }

  function PayoutOf(runner: string, r: Runner, threshold: int): seq<Event> {
    if Reached(r) >= threshold then [Event(runner, Reached(r), Pending, 0, None)] else []
  }

  /** The owner that pays for a check of this monitor, if there is one: a blank or unknown monitor has none. */
  function Payer(l: Ledger, monitor: string): Option<int> {
    if monitor != "" && monitor in l.monitors && l.monitors[monitor].owner in l.credits then Some(l.monitors[monitor].owner)
    else None
  }

  /** Whether a settlement can go through. */
  predicate CanSettle(l: Ledger, monitor: string, runner: string) {
    Payer(l, monitor).Some? && l.credits[Payer(l, monitor).value] > 0 && runner in l.runners
  }

  /** A settlement that goes through: one credit off, the usage account up, the runner rewarded. */
  function Settle(l: Ledger, monitor: string, runner: string, threshold: int): Ledger
    requires CanSettle(l, monitor, runner)
  {
    var row, r := l.monitors[monitor], l.runners[runner];
    Ledger(l.credits[row.owner := l.credits[row.owner] - 1],
           l.monitors[monitor := row.(spent := row.spent + CHECK_COST)],
           l.runners[runner := Rewarded(r, threshold)],
           l.events + PayoutOf(runner, r, threshold))
  }

  /** The amounts of a runner's payout events with one of the given statuses. */
  function PaidOut(events: seq<Event>, runner: string, statuses: set<Status>): int {
    if events == [] then 0
    else
      var last := events[|events| - 1];
      PaidOut(events[..|events| - 1], runner, statuses)
      + (if last.owner == runner && last.status in statuses then last.amount else 0)
  }

  const ANY: set<Status> := {Pending, Processing, Done}

  lemma AnyStatus(status: Status)
    ensures status in ANY
  {
    assert status == Pending || status == Processing || status == Done;
  }

  /** A runner's account balances: what was ever earned is the open balance plus the payouts, and the open balance is below
      the threshold. */
  ghost predicate Balanced(l: Ledger, threshold: int, runner: string) {
    && runner in l.runners
    && l.runners[runner].earned == l.runners[runner].balance + PaidOut(l.events, runner, ANY)
    && 0 <= l.runners[runner].balance < threshold
  }

  /** Every payout reaches the threshold, by less than one greatest reward, and belongs to a runner. */
  ghost predicate PayoutsBounded(l: Ledger, threshold: int) {
    forall i :: 0 <= i < |l.events| ==>
                  threshold <= l.events[i].amount < threshold + 500 && l.events[i].owner in l.runners
  }

  /** The books of the whole ledger. */
  ghost predicate Books(l: Ledger, threshold: int) {
    && (forall runner :: runner in l.runners ==> Balanced(l, threshold, runner))
    && PayoutsBounded(l, threshold)
  }

  lemma PaidOutOfOneMore(events: seq<Event>, more: seq<Event>, runner: string, statuses: set<Status>)
    requires |more| <= 1
    ensures PaidOut(events + more, runner, statuses) == PaidOut(events, runner, statuses) + PaidOut(more, runner, statuses)
  {
    if more == [] {
      assert events + more == events;
    } else {
      assert (events + more)[..|events|] == events;
      assert PaidOut(more[..0], runner, statuses) == 0;
    }
  }

  lemma {:induction false} NothingPaidOut(events: seq<Event>, runner: string, statuses: set<Status>)
    requires forall i :: 0 <= i < |events| ==> events[i].owner != runner
    ensures PaidOut(events, runner, statuses) == 0
  {
    if events != [] {
      NothingPaidOut(events[..|events| - 1], runner, statuses);
    }
  }

  /** A settlement keeps the books of every runner. */
  lemma SettleKeepsBooks(l: Ledger, monitor: string, runner: string, threshold: int)
    requires threshold > 0 && CanSettle(l, monitor, runner) && Books(l, threshold)
    ensures Books(Settle(l, monitor, runner, threshold), threshold)
  {
    var l', more := Settle(l, monitor, runner, threshold), PayoutOf(runner, l.runners[runner], threshold);
    RewardIsWhole(l.runners[runner].stake);
    assert PaidOut(more, runner, ANY) == if more == [] then 0 else more[0].amount by {
      assert PaidOut(more[..0], runner, ANY) == 0;
    }
    assert Balanced(l, threshold, runner);
    hide Reward;
    forall p | p in l'.runners ensures Balanced(l', threshold, p) {
      assert Balanced(l, threshold, p);
      PaidOutOfOneMore(l.events, more, p, ANY);
      if p != runner {
        NothingPaidOut(more, p, ANY);
      }
    }
  }

  /** A runner row after n rewards in a row. */
  function RewardedTimes(r: Runner, threshold: int, n: nat): Runner {
    if n == 0 then r else Rewarded(RewardedTimes(r, threshold, n - 1), threshold)
  }

  /** The payouts those rewards make. */
  function PayoutsOf(runner: string, r: Runner, threshold: int, n: nat): seq<Event> {
    if n == 0 then []
    else PayoutsOf(runner, r, threshold, n - 1) + PayoutOf(runner, RewardedTimes(r, threshold, n - 1), threshold)
  }

  /** The least number of rewards that reaches the threshold. */
  function ChecksPerPayout(reward: int, threshold: int): int
    requires reward > 0
  {
    (threshold + reward - 1) / reward
  }

  lemma ChecksPerPayoutIsLeast(reward: int, threshold: int)
    requires reward > 0 && threshold > 0
    ensures var c := ChecksPerPayout(reward, threshold);
            c >= 1 && Times(c, reward) >= threshold && Times(c - 1, reward) < threshold
  {
    var c := (threshold + reward - 1) / reward;
    DivModUnique(reward, reward, 1, 0);
    DivMono(reward, threshold + reward - 1, reward);
    assert reward * c <= threshold + reward - 1 < reward * c + reward;
    assert (c - 1) * reward == reward * c - reward;
  }

  function Times(n: int, x: int): int {
    n * x
  }

  lemma TimesStep(n: int, x: int)
    ensures Times(n + 1, x) == Times(n, x) + x && Times(0, x) == 0
  {}

  lemma TimesMono(a: int, b: int, x: nat)
    requires a <= b
    ensures Times(a, x) <= Times(b, x)
  {}

  /** How many checks have been paid for since the last payout, and how many payouts there were. */
  function Since(n: nat, c: int): (r: int)
    requires c > 0
    ensures 0 <= r < c
  {
    n % c
  }

  function PayoutsAfter(n: nat, c: int): (q: nat)
    requires c > 0
  {
    n / c
  }

  lemma CycleStep(n: nat, c: int)
    requires c > 0
    ensures Since(0, c) == 0 && PayoutsAfter(0, c) == 0
    ensures Since(n + 1, c) == if Since(n, c) + 1 == c then 0 else Since(n, c) + 1
    ensures PayoutsAfter(n + 1, c) == PayoutsAfter(n, c) + (if Since(n, c) + 1 == c then 1 else 0)
  {
    DivModUnique(0, c, 0, 0);
    var q, r := n / c, n % c;
    if r + 1 == c {
      MulSum(c, q, 1);
      DivModUnique(n + 1, c, q + 1, 0);
    } else {
      DivModUnique(n + 1, c, q, r + 1);
    }
  }

  /** Payout closed form: from balance zero, n checks under one stake make n div c payouts of c rewards each, where c is the
      least number of rewards that reaches the threshold, and leave n mod c rewards on the balance. */
  lemma {:induction false} PayoutClosedForm(runner: string, r: Runner, threshold: int, n: nat)
    requires threshold > 0 && r.balance == 0
    ensures Reward(r.stake) > 0
    ensures var c, reward, after := ChecksPerPayout(Reward(r.stake), threshold), Reward(r.stake), RewardedTimes(r, threshold, n);
            && c > 0
            && after == Runner(r.stake, Times(Since(n, c), reward), r.earned + Times(n, reward))
            && PayoutsOf(runner, r, threshold, n) == seq(PayoutsAfter(n, c), _ => Event(runner, Times(c, reward), Pending, 0, None))
  {
    RewardIsWhole(r.stake);
    var reward := Reward(r.stake);
    hide Reward;
    ChecksPerPayoutIsLeast(reward, threshold);
    var c := ChecksPerPayout(reward, threshold);
    hide ChecksPerPayout, Since, PayoutsAfter, Times;
    CycleStep(0, c);
    TimesStep(0, reward);
    if n > 0 {
      PayoutClosedForm(runner, r, threshold, n - 1);
      CycleStep(n - 1, c);
      TimesStep(n - 1, reward);
      TimesStep(Since(n - 1, c), reward);
      TimesMono(Since(n - 1, c) + 1, c - 1 + (if Since(n - 1, c) + 1 == c then 1 else 0), reward);
    }
  }
}
