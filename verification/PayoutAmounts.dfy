/** The conversion (workers/solana_sync.go) applied to the payouts that the ledger makes (solana.sql). */
module PayoutAmounts {
  import opened Amount
  import opened AmountExactness
  import opened Common
  import opened Ledger
  import opened PayoutModel
  import opened PayoutTheorems

  /** The default threshold, 10 tokens. */
  const DEFAULT_THRESHOLD: int := 100_000

  lemma AmountInRange(s0: State, trace: seq<Step>, threshold: int, id: nat)
    requires 0 < threshold <= 22_517_997_636 && Start(s0) && Legal(s0, trace, threshold)
    requires id < |Run(s0, trace, threshold).ledger.events|
    ensures var amount := Run(s0, trace, threshold).ledger.events[id].amount;
            threshold <= amount < threshold + 500 && 0 < amount && Exact(amount) < P52 / 2
  {
    Sound(s0, trace, threshold);
    hide Start, Legal, Run, WorkerSound;
  }

  /** Every payout the ledger makes converts within one raw unit if the threshold is below about 2.25 million tokens, and
      exactly if and only if its amount survives. */
  lemma PayoutsConvert(s0: State, trace: seq<Step>, threshold: int, id: nat, k: nat, stored: Double, scaled: Double, raw: int)
    requires 0 < threshold <= 22_517_997_636 && Start(s0) && Legal(s0, trace, threshold)
    requires id < |Run(s0, trace, threshold).ledger.events|
    requires var amount := Run(s0, trace, threshold).ledger.events[id].amount;
             IsScale(amount, k) && Converts(amount, stored, scaled, raw)
    ensures var amount := Run(s0, trace, threshold).ledger.events[id].amount;
            raw == if Survives(amount, k) then Exact(amount) else Exact(amount) - 1
  {
    AmountInRange(s0, trace, threshold, id);
    hide *;
    SentExactlyIff(Run(s0, trace, threshold).ledger.events[id].amount, k, stored, scaled, raw);
  }

  /** Between 8.59 and 16 tokens the product's exponent lies 30 above the amount's, so nothing can be lost. */
  lemma SurvivesAroundDefault(units: int)
    requires 85_900 <= units < 160_000
    ensures IsScale(units, 49) && Survives(units, 49)
  {
    var p := 0x2_0000_0000_0000;
    assert Pow2(49) == p by {
      Powers();
      SmallPowers();
      hide Pow2;
      PowTimes(30, 11, 0x4000_0000, 0x800, 0x200_0000_0000);
      PowTimes(41, 8, 0x200_0000_0000, 256, p);
    }
    hide Pow2;
  }

  /** At the default threshold every payout of every run is sent exactly. */
  lemma DefaultThresholdIsExact(s0: State, trace: seq<Step>, id: nat, stored: Double, scaled: Double, raw: int)
    requires Start(s0) && Legal(s0, trace, DEFAULT_THRESHOLD)
    requires id < |Run(s0, trace, DEFAULT_THRESHOLD).ledger.events|
    requires Converts(Run(s0, trace, DEFAULT_THRESHOLD).ledger.events[id].amount, stored, scaled, raw)
    ensures raw == Exact(Run(s0, trace, DEFAULT_THRESHOLD).ledger.events[id].amount)
  {
    var amount := Run(s0, trace, DEFAULT_THRESHOLD).ledger.events[id].amount;
    AmountInRange(s0, trace, DEFAULT_THRESHOLD, id);
    hide Start, Legal, Run, Converts, IsScale, Survives, Exact;
    SurvivesAroundDefault(amount);
    PayoutsConvert(s0, trace, DEFAULT_THRESHOLD, id, 49, stored, scaled, raw);
  }

  const OPENING := State(Ledger(map[7 := 1], map["m" := MonitorRow(7, 0)], map[], []), Polling, {})

  const PAYING: seq<Step> := [Register("r"), Restake("r", 27), SettleCheck("m", "r")]

  /** With a stake of 27 tokens and a threshold of 0.0157 token the first check makes a payout of 157 units. */
  lemma PaysSmallAmount()
    ensures Start(OPENING) && Legal(OPENING, PAYING, 157)
    ensures var events := Run(OPENING, PAYING, 157).ledger.events; |events| == 1 && events[0].amount == 157
  {
    var l1 := OPENING.ledger.(runners := map["r" := Runner(0, 0, 0)]);
    var l2 := OPENING.ledger.(runners := map["r" := Runner(27, 0, 0)]);
    var s1, s2 := OPENING.(ledger := l1), OPENING.(ledger := l2);
    assert Apply(OPENING, Register("r"), 157) == s1;
    assert Enabled(s1, Restake("r", 27)) && Apply(s1, Restake("r", 27), 157) == s2;
    assert Enabled(s2, SettleCheck("m", "r"));
    assert Settle(l2, "m", "r", 157).events == [Event("r", 157, Pending, 0, None)];
    assert PAYING[..2] == [Register("r"), Restake("r", 27)] && PAYING[..2][..1] == [Register("r")] && PAYING[..2][..1][..0] == [];
    hide Settle, Enabled, Apply;
    assert Run(OPENING, [], 157) == OPENING && Legal(OPENING, [], 157);
    assert Run(OPENING, PAYING[..2][..1], 157) == s1 && Legal(OPENING, PAYING[..2][..1], 157);
    assert Run(OPENING, PAYING[..2], 157) == s2 && Legal(OPENING, PAYING[..2], 157);
  }

  /** The loss happens to a payout: the ledger pays 157 units, and they are sent one raw unit short. */
  lemma PayoutCanLoseOne()
    ensures Start(OPENING) && Legal(OPENING, PAYING, 157) && |Run(OPENING, PAYING, 157).ledger.events| == 1
    ensures var amount := Run(OPENING, PAYING, 157).ledger.events[0].amount;
            Converts(amount, Double(4525216905581874, 58), Double(8428873318399999, 29), Exact(amount) - 1)
  {
    hide *;
    PaysSmallAmount();
    ConversionCanLoseOne();
  }
}
