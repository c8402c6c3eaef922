/** The time-window guards (anticheat/validator.go): single-use nonces, the fixed-window rate limiter and the latency
    counter, each as the Redis key it keeps and as a statement about the whole trace of calls. Times are milliseconds. */
module AntiCheat {
  import opened Arithmetic
  import opened Common

  /** The rate limiter's window. */
  const WINDOW: int := 60_000
  /** A latency counter lives this long after its last use. */
  const STREAK_TTL: int := 300_000
  /** More equal latencies in a row than this are suspicious. */
  const STREAK_LIMIT: nat := 10

  // ---- Nonces ----

  /** A nonce is stored with an expiry, or someone presents it. */
  datatype NonceEvent<N> = Issued(nonce: N, expires: int) | Presented(nonce: N, at: int)

  /** The expiry under which a nonce is stored now. Presenting a nonce deletes it. */
  function Stored<N(==)>(events: seq<NonceEvent<N>>, nonce: N): Option<int> {
    if events == [] then None
    else
      var last := events[|events| - 1];
      if last.nonce != nonce then Stored(events[..|events| - 1], nonce)
      else if last.Issued? then Some(last.expires) else None
  }

  /** Event i presents a nonce that is stored and not expired. */
  predicate Consumes<N(==)>(events: seq<NonceEvent<N>>, i: nat) {
    && i < |events| && events[i].Presented?
    && Stored(events[..i], events[i].nonce).Some? && events[i].at < Stored(events[..i], events[i].nonce).value
  }

  function Consumptions<N(==)>(events: seq<NonceEvent<N>>): nat {
    if events == [] then 0
    else Consumptions(events[..|events| - 1]) + (if Consumes(events, |events| - 1) then 1 else 0)
  }

  function Issues<N>(events: seq<NonceEvent<N>>): nat {
    if events == [] then 0 else Issues(events[..|events| - 1]) + (if events[|events| - 1].Issued? then 1 else 0)
  }

  /** The nonces stored now. */
  function StoredSet<N(==)>(events: seq<NonceEvent<N>>): set<N> {
    if events == [] then {}
    else
      var last := events[|events| - 1];
      if last.Issued? then StoredSet(events[..|events| - 1]) + {last.nonce} else StoredSet(events[..|events| - 1]) - {last.nonce}
  }

  lemma {:induction false} StoredSetIsStored<N>(events: seq<NonceEvent<N>>, nonce: N)
    ensures nonce in StoredSet(events) <==> Stored(events, nonce).Some?
  {
    if events != [] {
      StoredSetIsStored(events[..|events| - 1], nonce);
    }
  }

  lemma {:induction false} IssuesBalance<N>(events: seq<NonceEvent<N>>)
    ensures Consumptions(events) + |StoredSet(events)| <= Issues(events)
  {
    if events != [] {
      var init, last := events[..|events| - 1], events[|events| - 1];
      IssuesBalance(init);
      StoredSetIsStored(init, last.nonce);
      if last.Issued? {
        assert |StoredSet(init) + {last.nonce}| <= |StoredSet(init)| + 1;
      } else if Consumes(events, |events| - 1) {
        assert |StoredSet(init) - {last.nonce}| == |StoredSet(init)| - 1;
      } else {
        SubsetSize(StoredSet(init) - {last.nonce}, StoredSet(init));
      }
    }
  }

  /** No more nonces are consumed than were issued. */
  lemma ConsumedAtMostIssued<N>(events: seq<NonceEvent<N>>)
    ensures Consumptions(events) <= Issues(events)
  {
    IssuesBalance(events);
  }

  /** The closed form: a nonce is stored exactly when it was issued with that expiry and neither presented nor reissued
      since. */
  lemma {:induction false} StoredSince<N>(events: seq<NonceEvent<N>>, nonce: N, expires: int)
    ensures Stored(events, nonce) == Some(expires)
            <==> exists i :: 0 <= i < |events| && events[i] == Issued(nonce, expires)
                             && forall k :: i < k < |events| ==> events[k].nonce != nonce
  {
    if events != [] {
      var n := |events| - 1;
      var init, last := events[..n], events[n];
      StoredSince(init, nonce, expires);
      if last.nonce == nonce {
        assert events[n] == last;
      } else {
        if Stored(init, nonce) == Some(expires) {
          var i :| 0 <= i < n && init[i] == Issued(nonce, expires) && forall k :: i < k < n ==> init[k].nonce != nonce;
          assert events[i] == Issued(nonce, expires);
          assert forall k :: i < k < |events| ==> events[k].nonce != nonce;
        }
      }
    }
  }

  /** When a presentation is accepted: exactly if the nonce was issued before with an expiry that has not come, and neither
      presented nor reissued in between. */
  lemma ConsumesIff<N>(events: seq<NonceEvent<N>>, k: nat)
    requires k < |events| && events[k].Presented?
    ensures Consumes(events, k)
            <==> exists i :: 0 <= i < k && events[i].Issued? && events[i].nonce == events[k].nonce
                             && events[k].at < events[i].expires
                             && forall m :: i < m < k ==> events[m].nonce != events[k].nonce
  {
    LiveIff(events[..k], events[k].nonce, events[k].at);
    hide Stored;
    forall i | 0 <= i < k ensures events[..k][i] == events[i] {}
  }

  lemma LiveIff<N>(before: seq<NonceEvent<N>>, nonce: N, at: int)
    ensures Stored(before, nonce).Some? && at < Stored(before, nonce).value
            <==> exists i :: 0 <= i < |before| && before[i].Issued? && before[i].nonce == nonce && at < before[i].expires
                             && forall m :: i < m < |before| ==> before[m].nonce != nonce
  {
    hide Stored;
    if Stored(before, nonce).Some? {
      StoredSince(before, nonce, Stored(before, nonce).value);
    }
    forall i | 0 <= i < |before| && before[i].Issued? && before[i].nonce == nonce
               && forall m :: i < m < |before| ==> before[m].nonce != nonce
      ensures Stored(before, nonce) == Some(before[i].expires)
    {
      StoredSince(before, nonce, before[i].expires);
    }
  }

  /** Single use: a nonce issued only once is consumed at most once, by its first presentation and before it expires. */
  lemma SingleUse<N>(events: seq<NonceEvent<N>>, i: nat, k: nat)
    requires i < k < |events| && events[k].nonce == events[i].nonce && events[i].Presented?
    requires forall a, b :: 0 <= a < b < |events| && events[a].Issued? && events[b].Issued? ==> events[a].nonce != events[b].nonce
    requires Consumes(events, k)
    ensures !Consumes(events, i) && forall a :: 0 <= a < i ==> !(events[a].Issued? && events[a].nonce == events[k].nonce)
  {
    var nonce := events[k].nonce;
    var expires := Stored(events[..k], nonce).value;
    StoredSince(events[..k], nonce, expires);
    var a :| 0 <= a < k && events[..k][a] == Issued(nonce, expires) && forall b :: a < b < k ==> events[..k][b].nonce != nonce;
    assert events[..k][i] == events[i] && events[..k][a] == events[a];
    assert i < a;
    assert forall b :: 0 <= b < i && events[b].Issued? ==> events[b].nonce != events[a].nonce;
    NeverIssued(events[..i], nonce);
  }

  lemma {:induction false} NeverIssued<N>(events: seq<NonceEvent<N>>, nonce: N)
    requires forall i :: 0 <= i < |events| && events[i].Issued? ==> events[i].nonce != nonce
    ensures Stored(events, nonce) == None
  {
    if events != [] {
      NeverIssued(events[..|events| - 1], nonce);
    }
  }

  // ---- Rate limiter ----

  /** A counting key with its expiry. */
  datatype Counter = Counter(count: nat, expires: int)

  predicate Live(c: Option<Counter>, now: int) {
    c.Some? && now < c.value.expires
  }

  /** INCR, then EXPIRE NX 60: only a new key gets an expiry. */
  function Counted(c: Option<Counter>, now: int): Counter {
    if Live(c, now) then c.value.(count := c.value.count + 1) else Counter(1, now + WINDOW)
  }

  function RateState(calls: seq<int>): Option<Counter> {
    if calls == [] then None else Some(Counted(RateState(calls[..|calls| - 1]), calls[|calls| - 1]))
  }

  /** Whether the last call passes. */
  predicate RateAccepts(calls: seq<int>, max: nat) {
    calls != [] && RateState(calls).value.count <= max
  }

  /** The call that opened the window of the last call: that of the call before, if its window is less than a minute old, and
      otherwise the call itself. */
  function Opener(calls: seq<int>): (first: nat)
    requires calls != []
    ensures first < |calls| && calls[|calls| - 1] < calls[first] + 60_000
  {
    var n := |calls| - 1;
    if n > 0 && calls[n] < calls[Opener(calls[..n])] + 60_000 then Opener(calls[..n]) else n
  }

  /** The closed form: a call passes exactly when fewer than max calls came before it since its window was opened. */
  lemma {:induction false} RateAcceptsIff(calls: seq<int>, max: nat)
    requires calls != []
    ensures RateAccepts(calls, max) <==> |calls| - 1 - Opener(calls) < max
    ensures RateState(calls) == Some(Counter(|calls| - Opener(calls), calls[Opener(calls)] + 60_000))
  {
    var n := |calls| - 1;
    if n > 0 {
      RateAcceptsIff(calls[..n], max);
      assert calls[..n][Opener(calls[..n])] == calls[Opener(calls[..n])];
    }
    assert RateState(calls) == Some(Counted(RateState(calls[..n]), calls[n]));
  }

  predicate Sorted(calls: seq<int>) {
    forall i, j :: 0 <= i < j < |calls| ==> calls[i] <= calls[j]
  }

  function RateAcceptedWithin(calls: seq<int>, max: nat, a: int, b: int): nat {
    if calls == [] then 0
    else
      var last := calls[|calls| - 1];
      RateAcceptedWithin(calls[..|calls| - 1], max, a, b) + (if a <= last <= b && RateAccepts(calls, max) then 1 else 0)
  }

  /** How many windows served calls at a or later. */
  function WindowsSince(calls: seq<int>, a: int): nat {
    if calls == [] || calls[|calls| - 1] < a then 0
    else
      var init := calls[..|calls| - 1];
      if Live(RateState(init), calls[|calls| - 1]) then Max(WindowsSince(init, a), 1) else WindowsSince(init, a) + 1
  }

  function Per(windows: int, max: nat): int {
    windows * max
  }

  lemma PerStep(windows: int, max: nat)
    ensures Per(windows + 1, max) == Per(windows, max) + max && Per(0, max) == 0
  {}

  lemma PerMono(a: int, b: int, max: nat)
    requires a <= b
    ensures Per(a, max) <= Per(b, max)
  {
    MulMono(max, a, b);
  }

  /** Every window lets at most max calls through, and windows do not overlap. */
  lemma {:induction false} WindowsAreFull(calls: seq<int>, max: nat, a: int, b: int)
    requires Sorted(calls)
    ensures var windows, c := WindowsSince(calls, a), RateState(calls);
            && (windows == 0 ==> RateAcceptedWithin(calls, max, a, b) == 0)
            && (windows > 0 ==>
                  && c.Some? && c.value.expires > a + WINDOW * (windows - 1) && c.value.expires <= calls[|calls| - 1] + WINDOW
                  && RateAcceptedWithin(calls, max, a, b) <= Per(windows - 1, max) + Min(c.value.count, max))
            && (calls != [] ==> c.value.expires <= calls[|calls| - 1] + WINDOW && c.value.count >= 1)
  {
    if calls != [] {
      var n := |calls| - 1;
      WindowsAreFull(calls[..n], max, a, b);
      PerStep(WindowsSince(calls[..n], a) - 1, max);
      PerStep(0, max);
      assert n > 0 ==> calls[n - 1] <= calls[n];
      hide Per;
    }
  }

  /** Calls after b do not matter. */
  lemma {:induction false} UpTo(calls: seq<int>, max: nat, a: int, b: int) returns (k: nat)
    requires Sorted(calls)
    ensures k <= |calls| && (k > 0 ==> calls[k - 1] <= b)
    ensures RateAcceptedWithin(calls[..k], max, a, b) == RateAcceptedWithin(calls, max, a, b)
  {
    if calls == [] || calls[|calls| - 1] <= b {
      k := |calls|;
      assert calls[..k] == calls;
    } else {
      var init := calls[..|calls| - 1];
      k := UpTo(init, max, a, b);
      assert init[..k] == calls[..k];
    }
  }

  /** Any span of j minutes, ends included, sees at most (j + 1) times max accepted calls. */
  lemma RateBound(calls: seq<int>, max: nat, a: int, j: nat)
    requires Sorted(calls)
    ensures RateAcceptedWithin(calls, max, a, a + 60_000 * j) <= (j + 1) * max
  {
    var b := a + WINDOW * j;
    var k := UpTo(calls, max, a, b);
    WindowsAreFull(calls[..k], max, a, b);
    var windows := WindowsSince(calls[..k], a);
    if windows > 0 {
      PerStep(windows - 1, max);
      PerMono(windows, j + 1, max);
    } else {
      PerMono(0, j + 1, max);
      PerStep(0, max);
    }
  }

  // ---- Latency counter ----

  /** INCR, then EXPIRE: every use renews the expiry. */
  function Renewed(c: Option<Counter>, now: int): Counter {
    Counter(if Live(c, now) then c.value.count + 1 else 1, now + STREAK_TTL)
  }

  /** The counter of one node and one latency value. */
  function StreakState(calls: seq<int>): Option<Counter> {
    if calls == [] then None else Some(Renewed(StreakState(calls[..|calls| - 1]), calls[|calls| - 1]))
  }

  /** Whether the last submission of the value passes. */
  predicate LatencyAccepts(calls: seq<int>) {
    calls != [] && StreakState(calls).value.count <= STREAK_LIMIT
  }

  /** Submission r comes at least five minutes after the one before, or is the first. */
  predicate FreshAt(calls: seq<int>, r: nat) {
    r < |calls| && (r == 0 || calls[r] - calls[r - 1] >= STREAK_TTL)
  }

  /** Five minutes passed before submission r. */
  predicate IsBreak(calls: seq<int>, r: int)
    requires 0 < r < |calls|
  {
    calls[r] - calls[r - 1] >= 300_000
  }

  lemma {:induction false} StreakLength(calls: seq<int>) returns (r: nat)
    requires calls != []
    ensures r < |calls| && FreshAt(calls, r) && forall k :: r < k < |calls| ==> !FreshAt(calls, k)
    ensures StreakState(calls).value.count == |calls| - r
    ensures StreakState(calls).value.expires == calls[|calls| - 1] + STREAK_TTL
  {
    var n := |calls| - 1;
    if n == 0 {
      r := 0;
    } else {
      var init := calls[..n];
      r := StreakLength(init);
      assert forall k: nat :: k < n ==> (FreshAt(init, k) <==> FreshAt(calls, k));
      if FreshAt(calls, n) {
        r := n;
      }
    }
  }

  /** The closed form: a submission passes exactly when a break of five minutes, or the very first submission, is among the
      last ten. */
  lemma LatencyAcceptsIff(calls: seq<int>)
    requires calls != []
    ensures LatencyAccepts(calls)
            <==> |calls| <= 10 || exists r :: 0 < r < |calls| && |calls| - r <= 10 && IsBreak(calls, r)
  {
    var r := StreakLength(calls);
    assert forall k :: 0 < k < |calls| ==> (FreshAt(calls, k) <==> IsBreak(calls, k));
  }

  function LatencyAccepted(calls: seq<int>): nat {
    if calls == [] then 0 else LatencyAccepted(calls[..|calls| - 1]) + (if LatencyAccepts(calls) then 1 else 0)
  }

  lemma {:induction false} AcceptedWithoutBreak(calls: seq<int>)
    requires forall k :: 0 < k < |calls| ==> !FreshAt(calls, k)
    ensures LatencyAccepted(calls) == Min(|calls|, STREAK_LIMIT)
  {
    if calls != [] {
      var init := calls[..|calls| - 1];
      assert forall k :: 0 < k < |init| ==> (FreshAt(init, k) <==> FreshAt(calls, k));
      AcceptedWithoutBreak(init);
      var r := StreakLength(calls);
    }
  }

  /** More than ten accepted submissions of one latency value need a break of at least five minutes between two of them. */
  lemma ManyNeedABreak(calls: seq<int>)
    requires LatencyAccepted(calls) > STREAK_LIMIT
    ensures exists k :: 0 < k < |calls| && calls[k] - calls[k - 1] >= 300_000
  {
    if forall k :: 0 < k < |calls| ==> !FreshAt(calls, k) {
      AcceptedWithoutBreak(calls);
    } else {
      var k :| 0 < k < |calls| && FreshAt(calls, k);
      assert calls[k] - calls[k - 1] >= STREAK_TTL;
    }
  }

  // ---- The validator ----

  function Lookup<K(==), V>(m: map<K, V>, k: K): Option<V> {
    if k in m then Some(m[k]) else None
  }

  function CallsOf<K(==)>(calls: map<K, seq<int>>, k: K): seq<int> {
    if k in calls then calls[k] else []
  }

  /** The validator's Redis keys. The ghost traces record all calls per key, and Valid says that the keys are what the traces
      make them. An expired key counts as absent although its entry is still in the map. */
  class Validator {
    var nonces: map<string, int>
    var rates: map<string, Counter>
    var streaks: map<(string, int), Counter>
    ghost var events: seq<NonceEvent<string>>
    ghost var rateCalls: map<string, seq<int>>
    ghost var latencyCalls: map<(string, int), seq<int>>

    ghost predicate Valid()
      reads this
    {
      && (forall n :: Lookup(nonces, n) == Stored(events, n))
      && (forall node :: Lookup(rates, node) == RateState(CallsOf(rateCalls, node)))
      && (forall key :: Lookup(streaks, key) == StreakState(CallsOf(latencyCalls, key)))
    }

    constructor ()
      ensures Valid() && events == [] && rateCalls == map[] && latencyCalls == map[]
    {
      nonces, rates, streaks := map[], map[], map[];
      events, rateCalls, latencyCalls := [], map[], map[];
    }

    /** SET task_nonce with a time to live, as the scheduler does. */
    method IssueNonce(nonce: string, ttl: int, now: int)
      requires Valid()
      modifies this`nonces, this`events
      ensures Valid() && events == old(events) + [Issued(nonce, now + ttl)]
    {
      nonces := nonces[nonce := now + ttl];
      events := events + [Issued(nonce, now + ttl)];
      assert events[..|events| - 1] == old(events);
    }

    /** Checks and deletes a nonce in one script. */
    method ValidateTaskNonce(nonce: string, now: int) returns (ok: bool)
      requires Valid()
      modifies this`nonces, this`events
      ensures Valid() && events == if nonce == "" then old(events) else old(events) + [Presented(nonce, now)]
      ensures ok <==> nonce != "" && Consumes(events, |events| - 1)
      ensures ok <==> nonce != ""
                      && exists i :: 0 <= i < |old(events)| && old(events)[i].Issued? && old(events)[i].nonce == nonce
                                     && now < old(events)[i].expires
                                     && forall k :: i < k < |old(events)| ==> old(events)[k].nonce != nonce
    {
      if nonce == "" {
        return false;
      }
      LiveIff(events, nonce, now);
      events := events + [Presented(nonce, now)];
      assert events[..|events| - 1] == old(events);
      assert Lookup(nonces, nonce) == Stored(old(events), nonce);
      ok := nonce in nonces && now < nonces[nonce];
      nonces := nonces - {nonce};
    }

    method CheckRateLimit(nodeID: string, maxPerMinute: nat, now: int) returns (ok: bool)
      requires Valid()
      modifies this`rates, this`rateCalls
      ensures Valid() && rateCalls == old(rateCalls)[nodeID := CallsOf(old(rateCalls), nodeID) + [now]]
      ensures ok <==> RateAccepts(rateCalls[nodeID], maxPerMinute)
      ensures ok <==> |rateCalls[nodeID]| - 1 - Opener(rateCalls[nodeID]) < maxPerMinute
    {
      var counter: Counter;
      if nodeID in rates && now < rates[nodeID].expires {
        counter := rates[nodeID].(count := rates[nodeID].count + 1);
      } else {
        counter := Counter(1, now + 60_000);
      }
      ghost var calls := CallsOf(rateCalls, nodeID) + [now];
      assert calls[..|calls| - 1] == CallsOf(rateCalls, nodeID);
      assert Lookup(rates, nodeID) == RateState(CallsOf(rateCalls, nodeID));
      assert RateState(calls) == Some(counter);
      RateAcceptsIff(calls, maxPerMinute);
      rates := rates[nodeID := counter];
      rateCalls := rateCalls[nodeID := calls];
      forall node ensures Lookup(rates, node) == RateState(CallsOf(rateCalls, node)) {
        assert Lookup(old(rates), node) == RateState(CallsOf(old(rateCalls), node));
      }
      ok := counter.count <= maxPerMinute;
    }

    method DetectFakeLatency(nodeID: string, latencyMs: int, now: int) returns (ok: bool)
      requires Valid()
      modifies this`streaks, this`latencyCalls
      ensures Valid()
      ensures latencyCalls == old(latencyCalls)[(nodeID, latencyMs) := CallsOf(old(latencyCalls), (nodeID, latencyMs)) + [now]]
      ensures ok <==> LatencyAccepts(latencyCalls[(nodeID, latencyMs)])
      ensures var calls := latencyCalls[(nodeID, latencyMs)];
              ok <==> |calls| <= 10 || exists r :: 0 < r < |calls| && |calls| - r <= 10 && IsBreak(calls, r)
    {
      var key := (nodeID, latencyMs);
      var count := 1;
      if key in streaks && now < streaks[key].expires {
        count := streaks[key].count + 1;
      }
      ghost var calls := CallsOf(latencyCalls, key) + [now];
      assert calls[..|calls| - 1] == CallsOf(latencyCalls, key);
      assert Lookup(streaks, key) == StreakState(CallsOf(latencyCalls, key));
      assert StreakState(calls) == Some(Counter(count, now + 300_000));
      LatencyAcceptsIff(calls);
      streaks := streaks[key := Counter(count, now + 300_000)];
      latencyCalls := latencyCalls[key := calls];
      forall k ensures Lookup(streaks, k) == StreakState(CallsOf(latencyCalls, k)) {
        assert Lookup(old(streaks), k) == StreakState(CallsOf(old(latencyCalls), k));
      }
      ok := count <= 10;
    }
  }
}
