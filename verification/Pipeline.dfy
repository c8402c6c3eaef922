/** The whole way of a job: dispatched with a nonce (workers/schedular.go), presented by a miner and checked
    (grpc/server.go, anticheat/validator.go), queued, and settled (services/ping_log_service.go). One machine interleaves all
    of it; its scheduler steps are those of the scheduler model, so the bound on dispatches carries over to settlements. */
module Pipeline {
  import opened Common
  import S = SchedulerModel
  import opened AntiCheat
  import opened Dispatching
  import opened Ledger
  import opened Packets

  /** A probe result as a miner presents it. Its job id need not be that of the job its nonce was issued for. */
  datatype Result = Result(node: string, owner: string, jobId: string, nonce: string, totalUs: nat, statusCode: int,
                           success: bool, timestampMs: int)

  /** The monitor named by a job id: what stands before the first colon. */
  function MonitorOf(jobId: string): string {
    if jobId == "" || jobId[0] == ':' then "" else [jobId[0]] + MonitorOf(jobId[1..])
  }

  /** Job ids are made of a monitor, a node and a time, joined by colons. */
  lemma {:induction false} MonitorOfJob(monitor: string, rest: string)
    requires ':' !in monitor
    ensures MonitorOf(monitor + ":" + rest) == monitor
  {
    var jobId := monitor + ":" + rest;
    if monitor != "" {
      assert jobId[1..] == monitor[1..] + ":" + rest;
      MonitorOfJob(monitor[1..], rest);
    }
  }

  /** The monitor of any job id: a beginning without a colon, and all of it or followed by one. */
  lemma {:induction false} MonitorOfIs(jobId: string)
    ensures var monitor := MonitorOf(jobId);
            ':' !in monitor && monitor <= jobId && (monitor == jobId || jobId[|monitor|] == ':')
  {
    if jobId != "" && jobId[0] != ':' {
      MonitorOfIs(jobId[1..]);
      assert jobId == [jobId[0]] + jobId[1..];
    }
  }

  function PacketOf(r: Result): Packet {
    Packet(r.owner, [Item(MonitorOf(r.jobId), r.totalUs, r.statusCode, r.success, r.timestampMs)])
  }

  /** The guards of the gRPC server: what happened to the nonces, and the calls each key has seen, in milliseconds. */
  datatype Guards = Guards(events: seq<NonceEvent<string>>, rateCalls: map<string, seq<int>>, latencyCalls: map<(string, int), seq<int>>)

  /** How far a presented result gets: the checks run in this order, and each leaves its trace only when reached. */
  datatype Outcome = BadNonce | BadSignature | TooFast | TooUniform | NotPublished | Accepted

  function LatencyMs(r: Result): int {
    r.totalUs / 1000
  }

  function WithCall<K(==)>(calls: map<K, seq<int>>, k: K, at: int): map<K, seq<int>> {
    calls[k := CallsOf(calls, k) + [at]]
  }

  function Present(g: Guards, r: Result, at: int, signed: bool, published: bool): (Guards, Outcome) {
    var events := if r.nonce == "" then g.events else g.events + [Presented(r.nonce, at)];
    var key := (r.node, LatencyMs(r));
    var rate, latency := WithCall(g.rateCalls, r.node, at), WithCall(g.latencyCalls, key, at);
    if r.nonce == "" || !Consumes(events, |g.events|) then (g.(events := events), BadNonce)
    else if !signed then (g.(events := events), BadSignature)
    else if !RateAccepts(rate[r.node], 600) then (g.(events := events, rateCalls := rate), TooFast)
    else
      (Guards(events, rate, latency),
       if !LatencyAccepts(latency[key]) then TooUniform else if published then Accepted else NotPublished)
  }

  /** What each outcome means, in terms of what was issued and called before. */
  lemma PresentIs(g: Guards, r: Result, at: int, signed: bool, published: bool)
    ensures var (g', outcome) := Present(g, r, at, signed, published);
            var calls, uses := CallsOf(g.rateCalls, r.node) + [at], CallsOf(g.latencyCalls, (r.node, r.totalUs / 1000)) + [at];
            && (outcome.BadNonce?
                <==> r.nonce == "" || !exists i :: 0 <= i < |g.events| && g.events[i].Issued? && g.events[i].nonce == r.nonce
                                                   && at < g.events[i].expires
                                                   && forall k :: i < k < |g.events| ==> g.events[k].nonce != r.nonce)
            && (outcome.BadSignature? <==> !outcome.BadNonce? && !signed)
            && (outcome.TooFast? <==> !outcome.BadNonce? && signed && |calls| - 1 - Opener(calls) >= 600)
            && (outcome.TooUniform?
                <==> !outcome.BadNonce? && signed && !outcome.TooFast? && |uses| > 10
                     && forall k :: |uses| - 10 <= k < |uses| ==> !IsBreak(uses, k))
            && (outcome.Accepted? ==> published) && (outcome.NotPublished? ==> !published)
            && g'.events == (if r.nonce == "" then g.events else g.events + [Presented(r.nonce, at)])
            && g'.rateCalls == (if outcome.BadNonce? || outcome.BadSignature? then g.rateCalls else g.rateCalls[r.node := calls])
            && g'.latencyCalls == (if outcome.BadNonce? || outcome.BadSignature? || outcome.TooFast? then g.latencyCalls
                                   else g.latencyCalls[(r.node, r.totalUs / 1000) := uses])
  {
    var calls, uses := CallsOf(g.rateCalls, r.node) + [at], CallsOf(g.latencyCalls, (r.node, r.totalUs / 1000)) + [at];
    RateAcceptsIff(calls, 600);
    LatencyAcceptsIff(uses);
    NonceIs(g.events, r.nonce, at);
    hide RateAccepts, LatencyAccepts, Consumes, Opener, RateState, CallsOf, IsBreak;
  }

  lemma NonceIs(events: seq<NonceEvent<string>>, nonce: string, at: int)
    ensures Consumes(events + [Presented(nonce, at)], |events|)
            <==> exists i :: 0 <= i < |events| && events[i].Issued? && events[i].nonce == nonce && at < events[i].expires
                             && forall k :: i < k < |events| ==> events[k].nonce != nonce
  {
    assert (events + [Presented(nonce, at)])[..|events|] == events;
    LiveIff(events, nonce, at);
    hide Stored;
  }

  datatype State = State(sched: S.State, guards: Guards, queue: seq<Packet>, ledger: Ledger)

  datatype Step =
    | Schedule(step: S.Step, nonce: string)
    | Submit(result: Result, at: int, signed: bool, published: bool)
    | Consume(fault: Fault, inserted: bool)

  /** The settlement of the packet at the head of the queue. */
  function Settlement(s: State, fault: Fault, threshold: int): Packets.Outcome
    requires s.queue != []
  {
    Process(s.ledger, s.queue[0].runner, s.queue[0].results, seq(|s.queue[0].results|, _ => fault), threshold)
  }

  /** The packet at the head goes back to the queue: its log was prepared, and could not be inserted. */
  predicate Requeues(s: State, step: Step, threshold: int) {
    step.Consume? && s.queue != [] && !step.inserted && Settlement(s, step.fault, threshold).logged != []
  }

  /** The scheduler's view of a step: its own commands, and the charge of a settlement. */
  function Seen(s: State, step: Step, threshold: int): seq<S.Step> {
    match step
    case Schedule(own, _) => [own]
    case Submit(_, _, _, _) => []
    case Consume(fault, _) =>
      if s.queue != [] && Settlement(s, fault, threshold).charged != []
         && Payer(s.ledger, Settlement(s, fault, threshold).charged[0].monitor).Some?
      then [S.Charge(Payer(s.ledger, Settlement(s, fault, threshold).charged[0].monitor).value)] else []
  }

  /** The nonce was never issued before: nonces are random UUIDs. */
  ghost predicate IsFresh(events: seq<NonceEvent<string>>, nonce: string) {
    nonce != "" && forall i :: 0 <= i < |events| && events[i].Issued? ==> events[i].nonce != nonce
  }

  /** Credits are charged by settlements only, and packets are taken from the head of the queue. */
  ghost predicate Enabled(s: State, step: Step) {
    match step
    case Schedule(own, nonce) => S.Enabled(s.sched, own) && !own.Charge? && IsFresh(s.guards.events, nonce)
    case Submit(_, _, _, _) => true
    case Consume(_, _) => s.queue != []
  }

  /** What a scheduler command does to the ledger's tables. */
  function Mirrored(l: Ledger, own: S.Step): Ledger {
    match own
    case Insert(id, owner, _, _) => l.(monitors := l.monitors[id := MonitorRow(owner, 0)])
    case TopUp(owner, amount) => l.(credits := l.credits[owner := (if owner in l.credits then l.credits[owner] else 0) + amount])
    case _ => l
  }

  /** Every dispatch issues a nonce. */
  function Issuing(g: Guards, own: S.Step, nonce: string): Guards {
    if own.Dispatch? then g.(events := g.events + [Issued(nonce, (own.now + NonceTtl(own.interval)) * 1000)]) else g
  }

  ghost function Apply(s: State, step: Step, threshold: int): State
    requires Enabled(s, step)
  {
    match step
    case Schedule(own, nonce) => State(S.Apply(s.sched, own), Issuing(s.guards, own, nonce), s.queue, Mirrored(s.ledger, own))
    case Submit(r, at, signed, published) =>
      var (guards, outcome) := Present(s.guards, r, at, signed, published);
      s.(guards := guards, queue := if outcome.Accepted? then s.queue + [PacketOf(r)] else s.queue)
    case Consume(fault, inserted) =>
      var o, seen := Settlement(s, fault, threshold), Seen(s, step, threshold);
      State(if seen == [] then s.sched else S.Apply(s.sched, seen[0]), s.guards, if Requeues(s, step, threshold) then s.queue else s.queue[1..], o.ledger)
  }

  ghost function Run(s0: State, trace: seq<Step>, threshold: int): State {
    if trace == [] then s0
    else
      var before, step := Run(s0, trace[..|trace| - 1], threshold), trace[|trace| - 1];
      if Enabled(before, step) then Apply(before, step, threshold) else before
  }

  ghost predicate Legal(s0: State, trace: seq<Step>, threshold: int) {
    trace == []
    || (Legal(s0, trace[..|trace| - 1], threshold) && Enabled(Run(s0, trace[..|trace| - 1], threshold), trace[|trace| - 1]))
  }

  /** The scheduler's trace within the run. */
  ghost function SeenTrace(s0: State, trace: seq<Step>, threshold: int): seq<S.Step> {
    if trace == [] then []
    else
      var init := trace[..|trace| - 1];
      SeenTrace(s0, init, threshold) + Seen(Run(s0, init, threshold), trace[|trace| - 1], threshold)
  }

  /** No monitors yet; the scheduler and the ledger see the same accounts. */
  predicate Start(s: State) {
    && S.Start(s.sched) && s.guards == Guards([], map[], map[]) && s.queue == []
    && s.ledger.monitors == map[] && s.ledger.credits == s.sched.credits
  }

  /** Scheduler and ledger agree on accounts and owners, and every queued packet holds one result. */
  ghost predicate Coupled(s: State) {
    && s.ledger.credits == s.sched.credits
    && s.ledger.monitors.Keys == s.sched.rows.Keys
    && (forall id :: id in s.sched.rows ==> s.ledger.monitors[id].owner == s.sched.rows[id].owner)
    && (forall p :: p in s.queue ==> |p.results| == 1)
  }

  /** The gRPC server's handling of results, on the validator's own keys. */
  class Gate {
    const validator: Validator
    var published: seq<Packet>

    constructor (validator: Validator)
      ensures this.validator == validator && published == []
    {
      this.validator := validator;
      published := [];
    }

    ghost function View(): Guards
      reads this, validator
    {
      Guards(validator.events, validator.rateCalls, validator.latencyCalls)
    }

    /** The checks in order, each only if those before it passed; a result is published only if all pass. Whether the
        signature verifies and the broker takes the packet are arguments. */
    method HandleProbeResult(r: Result, at: int, signed: bool, taken: bool) returns (outcome: Outcome)
      requires validator.Valid()
      modifies this`published, validator
      ensures validator.Valid()
      ensures (View(), outcome) == Present(old(View()), r, at, signed, taken)
      ensures published == old(published) + (if outcome.Accepted? then [PacketOf(r)] else [])
      ensures !signed ==> published == old(published)
      ensures !signed ==> validator.rateCalls == old(validator.rateCalls) && validator.latencyCalls == old(validator.latencyCalls)
      ensures var events := old(validator.events);
              var calls := CallsOf(old(validator.rateCalls), r.node) + [at];
              var uses := CallsOf(old(validator.latencyCalls), (r.node, r.totalUs / 1000)) + [at];
              outcome.Accepted?
              <==> && signed && taken && r.nonce != ""
                   && (exists i :: 0 <= i < |events| && events[i].Issued? && events[i].nonce == r.nonce && at < events[i].expires
                                   && forall k :: i < k < |events| ==> events[k].nonce != r.nonce)
                   && |calls| - Opener(calls) <= 600
                   && (|uses| <= 10 || exists k :: |uses| - 10 <= k < |uses| && IsBreak(uses, k))
      ensures outcome.Accepted? ==>
                && |published| == |old(published)| + 1
                && var packet := published[|old(published)|];
                   && packet.runner == r.owner && |packet.results| == 1
                   && var item := packet.results[0];
                      && item.totalUs == r.totalUs && item.statusCode == r.statusCode && item.success == r.success
                      && item.timestampMs == r.timestampMs
                      && ':' !in item.monitor && item.monitor <= r.jobId
                      && (item.monitor == r.jobId || r.jobId[|item.monitor|] == ':')
    {
      hide Consumes, RateAccepts, LatencyAccepts, MonitorOf, Opener, IsBreak;
      PresentIs(View(), r, at, signed, taken);
      MonitorOfIs(r.jobId);
      var valid := validator.ValidateTaskNonce(r.nonce, at);
      if !valid {
        return BadNonce;
      }
      if !signed {
        return BadSignature;
      }
      var slow := validator.CheckRateLimit(r.node, 600, at);
      if !slow {
        return TooFast;
      }
      var varied := validator.DetectFakeLatency(r.node, r.totalUs / 1000, at);
      if !varied {
        return TooUniform;
      }
      if !taken {
        return NotPublished;
      }
      published := published + [PacketOf(r)];
      return Accepted;
    }
  }
}
