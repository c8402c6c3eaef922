/** What one scheduler tick (workers/schedular.go) writes, as functions of what it was given: the sorted set, the nonces
    and the job queue after any order of visiting the assignments. */
module Dispatching {
  import opened Common
  import opened RoundRobin
  import opened SchedulerModel

  /** A payload of job_queue. The job id of the source is the triple of monitor, node and issue time. */
  datatype Job = Job(monitor: string, pubkey: string, nonce: nat, issuedAt: int, expiresAt: int)

  /** The stores a dispatch writes: the sorted set, the nonces with their expiry, and the job queue. */
  datatype Outbox = Outbox(zset: map<string, int>, nonces: map<nat, int>, nextNonce: nat, jobs: seq<Job>)

  /** One assignment: reschedule, issue a nonce, publish if the broker accepts. */
  function Send(o: Outbox, pubkey: string, m: Monitor, now: int, accepted: set<string>): Outbox {
    Outbox(o.zset[m.id := now + m.interval], o.nonces[o.nextNonce := now + NonceTtl(m.interval)], o.nextNonce + 1,
           if m.id in accepted then o.jobs + [Job(m.id, pubkey, o.nextNonce, now, now + m.interval * 2)] else o.jobs)
  }

  /** How long a nonce lives: two intervals and a quarter of an hour, whichever is longer. */
  function NonceTtl(interval: int): (ttl: int)
    ensures ttl >= 2 * interval && ttl >= 900 && (ttl == 2 * interval || ttl == 900)
  {
    Max(interval * 2, 900)
  }

  /** The sorted set after a tick, as a function of sets alone: what was fetched, what the database returned for it and
      what was given a node. */
  function Settled(zset: map<string, int>, now: int, due: set<string>, found: set<string>, placed: set<string>,
                   rows: map<string, Row>): map<string, int>
    requires found <= rows.Keys
  {
    map id | id in zset && (id in due ==> id in found) ::
      if id !in found then zset[id]
      else if id in placed then now + rows[id].interval
      else now + BACKOFF
  }

  /** Tick trichotomy: every fetched monitor is dispatched, put off or dropped, and only one of these; no fetched monitor
      is due any more; nothing else moves. */
  ghost predicate Trichotomy(zset: map<string, int>, after: map<string, int>, now: int, due: set<string>, found: set<string>,
                             placed: set<string>, rows: map<string, Row>) {
    && after.Keys <= zset.Keys && found <= rows.Keys
    && (forall id :: id in zset && id !in due ==> id in after && after[id] == zset[id])
    && (forall id :: id in due ==>
          && (id !in after <==> id !in found)
          && (id in after && id in rows && after[id] == now + rows[id].interval <==> id in placed)
          && (id in after && after[id] == now + 5 <==> id in found - placed)
          && (id in after ==> after[id] > now))
  }

  lemma TickTrichotomy(zset: map<string, int>, now: int, due: set<string>, found: set<string>, placed: set<string>,
                       rows: map<string, Row>)
    requires placed <= found <= due <= zset.Keys && found <= rows.Keys
    requires forall x :: x in found ==> rows[x].interval >= MIN_INTERVAL
    ensures Trichotomy(zset, Settled(zset, now, due, found, placed, rows), now, due, found, placed, rows)
  {}

  ghost function Elements(s: seq<string>): set<string> {
    set x | x in s
  }

  /** Assignments give distinct fetched monitors to nodes. */
  ghost predicate Ready(assignments: map<string, Monitor>, found: set<string>, rows: map<string, Row>) {
    && (forall p :: p in assignments ==>
          && assignments[p].id in found && assignments[p].id in rows
          && assignments[p].interval == rows[assignments[p].id].interval)
    && (forall p, q :: p in assignments && q in assignments && p != q ==> assignments[p].id != assignments[q].id)
  }

  function Ids(assignments: map<string, Monitor>, order: seq<string>): set<string>
    requires forall p :: p in order ==> p in assignments
  {
    set p | p in order :: assignments[p].id
  }

  /** The assignments sent one after the other. */
  function SendAll(o: Outbox, assignments: map<string, Monitor>, order: seq<string>, now: int, accepted: set<string>): Outbox
    requires forall p :: p in order ==> p in assignments
  {
    if order == [] then o
    else
      var init, last := order[..|order| - 1], order[|order| - 1];
      Send(SendAll(o, assignments, init, now, accepted), last, assignments[last], now, accepted)
  }

  lemma OrderStep(assignments: map<string, Monitor>, found: set<string>, rows: map<string, Row>, order: seq<string>, i: nat)
    requires Ready(assignments, found, rows) && Distinct(order) && Elements(order) == assignments.Keys && i < |order|
    ensures var m := assignments[order[i]];
            && m.id in found && m.id !in Ids(assignments, order[..i])
            && m.id in rows && m.interval == rows[m.id].interval
            && Ids(assignments, order[..i + 1]) == Ids(assignments, order[..i]) + {m.id}
  {
    assert order[..i + 1] == order[..i] + [order[i]];
  }

  lemma SendNone(o: Outbox, assignments: map<string, Monitor>, order: seq<string>, now: int, accepted: set<string>)
    ensures order[..0] == [] && SendAll(o, assignments, order[..0], now, accepted) == o && Ids(assignments, order[..0]) == {}
  {}

  lemma SendStep(o: Outbox, assignments: map<string, Monitor>, order: seq<string>, i: nat, now: int, accepted: set<string>)
    requires i < |order| && Elements(order) == assignments.Keys
    ensures (forall p :: p in order[..i + 1] ==> p in assignments)
    ensures SendAll(o, assignments, order[..i + 1], now, accepted)
            == Send(SendAll(o, assignments, order[..i], now, accepted), order[i], assignments[order[i]], now, accepted)
  {
    assert order[..i + 1][..i] == order[..i] && forall p :: p in order ==> p in Elements(order);
  }

  function IdsOf(monitors: seq<Monitor>): set<string> {
    set m | m in monitors :: m.id
  }

  function BackedOff(zset: map<string, int>, ids: set<string>, now: int): map<string, int> {
    map id | id in zset.Keys + ids :: if id in ids then now + BACKOFF else zset[id]
  }

  lemma PutOffNone(zset: map<string, int>, monitors: seq<Monitor>, processed: set<string>, now: int)
    ensures IdsOf(monitors[..0]) == {} && BackedOff(zset, IdsOf(monitors[..0]) - processed, now) == zset
  {}

  lemma PutOffStep(zset: map<string, int>, monitors: seq<Monitor>, k: nat, processed: set<string>, now: int)
    requires k < |monitors| && DistinctIds(monitors)
    ensures var id, ids := monitors[k].id, IdsOf(monitors[..k]);
            && id in IdsOf(monitors) && id !in ids && IdsOf(monitors[..k + 1]) == ids + {id}
            && BackedOff(zset, IdsOf(monitors[..k + 1]) - processed, now)
               == if id in processed then BackedOff(zset, ids - processed, now)
                  else BackedOff(zset, ids - processed, now)[id := now + 5]
  {
    var id, ids := monitors[k].id, IdsOf(monitors[..k]);
    assert monitors[..k + 1] == monitors[..k] + [monitors[k]];
    assert IdsOf(monitors[..k + 1]) == ids + {id};
    if id in processed {
      assert ids + {id} - processed == ids - processed;
    } else {
      assert ids + {id} - processed == (ids - processed) + {id};
    }
  }

  /** Exactly the monitors ids have been rescheduled. */
  ghost predicate Rescheduled(zset: map<string, int>, sent: map<string, int>, ids: set<string>, now: int, rows: map<string, Row>) {
    && ids <= rows.Keys
    && sent.Keys == zset.Keys + ids
    && (forall id :: id in sent ==> sent[id] == if id in ids then now + rows[id].interval else zset[id])
  }

  lemma RescheduleOne(zset: map<string, int>, sent: map<string, int>, ids: set<string>, now: int, rows: map<string, Row>, id: string)
    requires Rescheduled(zset, sent, ids, now, rows) && id in rows
    ensures Rescheduled(zset, sent[id := now + rows[id].interval], ids + {id}, now, rows)
  {}

  lemma LastSent(o: Outbox, assignments: map<string, Monitor>, order: seq<string>, now: int, accepted: set<string>, rows: map<string, Row>)
    requires Ready(assignments, rows.Keys, rows) && order != [] && forall p :: p in order ==> p in assignments
    ensures var init, m := order[..|order| - 1], assignments[order[|order| - 1]];
            && m.id in rows
            && SendAll(o, assignments, order, now, accepted).zset
               == SendAll(o, assignments, init, now, accepted).zset[m.id := now + rows[m.id].interval]
            && Ids(assignments, order) == Ids(assignments, init) + {m.id}
  {
    assert order == order[..|order| - 1] + [order[|order| - 1]];
    hide Ready;
  }

  /** The sorted set after the dispatch loop does not depend on the order in which the map was visited. */
  lemma {:induction false} DispatchOrderIsIrrelevant(o: Outbox, assignments: map<string, Monitor>, order: seq<string>,
                                                     now: int, accepted: set<string>, rows: map<string, Row>)
    requires Ready(assignments, rows.Keys, rows) && forall p :: p in order ==> p in assignments
    ensures Rescheduled(o.zset, SendAll(o, assignments, order, now, accepted).zset, Ids(assignments, order), now, rows)
  {
    if order != [] {
      hide *;
      var init := order[..|order| - 1];
      DispatchOrderIsIrrelevant(o, assignments, init, now, accepted, rows);
      LastSent(o, assignments, order, now, accepted, rows);
      RescheduleOne(o.zset, SendAll(o, assignments, init, now, accepted).zset, Ids(assignments, init), now, rows,
                    assignments[order[|init|]].id);
    }
  }

  lemma {:induction false} NoncesSent(o: Outbox, assignments: map<string, Monitor>, order: seq<string>,
                                      now: int, accepted: set<string>)
    requires forall p :: p in order ==> p in assignments
    ensures var after := SendAll(o, assignments, order, now, accepted);
            && after.nextNonce == o.nextNonce + |order|
            && (forall n :: n in after.nonces <==> n in o.nonces || o.nextNonce <= n < after.nextNonce)
            && (forall n :: n in o.nonces && n < o.nextNonce ==> after.nonces[n] == o.nonces[n])
            && (forall i :: 0 <= i < |order| ==>
                  after.nonces[o.nextNonce + i] == now + NonceTtl(assignments[order[i]].interval))
  {
    if order != [] {
      NoncesSent(o, assignments, order[..|order| - 1], now, accepted);
    }
  }

  /** Every dispatch issues exactly one nonce of its own, that of the i-th living two intervals or a quarter of an hour,
      whichever is longer. */
  lemma EveryDispatchIssuesANonce(o: Outbox, assignments: map<string, Monitor>, order: seq<string>, now: int,
                                  accepted: set<string>, i: nat)
    requires forall p :: p in order ==> p in assignments
    ensures var after := SendAll(o, assignments, order, now, accepted);
            && after.nextNonce == o.nextNonce + |order|
            && (forall n :: n in after.nonces <==> n in o.nonces || o.nextNonce <= n < after.nextNonce)
            && (forall n :: n in o.nonces && n < o.nextNonce ==> after.nonces[n] == o.nonces[n])
            && (i < |order| ==>
                  var expires, interval := after.nonces[o.nextNonce + i], assignments[order[i]].interval;
                  && expires >= now + 2 * interval && expires >= now + 900
                  && (expires == now + 2 * interval || expires == now + 900))
  {
    NoncesSent(o, assignments, order, now, accepted);
    hide SendAll;
  }

  /** Every job the broker took carries the nonce of its dispatch, and nothing else reached the queue. */
  lemma {:induction false} JobsCarryTheirNonces(o: Outbox, assignments: map<string, Monitor>, order: seq<string>,
                                                now: int, accepted: set<string>, job: Job)
    requires forall p :: p in order ==> p in assignments
    ensures var after := SendAll(o, assignments, order, now, accepted);
            && after.nextNonce == o.nextNonce + |order|
            && o.jobs <= after.jobs
            && (job in after.jobs[|o.jobs|..]
                <==> exists i :: 0 <= i < |order| && assignments[order[i]].id in accepted
                                 && job == Job(assignments[order[i]].id, order[i], o.nextNonce + i, now,
                                               now + 2 * assignments[order[i]].interval))
  {
    if order != [] {
      var init, last := order[..|order| - 1], order[|order| - 1];
      JobsCarryTheirNonces(o, assignments, init, now, accepted, job);
      var before, after := SendAll(o, assignments, init, now, accepted), SendAll(o, assignments, order, now, accepted);
      var mine := Job(assignments[last].id, last, o.nextNonce + |init|, now, now + 2 * assignments[last].interval);
      assert after.jobs == if assignments[last].id in accepted then before.jobs + [mine] else before.jobs;
      assert after.nextNonce == o.nextNonce + |order|;
      hide SendAll;
      assert after.jobs[|o.jobs|..]
             == if assignments[last].id in accepted then before.jobs[|o.jobs|..] + [mine] else before.jobs[|o.jobs|..];
      assert forall i :: 0 <= i < |init| ==> init[i] == order[i];
    }
  }

  /** Where the other stores end up does not depend on the sorted set. */
  lemma {:induction false} SendIgnoresScores(o: Outbox, zset: map<string, int>, assignments: map<string, Monitor>,
                                             order: seq<string>, now: int, accepted: set<string>)
    requires forall p :: p in order ==> p in assignments
    ensures var a, b := SendAll(o, assignments, order, now, accepted), SendAll(o.(zset := zset), assignments, order, now, accepted);
            a.nonces == b.nonces && a.nextNonce == b.nextNonce && a.jobs == b.jobs
  {
    if order != [] {
      SendIgnoresScores(o, zset, assignments, order[..|order| - 1], now, accepted);
    }
  }

  lemma PutOffSettles(zset: map<string, int>, sent: map<string, int>, now: int, due: set<string>, found: set<string>,
                      placed: set<string>, rows: map<string, Row>)
    requires placed <= found <= due <= zset.Keys && found <= rows.Keys
    requires Rescheduled(zset - (due - found), sent, placed, now, rows)
    ensures BackedOff(sent, found - placed, now) == Settled(zset, now, due, found, placed, rows)
  {
    assert sent.Keys + (found - placed) == zset.Keys - (due - found);
  }

  /** Dropping the ghosts, dispatching the assignments in any order and putting off the rest gives the settled set. */
  lemma TickSettles(o: Outbox, due: set<string>, found: set<string>, assignments: map<string, Monitor>,
                    order: seq<string>, now: int, accepted: set<string>, rows: map<string, Row>)
    requires found <= due <= o.zset.Keys && found <= rows.Keys
    requires Ready(assignments, found, rows) && Elements(order) == assignments.Keys
    ensures Ids(assignments, order) <= found
    ensures var kept := o.(zset := o.zset - (due - found));
            BackedOff(SendAll(kept, assignments, order, now, accepted).zset, found - Ids(assignments, order), now)
            == Settled(o.zset, now, due, found, Ids(assignments, order), rows)
  {
    var kept, placed := o.(zset := o.zset - (due - found)), Ids(assignments, order);
    assert forall p :: p in order ==> p in Elements(order);
    assert Ready(assignments, rows.Keys, rows);
    assert placed <= found;
    hide *;
    DispatchOrderIsIrrelevant(kept, assignments, order, now, accepted, rows);
    PutOffSettles(o.zset, SendAll(kept, assignments, order, now, accepted).zset, now, due, found, placed, rows);
  }

  /** The stores after the assignments were sent and the other found monitors put off. */
  function SentAndPutOff(o: Outbox, handed: map<string, Monitor>, order: seq<string>, now: int, accepted: set<string>,
                         found: set<string>): Outbox
    requires Elements(order) == handed.Keys
  {
    assert forall p :: p in order ==> p in Elements(order);
    var sent := SendAll(o, handed, order, now, accepted);
    sent.(zset := BackedOff(sent.zset, found - Ids(handed, order), now))
  }

  lemma NothingSent(o: Outbox, now: int, accepted: set<string>)
    ensures Elements([]) == {} && SentAndPutOff(o, map[], [], now, accepted, {}) == o
  {
    assert BackedOff(o.zset, {}, now) == o.zset;
  }

  /** What a tick leaves behind: the settled sorted set, and a nonce and perhaps a job for every assignment. */
  ghost predicate TickEffect(before: Outbox, after: Outbox, now: int, due: set<string>, found: set<string>, rows: map<string, Row>,
                             handed: map<string, Monitor>, order: seq<string>, accepted: set<string>) {
    && found <= due * rows.Keys
    && Distinct(order) && Elements(order) == handed.Keys && (forall p :: p in order ==> p in handed)
    && Ids(handed, order) <= found
    && after.zset == Settled(before.zset, now, due, found, Ids(handed, order), rows)
    && after == SendAll(before, handed, order, now, accepted).(zset := after.zset)
  }

  lemma TickHasEffect(before: Outbox, now: int, due: set<string>, found: set<string>, rows: map<string, Row>,
                      handed: map<string, Monitor>, order: seq<string>, accepted: set<string>)
    requires found <= due <= before.zset.Keys && found <= rows.Keys
    requires Ready(handed, found, rows) && Distinct(order) && Elements(order) == handed.Keys
    ensures TickEffect(before, SentAndPutOff(before.(zset := before.zset - (due - found)), handed, order, now, accepted, found),
                       now, due, found, rows, handed, order, accepted)
  {
    TickSettles(before, due, found, handed, order, now, accepted, rows);
    assert forall p :: p in order ==> p in Elements(order);
    hide Elements, Ready, Distinct, Ids, SendAll, BackedOff, Settled;
    SendIgnoresScores(before, before.zset - (due - found), handed, order, now, accepted);
  }

  /** A tick with that effect leaves every fetched monitor dispatched, put off or dropped. */
  lemma EffectIsTrichotomy(before: Outbox, after: Outbox, now: int, due: set<string>, found: set<string>, rows: map<string, Row>,
                           handed: map<string, Monitor>, order: seq<string>, accepted: set<string>)
    requires TickEffect(before, after, now, due, found, rows, handed, order, accepted) && due <= before.zset.Keys
    requires forall x :: x in rows ==> rows[x].interval >= MIN_INTERVAL
    ensures forall p :: p in order ==> p in handed
    ensures Trichotomy(before.zset, after.zset, now, due, found, Ids(handed, order), rows)
  {
    hide Ids, SendAll, Settled, Trichotomy, Distinct, Elements;
    TickTrichotomy(before.zset, now, due, found, Ids(handed, order), rows);
  }
}
