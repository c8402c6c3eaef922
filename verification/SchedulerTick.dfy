/** The scheduler's commands as the program issues them: one tick (workers/schedular.go), the re-sync
    (services/schedular_sync.go) and the monitor API (services/monitor_service.go). The ghost trace records every command,
    so whatever is proved of all traces holds of every history of calls. */
module SchedulerTick {
  import opened Common
  import R = Registry
  import opened RoundRobin
  import opened RoundRobinTheorems
  import opened SchedulerModel
  import opened Dispatching
  import D = DispatchSpacing

  class Scheduler {
    const smart: SmartScheduler
    var clock: int
    var rows: map<string, Row>
    var credits: map<int, int>
    var zset: map<string, int>
    var nonces: map<nat, int>
    var nextNonce: nat
    var jobs: seq<Job>
    ghost var arming: set<string>
    ghost var tick: Tick
    ghost var sync: Sync
    ghost const start: State
    ghost var trace: seq<Step>

    ghost function Snapshot(): State
      reads this`clock, this`rows, this`credits, this`zset, this`arming, this`tick, this`sync
    {
      State(clock, rows, credits, zset, arming, tick, sync)
    }

    /** What the dispatch loop writes. */
    ghost function Sent(): Outbox
      reads this`zset, this`nonces, this`nextNonce, this`jobs
    {
      Outbox(zset, nonces, nextNonce, jobs)
    }

    ghost predicate Valid()
      reads this`clock, this`rows, this`credits, this`zset, this`arming, this`tick, this`sync, this`trace
    {
      Reaches(start, trace, Snapshot()) && D.CreatesAreAtomic(trace)
    }

    constructor (smart: SmartScheduler, clock: int, credits: map<int, int>)
      ensures Valid() && trace == [] && tick.Idle? && sync.Quiet?
      ensures this.smart == smart && this.clock == clock && this.credits == credits
      ensures rows == map[] && zset == map[] && nonces == map[] && jobs == []
    {
      this.smart, this.clock, this.credits := smart, clock, credits;
      rows, zset, nonces, nextNonce, jobs := map[], map[], map[], 0, [];
      arming, tick, sync, trace := {}, Idle, Quiet, [];
      start := State(clock, map[], credits, map[], {}, Idle, Quiet);
    }

    /** Records a command whose effect the fields already show. */
    ghost method Record(step: Step, before: State)
      requires Reaches(start, trace, before) && Enabled(before, step) && Snapshot() == Apply(before, step)
      requires D.CreatesAreAtomic(trace)
      requires step.Arm? ==> trace != [] && trace[|trace| - 1].Insert? && trace[|trace| - 1].id == step.id
      modifies this`trace
      ensures Valid() && trace == old(trace) + [step]
    {
      ReachesStep(start, trace, before, step);
      trace := trace + [step];
    }

    method ZRem(id: string)
      requires Valid() && tick.Writing? && id in tick.missing
      modifies this`zset, this`tick, this`trace
      ensures Valid() && zset == old(zset) - {id} && tick == Writing(old(tick).now, old(tick).missing - {id}, old(tick).found)
      ensures trace == old(trace) + [Remove(id)]
    {
      ghost var before := Snapshot();
      zset := zset - {id};
      tick := tick.(missing := tick.missing - {id});
      Record(Remove(id), before);
    }

    /** ZADD of a monitor that got a node at its next due time. */
    method ZAddNextDue(id: string, now: int, interval: int)
      requires Valid() && tick.Writing? && id in tick.found && now == tick.now && id in rows && interval == rows[id].interval
      modifies this`zset, this`tick, this`trace
      ensures Valid() && zset == old(zset)[id := now + interval] && tick == Writing(now, old(tick).missing, old(tick).found - {id})
      ensures trace == old(trace) + [Dispatch(id, now, interval)]
    {
      ghost var before := Snapshot();
      zset := zset[id := now + interval];
      tick := tick.(found := tick.found - {id});
      Record(Dispatch(id, now, interval), before);
    }

    /** ZADD of a monitor that got no node. */
    method ZAddBackOff(id: string, now: int)
      requires Valid() && tick.Writing? && id in tick.found && now == tick.now
      modifies this`zset, this`tick, this`trace
      ensures Valid() && zset == old(zset)[id := now + 5] && tick == Writing(now, old(tick).missing, old(tick).found - {id})
      ensures trace == old(trace) + [BackOff(id)]
    {
      ghost var before := Snapshot();
      zset := zset[id := now + 5];
      tick := tick.(found := tick.found - {id});
      Record(BackOff(id), before);
    }

    /** What a reply of FindMany can be: the eligible monitors among the ids asked for, each once, in any order. */
    ghost predicate IsFindReply(due: set<string>, monitors: seq<Monitor>)
      reads this
    {
      && DistinctIds(monitors)
      && (forall m :: m in monitors ==>
            && m.id in due && Eligible(Snapshot(), m.id)
            && m.domain == rows[m.id].domain && m.interval == rows[m.id].interval)
      && (forall id :: id in due && Eligible(Snapshot(), id) ==> exists m :: m in monitors && m.id == id)
    }

    lemma ReplyRows(due: set<string>, monitors: seq<Monitor>)
      requires IsFindReply(due, monitors)
      ensures DistinctIds(monitors) && MatchRows(monitors, rows) && IdsOf(monitors) <= due * rows.Keys
    {}

    lemma ReplyIsFunded(due: set<string>, monitors: seq<Monitor>)
      requires IsFindReply(due, monitors)
      ensures forall id :: id in due ==>
                (id in IdsOf(monitors) <==> id in rows && rows[id].active && !rows[id].deleted
                                            && rows[id].owner in credits && credits[rows[id].owner] > 0)
    {}

    /** Drops the fetched members the database did not return. */
    method RemoveGhosts(dueMembers: seq<string>, foundIds: set<string>)
      requires Valid() && tick.Writing? && Distinct(dueMembers) && tick.missing == Elements(dueMembers) - foundIds
      modifies this`zset, this`tick, this`trace
      ensures Valid() && zset == old(zset) - (Elements(dueMembers) - foundIds)
      ensures Sent() == old(Sent()).(zset := old(Sent()).zset - (Elements(dueMembers) - foundIds))
      ensures tick == Writing(old(tick).now, {}, old(tick).found) && old(trace) <= trace
    {
      hide Elements, Reaches, D.CreatesAreAtomic, Distinct;
      PrefixNone(dueMembers);
      for i := 0 to |dueMembers|
        invariant Valid() && zset == old(zset) - (Elements(dueMembers[..i]) - foundIds)
        invariant tick.Writing? && tick.now == old(tick).now && tick.found == old(tick).found && old(trace) <= trace
        invariant tick.missing == old(tick).missing - Elements(dueMembers[..i])
      {
        var id := dueMembers[i];
        PrefixStep(dueMembers, i);
        if id !in foundIds {
          ZRem(id);
        }
      }
      assert dueMembers[..|dueMembers|] == dueMembers;
    }

    /** Reschedules, issues a nonce for and publishes every assignment, in whatever order the map yields them. */
    method DispatchAll(assignments: map<string, Monitor>, now: int, accepted: set<string>)
      returns (processed: set<string>, ghost order: seq<string>)
      requires Valid() && tick.Writing? && now == tick.now && Ready(assignments, tick.found, rows)
      modifies this`zset, this`tick, this`trace, this`nonces, this`nextNonce, this`jobs
      ensures Valid() && old(trace) <= trace
      ensures Distinct(order) && Elements(order) == assignments.Keys
      ensures processed == Ids(assignments, order)
      ensures tick == Writing(now, old(tick).missing, old(tick).found - processed)
      ensures Sent() == SendAll(old(Sent()), assignments, order, now, accepted)
    {
      hide *;
      var keys := RangeOver(assignments.Keys);
      processed, order := {}, keys;
      SendNone(Sent(), assignments, keys, now, accepted);
      for i := 0 to |keys|
        invariant Valid() && old(trace) <= trace && rows == old(rows)
        invariant processed == Ids(assignments, keys[..i])
        invariant tick == Writing(now, old(tick).missing, old(tick).found - processed)
        invariant Sent() == SendAll(old(Sent()), assignments, keys[..i], now, accepted)
      {
        var pubkey := keys[i];
        var m := assignments[pubkey];
        OrderStep(assignments, old(tick).found, rows, keys, i);
        SendStep(old(Sent()), assignments, keys, i, now, accepted);
        DispatchOne(pubkey, m, now, accepted);
        processed := processed + {m.id};
      }
      assert keys[..|keys|] == keys;
    }

    /** One assignment: reschedule, issue a nonce, publish. */
    method DispatchOne(pubkey: string, m: Monitor, now: int, accepted: set<string>)
      requires Valid() && tick.Writing? && now == tick.now && m.id in tick.found && m.id in rows && m.interval == rows[m.id].interval
      modifies this`zset, this`tick, this`trace, this`nonces, this`nextNonce, this`jobs
      ensures Valid() && trace == old(trace) + [Dispatch(m.id, now, m.interval)]
      ensures tick == Writing(now, old(tick).missing, old(tick).found - {m.id})
      ensures Sent() == Send(old(Sent()), pubkey, m, now, accepted)
      ensures zset == old(zset)[m.id := now + m.interval] && nextNonce == old(nextNonce) + 1
      ensures old(nextNonce) in nonces
              && var expires := nonces[old(nextNonce)];
                 && nonces == old(nonces)[old(nextNonce) := expires]
                 && expires >= now + 2 * m.interval && expires >= now + 900
                 && (expires == now + 2 * m.interval || expires == now + 900)
      ensures jobs == old(jobs) + (if m.id in accepted then [Job(m.id, pubkey, old(nextNonce), now, now + 2 * m.interval)] else [])
    {
      hide Reaches, D.CreatesAreAtomic;
      ZAddNextDue(m.id, now, m.interval);
      var taskNonce := nextNonce;
      nextNonce := nextNonce + 1;
      var nonceTTL := m.interval * 2;
      if nonceTTL < 15 * 60 {
        nonceTTL := 15 * 60;
      }
      nonces := nonces[taskNonce := now + nonceTTL];
      if m.id in accepted {
        jobs := jobs + [Job(m.id, pubkey, taskNonce, now, now + m.interval * 2)];
      }
    }

    /** Puts off the monitors that got no node. */
    method BackOffRest(monitors: seq<Monitor>, processed: set<string>, now: int)
      requires Valid() && DistinctIds(monitors) && tick == Writing(now, {}, IdsOf(monitors) - processed)
      modifies this`zset, this`tick, this`trace
      ensures Valid() && old(trace) <= trace && tick == Writing(now, {}, {})
      ensures zset == BackedOff(old(zset), IdsOf(monitors) - processed, now)
    {
      hide *;
      PutOffNone(zset, monitors, processed, now);
      for k := 0 to |monitors|
        invariant Valid() && old(trace) <= trace
        invariant tick.Writing? && tick.now == now && tick.missing == {}
        invariant tick.found == IdsOf(monitors) - processed - IdsOf(monitors[..k])
        invariant zset == BackedOff(old(zset), IdsOf(monitors[..k]) - processed, now)
      {
        var m := monitors[k];
        PutOffStep(old(zset), monitors, k, processed, now);
        if m.id !in processed {
          ZAddBackOff(m.id, now);
        }
      }
      assert monitors[..|monitors|] == monitors;
      assert tick.found == {};
    }

    ghost method BeginTick(due: set<string>)
      requires Valid() && tick.Idle? && due != {} && IsFetch(zset, clock, due)
      modifies this`tick, this`trace
      ensures Valid() && trace == old(trace) + [Fetch(due)] && tick == Fetched(clock, due)
    {
      ghost var before := Snapshot();
      tick := Fetched(clock, due);
      Record(Fetch(due), before);
    }

    ghost method AbandonTick()
      requires Valid() && tick.Fetched?
      modifies this`tick, this`trace
      ensures Valid() && trace == old(trace) + [FindFails] && tick == Idle
    {
      ghost var before := Snapshot();
      tick := Idle;
      Record(FindFails, before);
    }

    ghost method ReadMonitors(due: set<string>, monitors: seq<Monitor>)
      requires Valid() && tick == Fetched(clock, due) && IsFindReply(due, monitors)
      modifies this`tick, this`trace
      ensures Valid() && trace == old(trace) + [FindMany]
      ensures tick == Writing(clock, due - IdsOf(monitors), IdsOf(monitors)) && IdsOf(monitors) <= due * rows.Keys
    {
      ghost var before := Snapshot();
      tick := Writing(clock, due - IdsOf(monitors), IdsOf(monitors));
      assert (set id | id in due && Eligible(before, id)) == IdsOf(monitors);
      assert (set id | id in due && !Eligible(before, id)) == due - IdsOf(monitors);
      hide IdsOf, IsFindReply;
      Record(FindMany, before);
    }

    ghost method FinishTick()
      requires Valid() && tick.Writing? && tick.missing == {} && tick.found == {}
      modifies this`tick, this`trace
      ensures Valid() && trace == old(trace) + [EndTick] && tick == Idle
    {
      ghost var before := Snapshot();
      tick := Idle;
      Record(EndTick, before);
    }

    /** Matches the found monitors with nodes, sends the assignments and puts off the rest. */
    method MatchAndSend(monitors: seq<Monitor>, accepted: set<string>, nanos: int)
      returns (ghost handed: map<string, Monitor>, ghost order: seq<string>, ghost nodes: seq<string>)
      requires Valid() && monitors != [] && tick == Writing(clock, {}, IdsOf(monitors)) && DistinctIds(monitors)
      requires MatchRows(monitors, rows)
      requires smart.Valid() && smart.registry.Valid() && R.Chronological(smart.registry.history, nanos)
      modifies this`zset, this`tick, this`trace, this`nonces, this`nextNonce, this`jobs, smart
      ensures Valid() && old(trace) <= trace && tick == Writing(clock, {}, {})
      ensures smart.Valid() && Matched(old(smart.domainNodeIdx), smart.domainNodeIdx, nodes, monitors, handed)
      ensures forall p :: p in nodes <==> R.Listed(smart.registry.nodes, p, nanos)
      ensures Distinct(order) && Elements(order) == handed.Keys && Ready(handed, IdsOf(monitors), rows)
      ensures Sent() == SentAndPutOff(old(Sent()), handed, order, clock, accepted, IdsOf(monitors))
    {
      hide IsAssignment, Moved, Picks, Ready, Matched, MatchRows, IdsOf, Ids, SendAll, BackedOff, Elements, Distinct,
           DistinctIds, Reaches, D.CreatesAreAtomic;
      var now := clock;
      var assignments;
      assignments, nodes := smart.MatchBatch(monitors, nanos);
      handed := assignments;
      MatchIsReady(handed, nodes, monitors, old(smart.domainNodeIdx), smart.domainNodeIdx, rows);
      var processed;
      processed, order := DispatchAll(assignments, now, accepted);
      BackOffRest(monitors, processed, now);
    }

    /** The rest of a tick whose database lookup succeeded. */
    method FinishFetched(dueMembers: seq<string>, monitors: seq<Monitor>, accepted: set<string>, nanos: int)
      returns (ghost handed: map<string, Monitor>, ghost order: seq<string>, ghost nodes: seq<string>)
      requires Valid() && tick == Fetched(clock, Elements(dueMembers)) && Distinct(dueMembers)
      requires Elements(dueMembers) <= Sent().zset.Keys && IsFindReply(Elements(dueMembers), monitors)
      requires smart.Valid() && smart.registry.Valid() && R.Chronological(smart.registry.history, nanos)
      modifies this`zset, this`tick, this`trace, this`nonces, this`nextNonce, this`jobs, smart
      ensures Valid() && tick.Idle? && old(trace) <= trace
      ensures smart.Valid() && Matched(old(smart.domainNodeIdx), smart.domainNodeIdx, nodes, monitors, handed)
      ensures monitors != [] ==> forall p :: p in nodes <==> R.Listed(smart.registry.nodes, p, nanos)
      ensures TickEffect(old(Sent()), Sent(), clock, Elements(dueMembers), IdsOf(monitors), rows, handed, order, accepted)
    {
      hide *;
      var foundIds := IdsOf(monitors);
      ReplyRows(Elements(dueMembers), monitors);
      NothingHanded(smart.domainNodeIdx, rows);
      handed, order, nodes := map[], [], [];
      ReadMonitors(Elements(dueMembers), monitors);
      RemoveGhosts(dueMembers, foundIds);
      if |monitors| == 0 {
        assert monitors == [];
        NothingSent(Sent(), clock, accepted);
      } else {
        handed, order, nodes := MatchAndSend(monitors, accepted, nanos);
      }
      TickHasEffect(old(Sent()), clock, Elements(dueMembers), IdsOf(monitors), rows, handed, order, accepted);
      FinishTick();
    }

    /** One tick. The arguments are the replies it gets: the fetched members, the monitors found for them, the monitors
        whose job the broker takes and the registry's clock; None is a failed call. The ghost results tell what happened:
        who was handed what, in which order it was sent, and which nodes were online. */
    method ScheduleTick(dueMembers: Option<seq<string>>, lookup: Option<seq<Monitor>>, accepted: set<string>, nanos: int)
      returns (failed: bool, ghost handed: map<string, Monitor>, ghost order: seq<string>, ghost nodes: seq<string>)
      requires Valid() && tick.Idle?
      requires smart.Valid() && smart.registry.Valid() && R.Chronological(smart.registry.history, nanos)
      requires dueMembers.Some? ==> Distinct(dueMembers.value) && IsFetch(zset, clock, Elements(dueMembers.value))
      requires dueMembers.Some? && lookup.Some? ==> IsFindReply(Elements(dueMembers.value), lookup.value)
      modifies this`zset, this`tick, this`trace, this`nonces, this`nextNonce, this`jobs, smart
      ensures Valid() && smart.Valid() && tick.Idle? && old(trace) <= trace
      ensures failed <==> dueMembers.Some? && dueMembers.value != [] && lookup.None?
      ensures dueMembers.None? || dueMembers.value == [] || lookup.None?
              ==> Sent() == old(Sent()) && smart.domainNodeIdx == old(smart.domainNodeIdx) && handed == map[]
      ensures dueMembers.Some? && dueMembers.value != [] && lookup.Some? ==>
                var due, monitors := Elements(dueMembers.value), lookup.value;
                && Matched(old(smart.domainNodeIdx), smart.domainNodeIdx, nodes, monitors, handed)
                && (monitors != [] ==> forall p :: p in nodes <==> R.Listed(smart.registry.nodes, p, nanos))
                && TickEffect(old(Sent()), Sent(), clock, due, IdsOf(monitors), rows, handed, order, accepted)
                && Trichotomy(old(zset), zset, clock, due, IdsOf(monitors), Ids(handed, order), rows)
                && (forall id :: id in due ==>
                      (id in zset <==> id in rows && rows[id].active && !rows[id].deleted
                                       && rows[id].owner in credits && credits[rows[id].owner] > 0))
                && (forall p :: p in handed ==> handed[p].id in due && handed[p].id in zset)
    {
      hide Reaches, D.CreatesAreAtomic, Chained, R.Chronological, Matched, TickEffect, Trichotomy, Settled, SendAll, Ids, IdsOf,
           Elements, Distinct, DistinctIds, IsFetch;
      failed, handed, order, nodes := false, map[], [], [];
      if dueMembers.None? || |dueMembers.value| == 0 {
        return;
      }
      ghost var due := Elements(dueMembers.value);
      FetchedAreScheduled(zset, clock, dueMembers.value);
      ScoresAreSent();
      BeginTick(due);
      if lookup.None? {
        AbandonTick();
        failed := true;
        return;
      }
      handed, order, nodes := FinishFetched(dueMembers.value, lookup.value, accepted, nanos);
      RowsKeepFloor();
      ReplyIsFunded(due, lookup.value);
      ScoresAreSent();
      EffectIsTrichotomy(old(Sent()), Sent(), clock, due, IdsOf(lookup.value), rows, handed, order, accepted);
      KeptAreFound(old(Sent()), Sent(), clock, due, IdsOf(lookup.value), rows, handed, order, accepted);
    }

    lemma ScoresAreSent()
      ensures Sent().zset == zset
    {}

    lemma RowsKeepFloor()
      requires Valid()
      ensures forall id :: id in rows ==> rows[id].interval >= MIN_INTERVAL
    {
      ReachesIsRun(start, trace, Snapshot());
    }

    /** Time passes between calls. */
    method PassTime(now: int)
      requires Valid() && now >= clock
      modifies this`clock, this`trace
      ensures Valid() && clock == now && trace == old(trace) + [Advance(now)]
    {
      ghost var before := Snapshot();
      clock := now;
      Record(Advance(now), before);
    }

    /** A settled check costs its owner one credit. */
    method ChargeCredit(owner: int)
      requires Valid() && owner in credits && credits[owner] > 0
      modifies this`credits, this`trace
      ensures Valid() && credits == old(credits)[owner := old(credits)[owner] - 1] && trace == old(trace) + [Charge(owner)]
    {
      ghost var before := Snapshot();
      credits := credits[owner := credits[owner] - 1];
      Record(Charge(owner), before);
    }

    /** Creates a monitor and arms it. Short intervals are replaced, and a failed arming write is only logged. The id is
        the fresh one the database generates. */
    method Create(id: string, owner: int, targetURL: string, domain: string, requested: int, stored: bool, armed: bool)
      returns (created: bool)
      requires Valid() && id !in rows
      modifies this`rows, this`zset, this`arming, this`trace
      ensures Valid() && (created <==> targetURL != "" && stored)
      ensures !created ==> rows == old(rows) && zset == old(zset) && trace == old(trace)
      ensures created ==>
                var interval := if requested < 30 then 60 else requested;
                && rows == old(rows)[id := Row(owner, domain, interval, true, false)]
                && zset == (if armed then old(zset)[id := 0] else old(zset))
                && trace == old(trace) + [Insert(id, owner, domain, interval), if armed then Arm(id) else ArmFails(id)]
    {
      hide Reaches, D.CreatesAreAtomic;
      created := false;
      if targetURL == "" {
        return;
      }
      var interval := requested;
      if interval < MIN_INTERVAL {
        interval := DEFAULT_INTERVAL;
      }
      if !stored {
        return;
      }
      InsertRow(id, owner, domain, interval);
      ZAddNow(id, armed);
      created := true;
    }

    /** The arming write of a Create, right after its row was stored. */
    method ZAddNow(id: string, armed: bool)
      requires Valid() && id in arming && trace != [] && trace[|trace| - 1].Insert? && trace[|trace| - 1].id == id
      modifies this`zset, this`arming, this`trace
      ensures Valid() && zset == (if armed then old(zset)[id := 0] else old(zset)) && arming == old(arming) - {id}
      ensures trace == old(trace) + [if armed then Arm(id) else ArmFails(id)]
    {
      ghost var before := Snapshot();
      if armed {
        zset := zset[id := 0];
      }
      arming := arming - {id};
      Record(if armed then Arm(id) else ArmFails(id), before);
    }

    method InsertRow(id: string, owner: int, domain: string, interval: int)
      requires Valid() && id !in rows && interval >= MIN_INTERVAL
      modifies this`rows, this`arming, this`trace
      ensures Valid() && rows == old(rows)[id := Row(owner, domain, interval, true, false)] && arming == old(arming) + {id}
      ensures trace == old(trace) + [Insert(id, owner, domain, interval)]
    {
      ghost var before := Snapshot();
      rows := rows[id := Row(owner, domain, interval, true, false)];
      arming := arming + {id};
      Record(Insert(id, owner, domain, interval), before);
    }

    /** UPDATE of is_active for the row that is not deleted, whoever its owner: Pause and Resume pass no owner on. */
    method UpdateActive(id: string, active: bool, reachable: bool) returns (ok: bool)
      requires Valid()
      modifies this`rows, this`trace
      ensures Valid() && ok == reachable && (!ok ==> trace == old(trace))
      ensures rows == if ok && id in old(rows) && !old(rows)[id].deleted
                      then old(rows)[id := old(rows)[id].(active := active)] else old(rows)
    {
      ok := reachable;
      if ok {
        ghost var before := Snapshot();
        if id in rows && !rows[id].deleted {
          rows := rows[id := rows[id].(active := active)];
        }
        Record(SetActive(id, active), before);
      }
    }

    method Pause(id: string, reachable: bool) returns (ok: bool)
      requires Valid()
      modifies this`rows, this`trace
      ensures Valid() && ok == reachable
      ensures ok ==> !Eligible(Snapshot(), id)
      ensures forall x :: x in old(rows) && x != id ==> x in rows && rows[x] == old(rows)[x]
    {
      ok := UpdateActive(id, false, reachable);
    }

    method Resume(id: string, reachable: bool) returns (ok: bool)
      requires Valid()
      modifies this`rows, this`trace
      ensures Valid() && ok == reachable
      ensures ok && id in rows && !rows[id].deleted && rows[id].owner in credits && credits[rows[id].owner] > 0
              ==> Eligible(Snapshot(), id)
      ensures forall x :: x in old(rows) && x != id ==> x in rows && rows[x] == old(rows)[x]
    {
      ok := UpdateActive(id, true, reachable);
    }

    /** Soft deletion, by the owner only; anyone else's call succeeds and changes nothing. The sorted set keeps the id. */
    method Delete(id: string, owner: int, reachable: bool) returns (ok: bool)
      requires Valid()
      modifies this`rows, this`trace
      ensures Valid() && ok == reachable
      ensures ok && id in old(rows) && old(rows)[id].owner == owner
              ==> rows == old(rows)[id := old(rows)[id].(deleted := true)] && !Eligible(Snapshot(), id)
      ensures !(ok && id in old(rows) && old(rows)[id].owner == owner) ==> rows == old(rows)
    {
      ok := reachable;
      if ok {
        ghost var before := Snapshot();
        if id in rows && rows[id].owner == owner {
          rows := rows[id := rows[id].(deleted := true)];
        }
        Record(SoftDelete(id, owner), before);
      }
    }

    /** Offers one active monitor to the schedule: ZADD NX. */
    method ZAddIfAbsent(id: string)
      requires Valid() && sync.Adding? && id in sync.todo && sync.since <= clock
      modifies this`zset, this`sync, this`trace
      ensures Valid() && sync == Adding(old(sync).since, old(sync).todo - {id}) && old(trace) <= trace
      ensures zset == if id in old(zset) then old(zset) else old(zset)[id := clock]
    {
      ghost var before := Snapshot();
      if id !in zset {
        zset := zset[id := clock];
      }
      sync := Adding(sync.since, sync.todo - {id});
      Record(SyncAdd(id, clock), before);
    }

    ghost method BeginSync(active: set<string>)
      requires Valid() && sync.Quiet? && active == set id | id in rows && Eligible(Snapshot(), id)
      modifies this`sync, this`trace
      ensures Valid() && sync == Adding(clock, active) && old(trace) <= trace
    {
      ghost var before := Snapshot();
      sync := Adding(clock, active);
      Record(SyncRead, before);
    }

    ghost method FinishSync(done: bool)
      requires Valid() && sync.Adding? && (done ==> sync.todo == {})
      modifies this`sync, this`trace
      ensures Valid() && sync.Quiet? && old(trace) <= trace
    {
      ghost var before := Snapshot();
      sync := Quiet;
      Record(if done then SyncEnd else SyncFails, before);
    }

    /** The periodic re-sync. The reply of FindActive lists the eligible monitors in any order, or is None on an error;
        executed says how many of the queued commands the server carried out. */
    method SyncSchedulerState(reply: Option<seq<string>>, executed: nat) returns (ok: bool)
      requires Valid() && sync.Quiet?
      requires reply.Some? ==> Distinct(reply.value) && executed <= |reply.value|
                               && forall id :: id in reply.value <==> Eligible(Snapshot(), id)
      modifies this`zset, this`sync, this`trace
      ensures Valid() && sync.Quiet? && old(trace) <= trace
      ensures ok <==> reply.Some? && executed == |reply.value|
      ensures zset == if reply.None? then old(zset) else WithAbsent(old(zset), Elements(reply.value[..executed]), clock)
      ensures forall id :: id in old(zset) ==> id in zset && zset[id] == old(zset)[id]
      ensures forall id :: id in zset && id !in old(zset) ==>
                && zset[id] == clock && id in rows && rows[id].active && !rows[id].deleted
                && rows[id].owner in credits && credits[rows[id].owner] > 0
      ensures ok ==> forall id :: (id in rows && rows[id].active && !rows[id].deleted
                                   && rows[id].owner in credits && credits[rows[id].owner] > 0) ==> id in zset
    {
      hide Reaches, D.CreatesAreAtomic, WithAbsent, Distinct;
      if reply.None? {
        return false;
      }
      var monitors := reply.value;
      ghost var all := Elements(monitors);
      assert all == set id | id in rows && Eligible(Snapshot(), id);
      BeginSync(all);
      PrefixNone(monitors);
      WithAbsentNone(zset, clock);
      for i := 0 to executed
        invariant Valid() && old(trace) <= trace && sync == Adding(clock, all - Elements(monitors[..i]))
        invariant zset == WithAbsent(old(zset), Elements(monitors[..i]), clock)
      {
        PrefixStep(monitors, i);
        WithAbsentStep(old(zset), Elements(monitors[..i]), monitors[i], clock);
        ZAddIfAbsent(monitors[i]);
      }
      ok := executed == |monitors|;
      assert ok ==> monitors[..executed] == monitors;
      WithAbsentIs(old(zset), Elements(monitors[..executed]), clock);
      assert forall id :: id in Elements(monitors[..executed]) ==> id in Elements(monitors);
      FinishSync(ok);
    }

    /** Whatever calls were made so far, no monitor was dispatched twice within its interval. */
    lemma CallsKeepSpacing(i: nat, j: nat)
      requires Valid() && i < j < |trace| && trace[i].Dispatch? && trace[j].Dispatch? && trace[i].id == trace[j].id
      ensures trace[j].id in rows && trace[j].now - trace[i].now >= rows[trace[j].id].interval
    {
      ReachesIsRun(start, trace, Snapshot());
      D.AtomicIsNotLate(start, trace, trace[j].id);
      D.Spacing(start, trace, i, j);
    }
  }

  /** The sorted set after offering some monitors: those already there keep their score. */
  function WithAbsent(zset: map<string, int>, ids: set<string>, now: int): map<string, int> {
    map id | id in zset.Keys + ids :: if id in zset then zset[id] else now
  }

  lemma WithAbsentNone(zset: map<string, int>, now: int)
    ensures WithAbsent(zset, {}, now) == zset
  {}

  lemma WithAbsentIs(zset: map<string, int>, ids: set<string>, now: int)
    ensures var after := WithAbsent(zset, ids, now);
            && ids <= after.Keys
            && (forall id :: id in zset ==> id in after && after[id] == zset[id])
            && (forall id :: id in after && id !in zset ==> id in ids && after[id] == now)
  {}

  lemma WithAbsentStep(zset: map<string, int>, ids: set<string>, id: string, now: int)
    ensures var before := WithAbsent(zset, ids, now);
            WithAbsent(zset, ids + {id}, now) == if id in before then before else before[id := now]
  {}

  /** After a tick exactly the fetched members that were found are still scheduled, those handed out among them. */
  lemma KeptAreFound(before: Outbox, after: Outbox, now: int, due: set<string>, found: set<string>, rows: map<string, Row>,
                     handed: map<string, Monitor>, order: seq<string>, accepted: set<string>)
    requires TickEffect(before, after, now, due, found, rows, handed, order, accepted)
    requires Trichotomy(before.zset, after.zset, now, due, found, Ids(handed, order), rows)
    ensures forall id :: id in due ==> (id in after.zset <==> id in found)
    ensures forall p :: p in handed ==> handed[p].id in due && handed[p].id in after.zset
  {
    hide SendAll, Settled, Distinct;
    forall p | p in handed ensures handed[p].id in Ids(handed, order) {
      assert p in Elements(order);
    }
  }

  lemma FetchedAreScheduled(zset: map<string, int>, now: int, dueMembers: seq<string>)
    requires dueMembers != [] && IsFetch(zset, now, Elements(dueMembers))
    ensures Elements(dueMembers) != {} && Elements(dueMembers) <= zset.Keys
  {
    assert dueMembers[0] in Elements(dueMembers);
  }

  lemma PrefixNone(s: seq<string>)
    ensures s[..0] == [] && Elements(s[..0]) == {}
  {}

  lemma PrefixStep(s: seq<string>, i: nat)
    requires Distinct(s) && i < |s|
    ensures Elements(s[..i + 1]) == Elements(s[..i]) + {s[i]} && s[i] !in Elements(s[..i]) && s[i] in Elements(s)
  {
    assert s[..i + 1] == s[..i] + [s[i]];
  }

  /** What one batch did: nothing without monitors or nodes, and otherwise some node got the last monitor picked for it. */
  ghost predicate Matched(cursors: Cursors, cursors': Cursors, nodes: seq<string>, monitors: seq<Monitor>, handed: map<string, Monitor>) {
    && Distinct(nodes)
    && (if nodes == [] || monitors == [] then handed == map[] && cursors' == cursors
        else
          && handed != map[]
          && IsAssignment(handed, nodes, monitors, Picks(cursors, |nodes|, monitors))
          && Moved(cursors, cursors', |nodes|, monitors))
  }

  /** Found monitors agree with their rows. */
  ghost predicate MatchRows(monitors: seq<Monitor>, rows: map<string, Row>) {
    forall m :: m in monitors ==> m.id in rows && m.interval == rows[m.id].interval
  }

  lemma NothingHanded(cursors: Cursors, rows: map<string, Row>)
    ensures Matched(cursors, cursors, [], [], map[]) && Distinct([]) && Elements([]) == {} && Ready(map[], {}, rows) && IdsOf([]) == {}
  {}

  lemma MatchIsReady(handed: map<string, Monitor>, nodes: seq<string>, monitors: seq<Monitor>, cursors: Cursors,
                     cursors': Cursors, rows: map<string, Row>)
    requires monitors != [] && DistinctIds(monitors) && MatchRows(monitors, rows) && Distinct(nodes)
    requires nodes == [] ==> handed == map[] && cursors' == cursors
    requires nodes != [] ==>
               && IsAssignment(handed, nodes, monitors, Picks(cursors, |nodes|, monitors))
               && Moved(cursors, cursors', |nodes|, monitors)
    ensures Matched(cursors, cursors', nodes, monitors, handed) && Ready(handed, IdsOf(monitors), rows)
  {
    if nodes != [] {
      SomeoneIsAssigned(handed, cursors, nodes, monitors);
      AssignmentIsReady(handed, nodes, monitors, Picks(cursors, |nodes|, monitors), rows);
      hide IsAssignment, Moved, Picks, Ready, MatchRows, DistinctIds;
    }
  }

  lemma AssignmentIsReady(handed: map<string, Monitor>, nodes: seq<string>, monitors: seq<Monitor>, picks: seq<int>,
                          rows: map<string, Row>)
    requires |picks| == |monitors| && forall i :: 0 <= i < |picks| ==> REJECTED <= picks[i] < |nodes|
    requires IsAssignment(handed, nodes, monitors, picks) && DistinctIds(monitors) && MatchRows(monitors, rows)
    ensures Ready(handed, IdsOf(monitors), rows)
  {
    forall p, q | p in handed && q in handed && p != q
      ensures handed[p].id != handed[q].id
    {
      NodesHoldDistinctMonitors(handed, nodes, monitors, picks, p, q);
    }
    forall p | p in handed ensures handed[p] in monitors {
      var i: nat :| Stands(picks, i) && nodes[picks[i]] == p;
    }
  }

  /** The keys of a map in the order a range loop happens to visit them. */
  method RangeOver(keys: set<string>) returns (order: seq<string>)
    ensures Distinct(order) && Elements(order) == keys && forall p :: p in order ==> p in keys
  {
    order := [];
    var pending := keys;
    assert Elements(order) == {};
    while pending != {}
      invariant Distinct(order) && Elements(order) == keys - pending && pending <= keys
      decreases |pending|
    {
      var key :| key in pending;
      assert key !in Elements(order);
      assert Elements(order + [key]) == Elements(order) + {key};
      order := order + [key];
      pending := pending - {key};
    }
  }
}
