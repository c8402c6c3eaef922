/** The in-memory pool of online nodes (services/registry.go): heartbeats, periodic eviction and the listing of
    online nodes. Times are integer nanoseconds of one monotone clock. */
module Registry {
  import opened Common

  /** Five minutes, in nanoseconds. */
  const STALE_AFTER: int := 300_000_000_000

  datatype ActiveNode = ActiveNode(pubkey: string, email: string, latitude: real, longitude: real, lastSeen: int)

  /** What can happen to the pool: a heartbeat stores its node, an eviction sweep runs at an instant. */
  datatype Event = Heartbeat(node: ActiveNode) | Eviction(now: int) {
    function At(): int {
      if Heartbeat? then node.lastSeen else now
    }
  }

  predicate Fresh(node: ActiveNode, now: int) {
    now - node.lastSeen <= STALE_AFTER
  }

  /** One event's effect on the pool. */
  function Apply(nodes: map<string, ActiveNode>, e: Event): map<string, ActiveNode> {
    match e
    case Heartbeat(node) => nodes[node.pubkey := node]
    case Eviction(now) => map p | p in nodes && Fresh(nodes[p], now) :: nodes[p]
  }

  function Run(history: seq<Event>): map<string, ActiveNode> {
    if history == [] then map[] else Apply(Run(history[..|history| - 1]), history[|history| - 1])
  }

  /** The last heartbeat of a node in the whole history, evictions ignored. */
  function Latest(history: seq<Event>, pubkey: string): Option<ActiveNode> {
    if history == [] then None
    else
      var last := history[|history| - 1];
      if last.Heartbeat? && last.node.pubkey == pubkey then Some(last.node)
      else Latest(history[..|history| - 1], pubkey)
  }

  /** The events are in clock order and none lies after now. */
  predicate Chronological(history: seq<Event>, now: int) {
    if history == [] then true
    else
      history[|history| - 1].At() <= now && Chronological(history[..|history| - 1], history[|history| - 1].At())
  }

  /** Being in the pool and fresh, which is what the listing shows. */
  predicate Listed(nodes: map<string, ActiveNode>, pubkey: string, now: int) {
    pubkey in nodes && Fresh(nodes[pubkey], now)
  }

  /** Eviction is invisible: whatever sweeps ran in between, a node is listed exactly when its last heartbeat in the
      full history is at most five minutes old, and what is listed is that heartbeat. */
  lemma {:induction false} EvictionIsInvisible(history: seq<Event>, pubkey: string, now: int)
    requires Chronological(history, now)
    ensures Listed(Run(history), pubkey, now)
            <==> Latest(history, pubkey).Some? && now - Latest(history, pubkey).value.lastSeen <= 300_000_000_000
    ensures pubkey in Run(history) ==> Latest(history, pubkey) == Some(Run(history)[pubkey])
    ensures pubkey in Run(history) ==> Run(history)[pubkey].pubkey == pubkey && Run(history)[pubkey].lastSeen <= now
  {
    if history != [] {
      var before, last := history[..|history| - 1], history[|history| - 1];
      EvictionIsInvisible(before, pubkey, last.At());
    }
  }

  /** The pool itself. The ghost history records every call, and Valid says that the pool is what the history makes it. */
  class MemoryRegistry {
    var nodes: map<string, ActiveNode>
    ghost var history: seq<Event>

    ghost predicate Valid()
      reads this
    {
      nodes == Run(history)
    }

    constructor ()
      ensures Valid() && history == [] && nodes == map[]
    {
      nodes := map[];
      history := [];
    }

    method TrackHeartbeat(pubkey: string, email: string, latitude: real, longitude: real, now: int)
      requires Valid() && Chronological(history, now)
      modifies this
      ensures Valid() && Chronological(history, now)
      ensures history == old(history) + [Heartbeat(ActiveNode(pubkey, email, latitude, longitude, now))]
    {
      var node := ActiveNode(pubkey, email, latitude, longitude, now);
      nodes := nodes[pubkey := node];
      history := history + [Heartbeat(node)];
      assert history[..|history| - 1] == old(history);
    }

    /** One tick of the eviction loop, which visits the entries in no particular order. */
    method Evict(now: int)
      requires Valid() && Chronological(history, now)
      modifies this
      ensures Valid() && Chronological(history, now)
      ensures history == old(history) + [Eviction(now)]
    {
      var pending := nodes.Keys;
      while pending != {}
        invariant pending <= old(nodes).Keys
        invariant history == old(history)
        invariant forall p :: p in nodes <==> p in old(nodes) && (p in pending || Fresh(old(nodes)[p], now))
        invariant forall p :: p in nodes ==> nodes[p] == old(nodes)[p]
        decreases |pending|
      {
        var p :| p in pending;
        if now - nodes[p].lastSeen > STALE_AFTER {
          nodes := nodes - {p};
        }
        pending := pending - {p};
      }
      history := history + [Eviction(now)];
      assert history[..|history| - 1] == old(history);
      assert nodes == Apply(old(nodes), Eviction(now));
    }

    /** The online nodes in some order: each once, and exactly those whose last heartbeat ever is fresh. */
    method GetOnlineNodes(now: int) returns (active: seq<ActiveNode>)
      requires Valid() && Chronological(history, now)
      ensures forall i, j :: 0 <= i < j < |active| ==> active[i].pubkey != active[j].pubkey
      ensures forall n :: n in active <==> Latest(history, n.pubkey) == Some(n) && now - n.lastSeen <= 300_000_000_000
      ensures forall p :: Listed(nodes, p, now) <==> exists i :: 0 <= i < |active| && active[i].pubkey == p
    {
      active := [];
      var pending := nodes.Keys;
      while pending != {}
        invariant pending <= nodes.Keys
        invariant forall i, j :: 0 <= i < j < |active| ==> active[i].pubkey != active[j].pubkey
        invariant forall i :: 0 <= i < |active| ==> active[i].pubkey !in pending
        invariant forall n :: n in active
                              <==> n.pubkey in nodes && n.pubkey !in pending && nodes[n.pubkey] == n && Fresh(n, now)
        decreases |pending|
      {
        var p :| p in pending;
        EvictionIsInvisible(history, p, now);
        if now - nodes[p].lastSeen <= STALE_AFTER {
          active := active + [nodes[p]];
        }
        pending := pending - {p};
      }
      forall n: ActiveNode ensures n in active <==> Latest(history, n.pubkey) == Some(n) && Fresh(n, now) {
        EvictionIsInvisible(history, n.pubkey, now);
      }
      forall p ensures Listed(nodes, p, now) <==> exists i :: 0 <= i < |active| && active[i].pubkey == p {
        EvictionIsInvisible(history, p, now);
        assert Listed(nodes, p, now) ==> nodes[p] in active;
        assert forall i :: 0 <= i < |active| ==> active[i] in active;
      }
    }
  }
}
