/** SmartScheduler.MatchBatch (services/registry.go): per-domain round robin with a persistent cursor, a cap of five
    monitors per domain and a result keyed by node, in which a later pick of a node replaces an earlier one. */
module RoundRobin {
  import opened Arithmetic
  import opened Common
  import opened Registry

  /** At most this many monitors of one domain per batch. */
  const CAP: nat := 5

  /** The pick of a monitor that its domain's cap turned away. */
  const REJECTED: int := -1

  /** A monitor row as the scheduler sees it. The domain stands for cleanDomain of its target URL. */
  datatype Monitor = Monitor(id: string, domain: string, interval: int)

  type Cursors = map<string, nat>

  function Cursor(cursors: Cursors, domain: string): nat {
    if domain in cursors then cursors[domain] else 0
  }

  /** How many monitors of a domain a batch holds. */
  function Count(ms: seq<Monitor>, domain: string): nat {
    if ms == [] then 0
    else Count(ms[..|ms| - 1], domain) + (if ms[|ms| - 1].domain == domain then 1 else 0)
  }

  /** How many of them its cap lets through. */
  function Taken(ms: seq<Monitor>, domain: string): (taken: nat)
    ensures taken <= 5 && taken <= Count(ms, domain) && (taken == 5 || taken == Count(ms, domain))
  {
    Min(CAP, Count(ms, domain))
  }

  /** A number wrapped round to a node index. */
  function Wrap(x: nat, n: nat): (index: nat)
    requires n > 0
    ensures index < n
  {
    x % n
  }

  /** The node index j places after a cursor. */
  function Place(cursor: nat, n: nat, j: nat): (place: nat)
    requires n > 0
    ensures place < n
  {
    Wrap(Wrap(cursor, n) + j, n)
  }

  /** The closed form of one pick: the j-th monitor of a domain goes j places after the domain's cursor, if j < 5. */
  function PickAt(cursor: nat, n: nat, j: nat): (pick: int)
    requires n > 0
    ensures REJECTED <= pick < n
  {
    if j < CAP then Place(cursor, n, j) else REJECTED
  }

  /** The closed form of a cursor after count monitors of its domain. */
  function CursorAt(cursor: nat, n: nat, count: nat): nat
    requires n > 0
  {
    if count == 0 then cursor else Place(cursor, n, Min(CAP, count))
  }

  function Pick(cursors: Cursors, n: nat, before: seq<Monitor>, m: Monitor): (pick: int)
    requires n > 0
    ensures REJECTED <= pick < n
  {
    PickAt(Cursor(cursors, m.domain), n, Count(before, m.domain))
  }

  /** The picks of a whole batch, one per monitor: a node index or REJECTED. */
  function Picks(cursors: Cursors, n: nat, ms: seq<Monitor>): (picks: seq<int>)
    requires n > 0
    ensures |picks| == |ms|
    ensures forall i :: 0 <= i < |picks| ==> REJECTED <= picks[i] < n
  {
    if ms == [] then []
    else
      var init, last := ms[..|ms| - 1], ms[|ms| - 1];
      Picks(cursors, n, init) + [Pick(cursors, n, init, last)]
  }

  /** What a batch leaves behind: every domain's cursor in closed form. An absent cursor reads as 0. */
  ghost predicate Moved(cursors: Cursors, cursors': Cursors, n: nat, ms: seq<Monitor>)
    requires n > 0
  {
    forall d :: Cursor(cursors', d) == CursorAt(Cursor(cursors, d), n, Count(ms, d))
  }

  /** Pick i stands: it was accepted and no later pick takes the same node. */
  ghost predicate Stands(picks: seq<int>, i: nat) {
    i < |picks| && picks[i] != REJECTED && forall j :: i < j < |picks| ==> picks[j] != picks[i]
  }

  /** Every node keeps the last monitor picked for it, and only picked nodes have one. */
  ghost predicate IsAssignment(a: map<string, Monitor>, nodes: seq<string>, ms: seq<Monitor>, picks: seq<int>)
    requires |picks| == |ms| && forall i :: 0 <= i < |picks| ==> REJECTED <= picks[i] < |nodes|
  {
    && (forall i: nat :: Stands(picks, i) ==> nodes[picks[i]] in a && a[nodes[picks[i]]] == ms[i])
    && (forall p :: p in a ==> exists i: nat :: Stands(picks, i) && nodes[picks[i]] == p)
  }

  ghost predicate Distinct(nodes: seq<string>) {
    forall i, j :: 0 <= i < j < |nodes| ==> nodes[i] != nodes[j]
  }

  /** No two monitors of a batch share their id, the primary key of their table. */
  ghost predicate DistinctIds(ms: seq<Monitor>) {
    forall i, j :: 0 <= i < j < |ms| ==> ms[i].id != ms[j].id
  }

  /** One more pick takes its node from whoever held it, or changes nothing. */
  lemma AssignmentStep(a: map<string, Monitor>, nodes: seq<string>, ms: seq<Monitor>, picks: seq<int>, m: Monitor, pick: int)
    requires Distinct(nodes) && |picks| == |ms| && REJECTED <= pick < |nodes|
    requires forall i :: 0 <= i < |picks| ==> REJECTED <= picks[i] < |nodes|
    requires IsAssignment(a, nodes, ms, picks)
    ensures IsAssignment(if pick == REJECTED then a else a[nodes[pick] := m], nodes, ms + [m], picks + [pick])
  {
    var picks', b := picks + [pick], if pick == REJECTED then a else a[nodes[pick] := m];
    forall i: nat
      ensures Stands(picks', i) <==> if i == |picks| then pick != REJECTED else Stands(picks, i) && picks[i] != pick
    {
      if i < |picks| && Stands(picks', i) {
        assert picks'[|picks|] == pick;
        assert forall j :: i < j < |picks| ==> picks'[j] == picks[j];
      }
    }
    forall p | p in b ensures exists i: nat :: Stands(picks', i) && nodes[picks'[i]] == p {
      if pick != REJECTED && p == nodes[pick] {
        assert Stands(picks', |picks|);
      } else {
        var i: nat :| Stands(picks, i) && nodes[picks[i]] == p;
        assert Stands(picks', i);
      }
    }
  }

  /** The cursor before a pick points at the node picked, and after it at the next one round. */
  lemma CursorAtStep(cursor: nat, n: nat, j: nat)
    requires n > 0
    ensures j < CAP ==> Wrap(CursorAt(cursor, n, j), n) == PickAt(cursor, n, j)
    ensures j < CAP ==> CursorAt(cursor, n, j + 1) == Wrap(PickAt(cursor, n, j) + 1, n)
    ensures j >= CAP ==> CursorAt(cursor, n, j + 1) == CursorAt(cursor, n, j)
  {
    ModAbsorb(cursor, 0, n);
    ModAbsorb(cursor % n + j, 0, n);
    ModAbsorb(cursor % n + j, 1, n);
  }

  lemma CountAfter(ms: seq<Monitor>, m: Monitor, domain: string)
    ensures Count(ms + [m], domain) == Count(ms, domain) + (if m.domain == domain then 1 else 0)
  {
    assert (ms + [m])[..|ms|] == ms;
  }

  /** One more monitor moves its own domain's cursor past the node picked, unless the cap turns it away. */
  lemma MovedStep(cursors: Cursors, cursors': Cursors, n: nat, ms: seq<Monitor>, m: Monitor)
    requires n > 0 && Moved(cursors, cursors', n, ms)
    ensures var pick := Pick(cursors, n, ms, m);
            && (pick == REJECTED ==> Moved(cursors, cursors', n, ms + [m]))
            && (pick != REJECTED ==>
                  && pick == Wrap(Cursor(cursors', m.domain), n)
                  && Moved(cursors, cursors'[m.domain := Wrap(pick + 1, n)], n, ms + [m]))
  {
    CursorAtStep(Cursor(cursors, m.domain), n, Count(ms, m.domain));
    hide CursorAt, Place, Wrap, Count;
    forall d ensures Count(ms + [m], d) == Count(ms, d) + (if m.domain == d then 1 else 0) {
      CountAfter(ms, m, d);
    }
  }

  /** The loop's own tally per domain stops at the cap. */
  ghost predicate Counted(counts: map<string, nat>, ms: seq<Monitor>) {
    forall d :: Cursor(counts, d) == Taken(ms, d)
  }

  lemma TakenAfter(ms: seq<Monitor>, m: Monitor, domain: string)
    ensures Taken(ms + [m], domain) == if m.domain == domain then Min(CAP, Taken(ms, domain) + 1) else Taken(ms, domain)
    ensures Taken(ms, domain) <= CAP
  {
    CountAfter(ms, m, domain);
    hide Count;
  }

  lemma CountedStep(counts: map<string, nat>, ms: seq<Monitor>, m: Monitor)
    requires Counted(counts, ms)
    ensures Cursor(counts, m.domain) >= CAP ==> Counted(counts, ms + [m])
    ensures Cursor(counts, m.domain) < CAP ==> Counted(counts[m.domain := Cursor(counts, m.domain) + 1], ms + [m])
  {
    hide Taken, Count;
    forall d
      ensures Taken(ms + [m], d) == if d == m.domain then Min(CAP, Cursor(counts, d) + 1) else Cursor(counts, d)
      ensures Cursor(counts, d) <= CAP
    {
      assert Cursor(counts, d) == Taken(ms, d);
      TakenAfter(ms, m, d);
    }
  }

  /** What the loop holds after the monitors ms, in closed form of the cursors it started from. */
  ghost predicate Progress(start: Cursors, nodes: seq<string>, ms: seq<Monitor>,
                           counts: map<string, nat>, cursors: Cursors, assignments: map<string, Monitor>)
    requires nodes != []
  {
    && Counted(counts, ms)
    && Moved(start, cursors, |nodes|, ms)
    && IsAssignment(assignments, nodes, ms, Picks(start, |nodes|, ms))
  }

  lemma ProgressStarts(start: Cursors, nodes: seq<string>)
    requires nodes != []
    ensures Progress(start, nodes, [], map[], start, map[])
  {}

  lemma ProgressEnds(start: Cursors, nodes: seq<string>, ms: seq<Monitor>,
                     counts: map<string, nat>, cursors: Cursors, assignments: map<string, Monitor>)
    requires nodes != [] && Progress(start, nodes, ms, counts, cursors, assignments)
    ensures IsAssignment(assignments, nodes, ms, Picks(start, |nodes|, ms)) && Moved(start, cursors, |nodes|, ms)
  {
    hide IsAssignment, Moved, Counted, Picks;
  }

  lemma PicksAfter(start: Cursors, n: nat, ms: seq<Monitor>, m: Monitor)
    requires n > 0
    ensures Picks(start, n, ms + [m]) == Picks(start, n, ms) + [Pick(start, n, ms, m)]
  {
    assert (ms + [m])[..|ms|] == ms;
    hide Pick;
  }

  lemma TurnedAway(start: Cursors, n: nat, counts: map<string, nat>, ms: seq<Monitor>, m: Monitor)
    requires n > 0 && Counted(counts, ms)
    ensures Pick(start, n, ms, m) == REJECTED <==> Cursor(counts, m.domain) >= CAP
  {
    assert Cursor(counts, m.domain) == Taken(ms, m.domain);
    hide Place, Count;
  }

  /** One iteration of the loop. */
  lemma ProgressStep(start: Cursors, nodes: seq<string>, ms: seq<Monitor>,
                     counts: map<string, nat>, cursors: Cursors, assignments: map<string, Monitor>, m: Monitor)
    requires nodes != [] && Distinct(nodes) && Progress(start, nodes, ms, counts, cursors, assignments)
    ensures var domainCount, idx := Cursor(counts, m.domain), Wrap(Cursor(cursors, m.domain), |nodes|);
            if domainCount >= CAP then Progress(start, nodes, ms + [m], counts, cursors, assignments)
            else Progress(start, nodes, ms + [m], counts[m.domain := domainCount + 1],
                          cursors[m.domain := Wrap(idx + 1, |nodes|)], assignments[nodes[idx] := m])
  {
    hide Pick, Wrap, Cursor, Picks, Counted, Moved, IsAssignment, Distinct;
    var n := |nodes|;
    PicksAfter(start, n, ms, m);
    TurnedAway(start, n, counts, ms, m);
    CountedStep(counts, ms, m);
    MovedStep(start, cursors, n, ms, m);
    AssignmentStep(assignments, nodes, ms, Picks(start, n, ms), m, Pick(start, n, ms, m));
  }

  /** One call of MatchBatch: the cursors it found, the listing it used and the monitors it was given. */
  datatype Call = Call(cursors: Cursors, nodes: seq<string>, monitors: seq<Monitor>)

  /** The calls came one after the other, each finding the cursors the last one left, and cursors are those left now. */
  ghost predicate Chained(calls: seq<Call>, cursors: Cursors) {
    if calls == [] then true
    else
      var last := calls[|calls| - 1];
      && (if last.nodes == [] then cursors == last.cursors else Moved(last.cursors, cursors, |last.nodes|, last.monitors))
      && Chained(calls[..|calls| - 1], last.cursors)
  }

  class SmartScheduler {
    const registry: MemoryRegistry
    var domainNodeIdx: Cursors
    ghost var calls: seq<Call>

    ghost predicate Valid()
      reads this
    {
      Chained(calls, domainNodeIdx)
    }

    constructor (registry: MemoryRegistry)
      ensures Valid() && this.registry == registry && domainNodeIdx == map[] && calls == []
    {
      this.registry := registry;
      domainNodeIdx := map[];
      calls := [];
    }

    /** Matches a batch against the nodes online now. The ghost result is the listing used, whose order is arbitrary. */
    method MatchBatch(monitors: seq<Monitor>, now: int)
      returns (assignments: map<string, Monitor>, ghost nodes: seq<string>)
      requires Valid() && registry.Valid() && Chronological(registry.history, now)
      modifies this
      ensures Valid() && calls == old(calls) + [Call(old(domainNodeIdx), nodes, monitors)]
      ensures Distinct(nodes)
      ensures forall p :: p in nodes <==> Listed(registry.nodes, p, now)
      ensures nodes == [] ==> assignments == map[] && domainNodeIdx == old(domainNodeIdx)
      ensures nodes != [] ==>
                && IsAssignment(assignments, nodes, monitors, Picks(old(domainNodeIdx), |nodes|, monitors))
                && Moved(old(domainNodeIdx), domainNodeIdx, |nodes|, monitors)
    {
      hide Progress, Wrap, Picks, IsAssignment, Moved, Chained;
      assignments := map[];
      var onlineNodes := registry.GetOnlineNodes(now);
      nodes := Pubkeys(onlineNodes);
      if |onlineNodes| == 0 {
        OneMoreCall(calls, domainNodeIdx, domainNodeIdx, nodes, monitors);
        calls := calls + [Call(domainNodeIdx, nodes, monitors)];
        return;
      }
      var n := |onlineNodes|;
      var domainCounts: map<string, nat> := map[];
      ghost var before := domainNodeIdx;
      ProgressStarts(before, nodes);
      for k := 0 to |monitors|
        invariant Progress(before, nodes, monitors[..k], domainCounts, domainNodeIdx, assignments)
        invariant calls == old(calls)
      {
        var m := monitors[k];
        ProgressStep(before, nodes, monitors[..k], domainCounts, domainNodeIdx, assignments, m);
        assert monitors[..k + 1] == monitors[..k] + [m];
        var domainCount := Cursor(domainCounts, m.domain);
        if domainCount >= CAP {
          continue;
        }
        var idx := Wrap(Cursor(domainNodeIdx, m.domain), n);
        var picked := onlineNodes[idx];
        domainNodeIdx := domainNodeIdx[m.domain := Wrap(idx + 1, n)];
        assignments := assignments[picked.pubkey := m];
        domainCounts := domainCounts[m.domain := domainCount + 1];
      }
      assert monitors[..|monitors|] == monitors;
      ProgressEnds(before, nodes, monitors, domainCounts, domainNodeIdx, assignments);
      OneMoreCall(calls, before, domainNodeIdx, nodes, monitors);
      calls := calls + [Call(before, nodes, monitors)];
    }
  }

  lemma OneMoreCall(calls: seq<Call>, before: Cursors, after: Cursors, nodes: seq<string>, monitors: seq<Monitor>)
    requires Chained(calls, before)
    requires if nodes == [] then after == before else Moved(before, after, |nodes|, monitors)
    ensures Chained(calls + [Call(before, nodes, monitors)], after)
  {
    assert (calls + [Call(before, nodes, monitors)])[..|calls|] == calls;
    hide Moved;
  }

  ghost function Pubkeys(nodes: seq<ActiveNode>): (keys: seq<string>)
    ensures |keys| == |nodes| && forall i :: 0 <= i < |keys| ==> keys[i] == nodes[i].pubkey
  {
    seq(|nodes|, i requires 0 <= i < |nodes| => nodes[i].pubkey)
  }
}
