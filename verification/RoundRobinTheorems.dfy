/** What MatchBatch guarantees: the closed form of every pick, fairness over any number of batches, and how many nodes
    end up with a job although later picks of a node overwrite earlier ones. */
module RoundRobinTheorems {
  import opened Arithmetic
  import opened Common
  import opened RoundRobin

  /** The pick of monitor i depends only on how many of its domain precede it. */
  lemma {:induction false} PickAtEach(cursors: Cursors, n: nat, ms: seq<Monitor>, i: nat)
    requires n > 0 && i < |ms|
    ensures Picks(cursors, n, ms)[i] == PickAt(Cursor(cursors, ms[i].domain), n, Count(ms[..i], ms[i].domain))
  {
    if i < |ms| - 1 {
      PickAtEach(cursors, n, ms[..|ms| - 1], i);
      assert ms[..|ms| - 1][..i] == ms[..i];
    }
  }

  /** The j-th monitor of a domain in a batch goes j places after the domain's cursor, round the listing, if j is below five. */
  lemma PickOfEach(cursors: Cursors, n: nat, ms: seq<Monitor>, i: nat)
    requires n > 0 && i < |ms|
    ensures var cursor, j := Cursor(cursors, ms[i].domain), Count(ms[..i], ms[i].domain);
            Picks(cursors, n, ms)[i] == if j < 5 then (cursor + j) % n else REJECTED
  {
    PickAtEach(cursors, n, ms, i);
    hide Picks, Count, Cursor;
    ModAbsorb(Cursor(cursors, ms[i].domain), Count(ms[..i], ms[i].domain), n);
  }

  /** How often a batch picks node p for a domain. */
  function PickCount(cursors: Cursors, n: nat, ms: seq<Monitor>, domain: string, p: nat): nat
    requires n > 0
  {
    if ms == [] then 0
    else
      var init, last := ms[..|ms| - 1], ms[|ms| - 1];
      PickCount(cursors, n, init, domain, p)
      + (if last.domain == domain && Pick(cursors, n, init, last) == p then 1 else 0)
  }

  /** How many of the first length places after a cursor are p. */
  function Hits(cursor: nat, length: nat, n: nat, p: nat): nat
    requires n > 0
  {
    if length == 0 then 0
    else Hits(cursor, length - 1, n, p) + (if Place(cursor, n, length - 1) == p then 1 else 0)
  }

  /** A batch serves a domain with one run of consecutive places that begins at the domain's cursor. */
  lemma {:induction false} PicksAreConsecutive(cursors: Cursors, n: nat, ms: seq<Monitor>, domain: string, p: nat)
    requires p < n
    ensures PickCount(cursors, n, ms, domain, p) == Hits(Cursor(cursors, domain), Taken(ms, domain), n, p)
  {
    hide Place;
    if ms != [] {
      PicksAreConsecutive(cursors, n, ms[..|ms| - 1], domain, p);
    }
  }

  /** Reducing the cursor first changes no place. */
  lemma PlaceOfSum(cursor: nat, n: nat, j: nat)
    requires n > 0
    ensures Place(cursor, n, j) == (cursor + j) % n
  {
    ModAbsorb(cursor, j, n);
  }

  lemma WrapAbsorb(x: nat, y: nat, n: nat)
    requires n > 0
    ensures Wrap(Wrap(x, n) + y, n) == Wrap(x + y, n)
  {
    ModAbsorb(x, y, n);
  }

  /** Places after a batch continue where the batch stopped. */
  lemma PlaceAfter(cursor: nat, n: nat, a: nat, b: nat)
    requires n > 0
    ensures Place(Place(cursor, n, a), n, b) == Place(cursor, n, a + b)
  {
    hide Wrap;
    WrapAbsorb(Place(cursor, n, a), b, n);
    WrapAbsorb(Wrap(cursor, n) + a, b, n);
  }

  /** Runs of places join end to end. */
  lemma {:induction false} HitsJoin(cursor: nat, a: nat, b: nat, n: nat, p: nat)
    requires n > 0
    ensures Hits(cursor, a, n, p) + Hits(Place(cursor, n, a), b, n, p) == Hits(cursor, a + b, n, p)
  {
    hide Place;
    if b != 0 {
      HitsJoin(cursor, a, b - 1, n, p);
      PlaceAfter(cursor, n, a, b - 1);
    }
  }

  function Quotient(x: int, n: nat): int
    requires n > 0
  {
    x / n
  }

  /** A place is p exactly when the quotients around it step. */
  lemma HitStep(cursor: nat, t: nat, n: nat, p: nat)
    requires p < n
    ensures (if Place(cursor, n, t) == p then 1 else 0) == Quotient(cursor + t - p, n) - Quotient(cursor + t - p - 1, n)
  {
    PlaceOfSum(cursor, n, t);
    hide Place;
    DivStep(cursor + t - p - 1, n);
    SameResidue(cursor + t, p, n);
  }

  lemma {:induction false} HitsClosedForm(cursor: nat, length: nat, n: nat, p: nat)
    requires p < n
    ensures Hits(cursor, length, n, p) == Quotient(cursor + length - p - 1, n) - Quotient(cursor - p - 1, n)
  {
    hide Quotient, Place;
    if length != 0 {
      HitsClosedForm(cursor, length - 1, n, p);
      HitStep(cursor, length - 1, n, p);
    }
  }

  /** Widening a quotient's window by a length moves it by the length's own quotient, or one more. */
  lemma QuotientWindow(a: int, length: nat, n: nat)
    requires n > 0
    ensures Quotient(length, n) <= Quotient(a + length, n) - Quotient(a, n) <= Quotient(length, n) + 1
  {
    var q, r := length / n, length % n;
    assert a + length == a + r + n * q;
    AddMultiple(a + r, n, q);
    DivMono(a, a + r, n);
    DivMono(a + r, a + n * 1, n);
    AddMultiple(a, n, 1);
  }

  /** Any run visits every node its share of times, rounded down or up. */
  lemma HitsShare(cursor: nat, length: nat, n: nat, p: nat)
    requires p < n
    ensures Quotient(length, n) <= Hits(cursor, length, n, p) <= Quotient(length, n) + 1
  {
    hide Quotient, Place;
    HitsClosedForm(cursor, length, n, p);
    QuotientWindow(cursor - p - 1, length, n);
  }

  /** Only the domain's own cursor matters for its picks. */
  lemma PicksFollowCursor(a: Cursors, b: Cursors, n: nat, ms: seq<Monitor>, domain: string, p: nat)
    requires p < n && Cursor(a, domain) == Cursor(b, domain)
    ensures PickCount(a, n, ms, domain, p) == PickCount(b, n, ms, domain, p)
  {
    PicksAreConsecutive(a, n, ms, domain, p);
    PicksAreConsecutive(b, n, ms, domain, p);
  }

  /** The picks of a domain's node p over a sequence of calls. */
  ghost function TotalPicks(calls: seq<Call>, n: nat, domain: string, p: nat): nat
    requires n > 0
  {
    if calls == [] then 0
    else
      var last := calls[|calls| - 1];
      TotalPicks(calls[..|calls| - 1], n, domain, p) + PickCount(last.cursors, n, last.monitors, domain, p)
  }

  function TotalTaken(calls: seq<Call>, domain: string): nat {
    if calls == [] then 0 else TotalTaken(calls[..|calls| - 1], domain) + Taken(calls[|calls| - 1].monitors, domain)
  }

  /** The cursors a sequence of calls began with. */
  function First(calls: seq<Call>, cursors: Cursors): Cursors {
    if calls == [] then cursors else calls[0].cursors
  }

  /** All calls used listings of n nodes. */
  ghost predicate SameListing(calls: seq<Call>, n: nat) {
    forall i :: 0 <= i < |calls| ==> |calls[i].nodes| == n
  }

  /** Runs of places depend on their cursor only modulo the number of nodes. */
  lemma {:induction false} HitsOfWrap(a: nat, b: nat, length: nat, n: nat, p: nat)
    requires n > 0 && Wrap(a, n) == Wrap(b, n)
    ensures Hits(a, length, n, p) == Hits(b, length, n, p) && Place(a, n, length) == Place(b, n, length)
  {
    hide Wrap;
    if length != 0 {
      HitsOfWrap(a, b, length - 1, n, p);
    }
  }

  lemma WrapOfWrap(x: nat, n: nat)
    requires n > 0
    ensures Wrap(Wrap(x, n), n) == Wrap(x, n)
  {
    WrapAbsorb(x, 0, n);
  }

  lemma WrapCursorAt(cursor: nat, n: nat, count: nat)
    requires n > 0
    ensures Wrap(CursorAt(cursor, n, count), n) == Place(cursor, n, Min(CAP, count))
  {
    hide Wrap;
    WrapOfWrap(cursor, n);
    WrapOfWrap(Wrap(cursor, n) + Min(CAP, count), n);
  }

  /** Over any sequence of calls a domain is served by one unbroken run of places, and its cursor stands where the run
      stopped. */
  lemma {:induction false} BatchesAreConsecutive(calls: seq<Call>, cursors: Cursors, n: nat, domain: string, p: nat)
    requires p < n && Chained(calls, cursors) && SameListing(calls, n)
    ensures var cursor := Cursor(First(calls, cursors), domain);
            && TotalPicks(calls, n, domain, p) == Hits(cursor, TotalTaken(calls, domain), n, p)
            && Wrap(Cursor(cursors, domain), n) == Place(cursor, n, TotalTaken(calls, domain))
  {
    var cursor := Cursor(First(calls, cursors), domain);
    if calls == [] {
      hide Wrap;
      WrapOfWrap(cursor, n);
    } else {
      var init, last := calls[..|calls| - 1], calls[|calls| - 1];
      BatchesAreConsecutive(init, last.cursors, n, domain, p);
      PicksAreConsecutive(last.cursors, n, last.monitors, domain, p);
      LastCall(calls, cursors, n, domain);
      hide CursorAt, Place, Count, PickCount, Hits, Wrap, Chained, Moved;
      var stood, stopped := Cursor(last.cursors, domain), Place(cursor, n, TotalTaken(init, domain));
      WrapOfPlace(cursor, n, TotalTaken(init, domain));
      HitsOfWrap(stood, stopped, Taken(last.monitors, domain), n, p);
      HitsJoin(cursor, TotalTaken(init, domain), Taken(last.monitors, domain), n, p);
      PlaceAfter(cursor, n, TotalTaken(init, domain), Taken(last.monitors, domain));
      WrapCursorAt(stood, n, Count(last.monitors, domain));
    }
  }

  lemma WrapOfPlace(cursor: nat, n: nat, j: nat)
    requires n > 0
    ensures Wrap(Place(cursor, n, j), n) == Place(cursor, n, j)
  {
    WrapOfWrap(Wrap(cursor, n) + j, n);
    hide Wrap;
  }

  lemma LastCall(calls: seq<Call>, cursors: Cursors, n: nat, domain: string)
    requires calls != [] && n > 0 && Chained(calls, cursors) && SameListing(calls, n)
    ensures var init, last := calls[..|calls| - 1], calls[|calls| - 1];
            && Chained(init, last.cursors) && SameListing(init, n) && First(init, last.cursors) == First(calls, cursors)
            && Cursor(cursors, domain) == CursorAt(Cursor(last.cursors, domain), n, Count(last.monitors, domain))
  {
    hide CursorAt, Count;
  }

  /** Fairness: over any sequence of calls with listings of one size, the picks of a domain on any two places differ by at most
      one. */
  lemma Fairness(calls: seq<Call>, cursors: Cursors, n: nat, domain: string, p: nat, q: nat)
    requires p < n && q < n && Chained(calls, cursors) && SameListing(calls, n)
    ensures TotalPicks(calls, n, domain, p) <= TotalPicks(calls, n, domain, q) + 1
  {
    hide Quotient, Place, Hits, Chained, SameListing;
    var cursor, taken := Cursor(First(calls, cursors), domain), TotalTaken(calls, domain);
    BatchesAreConsecutive(calls, cursors, n, domain, p);
    BatchesAreConsecutive(calls, cursors, n, domain, q);
    HitsShare(cursor, taken, n, p);
    HitsShare(cursor, taken, n, q);
  }

  lemma {:induction false} ChainedUntil(calls: seq<Call>, cursors: Cursors, b: nat) returns (between: Cursors)
    requires Chained(calls, cursors) && b <= |calls|
    ensures Chained(calls[..b], between)
  {
    if b == |calls| {
      assert calls[..b] == calls;
      between := cursors;
    } else {
      between := ChainedUntil(calls[..|calls| - 1], calls[|calls| - 1].cursors, b);
      assert calls[..|calls| - 1][..b] == calls[..b];
    }
  }

  lemma {:induction false} ChainedFrom(calls: seq<Call>, cursors: Cursors, a: nat)
    requires Chained(calls, cursors) && a <= |calls|
    ensures Chained(calls[a..], cursors)
  {
    if a < |calls| {
      var init := calls[..|calls| - 1];
      ChainedFrom(init, calls[|calls| - 1].cursors, a);
      assert calls[a..][..|calls| - a - 1] == init[a..];
    }
  }

  /** Fairness of the scheduler itself: over any stretch of its calls in which the listing did not change, the picks of a domain
      on any two nodes differ by at most one. */
  lemma CallsAreFair(smart: SmartScheduler, a: nat, b: nat, listing: seq<string>, domain: string, p: nat, q: nat)
    requires smart.Valid() && a <= b <= |smart.calls| && p < |listing| && q < |listing|
    requires forall i :: a <= i < b ==> smart.calls[i].nodes == listing
    ensures TotalPicks(smart.calls[a..b], |listing|, domain, p) <= TotalPicks(smart.calls[a..b], |listing|, domain, q) + 1
  {
    var between := ChainedUntil(smart.calls, smart.domainNodeIdx, b);
    ChainedFrom(smart.calls[..b], between, a);
    assert smart.calls[..b][a..] == smart.calls[a..b];
    hide Chained, TotalPicks;
    Fairness(smart.calls[a..b], between, |listing|, domain, p, q);
  }

  /** Monitors the caps let through. */
  function AcceptedCount(picks: seq<int>): nat {
    if picks == [] then 0
    else AcceptedCount(picks[..|picks| - 1]) + (if picks[|picks| - 1] != REJECTED then 1 else 0)
  }

  lemma TakenOfOneMore(ms: seq<Monitor>, domain: string)
    requires ms != []
    ensures var init, last := ms[..|ms| - 1], ms[|ms| - 1];
            Taken(ms, domain) == Taken(init, domain) + (if last.domain == domain && Count(init, domain) < CAP then 1 else 0)
  {}

  /** The caps let the first five monitors of every domain through: over all domains the sum of min(5, count). */
  lemma {:induction false} AcceptedIsTotalTaken(cursors: Cursors, n: nat, ms: seq<Monitor>, domains: set<string>)
    requires n > 0 && forall m :: m in ms ==> m.domain in domains
    ensures AcceptedCount(Picks(cursors, n, ms)) == SumOver(domains, d => Taken(ms, d))
  {
    if ms == [] {
      SumOverZero(domains, d => Taken(ms, d));
    } else {
      var init, last := ms[..|ms| - 1], ms[|ms| - 1];
      AcceptedIsTotalTaken(cursors, n, init, domains);
      forall d ensures Taken(ms, d) == Taken(init, d) + (if last.domain == d && Count(init, d) < CAP then 1 else 0) {
        TakenOfOneMore(ms, d);
      }
      SumOverBump(domains, d => Taken(init, d), d => Taken(ms, d), last.domain);
      var picks := Picks(cursors, n, ms);
      assert picks == Picks(cursors, n, init) + [Pick(cursors, n, init, last)];
      assert picks[..|picks| - 1] == Picks(cursors, n, init);
      hide Picks, Taken, Place, Count;
    }
  }

  /** A pick that is not the last of its node is followed by the one that is. */
  lemma {:induction false} SomePickStands(picks: seq<int>, i: nat)
    requires i < |picks| && picks[i] != REJECTED
    ensures exists j: nat :: Stands(picks, j) && picks[j] == picks[i]
    decreases |picks| - i
  {
    if !Stands(picks, i) {
      var j :| i < j < |picks| && picks[j] == picks[i];
      SomePickStands(picks, j);
    }
  }

  /** Distinct nodes hold distinct monitors, so a batch dispatches no monitor twice. */
  lemma NodesHoldDistinctMonitors(a: map<string, Monitor>, nodes: seq<string>, ms: seq<Monitor>, picks: seq<int>,
                                  p: string, q: string)
    requires |picks| == |ms| && forall i :: 0 <= i < |picks| ==> REJECTED <= picks[i] < |nodes|
    requires IsAssignment(a, nodes, ms, picks) && DistinctIds(ms)
    requires p in a && q in a && p != q
    ensures a[p].id != a[q].id && a[p] in ms
  {
    var i: nat :| Stands(picks, i) && nodes[picks[i]] == p;
    var j: nat :| Stands(picks, j) && nodes[picks[j]] == q;
    assert i != j;
  }

  /** Neither more nodes than are online nor more than the monitors the caps accept are given work. */
  lemma AssignmentUpperBound(a: map<string, Monitor>, nodes: seq<string>, ms: seq<Monitor>, picks: seq<int>)
    requires |picks| == |ms| && forall i :: 0 <= i < |picks| ==> REJECTED <= picks[i] < |nodes|
    requires IsAssignment(a, nodes, ms, picks)
    ensures |a| <= |nodes| && |a| <= AcceptedCount(picks)
  {
    var all := set p | p in nodes;
    assert a.Keys <= all;
    SubsetSize(a.Keys, all);
    ElementCount(nodes);
    var picked := PickedNodes(nodes, picks);
    assert a.Keys <= picked;
    SubsetSize(a.Keys, picked);
  }

  lemma {:induction false} ElementCount(nodes: seq<string>)
    ensures |set p | p in nodes| <= |nodes|
  {
    if nodes != [] {
      ElementCount(nodes[1..]);
      assert (set p | p in nodes) == {nodes[0]} + (set p | p in nodes[1..]);
    }
  }

  ghost function PickedNodes(nodes: seq<string>, picks: seq<int>): (s: set<string>)
    requires forall i :: 0 <= i < |picks| ==> REJECTED <= picks[i] < |nodes|
    ensures forall i :: 0 <= i < |picks| && picks[i] != REJECTED ==> nodes[picks[i]] in s
    ensures |s| <= AcceptedCount(picks)
  {
    if picks == [] then {}
    else
      var init, last := picks[..|picks| - 1], picks[|picks| - 1];
      if last == REJECTED then PickedNodes(nodes, init) else PickedNodes(nodes, init) + {nodes[last]}
  }

  /** The nodes at the first k places after a cursor. */
  ghost function NodesOfRun(cursor: nat, k: nat, nodes: seq<string>): set<string>
    requires nodes != []
  {
    set t: nat | t < k :: nodes[Place(cursor, |nodes|, t)]
  }

  /** Places less than n apart differ. */
  lemma PlacesDiffer(cursor: nat, n: nat, s: nat, t: nat)
    requires s < t < s + n
    ensures Place(cursor, n, s) != Place(cursor, n, t)
  {
    PlaceOfSum(cursor, n, s);
    PlaceOfSum(cursor, n, t);
    hide Place;
    if (cursor + s) % n == (cursor + t) % n {
      SamePlace(cursor + s, cursor + t, n);
    }
  }

  /** The first k places, k at most the number of nodes, are k different nodes. */
  lemma {:induction false} RunSize(cursor: nat, k: nat, nodes: seq<string>)
    requires k <= |nodes| && nodes != [] && Distinct(nodes)
    ensures |NodesOfRun(cursor, k, nodes)| == k
  {
    hide Place;
    if k != 0 {
      RunSize(cursor, k - 1, nodes);
      var here := nodes[Place(cursor, |nodes|, k - 1)];
      forall t: nat | t < k - 1 ensures nodes[Place(cursor, |nodes|, t)] != here {
        PlacesDiffer(cursor, |nodes|, t, k - 1);
      }
      assert NodesOfRun(cursor, k, nodes) == NodesOfRun(cursor, k - 1, nodes) + {here};
    }
  }

  /** The k-th monitor of a domain, counted from zero, is where its prefix count says. */
  lemma {:induction false} IndexOfCount(ms: seq<Monitor>, domain: string, k: nat) returns (i: nat)
    requires k < Count(ms, domain)
    ensures i < |ms| && ms[i].domain == domain && Count(ms[..i], domain) == k
  {
    var init := ms[..|ms| - 1];
    if k < Count(init, domain) {
      i := IndexOfCount(init, domain, k);
      assert init[..i] == ms[..i];
    } else {
      i := |ms| - 1;
    }
  }

  /** The node at each of the first min(5, count) places after a domain's cursor gets a job. */
  lemma PlaceIsAssigned(a: map<string, Monitor>, cursors: Cursors, nodes: seq<string>, ms: seq<Monitor>,
                        domain: string, t: nat)
    requires nodes != [] && t < Taken(ms, domain)
    requires IsAssignment(a, nodes, ms, Picks(cursors, |nodes|, ms))
    ensures nodes[Place(Cursor(cursors, domain), |nodes|, t)] in a
  {
    hide Place, Picks;
    var i := IndexOfCount(ms, domain, t);
    PickAtEach(cursors, |nodes|, ms, i);
    SomePickStands(Picks(cursors, |nodes|, ms), i);
  }

  /** At least min(5, count, nodes) nodes get a job, whichever domain is counted. */
  lemma AssignmentLowerBound(a: map<string, Monitor>, cursors: Cursors, nodes: seq<string>, ms: seq<Monitor>, domain: string)
    requires nodes != [] && Distinct(nodes)
    requires IsAssignment(a, nodes, ms, Picks(cursors, |nodes|, ms))
    ensures |a| >= Min(Min(5, Count(ms, domain)), |nodes|)
  {
    hide Place, Picks, Count, IsAssignment;
    var cursor, k := Cursor(cursors, domain), Min(Taken(ms, domain), |nodes|);
    RunSize(cursor, k, nodes);
    forall p | p in NodesOfRun(cursor, k, nodes) ensures p in a {
      var t: nat :| t < k && p == nodes[Place(cursor, |nodes|, t)];
      PlaceIsAssigned(a, cursors, nodes, ms, domain, t);
    }
    SubsetSize(NodesOfRun(cursor, k, nodes), a.Keys);
  }

  /** With any node online and any monitor in the batch, at least one monitor is assigned. */
  lemma SomeoneIsAssigned(a: map<string, Monitor>, cursors: Cursors, nodes: seq<string>, ms: seq<Monitor>)
    requires nodes != [] && Distinct(nodes) && ms != []
    requires IsAssignment(a, nodes, ms, Picks(cursors, |nodes|, ms))
    ensures a != map[]
  {
    var domain := ms[|ms| - 1].domain;
    hide IsAssignment, Picks, Place;
    assert Taken(ms, domain) >= 1;
    AssignmentLowerBound(a, cursors, nodes, ms, domain);
  }
}
