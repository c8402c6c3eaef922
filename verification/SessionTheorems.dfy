/** What the session map, the channels and the dispatcher keep over every interleaving. */
module SessionTheorems {
  import opened Common
  import opened SessionModel

  /** Every map entry belongs to a session that authenticated as its key and has not left the map. */
  ghost predicate MapSound(s: State) {
    && (forall owner :: owner in s.miners ==>
          && s.miners[owner] in s.sessions && s.sessions[s.miners[owner]].owner == owner
          && s.sessions[s.miners[owner]].phase.InMap())
    && (s.dispatcher.Found? ==> s.dispatcher.target in s.sessions)
  }

  lemma MapStep(s: State, step: Step)
    requires MapSound(s) && Enabled(s, step)
    ensures MapSound(Apply(s, step))
  {}

  /** A session's jobs: in queue order, all for its owner, all acknowledged, and never more than the channel holds. */
  ghost predicate JobsSound(x: Session, queue: seq<Delivery>, verdicts: seq<Verdict>) {
    && |x.channel| <= CHANNEL && |x.lost| <= 1
    && (x.phase.Handshaking? || x.phase.Authenticated? ==> x.Pushed() == [])
    && Increasing(x.Pushed())
    && (forall d :: d in x.Pushed() ==> d < |verdicts| && d < |queue| && queue[d] == Job(x.owner) && verdicts[d] == Ack)
  }

  predicate Increasing(ds: seq<nat>) {
    forall i, j :: 0 <= i < j < |ds| ==> ds[i] < ds[j]
  }

  ghost predicate AllJobsSound(s: State) {
    forall a :: a in s.sessions ==> JobsSound(s.sessions[a], s.queue, s.verdicts)
  }

  /** No delivery went to two sessions. */
  ghost predicate Exclusive(s: State) {
    forall a, b, d :: a in s.sessions && b in s.sessions && d in s.sessions[a].Pushed() && d in s.sessions[b].Pushed() ==> a == b
  }

  /** A job was acknowledged exactly when some session got it. */
  ghost predicate Tallied(s: State) {
    && |s.verdicts| <= |s.queue|
    && (forall d :: 0 <= d < |s.verdicts| ==>
          (s.verdicts[d] == Ack && s.queue[d].Job? <==> exists a :: a in s.sessions && d in s.sessions[a].Pushed()))
  }

  /** The session looked up belongs to the delivery in hand. */
  ghost predicate Targeted(s: State) {
    s.dispatcher.Found? ==>
      && |s.verdicts| < |s.queue| && s.dispatcher.target in s.sessions
      && s.queue[|s.verdicts|] == Job(s.sessions[s.dispatcher.target].owner)
      && !s.sessions[s.dispatcher.target].phase.Handshaking? && !s.sessions[s.dispatcher.target].phase.Authenticated?
  }

  ghost predicate DispatchSound(s: State) {
    AllJobsSound(s) && Exclusive(s) && Tallied(s) && Targeted(s)
  }

  /** A step of one session that leaves what was pushed to it, and the dispatcher, alone. */
  ghost predicate Quiet(s: State, s': State, session: nat) {
    && session in s'.sessions && s'.sessions.Keys == s.sessions.Keys + {session}
    && (forall a :: a in s.sessions && a != session ==> s'.sessions[a] == s.sessions[a])
    && s'.queue == s.queue && s'.verdicts == s.verdicts && s'.dispatcher == s.dispatcher
    && s'.sessions[session].Pushed() == (if session in s.sessions then s.sessions[session].Pushed() else [])
    && JobsSound(s'.sessions[session], s'.queue, s'.verdicts)
    && (session in s.sessions && !s.sessions[session].phase.Handshaking? ==>
          && s'.sessions[session].owner == s.sessions[session].owner
          && (!s.sessions[session].phase.Authenticated? ==>
                !s'.sessions[session].phase.Handshaking? && !s'.sessions[session].phase.Authenticated?))
  }

  lemma QuietKeepsJobs(s: State, s': State, session: nat)
    requires AllJobsSound(s) && Targeted(s) && Quiet(s, s', session)
    ensures AllJobsSound(s') && Targeted(s')
    ensures forall a :: a in s'.sessions ==> s'.sessions[a].Pushed() == if a in s.sessions then s.sessions[a].Pushed() else []
  {
    hide JobsSound;
  }

  lemma QuietKeepsTally(s: State, s': State)
    requires Exclusive(s) && Tallied(s) && s.sessions.Keys <= s'.sessions.Keys && s'.queue == s.queue && s'.verdicts == s.verdicts
    requires forall a :: a in s'.sessions ==> s'.sessions[a].Pushed() == if a in s.sessions then s.sessions[a].Pushed() else []
    ensures Exclusive(s') && Tallied(s')
  {}

  lemma QuietKeeps(s: State, s': State, session: nat)
    requires DispatchSound(s) && Quiet(s, s', session)
    ensures DispatchSound(s')
  {
    hide AllJobsSound, Targeted, Exclusive, Tallied;
    QuietKeepsJobs(s, s', session);
    QuietKeepsTally(s, s');
  }

  lemma BridgeKeepsPushed(x: Session, ok: bool)
    requires x.channel != [] && x.lost == []
    ensures var x' := x.(channel := x.channel[1..], sent := if ok then x.sent + [x.channel[0]] else x.sent,
                         lost := if ok then [] else [x.channel[0]]);
            x'.Pushed() == x.Pushed()
  {
    assert x.channel == [x.channel[0]] + x.channel[1..];
  }

  lemma BridgeStep(s: State, step: Step)
    requires AllJobsSound(s) && Enabled(s, step) && step.BridgeSend?
    ensures Quiet(s, Apply(s, step), step.session)
  {
    assert JobsSound(s.sessions[step.session], s.queue, s.verdicts);
    BridgeKeepsPushed(s.sessions[step.session], step.ok);
    hide AllJobsSound, Increasing;
  }

  lemma PhaseStep(s: State, step: Step)
    requires AllJobsSound(s) && Enabled(s, step)
    requires step.Connect? || step.Authenticate? || step.Refuse? || step.Register? || step.Cancel? || step.Deregister?
    ensures Quiet(s, Apply(s, step), step.session)
  {
    if step.session in s.sessions {
      assert JobsSound(s.sessions[step.session], s.queue, s.verdicts);
    }
    hide AllJobsSound, Increasing;
  }

  lemma JobsGrow(x: Session, queue: seq<Delivery>, verdicts: seq<Verdict>, queue': seq<Delivery>, verdicts': seq<Verdict>)
    requires JobsSound(x, queue, verdicts) && queue <= queue' && verdicts <= verdicts'
    ensures JobsSound(x, queue', verdicts')
    ensures |verdicts| !in x.Pushed()
  {}

  /** A verdict on a delivery that no session gets. */
  lemma VerdictKeeps(s: State, s': State, verdict: Verdict)
    requires DispatchSound(s) && |s.verdicts| < |s.queue|
    requires verdict == Ack ==> s.queue[|s.verdicts|].Malformed?
    requires s'.sessions == s.sessions && s'.queue == s.queue && s'.dispatcher.Waiting? && s'.verdicts == s.verdicts + [verdict]
    ensures DispatchSound(s')
  {
    forall a | a in s'.sessions
      ensures JobsSound(s'.sessions[a], s'.queue, s'.verdicts) && |s.verdicts| !in s.sessions[a].Pushed()
    {
      JobsGrow(s.sessions[a], s.queue, s.verdicts, s'.queue, s'.verdicts);
    }
    hide JobsSound;
  }

  lemma PushOne(x: Session, queue: seq<Delivery>, verdicts: seq<Verdict>)
    requires JobsSound(x, queue, verdicts) && |x.channel| < CHANNEL
    requires |verdicts| < |queue| && queue[|verdicts|] == Job(x.owner) && !x.phase.Handshaking? && !x.phase.Authenticated?
    ensures var x' := x.(channel := x.channel + [|verdicts|]);
            JobsSound(x', queue, verdicts + [Ack]) && x'.Pushed() == x.Pushed() + [|verdicts|]
  {
    var x' := x.(channel := x.channel + [|verdicts|]);
    assert x'.Pushed() == x.Pushed() + [|verdicts|];
    forall d | d in x'.Pushed() ensures d <= |verdicts| && (d < |verdicts| ==> d in x.Pushed()) {
    }
    assert Increasing(x'.Pushed()) by {
      assert forall i :: 0 <= i < |x.Pushed()| ==> x.Pushed()[i] in x.Pushed();
    }
  }

  lemma PushKeepsJobs(s: State, target: nat)
    requires AllJobsSound(s) && Targeted(s) && s.dispatcher == Found(target) && |s.sessions[target].channel| < CHANNEL
    ensures var s' := Apply(s, Push);
            && AllJobsSound(s') && Targeted(s')
            && s'.sessions.Keys == s.sessions.Keys && s'.verdicts == s.verdicts + [Ack] && s'.queue == s.queue
            && (forall a :: a in s.sessions ==>
                  && s'.sessions[a].Pushed() == s.sessions[a].Pushed() + (if a == target then [|s.verdicts|] else [])
                  && |s.verdicts| !in s.sessions[a].Pushed())
  {
    var s' := Apply(s, Push);
    PushOne(s.sessions[target], s.queue, s.verdicts);
    hide JobsSound;
    forall a | a in s.sessions
      ensures |s.verdicts| !in s.sessions[a].Pushed() && (a != target ==> JobsSound(s.sessions[a], s'.queue, s'.verdicts))
    {
      JobsGrow(s.sessions[a], s.queue, s.verdicts, s'.queue, s'.verdicts);
    }
  }

  /** One more delivery was pushed to one session. */
  ghost predicate PushedOne(s: State, s': State, target: nat, here: nat) {
    && s'.sessions.Keys == s.sessions.Keys
    && (forall a, d :: a in s.sessions ==>
          (d in s'.sessions[a].Pushed() <==> d in s.sessions[a].Pushed() || (a == target && d == here)))
    && (forall a :: a in s.sessions ==> here !in s.sessions[a].Pushed())
  }

  lemma OneMoreExclusive(s: State, s': State, target: nat, here: nat)
    requires Exclusive(s) && PushedOne(s, s', target, here)
    ensures Exclusive(s')
  {}

  lemma OneMoreTallied(s: State, s': State, target: nat, here: nat)
    requires Tallied(s) && target in s.sessions && here == |s.verdicts| < |s.queue| && s.queue[here].Job?
    requires PushedOne(s, s', target, here) && s'.verdicts == s.verdicts + [Ack] && s'.queue == s.queue
    ensures Tallied(s')
  {
    assert here in s'.sessions[target].Pushed();
  }

  lemma PushKeeps(s: State, target: nat)
    requires DispatchSound(s) && s.dispatcher == Found(target) && |s.sessions[target].channel| < CHANNEL
    ensures DispatchSound(Apply(s, Push))
  {
    PushKeepsJobs(s, target);
    assert |s.verdicts| < |s.queue| && s.queue[|s.verdicts|].Job? && target in s.sessions;
    hide AllJobsSound, Targeted, Apply, Exclusive, Tallied;
    OneMoreExclusive(s, Apply(s, Push), target, |s.verdicts|);
    OneMoreTallied(s, Apply(s, Push), target, |s.verdicts|);
  }

  lemma DispatchStep(s: State, step: Step)
    requires MapSound(s) && DispatchSound(s) && Enabled(s, step)
    ensures DispatchSound(Apply(s, step))
  {
    var s' := Apply(s, step);
    match step {
      case Publish(_) => PublishKeeps(s, s');
      case Discard => VerdictKeeps(s, s', Ack);
      case Lookup(_) =>
        if s'.dispatcher.Waiting? {
          VerdictKeeps(s, s', Nack);
        } else {
          LookupKeeps(s, s');
        }
      case Push =>
        if |s.sessions[s.dispatcher.target].channel| < CHANNEL {
          PushKeeps(s, s.dispatcher.target);
        } else {
          VerdictKeeps(s, s', Nack);
        }
      case _ =>
        if step.BridgeSend? {
          BridgeStep(s, step);
        } else {
          PhaseStep(s, step);
        }
        QuietKeeps(s, s', step.session);
    }
  }

  lemma PublishKeeps(s: State, s': State)
    requires DispatchSound(s) && s'.sessions == s.sessions && s'.verdicts == s.verdicts && s'.dispatcher == s.dispatcher
    requires s.queue <= s'.queue
    ensures DispatchSound(s')
  {
    forall a | a in s'.sessions ensures JobsSound(s'.sessions[a], s'.queue, s'.verdicts) {
      JobsGrow(s.sessions[a], s.queue, s.verdicts, s'.queue, s'.verdicts);
    }
    hide JobsSound;
  }

  lemma LookupKeeps(s: State, s': State)
    requires MapSound(s) && DispatchSound(s) && s.dispatcher.Waiting? && |s.verdicts| < |s.queue| && s.queue[|s.verdicts|].Job?
    requires s.queue[|s.verdicts|].owner in s.miners && s'.dispatcher == Found(s.miners[s.queue[|s.verdicts|].owner])
    requires s'.sessions == s.sessions && s'.verdicts == s.verdicts && s'.queue == s.queue
    ensures DispatchSound(s')
  {
    hide JobsSound;
  }

  /** All of this holds in every reachable state. */
  lemma {:induction false} SessionsSound(s0: State, trace: seq<Step>)
    requires Start(s0) && Legal(s0, trace)
    ensures MapSound(Run(s0, trace)) && DispatchSound(Run(s0, trace))
  {
    if trace != [] {
      var init, step := trace[..|trace| - 1], trace[|trace| - 1];
      SessionsSound(s0, init);
      hide Apply, Enabled, MapSound, DispatchSound;
      MapStep(Run(s0, init), step);
      DispatchStep(Run(s0, init), step);
    }
  }

  /** Exactly once: a delivery that has its verdict was acknowledged with a job exactly when one session's channel took it,
      and then only that one's. */
  lemma SettledExactlyOnce(s0: State, trace: seq<Step>, d: nat)
    requires Start(s0) && Legal(s0, trace) && d < |Run(s0, trace).verdicts|
    ensures var s := Run(s0, trace);
            && d < |s.queue|
            && (s.verdicts[d] == Ack && s.queue[d].Job?
                <==> exists a :: a in s.sessions && d in s.sessions[a].Pushed() && s.queue[d].Job?
                                 && s.sessions[a].owner == s.queue[d].owner)
            && (forall a, b ::
                  a in s.sessions && b in s.sessions && d in s.sessions[a].Pushed() && d in s.sessions[b].Pushed() ==> a == b)
  {
    var s := Run(s0, trace);
    SessionsSound(s0, trace);
    forall a | a in s.sessions && d in s.sessions[a].Pushed()
      ensures s.queue[d] == Job(s.sessions[a].owner)
    {
      assert JobsSound(s.sessions[a], s.queue, s.verdicts);
    }
  }

  /** What a session is sent is a beginning of what was pushed to it, which are jobs of its owner in queue order. */
  lemma SentInOrder(s0: State, trace: seq<Step>, session: nat)
    requires Start(s0) && Legal(s0, trace) && session in Run(s0, trace).sessions
    ensures var s := Run(s0, trace); var x := s.sessions[session];
            && x.sent <= x.Pushed() && |x.channel| <= 64 && |x.lost| <= 1
            && (forall i, j :: 0 <= i < j < |x.sent| ==> x.sent[i] < x.sent[j])
            && (forall i :: 0 <= i < |x.sent| ==> x.sent[i] < |s.queue| && s.queue[x.sent[i]] == Job(x.owner))
  {
    var s := Run(s0, trace);
    SessionsSound(s0, trace);
    var x := s.sessions[session];
    assert JobsSound(s.sessions[session], s.queue, s.verdicts);
    hide DispatchSound, MapSound, Run, Legal;
    assert forall i :: 0 <= i < |x.sent| ==> x.sent[i] == x.Pushed()[i];
    assert forall i :: 0 <= i < |x.sent| ==> x.Pushed()[i] in x.Pushed();
  }

  /** The owner a session authenticated as, once it did. */
  function OwnerIn(s: State, session: nat): Option<string> {
    if session in s.sessions && !s.sessions[session].phase.Handshaking? then Some(s.sessions[session].owner) else None
  }

  /** The session an owner's map entry should point to: that of the last registration, unless a session of the owner left
      the map afterwards. */
  function LastRegistered(s0: State, trace: seq<Step>, owner: string): Option<nat> {
    if trace == [] then None
    else
      var init, last := trace[..|trace| - 1], trace[|trace| - 1];
      if last.Register? && OwnerIn(Run(s0, init), last.session) == Some(owner) then Some(last.session)
      else if last.Deregister? && OwnerIn(Run(s0, init), last.session) == Some(owner) then None
      else LastRegistered(s0, init, owner)
  }

  lemma EntryStep(s: State, step: Step, owner: string)
    requires Enabled(s, step)
    ensures var miners := Apply(s, step).miners;
            var mine := (step.Register? || step.Deregister?) && OwnerIn(s, step.session) == Some(owner);
            (if owner in miners then Some(miners[owner]) else None)
            == (if mine && step.Register? then Some(step.session) else if mine then None
                else if owner in s.miners then Some(s.miners[owner]) else None)
  {}

  /** The map in closed form: an owner's entry is its last registration, unless any of its sessions left afterwards. */
  lemma {:induction false} MapClosedForm(s0: State, trace: seq<Step>, owner: string)
    requires Start(s0) && Legal(s0, trace)
    ensures var miners := Run(s0, trace).miners;
            (if owner in miners then Some(miners[owner]) else None) == LastRegistered(s0, trace, owner)
  {
    if trace != [] {
      var init, step := trace[..|trace| - 1], trace[|trace| - 1];
      MapClosedForm(s0, init, owner);
      EntryStep(Run(s0, init), step, owner);
      hide Apply, Enabled, OwnerIn;
    }
  }

  /** Since the session registered, another session of its owner entered or left the map. */
  predicate Displaced(s0: State, trace: seq<Step>, session: nat, owner: string) {
    trace != []
    && var init, last := trace[..|trace| - 1], trace[|trace| - 1];
       last != Register(session)
       && (((last.Register? || last.Deregister?) && last.session != session && OwnerIn(Run(s0, init), last.session) == Some(owner))
           || Displaced(s0, init, session, owner))
  }

  lemma EntryOfStep(s: State, step: Step, session: nat)
    requires MapSound(s) && Enabled(s, step) && session in Apply(s, step).sessions
    requires Apply(s, step).sessions[session].phase.InMap()
    ensures var s', owner := Apply(s, step), Apply(s, step).sessions[session].owner;
            var entry := owner in s'.miners && s'.miners[owner] == session;
            if step == Register(session) then entry
            else
              && session in s.sessions && s.sessions[session].phase.InMap() && s.sessions[session].owner == owner
              && (entry <==> owner in s.miners && s.miners[owner] == session
                             && !((step.Register? || step.Deregister?) && step.session != session
                                  && OwnerIn(s, step.session) == Some(owner)))
  {}

  /** The exact condition: a session in the map is its owner's entry exactly when no other session of the owner entered or left
      the map since it registered. */
  lemma {:induction false} EntryIff(s0: State, trace: seq<Step>, session: nat)
    requires Start(s0) && Legal(s0, trace)
    requires session in Run(s0, trace).sessions && Run(s0, trace).sessions[session].phase.InMap()
    ensures var s := Run(s0, trace); var owner := s.sessions[session].owner;
            owner in s.miners && s.miners[owner] == session <==> !Displaced(s0, trace, session, owner)
  {
    if trace != [] {
      var init, step := trace[..|trace| - 1], trace[|trace| - 1];
      SessionsSound(s0, init);
      EntryOfStep(Run(s0, init), step, session);
      hide Apply, Enabled, MapSound, DispatchSound, OwnerIn;
      if step != Register(session) {
        EntryIff(s0, init, session);
      }
    }
  }

  /** No session registers while another of its owner is in the map or leaving it. */
  ghost predicate NoOverlap(s0: State, trace: seq<Step>) {
    if trace == [] then true
    else
      var init, last := trace[..|trace| - 1], trace[|trace| - 1];
      var s := Run(s0, init);
      && NoOverlap(s0, init)
      && (last.Register? && last.session in s.sessions ==>
            forall a :: a in s.sessions && s.sessions[a].phase.InMap() ==> s.sessions[a].owner != s.sessions[last.session].owner)
  }

  ghost predicate MapComplete(s: State) {
    forall a :: a in s.sessions && s.sessions[a].phase.InMap()
                ==> s.sessions[a].owner in s.miners && s.miners[s.sessions[a].owner] == a
  }

  lemma CompleteStep(s: State, step: Step)
    requires MapSound(s) && MapComplete(s) && Enabled(s, step)
    requires step.Register? ==> forall a :: a in s.sessions && s.sessions[a].phase.InMap()
                                            ==> s.sessions[a].owner != s.sessions[step.session].owner
    ensures MapComplete(Apply(s, step))
  {}

  /** Without overlapping sessions of one owner the map is exactly the sessions that registered and have not left. */
  lemma {:induction false} MapIsLiveSessions(s0: State, trace: seq<Step>)
    requires Start(s0) && Legal(s0, trace) && NoOverlap(s0, trace)
    ensures var s := Run(s0, trace);
            forall owner, a :: (owner in s.miners && s.miners[owner] == a)
                               <==> (a in s.sessions && s.sessions[a].phase.InMap() && s.sessions[a].owner == owner)
    ensures MapComplete(Run(s0, trace))
  {
    SessionsSound(s0, trace);
    if trace != [] {
      var init, step := trace[..|trace| - 1], trace[|trace| - 1];
      MapIsLiveSessions(s0, init);
      SessionsSound(s0, init);
      CompleteStep(Run(s0, init), step);
    }
    hide DispatchSound, Run, Legal, NoOverlap, Start;
  }

  /** With an overlap the exit of the older session takes the newer one out of the map, though it is still live. */
  lemma OlderExitRemovesNewer(s: State, older: nat, newer: nat)
    requires MapSound(s) && older != newer && InPhase(s, older, Leaving) && InPhase(s, newer, Live)
    requires s.sessions[older].owner == s.sessions[newer].owner
    ensures var s' := Apply(s, Deregister(older));
            InPhase(s', newer, Live) && s'.sessions[newer].owner !in s'.miners && MapSound(s')
  {}
}
