/** The gRPC server's session handling and dispatch loop as the program runs them (grpc/server.go). The ghost trace records
    every step, so the theorems about all interleavings hold of every history of calls. */
module SessionServer {
  import opened Common
  import opened SessionModel
  import opened SessionTheorems

  class MonitorServiceServer {
    var sessions: map<nat, Session>
    var miners: map<string, nat>
    var queue: seq<Delivery>
    var verdicts: seq<Verdict>
    ghost var dispatcher: Dispatcher
    ghost const start: State
    ghost var trace: seq<Step>

    ghost function Snapshot(): State
      reads this
    {
      State(sessions, miners, queue, dispatcher, verdicts)
    }

    ghost predicate Valid()
      reads this
    {
      && Start(start) && Legal(start, trace) && Snapshot() == Run(start, trace)
      && MapSound(Snapshot()) && DispatchSound(Snapshot())
    }

    constructor (queue: seq<Delivery>)
      ensures Valid() && dispatcher.Waiting? && this.queue == queue && sessions == map[] && miners == map[] && verdicts == []
    {
      sessions, miners, verdicts, dispatcher, trace := map[], map[], [], Waiting, [];
      this.queue := queue;
      start := State(map[], map[], queue, Waiting, []);
    }

    ghost method Record(step: Step, before: State)
      requires Start(start) && Legal(start, trace) && before == Run(start, trace) && MapSound(before) && DispatchSound(before)
      requires Enabled(before, step) && Snapshot() == Apply(before, step)
      modifies this`trace
      ensures Valid() && trace == old(trace) + [step]
    {
      hide Start, Enabled, Apply, MapSound, DispatchSound;
      MapStep(before, step);
      DispatchStep(before, step);
      trace := trace + [step];
      assert trace[..|trace| - 1] == old(trace);
    }

    /** Records a step of one session that changes nothing but the session itself. */
    method Move(id: nat, session: Session, step: Step)
      requires Valid() && Enabled(Snapshot(), step)
      requires Apply(Snapshot(), step) == Snapshot().(sessions := sessions[id := session])
      modifies this`sessions, this`trace
      ensures Valid() && sessions == old(sessions)[id := session]
    {
      hide Start, Legal, Run, MapSound, DispatchSound, Enabled, Apply;
      ghost var before := Snapshot();
      sessions := sessions[id := session];
      Record(step, before);
    }

    /** Opening a stream: register first, answer the challenge, be a known runner. The arguments say how each of these ends;
        runner is the owner of the node's row. */
    method Open(id: nat, registersFirst: bool, authenticates: bool, runner: Option<string>) returns (established: bool)
      requires Valid() && id !in sessions
      modifies this`sessions, this`miners, this`trace
      ensures Valid() && (established <==> registersFirst && authenticates && runner.Some?)
      ensures established ==>
                && miners == old(miners)[runner.value := id]
                && sessions == old(sessions)[id := Session(runner.value, Live, [], [], [])]
      ensures !established ==> miners == old(miners) && sessions == old(sessions)[id := Session("", Exited, [], [], [])]
    {
      hide Start, Legal, Run, MapSound, DispatchSound;
      var session := Session("", Handshaking, [], [], []);
      Move(id, session, Step.Connect(id));
      if !registersFirst || !authenticates || runner.None? {
        Move(id, session.(phase := Exited), Step.Refuse(id));
        return false;
      }
      Admit(id, runner.value);
      return true;
    }

    method Admit(id: nat, owner: string)
      requires Valid() && id in sessions && sessions[id] == Session("", Handshaking, [], [], [])
      modifies this`sessions, this`miners, this`trace
      ensures Valid() && miners == old(miners)[owner := id]
      ensures sessions == old(sessions)[id := Session(owner, Live, [], [], [])]
    {
      hide Start, Legal, Run, MapSound, DispatchSound;
      Move(id, Session(owner, Authenticated, [], [], []), Step.Authenticate(id, owner));
      EnterMap(id);
    }

    method EnterMap(id: nat)
      requires Valid() && InPhase(Snapshot(), id, Authenticated)
      modifies this`sessions, this`miners, this`trace
      ensures Valid() && miners == old(miners)[old(sessions)[id].owner := id]
      ensures sessions == old(sessions)[id := old(sessions)[id].(phase := Live)]
    {
      hide Start, Legal, Run, MapSound, DispatchSound;
      ghost var before := Snapshot();
      miners := miners[sessions[id].owner := id];
      sessions := sessions[id := sessions[id].(phase := Live)];
      Record(Step.Register(id), before);
    }

    /** The end of a stream: the bridge is cancelled and the owner's entry deleted, whichever session it belongs to. */
    method Close(id: nat)
      requires Valid() && InPhase(Snapshot(), id, Live)
      modifies this`sessions, this`miners, this`trace
      ensures Valid() && miners == old(miners) - {old(sessions)[id].owner}
      ensures sessions == old(sessions)[id := old(sessions)[id].(phase := Exited)]
    {
      hide Start, Legal, Run, MapSound, DispatchSound;
      Move(id, sessions[id].(phase := Leaving), Step.Cancel(id));
      LeaveMap(id);
    }

    method LeaveMap(id: nat)
      requires Valid() && InPhase(Snapshot(), id, Leaving)
      modifies this`sessions, this`miners, this`trace
      ensures Valid() && miners == old(miners) - {old(sessions)[id].owner}
      ensures sessions == old(sessions)[id := old(sessions)[id].(phase := Exited)]
    {
      hide Start, Legal, Run, MapSound, DispatchSound;
      ghost var before := Snapshot();
      miners := miners - {sessions[id].owner};
      sessions := sessions[id := sessions[id].(phase := Exited)];
      Record(Step.Deregister(id), before);
    }

    /** The bridge takes the oldest message of its channel and sends it, or fails and stops. */
    method Bridge(id: nat, ok: bool)
      requires Valid() && id in sessions && sessions[id].channel != [] && sessions[id].lost == []
      modifies this`sessions, this`trace
      ensures Valid() && sessions.Keys == old(sessions).Keys && sessions[id].Pushed() == old(sessions)[id].Pushed()
      ensures sessions[id].channel == old(sessions)[id].channel[1..]
      ensures sessions[id].sent == old(sessions)[id].sent + (if ok then old(sessions)[id].channel[..1] else [])
    {
      hide Start, Legal, Run, MapSound, DispatchSound;
      var x := sessions[id];
      BridgeKeepsPushed(x, ok);
      Move(id, x.(channel := x.channel[1..], sent := if ok then x.sent + [x.channel[0]] else x.sent,
                  lost := if ok then [] else [x.channel[0]]), Step.BridgeSend(id, ok));
    }

    method Settle(verdict: Verdict, step: Step)
      requires Valid() && Enabled(Snapshot(), step)
      requires Apply(Snapshot(), step) == Snapshot().(verdicts := verdicts + [verdict], dispatcher := Waiting)
      modifies this`verdicts, this`dispatcher, this`trace
      ensures Valid() && verdicts == old(verdicts) + [verdict] && dispatcher.Waiting?
    {
      hide Start, Legal, Run, MapSound, DispatchSound, Enabled, Apply;
      ghost var before := Snapshot();
      verdicts := verdicts + [verdict];
      dispatcher := Waiting;
      Record(step, before);
    }

    /** Handles the next delivery of job_queue: every way it can end gives it exactly one verdict, and it reaches a channel
        exactly when the verdict is an acknowledgement of a job. */
    method DispatchNext(resolved: bool) returns (verdict: Verdict)
      requires Valid() && dispatcher.Waiting? && |verdicts| < |queue|
      modifies this`sessions, this`verdicts, this`dispatcher, this`trace
      ensures Valid() && dispatcher.Waiting? && verdicts == old(verdicts) + [verdict]
      ensures queue[|old(verdicts)|].Malformed? ==> verdict == Ack && sessions == old(sessions)
      ensures queue[|old(verdicts)|].Job? ==>
                var owner := queue[|old(verdicts)|].owner;
                var connected := (owner != "" || resolved) && owner in miners;
                && (connected ==> miners[owner] in old(sessions))
                && (verdict == Ack <==> connected && |old(sessions)[miners[owner]].channel| < 64)
                && sessions == if verdict == Ack then
                                 var x := old(sessions)[miners[owner]];
                                 old(sessions)[miners[owner] := x.(channel := x.channel + [|old(verdicts)|])]
                               else old(sessions)
    {
      hide Start, Legal, Run, DispatchSound;
      match queue[|verdicts|]
      case Malformed =>
        verdict := Ack;
        Settle(Ack, Step.Discard);
      case Job(owner) =>
        if (owner == "" && !resolved) || owner !in miners {
          verdict := Nack;
          Settle(Nack, Step.Lookup(resolved));
        } else {
          Target(resolved);
          verdict := PushTo(miners[owner]);
        }
    }

    ghost method Target(resolved: bool)
      requires Valid() && dispatcher.Waiting? && |verdicts| < |queue| && queue[|verdicts|].Job?
      requires (queue[|verdicts|].owner != "" || resolved) && queue[|verdicts|].owner in miners
      modifies this`dispatcher, this`trace
      ensures Valid() && dispatcher == Found(miners[queue[|verdicts|].owner])
    {
      hide Start, Legal, Run, MapSound, DispatchSound;
      ghost var before := Snapshot();
      dispatcher := Found(miners[queue[|verdicts|].owner]);
      Record(Step.Lookup(resolved), before);
    }

    /** The select: into the channel if it has room, and otherwise the job is discarded. */
    method PushTo(target: nat) returns (verdict: Verdict)
      requires Valid() && dispatcher == Found(target) && |verdicts| < |queue|
      modifies this`sessions, this`verdicts, this`dispatcher, this`trace
      ensures Valid() && dispatcher.Waiting? && verdicts == old(verdicts) + [verdict] && target in old(sessions)
      ensures verdict == if |old(sessions)[target].channel| < CHANNEL then Ack else Nack
      ensures sessions == if verdict == Nack then old(sessions)
                          else var x := old(sessions)[target];
                               old(sessions)[target := x.(channel := x.channel + [|old(verdicts)|])]
    {
      hide Start, Legal, Run, DispatchSound;
      ghost var before := Snapshot();
      var x := sessions[target];
      if |x.channel| < CHANNEL {
        sessions := sessions[target := x.(channel := x.channel + [|verdicts|])];
        verdict := Ack;
      } else {
        verdict := Nack;
      }
      verdicts := verdicts + [verdict];
      dispatcher := Waiting;
      Record(Step.Push, before);
    }
  }
}
