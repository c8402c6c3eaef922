/** Miner sessions and the job dispatcher of the gRPC server (grpc/server.go) as interleaved steps: each step is one
    critical section, one channel operation or one acknowledgement. A delivery is known by its position in job_queue. */
module SessionModel {
  import opened Common

  /** A session's channel buffers this many messages. */
  const CHANNEL: nat := 64

  /** How far a stream got: before its authentication, before and after it entered the map, after its bridge was cancelled,
      and after it left the map. */
  datatype Phase = Handshaking | Authenticated | Live | Leaving | Exited {
    predicate InMap() { Live? || Leaving? }
  }

  /** The channel buffers deliveries; the bridge has sent some before, and lost the one whose send failed. */
  datatype Session = Session(owner: string, phase: Phase, channel: seq<nat>, sent: seq<nat>, lost: seq<nat>) {
    /** Everything ever put into the channel, in order. */
    function Pushed(): seq<nat> { sent + lost + channel }
  }

  datatype Delivery = Malformed | Job(owner: string)

  datatype Verdict = Ack | Nack

  /** The dispatcher has looked up the session for the delivery in hand, and has yet to push the job. */
  datatype Dispatcher = Waiting | Found(target: nat)

  datatype State = State(sessions: map<nat, Session>, miners: map<string, nat>, queue: seq<Delivery>,
                         dispatcher: Dispatcher, verdicts: seq<Verdict>)

  datatype Step =
    | Connect(session: nat)
    | Authenticate(session: nat, owner: string)
    | Refuse(session: nat)
    | Register(session: nat)
    | Cancel(session: nat)
    | Deregister(session: nat)
    | BridgeSend(session: nat, ok: bool)
    | Publish(delivery: Delivery)
    | Discard
    | Lookup(resolved: bool)
    | Push

  predicate InPhase(s: State, session: nat, phase: Phase) {
    session in s.sessions && s.sessions[session].phase == phase
  }

  /** The delivery in hand is the first without a verdict. */
  predicate Enabled(s: State, step: Step) {
    match step
    case Connect(session) => session !in s.sessions
    case Authenticate(session, _) => InPhase(s, session, Handshaking)
    case Refuse(session) => InPhase(s, session, Handshaking)
    case Register(session) => InPhase(s, session, Authenticated)
    case Cancel(session) => InPhase(s, session, Live)
    case Deregister(session) => InPhase(s, session, Leaving)
    case BridgeSend(session, _) => session in s.sessions && s.sessions[session].channel != [] && s.sessions[session].lost == []
    case Publish(_) => true
    case Discard => s.dispatcher.Waiting? && |s.verdicts| < |s.queue| && s.queue[|s.verdicts|].Malformed?
    case Lookup(_) => s.dispatcher.Waiting? && |s.verdicts| < |s.queue| && s.queue[|s.verdicts|].Job?
    case Push => s.dispatcher.Found? && s.dispatcher.target in s.sessions && |s.verdicts| < |s.queue|
  }

  function SetPhase(s: State, session: nat, phase: Phase): State
    requires session in s.sessions
  {
    s.(sessions := s.sessions[session := s.sessions[session].(phase := phase)])
  }

  function Apply(s: State, step: Step): State
    requires Enabled(s, step)
  {
    match step
    case Connect(session) => s.(sessions := s.sessions[session := Session("", Handshaking, [], [], [])])
    case Authenticate(session, owner) =>
      s.(sessions := s.sessions[session := s.sessions[session].(owner := owner, phase := Authenticated)])
    case Refuse(session) => SetPhase(s, session, Exited)
    case Register(session) => SetPhase(s, session, Live).(miners := s.miners[s.sessions[session].owner := session])
    case Cancel(session) => SetPhase(s, session, Leaving)
    case Deregister(session) => SetPhase(s, session, Exited).(miners := s.miners - {s.sessions[session].owner})
    case BridgeSend(session, ok) =>
      var x := s.sessions[session];
      var x' := x.(channel := x.channel[1..], sent := if ok then x.sent + [x.channel[0]] else x.sent,
                   lost := if ok then [] else [x.channel[0]]);
      s.(sessions := s.sessions[session := x'])
    case Publish(delivery) => s.(queue := s.queue + [delivery])
    case Discard => s.(verdicts := s.verdicts + [Ack])
    case Lookup(resolved) =>
      var owner := s.queue[|s.verdicts|].owner;
      if (owner == "" && !resolved) || owner !in s.miners then s.(verdicts := s.verdicts + [Nack])
      else s.(dispatcher := Found(s.miners[owner]))
    case Push =>
      var x := s.sessions[s.dispatcher.target];
      if |x.channel| < CHANNEL then
        s.(sessions := s.sessions[s.dispatcher.target := x.(channel := x.channel + [|s.verdicts|])],
           dispatcher := Waiting, verdicts := s.verdicts + [Ack])
      else s.(dispatcher := Waiting, verdicts := s.verdicts + [Nack])
  }

  function Run(s0: State, trace: seq<Step>): State {
    if trace == [] then s0
    else
      var before, step := Run(s0, trace[..|trace| - 1]), trace[|trace| - 1];
      if Enabled(before, step) then Apply(before, step) else before
  }

  predicate Legal(s0: State, trace: seq<Step>) {
    trace == []
    || (Legal(s0, trace[..|trace| - 1]) && Enabled(Run(s0, trace[..|trace| - 1]), trace[|trace| - 1]))
  }

  predicate Start(s: State) {
    s.sessions == map[] && s.miners == map[] && s.dispatcher.Waiting? && s.verdicts == []
  }
}
