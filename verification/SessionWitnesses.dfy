/** A concrete run in which a miner's older stream ends after its newer one registered. */
module SessionWitnesses {
  import opened SessionModel

  const NOBODY := State(map[], map[], [], Waiting, [])

  function Stream(phase: Phase): Session {
    Session("o", phase, [], [], [])
  }

  /** The older stream in a phase, alone, and its owner's entry. */
  function Alone(older: Phase, miners: map<string, nat>): State {
    NOBODY.(sessions := map[0 := Stream(older)], miners := miners)
  }

  function Both(older: Phase, newer: Phase, miners: map<string, nat>): State {
    NOBODY.(sessions := map[0 := Stream(older), 1 := Stream(newer)], miners := miners)
  }

  const FRESH := Session("", Handshaking, [], [], [])

  const OVERLAP: seq<Step> := [Connect(0), Authenticate(0, "o"), Register(0),
                               Connect(1), Authenticate(1, "o"), Register(1), Cancel(0), Deregister(0)]

  predicate Leads(s: State, step: Step, s': State) {
    Enabled(s, step) && Apply(s, step) == s'
  }

  lemma Go(trace: seq<Step>, s: State, step: Step, s': State) returns (t: seq<Step>)
    requires Legal(NOBODY, trace) && Run(NOBODY, trace) == s && Leads(s, step, s')
    ensures t == trace + [step] && Legal(NOBODY, t) && Run(NOBODY, t) == s'
  {
    t := trace + [step];
    assert t[..|t| - 1] == trace;
  }

  lemma OlderRegisters()
    ensures Leads(NOBODY, Connect(0), NOBODY.(sessions := map[0 := FRESH]))
    ensures Leads(NOBODY.(sessions := map[0 := FRESH]), Authenticate(0, "o"), Alone(Authenticated, map[]))
    ensures Leads(Alone(Authenticated, map[]), Register(0), Alone(Live, map["o" := 0]))
  {}

  lemma NewerRegisters()
    ensures Leads(Alone(Live, map["o" := 0]), Connect(1), Alone(Live, map["o" := 0]).(sessions := map[0 := Stream(Live), 1 := FRESH]))
    ensures Leads(Alone(Live, map["o" := 0]).(sessions := map[0 := Stream(Live), 1 := FRESH]), Authenticate(1, "o"),
                  Both(Live, Authenticated, map["o" := 0]))
    ensures Leads(Both(Live, Authenticated, map["o" := 0]), Register(1), Both(Live, Live, map["o" := 1]))
  {}

  lemma OlderLeaves()
    ensures Leads(Both(Live, Live, map["o" := 1]), Cancel(0), Both(Leaving, Live, map["o" := 1]))
    ensures Leads(Both(Leaving, Live, map["o" := 1]), Deregister(0), Both(Exited, Live, map[]))
  {}

  /** The newer stream is live at the end, and its owner has no entry. */
  lemma OverlapHappens()
    ensures Start(NOBODY) && Legal(NOBODY, OVERLAP)
    ensures var s := Run(NOBODY, OVERLAP);
            InPhase(s, 1, Live) && 1 in s.sessions && s.sessions[1].owner == "o" && "o" !in s.miners
  {
    OlderRegisters();
    NewerRegisters();
    OlderLeaves();
    AtTheEnds();
    hide Legal, Run, Leads, Start, InPhase, Enabled, Apply, Alone, Both, Stream;
    var t := Go([], NOBODY, Connect(0), NOBODY.(sessions := map[0 := FRESH]));
    t := Go(t, NOBODY.(sessions := map[0 := FRESH]), Authenticate(0, "o"), Alone(Authenticated, map[]));
    t := Go(t, Alone(Authenticated, map[]), Register(0), Alone(Live, map["o" := 0]));
    t := Go(t, Alone(Live, map["o" := 0]), Connect(1), Alone(Live, map["o" := 0]).(sessions := map[0 := Stream(Live), 1 := FRESH]));
    t := Go(t, Alone(Live, map["o" := 0]).(sessions := map[0 := Stream(Live), 1 := FRESH]), Authenticate(1, "o"),
            Both(Live, Authenticated, map["o" := 0]));
    t := Go(t, Both(Live, Authenticated, map["o" := 0]), Register(1), Both(Live, Live, map["o" := 1]));
    t := Go(t, Both(Live, Live, map["o" := 1]), Cancel(0), Both(Leaving, Live, map["o" := 1]));
    t := Go(t, Both(Leaving, Live, map["o" := 1]), Deregister(0), Both(Exited, Live, map[]));
    assert t == OVERLAP;
  }

  lemma AtTheEnds()
    ensures Start(NOBODY) && Legal(NOBODY, []) && Run(NOBODY, []) == NOBODY
    ensures var s := Both(Exited, Live, map[]); InPhase(s, 1, Live) && 1 in s.sessions && s.sessions[1].owner == "o" && "o" !in s.miners
  {}
}
