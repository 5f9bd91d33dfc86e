/** The pump and the bounded handshake loop of the one-shot transcript run, and the proof that
    both are world runs: a pump is a relay of copies and provides, a loop is a faithful run. */
module PairRun {
  import opened Streams
  import opened Lanes
  import opened Callbacks
  import opened Endpoints
  import opened PairWorld

  const MAX_ITERATIONS: nat := 80

  // ---- relay refines pump ----

  /** What a host does instead of a pump: for each level, copy the pending bytes out of one
      endpoint and provide them to the other. */
  function Relay(from: Side, pending: PerLevel<seq<byte>>, outLens: PerLevel<nat>, level: nat): seq<Event>
    decreases LEVELS - level, pending
  {
    if level >= LEVELS then []
    else [Copy(from, level, true, outLens.At(level)), Provide(Peer(from), level, pending.At(level))]
         + Relay(from, pending, outLens, level + 1)
  }

  function Pending(e: Endpoint): PerLevel<seq<byte>>
  {
    PerLevel(e.outputs.none.pending, e.outputs.early.pending, e.outputs.handshake.pending, e.outputs.application.pending)
  }

  /** Replaces both endpoints: `from`'s by `sender`, its peer's by `receiver`. */
  function Between(from: Side, sender: Endpoint, receiver: Endpoint): PerSide<Endpoint>
  {
    if from.Client? then PerSide(sender, receiver) else PerSide(receiver, sender)
  }

  lemma {:induction false} RunConcat(w: World, a: seq<Event>, b: seq<Event>)
    ensures Run(w, a + b) == Run(Run(w, a), b)
    decreases |a|
  {
    if a == [] {
      assert a + b == b;
    } else {
      assert (a + b)[1..] == a[1..] + b;
      RunConcat(Step(w, a[0]), a[1..], b);
    }
  }

  lemma {:induction false} AlongConcat(s: Assumption, w: World, a: seq<Event>, b: seq<Event>)
    requires Along(s, w, a) && Along(s, Run(w, a), b)
    ensures Along(s, w, a + b)
    decreases |a|
  {
    if a == [] {
      assert a + b == b;
    } else {
      assert (a + b)[1..] == a[1..] + b;
      AlongConcat(s, Step(w, a[0]), a[1..], b);
    }
  }

  lemma RunTwo(w: World, a: Event, b: Event)
    ensures Run(w, [a, b]) == Step(Step(w, a), b)
  {
    assert [a, b][1..] == [b] && [b][1..] == [];
    assert Run(Step(w, a), [b]) == Run(Step(Step(w, a), b), []);
  }

  lemma NoEventsAlong(s: Assumption, w: World)
    ensures Along(s, w, [])
  {
  }

  lemma AlongTwo(s: Assumption, w: World, a: Event, b: Event)
    requires Meets(s, w, a) && Meets(s, Step(w, a), b)
    ensures Along(s, w, [a, b])
  {
    assert [a, b][1..] == [b] && [b][1..] == [];
    assert Along(s, Step(Step(w, a), b), []);
    assert Along(s, Step(w, a), [b]);
  }

  /** One level of the relay moves exactly the pump's bytes, and leaves nothing in flight. */
  lemma RelayLevel(w: World, from: Side, level: nat, outLen: nat)
    requires level < LEVELS && Linked(w, from, level, true)
    requires w.flight.At(from).At(level) == [] && |w.ends.At(from).outputs.At(level).pending| <= outLen
    ensures var data := w.ends.At(from).outputs.At(level).pending;
            var w1 := Step(w, Copy(from, level, true, outLen));
            var (sender, receiver) := PumpLevel(w.ends.At(from), w.ends.At(Peer(from)), level);
            && |w.ends.At(Peer(from)).lanes.At(level).inbound| + |data| <= CAPACITY
            && Step(w1, Provide(Peer(from), level, data)) == w.(ends := Between(from, sender, receiver))
            && Meets(Faithful, w1, Provide(Peer(from), level, data))
  {
    FlightFits(w, from, level, true);
    var data := w.ends.At(from).outputs.At(level).pending;
    var w1 := Step(w, Copy(from, level, true, outLen));
    assert w.flight.At(from).At(level) + data == data;
    assert w1.flight == w.flight.With(from, w.flight.At(from).With(level, data));
    assert data[|data|..] == [];
    var w2 := Step(w1, Provide(Peer(from), level, data));
    assert w2.flight.At(from) == w.flight.At(from);
    assert w2.flight == w.flight;
  }

  /** Pumping a level that has nothing pending changes nothing. */
  lemma PumpNothing(from: Endpoint, to: Endpoint, level: nat)
    requires level < LEVELS && from.outputs.At(level).pending == [] && |to.lanes.At(level).inbound| <= CAPACITY
    ensures PumpLevel(from, to, level) == (from, to)
  {
    var lane := to.lanes.At(level);
    assert lane.inbound + [] == lane.inbound && lane.accepted + [] == lane.accepted;
  }

  /** The first level of a relay: where it leads, and that the pump takes the same step. */
  lemma RelayFirstLevel(w: World, from: Side, level: nat, outLen: nat)
    requires PairWorld.Valid(w, true) && level < LEVELS
    requires w.flight.At(from).At(level) == [] && |w.ends.At(from).outputs.At(level).pending| <= outLen
    ensures var evs := [Copy(from, level, true, outLen), Provide(Peer(from), level, w.ends.At(from).outputs.At(level).pending)];
            var (sender, receiver) := PumpLevel(w.ends.At(from), w.ends.At(Peer(from)), level);
            var w2 := w.(ends := Between(from, sender, receiver));
            && Run(w, evs) == w2 && Along(Faithful, w, evs) && PairWorld.Valid(w2, true)
            && PumpFrom(w.ends.At(from), w.ends.At(Peer(from)), level) == PumpFrom(sender, receiver, level + 1)
  {
    var data := w.ends.At(from).outputs.At(level).pending;
    var a, b := Copy(from, level, true, outLen), Provide(Peer(from), level, data);
    assert Linked(w, from, level, true);
    RelayLevel(w, from, level, outLen);
    StepKeepsValid(w, a, true);
    StepKeepsValid(Step(w, a), b, true);
    RunTwo(w, a, b);
    AlongTwo(Faithful, w, a, b);
    if data == [] {
      PumpNothing(w.ends.At(from), w.ends.At(Peer(from)), level);
    }
  }

  lemma PumpKeepsOtherOutputs(from: Endpoint, to: Endpoint, level: nat)
    requires level < LEVELS
    ensures forall l :: 0 <= l < LEVELS && l != level ==> PumpLevel(from, to, level).0.outputs.At(l) == from.outputs.At(l)
  {
  }

  lemma PumpEnds(from: Endpoint, to: Endpoint, level: nat)
    requires level >= LEVELS
    ensures PumpFrom(from, to, level) == (from, to, true)
  {
  }

  lemma {:induction false} RelayFromLevel(w: World, from: Side, pending: PerLevel<seq<byte>>, outLens: PerLevel<nat>, level: nat)
    requires PairWorld.Valid(w, true) && level <= LEVELS
    requires forall l :: level <= l < LEVELS ==>
               && w.flight.At(from).At(l) == [] && pending.At(l) == w.ends.At(from).outputs.At(l).pending
               && |pending.At(l)| <= outLens.At(l)
    ensures var evs, pumped := Relay(from, pending, outLens, level), PumpFrom(w.ends.At(from), w.ends.At(Peer(from)), level);
            && pumped.2
            && Run(w, evs) == w.(ends := Between(from, pumped.0, pumped.1))
            && Along(Faithful, w, evs)
    decreases LEVELS - level
  {
    hide PairWorld.Valid, PumpLevel, PumpFrom, Step;
    if level < LEVELS {
      var first := [Copy(from, level, true, outLens.At(level)), Provide(Peer(from), level, pending.At(level))];
      var rest := Relay(from, pending, outLens, level + 1);
      var (sender, receiver) := PumpLevel(w.ends.At(from), w.ends.At(Peer(from)), level);
      var w2 := w.(ends := Between(from, sender, receiver));
      RelayFirstLevel(w, from, level, outLens.At(level));
      assert w2.ends.At(from) == sender && w2.ends.At(Peer(from)) == receiver;
      PumpKeepsOtherOutputs(w.ends.At(from), w.ends.At(Peer(from)), level);
      RelayFromLevel(w2, from, pending, outLens, level + 1);
      assert Relay(from, pending, outLens, level) == first + rest;
      RunConcat(w, first, rest);
      AlongConcat(Faithful, w, first, rest);
      var pumped := PumpFrom(w.ends.At(from), w.ends.At(Peer(from)), level);
      assert Run(w2, rest) == w2.(ends := Between(from, pumped.0, pumped.1));
    } else {
      PumpEnds(w.ends.At(from), w.ends.At(Peer(from)), level);
      assert Between(from, w.ends.At(from), w.ends.At(Peer(from))) == w.ends;
      assert Run(w, []) == w;
    }
  }

  /** Relay refines pump: with nothing in flight and buffers large enough for what is pending,
      relaying the four levels reaches exactly the pair the pump reaches, and the pump succeeds. */
  lemma RelayRefinesPump(w: World, from: Side, outLens: PerLevel<nat>)
    requires PairWorld.Valid(w, true) && w.flight == NO_FLIGHT
    requires forall l :: 0 <= l < LEVELS ==> |w.ends.At(from).outputs.At(l).pending| <= outLens.At(l)
    ensures var evs, pumped := Relay(from, Pending(w.ends.At(from)), outLens, 0), Pump(w.ends.At(from), w.ends.At(Peer(from)));
            && pumped.2
            && Run(w, evs) == w.(ends := Between(from, pumped.0, pumped.1))
            && Along(Faithful, w, evs)
  {
    RelayFromLevel(w, from, Pending(w.ends.At(from)), outLens, 0);
  }

  // ---- the handshake loop ----

  /** What each side's TLS stack does in each iteration; any choice at all. */
  type Oracle = nat -> Drive

  /** One iteration: each side is driven and its output pumped across. The flag is false when a
      pump did not fit, which ends the loop on the spot. */
  function Iteration(ends: PerSide<Endpoint>, clientDrive: Drive, serverDrive: Drive): (r: (PerSide<Endpoint>, bool))
  {
    var (c1, s1, ok1) := Pump(DriveHandshake(ends.client, clientDrive), ends.server);
    if !ok1 then (PerSide(c1, s1), false)
    else var (s2, c2, ok2) := Pump(DriveHandshake(s1, serverDrive), c1); (PerSide(c2, s2), ok2)
  }

  /** The loop from iteration `i`: the two endpoints at its end and the completed iterations. */
  function Loop(ends: PerSide<Endpoint>, clientDrive: Oracle, serverDrive: Oracle, i: nat): (r: (PerSide<Endpoint>, nat))
    decreases MAX_ITERATIONS - i, ends
  {
    if i >= MAX_ITERATIONS || (ends.client.done && ends.server.done) then (ends, i)
    else
      var (next, ok) := Iteration(ends, clientDrive(i), serverDrive(i));
      if ok then Loop(next, clientDrive, serverDrive, i + 1) else (next, i)
  }

  ghost predicate NoLoans(e: Endpoint)
  {
    forall l :: 0 <= l < LEVELS ==> e.lanes.At(l).leased == 0
  }

  ghost predicate DisciplinedScript(e: Endpoint, script: seq<Callback>)
    decreases |script|
  {
    script == [] || (CarefulRelease(e, script[0]) && DisciplinedScript(Handle(e, script[0]), script[1..]))
  }

  /** Lease discipline for one drive: loans are given back only while held, and all are given back. */
  ghost predicate DisciplinedDrive(e: Endpoint, d: Drive)
  {
    DisciplinedScript(e, d.script) && NoLoans(DriveHandshake(e, d))
  }

  ghost predicate DisciplinedIteration(ends: PerSide<Endpoint>, clientDrive: Drive, serverDrive: Drive)
  {
    && DisciplinedDrive(ends.client, clientDrive)
    && DisciplinedDrive(Pump(DriveHandshake(ends.client, clientDrive), ends.server).1, serverDrive)
  }

  ghost predicate DisciplinedLoop(ends: PerSide<Endpoint>, clientDrive: Oracle, serverDrive: Oracle, i: nat)
    decreases MAX_ITERATIONS - i, ends
  {
    if i >= MAX_ITERATIONS || (ends.client.done && ends.server.done) then true
    else
      && DisciplinedIteration(ends, clientDrive(i), serverDrive(i))
      && DisciplinedLoop(Iteration(ends, clientDrive(i), serverDrive(i)).0, clientDrive, serverDrive, i + 1)
  }

  function Calls(side: Side, script: seq<Callback>): seq<Event>
  {
    if script == [] then [] else [Call(side, script[0])] + Calls(side, script[1..])
  }

  function DriveEvents(side: Side, d: Drive): seq<Event>
  {
    Calls(side, d.script) + [Return(side, d.rc, d.sslError)]
  }

  lemma {:induction false} CallsAreRun(w: World, side: Side, script: seq<Callback>)
    ensures Run(w, Calls(side, script)) == w.(ends := w.ends.With(side, HandleAll(w.ends.At(side), script)))
    ensures Along(Faithful, w, Calls(side, script))
    ensures DisciplinedScript(w.ends.At(side), script) ==> Along(Disciplined, w, Calls(side, script))
    decreases |script|
  {
    if script != [] {
      var evs := Calls(side, script);
      assert evs[1..] == Calls(side, script[1..]);
      CallsAreRun(Step(w, evs[0]), side, script[1..]);
    }
  }

  lemma DriveIsRun(w: World, side: Side, d: Drive)
    ensures var evs := DriveEvents(side, d);
            && Run(w, evs) == w.(ends := w.ends.With(side, DriveHandshake(w.ends.At(side), d)))
            && Along(Faithful, w, evs)
            && (DisciplinedDrive(w.ends.At(side), d) ==> Along(Disciplined, w, evs))
  {
    var calls, last := Calls(side, d.script), [Return(side, d.rc, d.sslError)];
    CallsAreRun(w, side, d.script);
    var w1 := Run(w, calls);
    assert last[1..] == [] && Run(w1, last) == Step(w1, last[0]);
    assert Along(Faithful, w1, last) && Along(Disciplined, w1, last);
    RunConcat(w, calls, last);
    AlongConcat(Faithful, w, calls, last);
    if DisciplinedDrive(w.ends.At(side), d) {
      AlongConcat(Disciplined, w, calls, last);
    }
  }

  lemma {:induction false} RelayIsDisciplined(w: World, from: Side, pending: PerLevel<seq<byte>>, outLens: PerLevel<nat>, level: nat)
    requires NoLoans(w.ends.At(Peer(from)))
    ensures Along(Disciplined, w, Relay(from, pending, outLens, level))
    ensures NoLoans(Run(w, Relay(from, pending, outLens, level)).ends.At(Peer(from)))
    decreases LEVELS - level
  {
    hide Step, Along;
    NoEventsAlong(Disciplined, w);
    if level < LEVELS {
      var a, b := Copy(from, level, true, outLens.At(level)), Provide(Peer(from), level, pending.At(level));
      var w1 := Step(w, a);
      var w2 := Step(w1, b);
      forall l | 0 <= l < LEVELS
        ensures w1.ends.At(Peer(from)).lanes.At(l).leased == 0
        ensures w2.ends.At(Peer(from)).lanes.At(l).leased == 0
      {
        LaneAfterStep(w, a, Peer(from), l);
        LaneAfterStep(w1, b, Peer(from), l);
      }
      AlongTwo(Disciplined, w, a, b);
      RunTwo(w, a, b);
      RelayIsDisciplined(w2, from, pending, outLens, level + 1);
      AlongConcat(Disciplined, w, [a, b], Relay(from, pending, outLens, level + 1));
      RunConcat(w, [a, b], Relay(from, pending, outLens, level + 1));
    }
  }

  /** The world between two drives of the loop: nothing in flight. */
  function Quiet(ends: PerSide<Endpoint>): World { World(ends, NO_FLIGHT) }

  /** The events in which a TLS stack acts: its callbacks and its returns. */
  function Driven(evs: seq<Event>): seq<Event>
  {
    if evs == [] then []
    else (if evs[0].Call? || evs[0].Return? then [evs[0]] else []) + Driven(evs[1..])
  }

  lemma {:induction false} DrivenConcat(a: seq<Event>, b: seq<Event>)
    ensures Driven(a + b) == Driven(a) + Driven(b)
    decreases |a|
  {
    if a == [] {
      assert a + b == b;
    } else {
      var first := if a[0].Call? || a[0].Return? then [a[0]] else [];
      assert (a + b)[1..] == a[1..] + b && (a + b)[0] == a[0];
      DrivenConcat(a[1..], b);
      assert Driven(a + b) == first + (Driven(a[1..]) + Driven(b)) == first + Driven(a[1..]) + Driven(b);
    }
  }

  lemma {:induction false} DriveIsDriven(side: Side, script: seq<Callback>, rc: int, sslError: int)
    ensures Driven(Calls(side, script) + [Return(side, rc, sslError)]) == Calls(side, script) + [Return(side, rc, sslError)]
    decreases |script|
  {
    var evs := Calls(side, script) + [Return(side, rc, sslError)];
    if script == [] {
      assert evs[1..] == [];
    } else {
      DriveIsDriven(side, script[1..], rc, sslError);
      assert evs[1..] == Calls(side, script[1..]) + [Return(side, rc, sslError)];
    }
  }

  lemma {:induction false} RelayIsNotDriven(from: Side, pending: PerLevel<seq<byte>>, outLens: PerLevel<nat>, level: nat)
    ensures Driven(Relay(from, pending, outLens, level)) == []
    decreases LEVELS - level
  {
    if level < LEVELS {
      var evs, rest := Relay(from, pending, outLens, level), Relay(from, pending, outLens, level + 1);
      RelayIsNotDriven(from, pending, outLens, level + 1);
      assert evs[1..][1..] == rest;
      assert Driven(evs[1..]) == Driven(rest);
    }
  }

  /** `w'` is reached from `w` by a faithful run, and by a disciplined one if so asked, in which the
      TLS stacks do exactly `drives`. */
  ghost predicate Reaches(w: World, w': World, disciplined: bool, drives: seq<Event>)
  {
    exists evs :: Leads(w, w', disciplined, drives, evs)
  }

  ghost predicate Leads(w: World, w': World, disciplined: bool, drives: seq<Event>, evs: seq<Event>)
  {
    && Run(w, evs) == w' && Along(Faithful, w, evs) && (disciplined ==> Along(Disciplined, w, evs))
    && Driven(evs) == drives
  }

  lemma ReachesSelf(w: World, disciplined: bool)
    ensures Reaches(w, w, disciplined, [])
  {
    assert Leads(w, w, disciplined, [], []);
  }

  lemma ReachesTransitive(w: World, w1: World, w2: World, disciplined: bool, first: seq<Event>, second: seq<Event>)
    requires Reaches(w, w1, disciplined, first) && Reaches(w1, w2, disciplined, second)
    ensures Reaches(w, w2, disciplined, first + second)
  {
    var a :| Leads(w, w1, disciplined, first, a);
    var b :| Leads(w1, w2, disciplined, second, b);
    RunConcat(w, a, b);
    AlongConcat(Faithful, w, a, b);
    if disciplined {
      AlongConcat(Disciplined, w, a, b);
    }
    DrivenConcat(a, b);
    assert Leads(w, w2, disciplined, first + second, a + b);
  }

  lemma ReachesKeepsValid(w: World, w': World, disciplined: bool, drives: seq<Event>)
    requires PairWorld.Valid(w, true) && Reaches(w, w', disciplined, drives)
    ensures PairWorld.Valid(w', true)
  {
    var evs :| Leads(w, w', disciplined, drives, evs);
    FaithfulIsBudgeted(w, evs);
    RunKeepsValid(w, evs, true);
  }

  /** A drive alone. */
  lemma DriveReaches(w: World, side: Side, d: Drive, disciplined: bool)
    requires disciplined ==> DisciplinedDrive(w.ends.At(side), d)
    ensures Reaches(w, w.(ends := w.ends.With(side, DriveHandshake(w.ends.At(side), d))), disciplined, DriveEvents(side, d))
  {
    DriveIsRun(w, side, d);
    DriveIsDriven(side, d.script, d.rc, d.sslError);
    assert Leads(w, w.(ends := w.ends.With(side, DriveHandshake(w.ends.At(side), d))), disciplined,
                 DriveEvents(side, d), DriveEvents(side, d));
  }

  const AMPLE: PerLevel<nat> := Everywhere(CAPACITY)

  /** A pump alone, wherever it starts from, succeeds. */
  lemma PumpReaches(w: World, from: Side, disciplined: bool)
    requires PairWorld.Valid(w, true) && w.flight == NO_FLIGHT
    requires disciplined ==> NoLoans(w.ends.At(from)) && NoLoans(w.ends.At(Peer(from)))
    ensures var pumped := Pump(w.ends.At(from), w.ends.At(Peer(from)));
            && pumped.2 && Reaches(w, w.(ends := Between(from, pumped.0, pumped.1)), disciplined, [])
            && (disciplined ==> NoLoans(pumped.0) && NoLoans(pumped.1))
  {
    forall l | 0 <= l < LEVELS
      ensures |w.ends.At(from).outputs.At(l).pending| <= AMPLE.At(l)
    {
      assert Linked(w, from, l, true);
    }
    RelayRefinesPump(w, from, AMPLE);
    if disciplined {
      RelayIsDisciplined(w, from, Pending(w.ends.At(from)), AMPLE, 0);
      PumpKeepsSenderLanes(w.ends.At(from), w.ends.At(Peer(from)), 0);
    }
    RelayIsNotDriven(from, Pending(w.ends.At(from)), AMPLE, 0);
    var pumped := Pump(w.ends.At(from), w.ends.At(Peer(from)));
    assert Leads(w, w.(ends := Between(from, pumped.0, pumped.1)), disciplined, [],
                 Relay(from, Pending(w.ends.At(from)), AMPLE, 0));
  }

  lemma {:induction false} PumpKeepsSenderLanes(from: Endpoint, to: Endpoint, level: nat)
    ensures PumpFrom(from, to, level).0.lanes == from.lanes
    decreases LEVELS - level
  {
    if level < LEVELS {
      var (f, t) := PumpLevel(from, to, level);
      if from.outputs.At(level).pending == [] {
        PumpKeepsSenderLanes(from, to, level + 1);
      } else {
        PumpKeepsSenderLanes(f, t, level + 1);
      }
    }
  }

  /** Drive one side, then pump its output across. */
  lemma HalfIterationReaches(w: World, from: Side, d: Drive, disciplined: bool)
    requires PairWorld.Valid(w, true) && w.flight == NO_FLIGHT
    requires disciplined ==> NoLoans(w.ends.At(Peer(from))) && DisciplinedDrive(w.ends.At(from), d)
    ensures var pumped := Pump(DriveHandshake(w.ends.At(from), d), w.ends.At(Peer(from)));
            var w' := w.(ends := Between(from, pumped.0, pumped.1));
            && pumped.2 && PairWorld.Valid(w', true) && Reaches(w, w', disciplined, DriveEvents(from, d))
            && (disciplined ==> NoLoans(pumped.0) && NoLoans(pumped.1))
  {
    var w1 := w.(ends := w.ends.With(from, DriveHandshake(w.ends.At(from), d)));
    DriveReaches(w, from, d, disciplined);
    ReachesKeepsValid(w, w1, disciplined, DriveEvents(from, d));
    PumpReaches(w1, from, disciplined);
    var pumped := Pump(w1.ends.At(from), w1.ends.At(Peer(from)));
    ReachesTransitive(w, w1, w.(ends := Between(from, pumped.0, pumped.1)), disciplined, DriveEvents(from, d), []);
    assert DriveEvents(from, d) + [] == DriveEvents(from, d);
    ReachesKeepsValid(w, w.(ends := Between(from, pumped.0, pumped.1)), disciplined, DriveEvents(from, d));
  }

  /** One iteration of the loop, both halves. */
  lemma IterationReaches(ends: PerSide<Endpoint>, clientDrive: Drive, serverDrive: Drive, disciplined: bool)
    requires PairWorld.Valid(Quiet(ends), true)
    requires disciplined ==>
               NoLoans(ends.client) && NoLoans(ends.server) && DisciplinedIteration(ends, clientDrive, serverDrive)
    ensures var (next, ok) := Iteration(ends, clientDrive, serverDrive);
            && ok && PairWorld.Valid(Quiet(next), true)
            && Reaches(Quiet(ends), Quiet(next), disciplined, DriveEvents(Client, clientDrive) + DriveEvents(Server, serverDrive))
            && (disciplined ==> NoLoans(next.client) && NoLoans(next.server))
  {
    HalfIterationReaches(Quiet(ends), Client, clientDrive, disciplined);
    var half := Pump(DriveHandshake(ends.client, clientDrive), ends.server);
    var mid := Quiet(PerSide(half.0, half.1));
    HalfIterationReaches(mid, Server, serverDrive, disciplined);
    ReachesTransitive(Quiet(ends), mid, Quiet(Iteration(ends, clientDrive, serverDrive).0), disciplined,
                      DriveEvents(Client, clientDrive), DriveEvents(Server, serverDrive));
  }

  /** What the TLS stacks do in iterations `i` to `n`: the client's drive, then the server's. */
  function LoopDrives(clientDrive: Oracle, serverDrive: Oracle, i: nat, n: nat): seq<Event>
    decreases n - i
  {
    if i >= n then []
    else DriveEvents(Client, clientDrive(i)) + DriveEvents(Server, serverDrive(i)) + LoopDrives(clientDrive, serverDrive, i + 1, n)
  }

  /** The whole loop is a faithful world run in which the stacks are driven client first, server
      second, once each per completed iteration and never otherwise; no pump in it fails, and it
      stops only when both sides are done or all 80 iterations are spent. */
  lemma {:induction false} LoopReaches(ends: PerSide<Endpoint>, clientDrive: Oracle, serverDrive: Oracle, i: nat, disciplined: bool)
    requires PairWorld.Valid(Quiet(ends), true) && i <= MAX_ITERATIONS
    requires disciplined ==>
               NoLoans(ends.client) && NoLoans(ends.server) && DisciplinedLoop(ends, clientDrive, serverDrive, i)
    ensures var (ends', n) := Loop(ends, clientDrive, serverDrive, i);
            && i <= n <= MAX_ITERATIONS
            && ((ends'.client.done && ends'.server.done) || n == MAX_ITERATIONS)
            && Reaches(Quiet(ends), Quiet(ends'), disciplined, LoopDrives(clientDrive, serverDrive, i, n))
    decreases MAX_ITERATIONS - i
  {
    hide PairWorld.Valid, Reaches, Iteration, NoLoans, DisciplinedIteration, DriveEvents;
    var r := Loop(ends, clientDrive, serverDrive, i);
    if i >= MAX_ITERATIONS || (ends.client.done && ends.server.done) {
      assert r == (ends, i);
      ReachesSelf(Quiet(ends), disciplined);
    } else {
      var next := Iteration(ends, clientDrive(i), serverDrive(i)).0;
      IterationReaches(ends, clientDrive(i), serverDrive(i), disciplined);
      assert r == Loop(next, clientDrive, serverDrive, i + 1);
      LoopReaches(next, clientDrive, serverDrive, i + 1, disciplined);
      ReachesTransitive(Quiet(ends), Quiet(next), Quiet(r.0), disciplined,
                        DriveEvents(Client, clientDrive(i)) + DriveEvents(Server, serverDrive(i)),
                        LoopDrives(clientDrive, serverDrive, i + 1, r.1));
    }
  }

  // ---- how long the loop runs ----

  /** One of the first `n` drives of a side returned success. */
  ghost predicate Returned(drive: Oracle, n: nat)
  {
    exists j :: 0 <= j < n && drive(j).rc == 1
  }

  /** `n` is the first count of iterations after which both sides have returned success, or 80. */
  ghost predicate StopsAt(clientDrive: Oracle, serverDrive: Oracle, n: nat)
  {
    && n <= MAX_ITERATIONS
    && (n == MAX_ITERATIONS || (Returned(clientDrive, n) && Returned(serverDrive, n)))
    && forall m :: 0 <= m < n ==> !(Returned(clientDrive, m) && Returned(serverDrive, m))
  }

  lemma {:induction false} ScriptKeepsDone(e: Endpoint, script: seq<Callback>)
    ensures HandleAll(e, script).done == e.done
    decreases |script|
  {
    if script != [] {
      ScriptKeepsDone(Handle(e, script[0]), script[1..]);
    }
  }

  lemma {:induction false} PumpKeepsDone(from: Endpoint, to: Endpoint, level: nat)
    ensures PumpFrom(from, to, level).0.done == from.done && PumpFrom(from, to, level).1.done == to.done
    decreases LEVELS - level
  {
    if level < LEVELS {
      var (f, t) := PumpLevel(from, to, level);
      PumpKeepsDone(from, to, level + 1);
      PumpKeepsDone(f, t, level + 1);
    }
  }

  lemma IterationDone(ends: PerSide<Endpoint>, clientDrive: Drive, serverDrive: Drive)
    requires Iteration(ends, clientDrive, serverDrive).1
    ensures var next := Iteration(ends, clientDrive, serverDrive).0;
            && next.client.done == (ends.client.done || clientDrive.rc == 1)
            && next.server.done == (ends.server.done || serverDrive.rc == 1)
  {
    hide HandleAll, PumpFrom;
    ScriptKeepsDone(ends.client, clientDrive.script);
    var c := DriveHandshake(ends.client, clientDrive);
    PumpKeepsDone(c, ends.server, 0);
    var (c1, s1, _) := Pump(c, ends.server);
    ScriptKeepsDone(s1, serverDrive.script);
    PumpKeepsDone(DriveHandshake(s1, serverDrive), c1, 0);
  }

  lemma ReturnedNext(drive: Oracle, n: nat)
    ensures Returned(drive, n + 1) <==> Returned(drive, n) || drive(n).rc == 1
  {
  }

  /** The loop stops after exactly as many iterations as the return codes demand, and each side is
      done exactly when one of its drives returned success. */
  lemma {:induction false} LoopStops(ends: PerSide<Endpoint>, clientDrive: Oracle, serverDrive: Oracle, i: nat)
    requires PairWorld.Valid(Quiet(ends), true) && i <= MAX_ITERATIONS
    requires ends.client.done <==> Returned(clientDrive, i)
    requires ends.server.done <==> Returned(serverDrive, i)
    requires forall m :: 0 <= m < i ==> !(Returned(clientDrive, m) && Returned(serverDrive, m))
    ensures var (ends', n) := Loop(ends, clientDrive, serverDrive, i);
            && StopsAt(clientDrive, serverDrive, n)
            && (ends'.client.done <==> Returned(clientDrive, n))
            && (ends'.server.done <==> Returned(serverDrive, n))
    decreases MAX_ITERATIONS - i
  {
    hide PairWorld.Valid, Reaches, Iteration, Returned;
    if i >= MAX_ITERATIONS || (ends.client.done && ends.server.done) {
      assert Loop(ends, clientDrive, serverDrive, i) == (ends, i);
    } else {
      var next := Iteration(ends, clientDrive(i), serverDrive(i)).0;
      IterationReaches(ends, clientDrive(i), serverDrive(i), false);
      IterationDone(ends, clientDrive(i), serverDrive(i));
      ReturnedNext(clientDrive, i);
      ReturnedNext(serverDrive, i);
      assert Loop(ends, clientDrive, serverDrive, i) == Loop(next, clientDrive, serverDrive, i + 1);
      LoopStops(next, clientDrive, serverDrive, i + 1);
    }
  }

  lemma StopsOnce(clientDrive: Oracle, serverDrive: Oracle, n: nat, m: nat)
    requires StopsAt(clientDrive, serverDrive, n) && StopsAt(clientDrive, serverDrive, m)
    ensures n == m
  {
  }

  const NEW_ENDS := PerSide(NEW_ENDPOINT, NEW_ENDPOINT)

  lemma NewEndsAreOpen(clientDrive: Oracle, serverDrive: Oracle)
    ensures !Returned(clientDrive, 0) && !Returned(serverDrive, 0)
  {
  }

  /** The one-shot run on any TLS behaviour: it stops where the return codes say, with end-to-end
      integrity at every level in both directions, which under lease discipline makes everything a
      peer consumed a prefix of the exported transcript; and each level's reported byte count is
      the length of its exported history. */
  lemma TranscriptIntegrity(clientDrive: Oracle, serverDrive: Oracle, from: Side, l: nat)
    requires l < LEVELS
    ensures var (ends, iterations) := Loop(NEW_ENDS, clientDrive, serverDrive, 0);
            && StopsAt(clientDrive, serverDrive, iterations)
            && (ends.client.done <==> Returned(clientDrive, iterations))
            && (ends.server.done <==> Returned(serverDrive, iterations))
            && Integrity(Quiet(ends), from, l, DisciplinedLoop(NEW_ENDS, clientDrive, serverDrive, 0))
            && ends.At(from).outputs.At(l).total == |ends.At(from).outputs.At(l).history| <= CAPACITY
  {
    hide Loop, DisciplinedLoop, Integrity, Reaches, StopsAt, Returned, LoopDrives;
    NewWorldValid();
    NewEndsAreOpen(clientDrive, serverDrive);
    var disciplined := DisciplinedLoop(NEW_ENDS, clientDrive, serverDrive, 0);
    LoopReaches(NEW_ENDS, clientDrive, serverDrive, 0, disciplined);
    LoopStops(NEW_ENDS, clientDrive, serverDrive, 0);
    var (ends, n) := Loop(NEW_ENDS, clientDrive, serverDrive, 0);
    ReachableIntegrity(Quiet(ends), from, l, disciplined, LoopDrives(clientDrive, serverDrive, 0, n));
  }

  lemma ReachableIntegrity(w: World, from: Side, l: nat, disciplined: bool, drives: seq<Event>)
    requires l < LEVELS && Reaches(NEW_WORLD, w, disciplined, drives)
    ensures Integrity(w, from, l, disciplined)
    ensures w.ends.At(from).outputs.At(l).total == |w.ends.At(from).outputs.At(l).history| <= CAPACITY
  {
    var evs :| Leads(NEW_WORLD, w, disciplined, drives, evs);
    StreamIntegrity(evs, from, l);
    NewWorldValid();
    ReachesKeepsValid(NEW_WORLD, w, disciplined, drives);
    assert Linked(w, from, l, true);
  }
}
