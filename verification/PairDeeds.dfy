/** Each endpoint of the pair, told from the outside: after any run of the two-endpoint world, and so
    after the handshake loop, its state is a fold over what its TLS stack did. */
module PairDeeds {
  import opened Streams
  import opened Lanes
  import opened Callbacks
  import opened Endpoints
  import opened PairWorld
  import opened PairRun
  import opened Deeds

  // ---- any run ----

  /** What happened at one side: its callbacks, and what was provided to it. */
  function DeedsAt(evs: seq<Event>, side: Side): seq<Deed>
  {
    if evs == [] then []
    else DeedsAt(evs[..|evs| - 1], side) + DeedAt(evs[|evs| - 1], side)
  }

  function DeedAt(ev: Event, side: Side): seq<Deed>
  {
    if ev.Call? && ev.side == side then [Made(ev.cb)]
    else if ev.Provide? && ev.to == side && 0 <= ev.level < LEVELS then [Arrived(ev.level, ev.data)]
    else []
  }

  /** Whether a drive of the side has returned success. */
  predicate ReturnedIn(evs: seq<Event>, side: Side)
  {
    evs != [] && (ReturnsSuccess(evs[|evs| - 1], side) || ReturnedIn(evs[..|evs| - 1], side))
  }

  predicate ReturnsSuccess(ev: Event, side: Side)
  {
    ev.Return? && ev.side == side && ev.rc == 1
  }

  /** What the side's last drive left as its error: none after a success, else what TLS reported. */
  function ErrorIn(evs: seq<Event>, side: Side): int
  {
    if evs == [] then SSL_ERROR_NONE
    else
      var ev := evs[|evs| - 1];
      if ev.Return? && ev.side == side then (if ev.rc == 1 then SSL_ERROR_NONE else ev.sslError)
      else ErrorIn(evs[..|evs| - 1], side)
  }

  ghost predicate ToldLevel(e: Endpoint, cbs: seq<Callback>, l: nat)
    requires l < LEVELS
  {
    && e.secrets.At(l) == Secrets(LastSecret(cbs, l, READ_SECRET), LastSecret(cbs, l, WRITE_SECRET))
    && e.outputs.At(l).history == Transcribed(cbs, l, CAPACITY)
  }

  /** The callbacks tell the current levels, the secrets, the history and the peer's parameters. */
  ghost predicate Told(e: Endpoint, cbs: seq<Callback>)
  {
    && e.readLevel == CurrentLevel(cbs, READ_SECRET) && e.writeLevel == CurrentLevel(cbs, WRITE_SECRET)
    && e.peerParams == (var p := Announced(None, cbs); if p.Some? then p.value else [])
    && forall l :: 0 <= l < LEVELS ==> ToldLevel(e, cbs, l)
  }

  lemma CallbackTellsLevel(e: Endpoint, cbs: seq<Callback>, cb: Callback, l: nat)
    requires l < LEVELS && Endpoints.Valid(e) && ToldLevel(e, cbs, l) && e.writeLevel == CurrentLevel(cbs, WRITE_SECRET)
    ensures ToldLevel(Handle(e, cb), cbs + [cb], l)
  {
    Snoc(cbs, cb);
    if cb.Send? {
      SendAcceptedIffRoom(e, cb.data);
    }
  }

  lemma CallbackTells(e: Endpoint, cbs: seq<Callback>, cb: Callback)
    requires Endpoints.Valid(e) && Told(e, cbs)
    ensures Told(Handle(e, cb), cbs + [cb])
  {
    hide Endpoints.Valid, ToldLevel;
    Snoc(cbs, cb);
    forall l | 0 <= l < LEVELS ensures ToldLevel(Handle(e, cb), cbs + [cb], l) { CallbackTellsLevel(e, cbs, cb, l); }
  }

  lemma NothingTold()
    ensures Told(NEW_ENDPOINT, [])
  {
  }

  /** Everything else leaves what the callbacks tell alone. */
  lemma OthersTellNothing(w: World, ev: Event, side: Side, cbs: seq<Callback>)
    requires Told(w.ends.At(side), cbs) && !(ev.Call? && ev.side == side)
    ensures Told(Step(w, ev).ends.At(side), cbs)
  {
    var e, e' := w.ends.At(side), Step(w, ev).ends.At(side);
    assert e'.readLevel == e.readLevel && e'.writeLevel == e.writeLevel && e'.peerParams == e.peerParams;
    forall l | 0 <= l < LEVELS ensures ToldLevel(e', cbs, l) { assert ToldLevel(e, cbs, l); }
  }

  lemma StepTells(w: World, ev: Event, side: Side, cbs: seq<Callback>)
    requires ValidEnds(w) && Told(w.ends.At(side), cbs)
    ensures Told(Step(w, ev).ends.At(side), cbs + if ev.Call? && ev.side == side then [ev.cb] else [])
  {
    hide Told, Endpoints.Valid;
    if ev.Call? && ev.side == side {
      CallbackTells(w.ends.At(side), cbs, ev.cb);
    } else {
      OthersTellNothing(w, ev, side, cbs);
      assert cbs + [] == cbs;
    }
  }

  lemma StepReturns(w: World, ev: Event, side: Side)
    ensures Step(w, ev).ends.At(side).done == (w.ends.At(side).done || ReturnsSuccess(ev, side))
    ensures Step(w, ev).ends.At(side).lastError ==
              if ev.Return? && ev.side == side then (if ev.rc == 1 then SSL_ERROR_NONE else ev.sslError)
              else w.ends.At(side).lastError
  {
  }

  lemma RunSnoc(w: World, evs: seq<Event>)
    requires evs != []
    ensures Run(w, evs) == Step(Run(w, evs[..|evs| - 1]), evs[|evs| - 1])
  {
    var before, ev := evs[..|evs| - 1], evs[|evs| - 1];
    RunConcat(w, before, [ev]);
    assert evs == before + [ev] && [ev][1..] == [];
    assert Run(Run(w, before), [ev]) == Run(Step(Run(w, before), ev), []);
  }

  lemma LaneTold(w: World, ev: Event, side: Side, l: nat, deeds: seq<Deed>)
    requires l < LEVELS && w.ends.At(side).lanes.At(l) == LaneOf(deeds, l, CAPACITY)
    requires w.ends.At(side).readLevel == CurrentLevel(CallbacksOf(deeds), READ_SECRET)
    ensures Step(w, ev).ends.At(side).lanes.At(l) == LaneOf(deeds + DeedAt(ev, side), l, CAPACITY)
  {
    hide CurrentLevel;
    LaneAfterStep(w, ev, side, l);
    var more := DeedAt(ev, side);
    if more == [] {
      assert deeds + more == deeds;
    } else {
      Snoc(deeds, more[0]);
      assert more == [more[0]];
    }
  }

  lemma CallbacksOfMore(deeds: seq<Deed>, ev: Event, side: Side)
    ensures CallbacksOf(deeds + DeedAt(ev, side)) == CallbacksOf(deeds) + if ev.Call? && ev.side == side then [ev.cb] else []
  {
    var more := DeedAt(ev, side);
    if more == [] {
      assert deeds + more == deeds;
    } else {
      Snoc(deeds, more[0]);
      assert more == [more[0]];
    }
  }

  /** In every state of every run, with no assumption on anyone, an endpoint is what the deeds at it
      make it: levels, secrets, history and parameters by its callbacks, its lanes by callbacks and
      arrivals, and done and the last error by its return codes. */
  lemma {:induction false} EndpointIsTold(evs: seq<Event>, side: Side)
    ensures var e, deeds := Run(NEW_WORLD, evs).ends.At(side), DeedsAt(evs, side);
            && Told(e, CallbacksOf(deeds))
            && (forall l :: 0 <= l < LEVELS ==> e.lanes.At(l) == LaneOf(deeds, l, CAPACITY))
            && e.done == ReturnedIn(evs, side) && e.lastError == ErrorIn(evs, side)
    decreases |evs|
  {
    hide ToldLevel, Step, LaneOf, ValidEnds;
    if evs == [] {
      NothingTold();
      assert Run(NEW_WORLD, evs) == NEW_WORLD;
      forall l | 0 <= l < LEVELS ensures EMPTY_LANE == LaneOf([], l, CAPACITY) { NoDeeds(l); }
    } else {
      var before, ev := evs[..|evs| - 1], evs[|evs| - 1];
      var w, deeds := Run(NEW_WORLD, before), DeedsAt(before, side);
      EndpointIsTold(before, side);
      RunSnoc(NEW_WORLD, evs);
      NewEndsValid();
      EndsAlwaysValid(NEW_WORLD, before);
      StepTells(w, ev, side, CallbacksOf(deeds));
      CallbacksOfMore(deeds, ev, side);
      StepReturns(w, ev, side);
      forall l | 0 <= l < LEVELS ensures Step(w, ev).ends.At(side).lanes.At(l) == LaneOf(DeedsAt(evs, side), l, CAPACITY) {
        LaneTold(w, ev, side, l, deeds);
      }
    }
  }

  /** What each callback is told back, in every state of every run, from the deeds at the endpoint. */
  lemma RepliesAreTold(evs: seq<Event>, side: Side, data: seq<byte>, count: nat, level: nat, direction: int)
    ensures var e, deeds := Run(NEW_WORLD, evs).ends.At(side), DeedsAt(evs, side);
            var cbs := CallbacksOf(deeds);
            var lane := LaneOf(deeds, CurrentLevel(cbs, READ_SECRET), CAPACITY);
            && (SendCrypto(e, data).1 <==> |Transcribed(cbs, CurrentLevel(cbs, WRITE_SECRET), CAPACITY)| + |data| <= CAPACITY)
            && ReceiveRecord(e).1 == (if lane.leased == 0 then lane.inbound else [])
            && (ReleaseRecord(e, count).1 <==> count <= lane.leased)
            && (Yield(e, level, direction, data).1 <==> level < LEVELS)
            && (GotTransportParams(e, data).1 <==> |data| <= PARAMS_CAPACITY)
  {
    hide Run, CurrentLevel, Transcribed, LaneOf, CallbacksOf, DeedsAt;
    EndpointIsTold(evs, side);
    NewEndsValid();
    EndsAlwaysValid(NEW_WORLD, evs);
    var e := Run(NEW_WORLD, evs).ends.At(side);
    assert Endpoints.Valid(e);
    SendAcceptedIffRoom(e, data);
    assert ToldLevel(e, CallbacksOf(DeedsAt(evs, side)), e.writeLevel);
  }

  lemma NoDeeds(l: nat)
    ensures LaneOf([], l, CAPACITY) == EMPTY_LANE
  {
  }

  lemma NewEndsValid()
    ensures ValidEnds(NEW_WORLD)
  {
    NewEndpointValid();
  }

  // ---- the handshake loop ----

  /** All callbacks a side's stack makes in its first `n` drives. */
  function Scripts(drive: Oracle, n: nat): seq<Callback>
  {
    if n == 0 then [] else Scripts(drive, n - 1) + drive(n - 1).script
  }

  /** The callbacks of one side among some events. */
  function CallsBy(evs: seq<Event>, side: Side): seq<Callback>
  {
    if evs == [] then []
    else (if evs[0].Call? && evs[0].side == side then [evs[0].cb] else []) + CallsBy(evs[1..], side)
  }

  lemma {:induction false} CallsByConcat(a: seq<Event>, b: seq<Event>, side: Side)
    ensures CallsBy(a + b, side) == CallsBy(a, side) + CallsBy(b, side)
    decreases |a|
  {
    if a == [] {
      assert a + b == b;
    } else {
      assert (a + b)[1..] == a[1..] + b;
      CallsByConcat(a[1..], b, side);
    }
  }

  lemma {:induction false} CallsByDriven(evs: seq<Event>, side: Side)
    ensures CallsBy(Driven(evs), side) == CallsBy(evs, side)
  {
    if evs != [] {
      CallsByDriven(evs[1..], side);
      var first := if evs[0].Call? || evs[0].Return? then [evs[0]] else [];
      CallsByConcat(first, Driven(evs[1..]), side);
      assert first != [] ==> first[1..] == [];
    }
  }

  lemma NothingMade()
    ensures CallbacksOf([]) == []
  {
  }

  lemma {:induction false} DeedsAreCalls(evs: seq<Event>, side: Side)
    ensures CallbacksOf(DeedsAt(evs, side)) == CallsBy(evs, side)
    decreases |evs|
  {
    hide CallbacksOf;
    if evs == [] {
      assert CallbacksOf([]) == [] by { NothingMade(); }
    } else {
      var before, ev := evs[..|evs| - 1], evs[|evs| - 1];
      DeedsAreCalls(before, side);
      CallbacksOfMore(DeedsAt(before, side), ev, side);
      assert evs == before + [ev] && [ev][1..] == [];
      CallsByConcat(before, [ev], side);
    }
  }

  lemma {:induction false} CallsOfScript(of: Side, script: seq<Callback>, side: Side)
    ensures CallsBy(Calls(of, script), side) == if of == side then script else []
  {
    if script != [] {
      CallsOfScript(of, script[1..], side);
      assert Calls(of, script)[1..] == Calls(of, script[1..]);
    }
  }

  lemma CallsOfDrive(of: Side, d: Drive, side: Side)
    ensures CallsBy(DriveEvents(of, d), side) == if of == side then d.script else []
  {
    var last := [Return(of, d.rc, d.sslError)];
    CallsByConcat(Calls(of, d.script), last, side);
    CallsOfScript(of, d.script, side);
    assert last[1..] == [] && CallsBy(last, side) == [];
  }

  function DriveOf(clientDrive: Oracle, serverDrive: Oracle, side: Side): Oracle
  {
    if side.Client? then clientDrive else serverDrive
  }

  lemma ScriptsGrow(drive: Oracle, i: nat, more: seq<Callback>)
    ensures Scripts(drive, i) + (drive(i).script + more) == Scripts(drive, i + 1) + more
  {
  }

  lemma NoCalls(side: Side)
    ensures CallsBy([], side) == []
  {
  }

  /** The drives of iterations `i` to `n` of one side, in order. */
  lemma {:induction false} CallsOfLoop(clientDrive: Oracle, serverDrive: Oracle, i: nat, n: nat, side: Side)
    requires i <= n
    ensures Scripts(DriveOf(clientDrive, serverDrive, side), i) + CallsBy(LoopDrives(clientDrive, serverDrive, i, n), side)
         == Scripts(DriveOf(clientDrive, serverDrive, side), n)
    decreases n - i
  {
    hide DriveEvents, CallsBy, Scripts;
    var drive := DriveOf(clientDrive, serverDrive, side);
    if i == n {
      NoCalls(side);
    } else {
      var a, b := DriveEvents(Client, clientDrive(i)), DriveEvents(Server, serverDrive(i));
      var rest := LoopDrives(clientDrive, serverDrive, i + 1, n);
      CallsOfLoop(clientDrive, serverDrive, i + 1, n, side);
      CallsByConcat(a + b, rest, side);
      CallsByConcat(a, b, side);
      CallsOfDrive(Client, clientDrive(i), side);
      CallsOfDrive(Server, serverDrive(i), side);
      assert CallsBy(a, side) + CallsBy(b, side) == drive(i).script;
      ScriptsGrow(drive, i, CallsBy(rest, side));
    }
  }

  /** A run in which the stacks do what the loop has them do leaves each endpoint as its own drives
      tell. */
  lemma LoopIsTold(clientDrive: Oracle, serverDrive: Oracle, side: Side)
    ensures var (ends, n) := Loop(NEW_ENDS, clientDrive, serverDrive, 0);
            StopsAt(clientDrive, serverDrive, n) && Told(ends.At(side), Scripts(DriveOf(clientDrive, serverDrive, side), n))
  {
    hide Loop, Reaches, StopsAt, Returned, LoopDrives, Told, Scripts, CallsBy, Run, Leads;
    NewWorldValid();
    NewEndsAreOpen(clientDrive, serverDrive);
    LoopReaches(NEW_ENDS, clientDrive, serverDrive, 0, false);
    LoopStops(NEW_ENDS, clientDrive, serverDrive, 0);
    var (ends, n) := Loop(NEW_ENDS, clientDrive, serverDrive, 0);
    var drives := LoopDrives(clientDrive, serverDrive, 0, n);
    var evs := RunBehind(NEW_WORLD, Quiet(ends), drives);
    EndpointIsTold(evs, side);
    DeedsAreCalls(evs, side);
    CallsByDriven(evs, side);
    CallsOfLoop(clientDrive, serverDrive, 0, n, side);
    NoScripts(DriveOf(clientDrive, serverDrive, side), CallsBy(drives, side));
  }

  lemma RunBehind(w: World, w': World, drives: seq<Event>) returns (evs: seq<Event>)
    requires Reaches(w, w', false, drives)
    ensures Run(w, evs) == w' && Driven(evs) == drives
  {
    evs :| Leads(w, w', false, drives, evs);
  }

  lemma NoScripts(drive: Oracle, more: seq<Callback>)
    ensures Scripts(drive, 0) + more == more
  {
  }
}
