/** Two endpoints and the host that carries CRYPTO bytes between them, one step at a time.
    A world run is any interleaving of OpenSSL callbacks, handshake returns, copies and
    provides; every claim here holds in every state such a run passes through. */
module PairWorld {
  import opened Streams
  import opened Lanes
  import opened Callbacks
  import opened Endpoints

  datatype Side = Client | Server

  datatype PerSide<T> = PerSide(client: T, server: T)
  {
    function At(side: Side): T { if side.Client? then client else server }

    function With(side: Side, value: T): (r: PerSide<T>)
      ensures r.At(side) == value && r.At(Peer(side)) == At(Peer(side))
    {
      if side.Client? then this.(client := value) else this.(server := value)
    }
  }

  function Peer(side: Side): Side { if side.Client? then Server else Client }

  type InFlight = PerLevel<seq<byte>>

  /** `flight.At(s)` holds, per level, the bytes the host has copied out of side `s` and not yet
      provided to its peer. They are the host's, not the endpoints'. */
  datatype World = World(ends: PerSide<Endpoint>, flight: PerSide<InFlight>)

  datatype Event =
    | Call(side: Side, cb: Callback)
    | Return(side: Side, rc: int, sslError: int)
    | Copy(from: Side, level: int, hasOut: bool, outLen: nat)
    | Provide(to: Side, level: int, data: seq<byte>)

  const NO_FLIGHT: PerSide<InFlight> := PerSide(Everywhere([]), Everywhere([]))
  const NEW_WORLD := World(PerSide(NEW_ENDPOINT, NEW_ENDPOINT), NO_FLIGHT)

  function Step(w: World, ev: Event): World
  {
    match ev
    case Call(side, cb) => w.(ends := w.ends.With(side, Handle(w.ends.At(side), cb)))
    case Return(side, rc, sslError) => w.(ends := w.ends.With(side, FinishDrive(w.ends.At(side), rc, sslError)))
    case Copy(from, level, hasOut, outLen) =>
      var (e, copied) := CopyPending(w.ends.At(from), level, hasOut, outLen);
      if copied.None? then w
      else World(w.ends.With(from, e), w.flight.With(from, Board(w.flight.At(from), level, copied.value)))
    case Provide(to, level, data) =>
      var (e, ok) := ProvideCrypto(w.ends.At(to), level, data);
      if !ok then w
      else World(w.ends.With(to, e), w.flight.With(Peer(to), Alight(w.flight.At(Peer(to)), level, |data|)))
  }

  /** The host's queues: bytes join at the back of a level's queue and leave from its front. */
  function Board(f: InFlight, level: nat, data: seq<byte>): InFlight
    requires level < LEVELS
  {
    f.With(level, f.At(level) + data)
  }

  function Alight(f: InFlight, level: nat, n: nat): InFlight
    requires level < LEVELS
  {
    f.With(level, if n <= |f.At(level)| then f.At(level)[n..] else [])
  }

  function Run(w: World, evs: seq<Event>): World
    decreases |evs|
  {
    if evs == [] then w else Run(Step(w, evs[0]), evs[1..])
  }

  /** What a claim may ask of the environment.
      `Budgeted`: the host never provides more bytes at a level than it holds in flight there.
      `Faithful`: what it provides is the front of what it holds, in any chunking.
      `Disciplined`: OpenSSL never gives back a loan it does not have while bytes are waiting,
      and nothing is provided to a level whose loan is still out.
      `Holding`: OpenSSL does not give back its loan at the named level. */
  datatype Assumption = Budgeted | Faithful | Disciplined | Holding(side: Side, level: nat)

  ghost predicate Meets(a: Assumption, w: World, ev: Event)
  {
    match a
    case Budgeted =>
      ev.Provide? && 0 <= ev.level < LEVELS ==> |ev.data| <= |w.flight.At(Peer(ev.to)).At(ev.level)|
    case Faithful =>
      ev.Provide? && 0 <= ev.level < LEVELS ==> ev.data <= w.flight.At(Peer(ev.to)).At(ev.level)
    case Disciplined =>
      && (ev.Call? ==> CarefulRelease(w.ends.At(ev.side), ev.cb))
      && (ev.Provide? && 0 <= ev.level < LEVELS && ev.data != [] ==> w.ends.At(ev.to).lanes.At(ev.level).leased == 0)
    case Holding(side, level) =>
      ev.Call? && ev.side == side && ev.cb.Release? && w.ends.At(side).readLevel == level && level < LEVELS ==>
        ev.cb.count > w.ends.At(side).lanes.At(level).leased
  }

  /** Not an accepted release, or one with a loan out, or one with nothing to lose. */
  ghost predicate CarefulRelease(e: Endpoint, cb: Callback)
  {
    cb.Release? && e.readLevel < LEVELS ==>
      e.lanes.At(e.readLevel).leased > 0 || e.lanes.At(e.readLevel).inbound == [] || cb.count > 0
  }

  ghost predicate Along(a: Assumption, w: World, evs: seq<Event>)
    decreases |evs|
  {
    evs == [] || (Meets(a, w, evs[0]) && Along(a, Step(w, evs[0]), evs[1..]))
  }

  // ---- the invariants of a link ----

  ghost predicate ValidEnds(w: World)
  {
    forall side :: Endpoints.Valid(w.ends.At(side))
  }

  /** One level of one direction. */
  ghost predicate Sound(w: World, from: Side, l: nat)
    requires l < LEVELS
  {
    ValidLevel(w.ends.At(from), l) && ValidLevel(w.ends.At(Peer(from)), l)
  }

  /** Bytes taken from `from` are at the peer or in flight: counted ... */
  ghost predicate Counted(w: World, from: Side, l: nat)
    requires l < LEVELS && Sound(w, from, l)
  {
    |w.ends.At(Peer(from)).lanes.At(l).accepted| + |w.flight.At(from).At(l)| == |Taken(w.ends.At(from).outputs.At(l))|
  }

  /** ... and in order, byte for byte. */
  ghost predicate Carried(w: World, from: Side, l: nat)
    requires l < LEVELS && Sound(w, from, l)
  {
    w.ends.At(Peer(from)).lanes.At(l).accepted + w.flight.At(from).At(l) == Taken(w.ends.At(from).outputs.At(l))
  }

  ghost predicate Linked(w: World, from: Side, l: nat, inOrder: bool)
    requires l < LEVELS
  {
    Sound(w, from, l) && Counted(w, from, l) && (inOrder ==> Carried(w, from, l))
  }

  /** `inOrder` asks for the byte-for-byte invariant on top of the counting one. */
  ghost predicate Valid(w: World, inOrder: bool)
  {
    ValidEnds(w) && forall from, l :: 0 <= l < LEVELS ==> Linked(w, from, l, inOrder)
  }

  /** No byte discarded, and every loan covers everything buffered. */
  ghost predicate LosslessLane(lane: Lane)
  {
    lane.discarded == [] && (lane.leased == 0 || lane.leased == |lane.inbound|)
  }

  ghost predicate Lossless(w: World)
  {
    forall side, l :: 0 <= l < LEVELS ==> LosslessLane(w.ends.At(side).lanes.At(l))
  }

  /** Room is guaranteed: what the peer buffers plus what is in flight plus what is pending fits in
      the sender's history, and that fits in a buffer. */
  lemma FlightFits(w: World, from: Side, l: nat, inOrder: bool)
    requires l < LEVELS && Linked(w, from, l, inOrder)
    ensures |w.ends.At(Peer(from)).lanes.At(l).inbound| + |w.flight.At(from).At(l)|
            + |w.ends.At(from).outputs.At(l).pending| <= |w.ends.At(from).outputs.At(l).history| <= CAPACITY
  {
    LossAccounting(w.ends.At(Peer(from)).lanes.At(l));
  }

  lemma NewWorldValid()
    ensures Valid(NEW_WORLD, true) && Lossless(NEW_WORLD)
  {
    NewEndpointValid();
    forall side ensures NEW_WORLD.ends.At(side) == NEW_ENDPOINT {}
    forall from, l | 0 <= l < LEVELS
      ensures Linked(NEW_WORLD, from, l, true)
    {
      assert ValidLevel(NEW_ENDPOINT, l);
    }
  }

  /** Endpoint validity asks nothing of the host or of OpenSSL. */
  lemma StepKeepsEnds(w: World, ev: Event)
    requires ValidEnds(w)
    ensures ValidEnds(Step(w, ev))
  {
    var w' := Step(w, ev);
    forall side
      ensures Endpoints.Valid(w'.ends.At(side))
    {
      var e := w.ends.At(side);
      assert Endpoints.Valid(e);
      match ev {
        case Call(s, cb) =>
          HandleKeepsValid(e, cb);
          assert side == s || side == Peer(s);
        case Return(s, rc, sslError) =>
          FinishKeepsValid(e, rc, sslError);
          assert side == s || side == Peer(s);
        case Copy(s, level, hasOut, outLen) =>
          Endpoints.CopyKeepsValid(e, level, hasOut, outLen);
          assert side == s || side == Peer(s);
        case Provide(s, level, data) =>
          Endpoints.ProvideKeepsValid(e, level, data);
          assert side == s || side == Peer(s);
      }
    }
  }

  lemma FinishKeepsValid(e: Endpoint, rc: int, sslError: int)
    requires Endpoints.Valid(e)
    ensures Endpoints.Valid(FinishDrive(e, rc, sslError))
  {
    forall l | 0 <= l < LEVELS
      ensures ValidLevel(FinishDrive(e, rc, sslError), l)
    {
      assert ValidLevel(e, l);
    }
  }

  /** An event of OpenSSL's moves no traffic, so it keeps every link. */
  lemma CallKeepsLink(w: World, ev: Event, from: Side, l: nat, inOrder: bool)
    requires ValidEnds(w) && l < LEVELS && Linked(w, from, l, inOrder) && (ev.Call? || ev.Return?)
    ensures Linked(Step(w, ev), from, l, inOrder)
  {
    assert Endpoints.Valid(w.ends.At(ev.side));
    assert from == ev.side || from == Peer(ev.side);
    if ev.Call? {
      HandleKeepsLevel(w.ends.At(ev.side), ev.cb, l);
    }
  }

  lemma CopyKeepsLink(w: World, ev: Event, from: Side, l: nat, inOrder: bool)
    requires l < LEVELS && Linked(w, from, l, inOrder) && ev.Copy?
    ensures Linked(Step(w, ev), from, l, inOrder)
  {
    hide Step, Lanes.Valid;
    CopyMovesPending(w, ev, from, l);
    var o := w.ends.At(from).outputs.At(l);
    assert Taken(o) + o.pending == o.history;
    assert Taken(o.(pending := [])) == o.history;
  }

  lemma CopyMovesPending(w: World, ev: Event, from: Side, l: nat)
    requires l < LEVELS && ev.Copy?
    ensures var w', o := Step(w, ev), w.ends.At(from).outputs.At(l);
            && w'.ends.At(from).lanes == w.ends.At(from).lanes
            && w'.ends.At(Peer(from)).lanes == w.ends.At(Peer(from)).lanes
            && w'.ends.At(from).secrets == w.ends.At(from).secrets
            && w'.ends.At(Peer(from)).secrets == w.ends.At(Peer(from)).secrets
            && (|| (w'.ends.At(from).outputs.At(l) == o && w'.flight.At(from).At(l) == w.flight.At(from).At(l))
                || (w'.ends.At(from).outputs.At(l) == o.(pending := [])
                    && w'.flight.At(from).At(l) == w.flight.At(from).At(l) + o.pending))
            && (var o2 := w.ends.At(Peer(from)).outputs.At(l);
                w'.ends.At(Peer(from)).outputs.At(l) == o2 || w'.ends.At(Peer(from)).outputs.At(l) == o2.(pending := []))
  {
    assert from == ev.from || from == Peer(ev.from);
  }

  /** Providing within budget at a real level never fails, and keeps every link. */
  lemma ProvideKeepsLink(w: World, ev: Event, from: Side, l: nat, inOrder: bool)
    requires l < LEVELS && Linked(w, from, l, inOrder) && ev.Provide? && Meets(Budgeted, w, ev)
    requires inOrder ==> Meets(Faithful, w, ev)
    ensures Linked(Step(w, ev), from, l, inOrder)
    ensures from == Peer(ev.to) && l == ev.level ==> ProvideCrypto(w.ends.At(ev.to), ev.level, ev.data).1
  {
    assert from == ev.to || from == Peer(ev.to);
    if from == Peer(ev.to) && l == ev.level {
      FlightFits(w, from, l, inOrder);
      assert Peer(from) == ev.to;
      AppendKeepsValid(w.ends.At(ev.to).lanes.At(l), ev.data, CAPACITY);
      ProvideMovesFlight(w, ev, from, l, inOrder);
    } else if l == ev.level {
      AppendKeepsValid(w.ends.At(ev.to).lanes.At(l), ev.data, CAPACITY);
    }
  }

  lemma ProvideMovesFlight(w: World, ev: Event, from: Side, l: nat, inOrder: bool)
    requires l < LEVELS && Linked(w, from, l, inOrder) && ev.Provide? && Meets(Budgeted, w, ev)
    requires from == Peer(ev.to) && l == ev.level && ProvideCrypto(w.ends.At(ev.to), ev.level, ev.data).1
    requires inOrder ==> Meets(Faithful, w, ev)
    ensures var w' := Step(w, ev);
            && w'.ends.At(ev.to).lanes.At(l).accepted == w.ends.At(ev.to).lanes.At(l).accepted + ev.data
            && |ev.data| + |w'.flight.At(from).At(l)| == |w.flight.At(from).At(l)|
            && (inOrder ==> ev.data + w'.flight.At(from).At(l) == w.flight.At(from).At(l))
  {
  }

  lemma StepKeepsValid(w: World, ev: Event, inOrder: bool)
    requires Valid(w, inOrder) && Meets(Budgeted, w, ev) && (inOrder ==> Meets(Faithful, w, ev))
    ensures Valid(Step(w, ev), inOrder)
  {
    StepKeepsEnds(w, ev);
    forall from, l | 0 <= l < LEVELS
      ensures Linked(Step(w, ev), from, l, inOrder)
    {
      assert Linked(w, from, l, inOrder);
      match ev {
        case Call(_, _) => CallKeepsLink(w, ev, from, l, inOrder);
        case Return(_, _, _) => CallKeepsLink(w, ev, from, l, inOrder);
        case Copy(_, _, _, _) => CopyKeepsLink(w, ev, from, l, inOrder);
        case Provide(_, _, _) => ProvideKeepsLink(w, ev, from, l, inOrder);
      }
    }
  }

  /** How an event moves one lane. */
  function LaneEffect(w: World, ev: Event, side: Side, l: nat): (r: Lane)
    requires l < LEVELS
  {
    var lane := w.ends.At(side).lanes.At(l);
    if ev.Call? && ev.side == side then LaneAfter(w.ends.At(side), ev.cb, l)
    else if ev.Provide? && ev.to == side && ev.level == l then Append(lane, ev.data, CAPACITY).0
    else lane
  }

  lemma LaneAfterStep(w: World, ev: Event, side: Side, l: nat)
    requires l < LEVELS
    ensures Step(w, ev).ends.At(side).lanes.At(l) == LaneEffect(w, ev, side, l)
  {
    match ev {
      case Call(s, cb) =>
        assert side == s || side == Peer(s);
        LaneAfterCallback(w.ends.At(s), cb, l);
      case Return(s, _, _) => assert side == s || side == Peer(s);
      case Copy(s, _, _, _) => assert side == s || side == Peer(s);
      case Provide(s, _, _) => assert side == s || side == Peer(s);
    }
  }

  lemma StepKeepsLossless(w: World, ev: Event)
    requires Lossless(w) && Meets(Disciplined, w, ev)
    ensures Lossless(Step(w, ev))
  {
    forall side, l | 0 <= l < LEVELS
      ensures LosslessLane(Step(w, ev).ends.At(side).lanes.At(l))
    {
      assert LosslessLane(w.ends.At(side).lanes.At(l));
      LaneAfterStep(w, ev, side, l);
    }
  }

  // ---- whole runs ----

  lemma {:induction false} FaithfulIsBudgeted(w: World, evs: seq<Event>)
    requires Along(Faithful, w, evs)
    ensures Along(Budgeted, w, evs)
    decreases |evs|
  {
    if evs != [] {
      FaithfulIsBudgeted(Step(w, evs[0]), evs[1..]);
    }
  }

  lemma {:induction false} RunKeepsValid(w: World, evs: seq<Event>, inOrder: bool)
    requires Valid(w, inOrder) && Along(Budgeted, w, evs) && (inOrder ==> Along(Faithful, w, evs))
    ensures Valid(Run(w, evs), inOrder)
    decreases |evs|
  {
    if evs != [] {
      StepKeepsValid(w, evs[0], inOrder);
      RunKeepsValid(Step(w, evs[0]), evs[1..], inOrder);
    }
  }

  lemma {:induction false} DisciplineKeepsLossless(w: World, evs: seq<Event>)
    requires Lossless(w) && Along(Disciplined, w, evs)
    ensures Lossless(Run(w, evs))
    decreases |evs|
  {
    if evs != [] {
      StepKeepsLossless(w, evs[0]);
      DisciplineKeepsLossless(Step(w, evs[0]), evs[1..]);
    }
  }

  /** In every state of every run, with no assumption on anyone: each endpoint is valid, so every
      loan covers buffered bytes only, every buffer is within capacity, the pending output is the
      tail of the history, and the running totals are the history lengths. */
  lemma {:induction false} EndsAlwaysValid(w: World, evs: seq<Event>)
    requires ValidEnds(w)
    ensures ValidEnds(Run(w, evs))
    decreases |evs|
  {
    if evs != [] {
      StepKeepsEnds(w, evs[0]);
      EndsAlwaysValid(Step(w, evs[0]), evs[1..]);
    }
  }

  /** What integrity says of one level of one direction. `disciplined` adds the no-loss half. */
  ghost predicate Integrity(w: World, from: Side, l: nat, disciplined: bool)
    requires l < LEVELS
  {
    var o, lane, flight := w.ends.At(from).outputs.At(l), w.ends.At(Peer(from)).lanes.At(l), w.flight.At(from).At(l);
    && lane.accepted + flight + o.pending == o.history
    && (lane.released + lane.inbound + flight + o.pending == o.history <==> lane.discarded == [])
    && (disciplined ==> lane.discarded == [] && lane.released <= o.history)
  }

  /** End-to-end stream integrity. When the host forwards faithfully, whatever OpenSSL does, the
      bytes a peer consumed or still buffers, the bytes in flight and the bytes still pending
      make up the sender's history exactly if no byte of that stream was ever discarded; and a
      disciplined OpenSSL never causes a discard, so what it consumed is a prefix of the history. */
  lemma StreamIntegrity(evs: seq<Event>, from: Side, l: nat)
    requires Along(Faithful, NEW_WORLD, evs) && l < LEVELS
    ensures Integrity(Run(NEW_WORLD, evs), from, l, Along(Disciplined, NEW_WORLD, evs))
  {
    NewWorldValid();
    FaithfulIsBudgeted(NEW_WORLD, evs);
    RunKeepsValid(NEW_WORLD, evs, true);
    var w := Run(NEW_WORLD, evs);
    assert Linked(w, from, l, true);
    var lossless := Along(Disciplined, NEW_WORLD, evs);
    if lossless {
      DisciplineKeepsLossless(NEW_WORLD, evs);
      assert LosslessLane(w.ends.At(Peer(from)).lanes.At(l));
    }
    LinkGivesIntegrity(w, from, l, lossless);
  }

  lemma LinkGivesIntegrity(w: World, from: Side, l: nat, lossless: bool)
    requires l < LEVELS && Linked(w, from, l, true)
    requires lossless ==> w.ends.At(Peer(from)).lanes.At(l).discarded == []
    ensures Integrity(w, from, l, lossless)
  {
    var o, lane, flight := w.ends.At(from).outputs.At(l), w.ends.At(Peer(from)).lanes.At(l), w.flight.At(from).At(l);
    LossAccounting(lane);
    assert o.history == Taken(o) + o.pending;
    if lane.discarded == [] {
      assert lane.released + lane.inbound + flight + o.pending == lane.released + (lane.inbound + flight + o.pending);
    }
  }

  /** However the host reorders or rewrites bytes, as long as it provides no more than it copied
      out, no provide at a real level is ever refused. */
  lemma ProvidesNeverRefused(evs: seq<Event>, i: nat)
    requires Along(Budgeted, NEW_WORLD, evs) && i < |evs|
    requires evs[i].Provide? && 0 <= evs[i].level < LEVELS
    ensures ProvideCrypto(Run(NEW_WORLD, evs[..i]).ends.At(evs[i].to), evs[i].level, evs[i].data).1
  {
    NewWorldValid();
    AlongSplits(Budgeted, NEW_WORLD, evs, i);
    var w := Run(NEW_WORLD, evs[..i]);
    assert evs[i..][0] == evs[i];
    assert Valid(NEW_WORLD, false) by {
      forall from, l | 0 <= l < LEVELS ensures Linked(NEW_WORLD, from, l, false) {
        assert Linked(NEW_WORLD, from, l, true);
      }
    }
    RunKeepsValid(NEW_WORLD, evs[..i], false);
    assert Linked(w, Peer(evs[i].to), evs[i].level, false);
    ProvideKeepsLink(w, evs[i], Peer(evs[i].to), evs[i].level, false);
  }

  lemma {:induction false} AlongSplits(a: Assumption, w: World, evs: seq<Event>, i: nat)
    requires Along(a, w, evs) && i <= |evs|
    ensures Along(a, w, evs[..i]) && Along(a, Run(w, evs[..i]), evs[i..])
    decreases i
  {
    if i > 0 {
      AlongSplits(a, Step(w, evs[0]), evs[1..], i - 1);
      assert evs[..i][1..] == evs[1..][..i - 1];
      assert evs[1..][i - 1..] == evs[i..];
    } else {
      assert evs[i..] == evs;
    }
  }

  /** Lease stability: the borrowed bytes stay put through any run of appends, sends, level
      switches and traffic elsewhere, as long as this loan is not given back. */
  lemma {:induction false} LeaseStable(w: World, evs: seq<Event>, side: Side, l: nat)
    requires l < LEVELS && ValidEnds(w) && Along(Holding(side, l), w, evs)
    requires w.ends.At(side).lanes.At(l).leased > 0
    ensures var before, after := w.ends.At(side).lanes.At(l), Run(w, evs).ends.At(side).lanes.At(l);
            && after.leased == before.leased <= |after.inbound| <= CAPACITY
            && after.inbound[..before.leased] == before.inbound[..before.leased]
            && after.released == before.released
    decreases |evs|
  {
    assert Endpoints.Valid(w.ends.At(side));
    assert ValidLevel(w.ends.At(side), l);
    if evs != [] {
      StepKeepsEnds(w, evs[0]);
      LaneAfterStep(w, evs[0], side, l);
      LeaseStable(Step(w, evs[0]), evs[1..], side, l);
    }
  }
}
