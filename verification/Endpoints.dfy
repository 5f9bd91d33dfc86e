/** One TLS endpoint of the OpenSSL pair: four encryption levels, each with an inbound lane, a
    pending outbound buffer and a write-once history, driven by the callbacks OpenSSL makes. */
module Endpoints {
  import opened Streams
  import opened Lanes
  import opened Callbacks

  const CAPACITY: nat := 65536

  /** A level's outbound side: the bytes not yet taken, the running total and the full history. */
  datatype Output = Output(pending: seq<byte>, total: nat, history: seq<byte>)

  /** A level's secrets, by direction; only 32-byte secrets are kept. */
  datatype Secrets = Secrets(read: Option<seq<byte>>, write: Option<seq<byte>>)

  datatype Endpoint = Endpoint(
    lanes: PerLevel<Lane>,
    outputs: PerLevel<Output>,
    secrets: PerLevel<Secrets>,
    readLevel: nat,
    writeLevel: nat,
    peerParams: seq<byte>,
    done: bool,
    lastError: int)

  const NEW_ENDPOINT := Endpoint(
    Everywhere(EMPTY_LANE), Everywhere(Output([], 0, [])), Everywhere(Secrets(None, None)),
    0, 0, [], false, SSL_ERROR_NONE)

  /** Pending output is the tail of the history that has not been taken yet. */
  ghost predicate Tracked(o: Output)
  {
    && o.total == |o.history| <= CAPACITY
    && |o.pending| <= |o.history|
    && o.pending == o.history[|o.history| - |o.pending|..]
  }

  /** The bytes of a level's history that have already left the pending buffer. */
  ghost function Taken(o: Output): seq<byte>
    requires Tracked(o)
  {
    o.history[..|o.history| - |o.pending|]
  }

  predicate RightLength(secret: Option<seq<byte>>)
  {
    secret.Some? ==> |secret.value| == SECRET_LEN
  }

  ghost predicate ValidLevel(e: Endpoint, l: nat)
    requires l < LEVELS
  {
    && Lanes.Valid(e.lanes.At(l), CAPACITY)
    && Tracked(e.outputs.At(l))
    && RightLength(e.secrets.At(l).read) && RightLength(e.secrets.At(l).write)
  }

  ghost predicate Valid(e: Endpoint)
  {
    && e.readLevel < LEVELS && e.writeLevel < LEVELS
    && |e.peerParams| <= PARAMS_CAPACITY
    && (forall l :: 0 <= l < LEVELS ==> ValidLevel(e, l))
  }

  // ---- the callbacks ----

  function SendCrypto(e: Endpoint, data: seq<byte>): (r: (Endpoint, bool))
  {
    if e.writeLevel >= LEVELS then (e, false)
    else
      var o := e.outputs.At(e.writeLevel);
      if |data| > CAPACITY - |o.pending| || |data| > CAPACITY - |o.history| then (e, false)
      else (e.(outputs := e.outputs.With(e.writeLevel,
                 Output(o.pending + data, o.total + |data|, o.history + data))), true)
  }

  function ReceiveRecord(e: Endpoint): (r: (Endpoint, seq<byte>))
  {
    if e.readLevel >= LEVELS then (e, [])
    else
      var (lane, bytes) := Borrow(e.lanes.At(e.readLevel));
      (e.(lanes := e.lanes.With(e.readLevel, lane)), bytes)
  }

  function ReleaseRecord(e: Endpoint, count: nat): (r: (Endpoint, bool))
  {
    if e.readLevel >= LEVELS then (e, false)
    else
      var (lane, ok) := Lanes.Release(e.lanes.At(e.readLevel), count);
      (e.(lanes := e.lanes.With(e.readLevel, lane)), ok)
  }

  /** The level switches whatever the secret; the secret is kept only when it is 32 bytes long. */
  function Yield(e: Endpoint, level: nat, direction: int, secret: seq<byte>): (r: (Endpoint, bool))
  {
    if level >= LEVELS then (e, false)
    else
      var kept, s := |secret| == SECRET_LEN, e.secrets.At(level);
      if direction == READ_SECRET then
        (e.(readLevel := level,
            secrets := if kept then e.secrets.With(level, s.(read := Some(secret))) else e.secrets), true)
      else if direction == WRITE_SECRET then
        (e.(writeLevel := level,
            secrets := if kept then e.secrets.With(level, s.(write := Some(secret))) else e.secrets), true)
      else (e, true)
  }

  function GotTransportParams(e: Endpoint, params: seq<byte>): (r: (Endpoint, bool))
  {
    if |params| > PARAMS_CAPACITY then (e, false) else (e.(peerParams := params), true)
  }

  function Handle(e: Endpoint, cb: Callback): Endpoint
  {
    match cb
    case Send(data) => SendCrypto(e, data).0
    case Receive => ReceiveRecord(e).0
    case Release(count) => ReleaseRecord(e, count).0
    case YieldSecret(level, direction, secret) => Yield(e, level, direction, secret).0
    case GotParams(params) => GotTransportParams(e, params).0
  }

  function HandleAll(e: Endpoint, script: seq<Callback>): Endpoint
    decreases |script|
  {
    if script == [] then e else HandleAll(Handle(e, script[0]), script[1..])
  }

  function FinishDrive(e: Endpoint, rc: int, sslError: int): Endpoint
  {
    if rc == 1 then e.(done := true, lastError := SSL_ERROR_NONE) else e.(lastError := sslError)
  }

  function DriveHandshake(e: Endpoint, d: Drive): Endpoint
  {
    FinishDrive(HandleAll(e, d.script), d.rc, d.sslError)
  }

  // ---- the transport's side ----

  /** Appends to one level's inbound buffer; an unknown level or too little room refuses it whole. */
  function ProvideCrypto(e: Endpoint, level: int, data: seq<byte>): (r: (Endpoint, bool))
    ensures r.1 <==> 0 <= level < LEVELS && |e.lanes.At(level).inbound| + |data| <= CAPACITY
    ensures !r.1 ==> r.0 == e
  {
    if level < 0 || level >= LEVELS then (e, false)
    else
      var (lane, ok) := Append(e.lanes.At(level), data, CAPACITY);
      (e.(lanes := e.lanes.With(level, lane)), ok)
  }

  /** Copies out and forgets one level's pending output; a refused copy takes nothing. */
  function CopyPending(e: Endpoint, level: int, hasOut: bool, outLen: nat): (r: (Endpoint, Option<seq<byte>>))
    ensures r.1.Some? <==>
              && 0 <= level < LEVELS && |e.outputs.At(level).pending| <= outLen
              && (e.outputs.At(level).pending == [] || hasOut)
    ensures r.1.Some? ==> r.1.value == e.outputs.At(level).pending
    ensures r.1.None? ==> r.0 == e
  {
    if level < 0 || level >= LEVELS then (e, None)
    else
      var o := e.outputs.At(level);
      if |o.pending| > outLen || (|o.pending| > 0 && !hasOut) then (e, None)
      else (e.(outputs := e.outputs.With(level, o.(pending := []))), Some(o.pending))
  }

  /** Moves one level's pending output to the peer's lane. */
  function PumpLevel(from: Endpoint, to: Endpoint, level: nat): (r: (Endpoint, Endpoint))
    requires level < LEVELS
  {
    var o := from.outputs.At(level);
    (from.(outputs := from.outputs.With(level, o.(pending := []))),
     to.(lanes := to.lanes.With(level, Append(to.lanes.At(level), o.pending, CAPACITY).0)))
  }

  /** Moves every level's pending output to the peer, stopping at the first level that does not fit. */
  function PumpFrom(from: Endpoint, to: Endpoint, level: nat): (r: (Endpoint, Endpoint, bool))
    decreases LEVELS - level, from
  {
    if level >= LEVELS then (from, to, true)
    else
      var n := |from.outputs.At(level).pending|;
      if n == 0 then PumpFrom(from, to, level + 1)
      else if n > CAPACITY - |to.lanes.At(level).inbound| then (from, to, false)
      else var (f, t) := PumpLevel(from, to, level); PumpFrom(f, t, level + 1)
  }

  function Pump(from: Endpoint, to: Endpoint): (r: (Endpoint, Endpoint, bool))
  {
    PumpFrom(from, to, 0)
  }

  // ---- what every callback keeps ----

  lemma NewEndpointValid()
    ensures Valid(NEW_ENDPOINT)
  {
    EmptyLaneValid(CAPACITY);
  }

  /** A callback can neither forge arrivals nor recall what has already left. */
  ghost predicate SameTraffic(e: Endpoint, e': Endpoint, l: nat)
    requires l < LEVELS && ValidLevel(e, l) && ValidLevel(e', l)
  {
    && e'.lanes.At(l).accepted == e.lanes.At(l).accepted
    && Taken(e'.outputs.At(l)) == Taken(e.outputs.At(l))
  }

  /** A send is accepted exactly when the level's history has room for it: the pending buffer,
      which the code checks first, never fills before the history does. */
  lemma SendAcceptedIffRoom(e: Endpoint, data: seq<byte>)
    requires Valid(e)
    ensures SendCrypto(e, data).1 <==> |e.outputs.At(e.writeLevel).history| + |data| <= CAPACITY
  {
    assert ValidLevel(e, e.writeLevel);
  }

  /** Whatever OpenSSL does, each level stays valid and no traffic is forged or recalled. */
  lemma HandleKeepsLevel(e: Endpoint, cb: Callback, l: nat)
    requires Valid(e) && l < LEVELS
    ensures ValidLevel(e, l) && ValidLevel(Handle(e, cb), l) && SameTraffic(e, Handle(e, cb), l)
  {
    assert ValidLevel(e, l);
    LaneKept(e, cb, l);
    OutputKept(e, cb, l);
    SecretsKept(e, cb, l);
  }

  lemma LaneKept(e: Endpoint, cb: Callback, l: nat)
    requires l < LEVELS && Lanes.Valid(e.lanes.At(l), CAPACITY)
    ensures Lanes.Valid(Handle(e, cb).lanes.At(l), CAPACITY)
    ensures Handle(e, cb).lanes.At(l).accepted == e.lanes.At(l).accepted
  {
    LaneAfterCallback(e, cb, l);
    if cb.Release? {
      ReleaseKeepsValid(e.lanes.At(l), cb.count, CAPACITY);
    }
  }

  lemma OutputKept(e: Endpoint, cb: Callback, l: nat)
    requires l < LEVELS && Tracked(e.outputs.At(l))
    ensures Tracked(Handle(e, cb).outputs.At(l)) && Taken(Handle(e, cb).outputs.At(l)) == Taken(e.outputs.At(l))
  {
    if cb.Send? {
      SendKeepsTracked(e.outputs.At(l), cb.data);
    }
  }

  lemma SecretsKept(e: Endpoint, cb: Callback, l: nat)
    requires l < LEVELS && RightLength(e.secrets.At(l).read) && RightLength(e.secrets.At(l).write)
    ensures RightLength(Handle(e, cb).secrets.At(l).read) && RightLength(Handle(e, cb).secrets.At(l).write)
  {
  }

  lemma SendKeepsTracked(o: Output, data: seq<byte>)
    requires Tracked(o)
    ensures |data| <= CAPACITY - |o.history| ==>
              var o' := Output(o.pending + data, o.total + |data|, o.history + data);
              Tracked(o') && Taken(o') == Taken(o)
  {
  }

  lemma HandleKeepsValid(e: Endpoint, cb: Callback)
    requires Valid(e)
    ensures Valid(Handle(e, cb))
    ensures forall l :: 0 <= l < LEVELS ==> SameTraffic(e, Handle(e, cb), l)
  {
    forall l | 0 <= l < LEVELS
      ensures ValidLevel(Handle(e, cb), l) && SameTraffic(e, Handle(e, cb), l)
    {
      HandleKeepsLevel(e, cb, l);
    }
  }

  lemma ProvideKeepsValid(e: Endpoint, level: int, data: seq<byte>)
    requires Valid(e)
    ensures Valid(ProvideCrypto(e, level, data).0)
  {
    var e' := ProvideCrypto(e, level, data).0;
    forall l | 0 <= l < LEVELS
      ensures ValidLevel(e', l)
    {
      assert ValidLevel(e, l);
      AppendKeepsValid(e.lanes.At(l), data, CAPACITY);
    }
  }

  lemma CopyKeepsValid(e: Endpoint, level: int, hasOut: bool, outLen: nat)
    requires Valid(e)
    ensures Valid(CopyPending(e, level, hasOut, outLen).0)
  {
    var e' := CopyPending(e, level, hasOut, outLen).0;
    forall l | 0 <= l < LEVELS
      ensures ValidLevel(e', l)
    {
      assert ValidLevel(e, l);
    }
  }

  /** How a callback moves one level's inbound lane. */
  function LaneAfter(e: Endpoint, cb: Callback, l: nat): (r: Lane)
    requires l < LEVELS
  {
    if l != e.readLevel then e.lanes.At(l)
    else if cb.Receive? then Borrow(e.lanes.At(l)).0
    else if cb.Release? then Lanes.Release(e.lanes.At(l), cb.count).0
    else e.lanes.At(l)
  }

  lemma LaneAfterCallback(e: Endpoint, cb: Callback, l: nat)
    requires l < LEVELS
    ensures Handle(e, cb).lanes.At(l) == LaneAfter(e, cb, l)
  {
  }
}
