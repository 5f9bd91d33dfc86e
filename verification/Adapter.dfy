/** The single-endpoint TLS backend: the same inbound lanes behind packet spaces, destructive
    pulls of outbound bytes, secrets handed over once, and a confirmation predicate computed
    from two byte counters. */
module Adapter {
  import opened Streams
  import opened Lanes
  import opened Callbacks

  const BUFFER_LEN: nat := 8192
  /** size_t counters wrap here. */
  const SIZE: nat := 0x1_0000_0000_0000_0000
  const HANDSHAKE_LEVEL: nat := 2
  const APPLICATION_LEVEL: nat := 3

  datatype Status = Ok | Pending | BufferTooSmall | CryptoError | Internal

  /** Secrets of one level on their way to the host, and whether they have been handed over. */
  datatype Handover = Handover(local: Option<seq<byte>>, peer: Option<seq<byte>>, sent: bool)

  /** What happened to secrets, in order: every yield accepted for hand-over, and every hand-over. */
  datatype Entry =
    | Yielded(level: nat, direction: int, secret: seq<byte>)
    | HandedOver(level: nat, local: seq<byte>, peer: seq<byte>)

  /** `sent` (bytes accepted from TLS), `pulled` (bytes handed to the host) and `log` are history
      variables; the counters are kept modulo the width of size_t. */
  datatype Backend = Backend(
    lanes: PerLevel<Lane>,
    out: PerLevel<seq<byte>>,
    readLevel: nat,
    writeLevel: nat,
    receivedLen: nat,
    releasedLen: nat,
    generatedLen: nat,
    overflow: bool,
    handshake: Handover,
    oneRtt: Handover,
    params: Option<seq<byte>>,
    paramsSent: bool,
    lastError: int,
    sent: PerLevel<seq<byte>>,
    pulled: PerLevel<seq<byte>>,
    log: seq<Entry>)

  const NO_SECRETS := Handover(None, None, false)
  const NEW_BACKEND := Backend(
    Everywhere(EMPTY_LANE), Everywhere([]), 0, 0, 0, 0, 0, false, NO_SECRETS, NO_SECRETS, None, false, SSL_ERROR_NONE,
    Everywhere([]), Everywhere([]), [])

  // ---- the callbacks ----

  function SendCrypto(b: Backend, data: seq<byte>): (r: (Backend, bool))
  {
    var w := b.writeLevel;
    if w >= LEVELS then (b, false)
    else if |data| > BUFFER_LEN - |b.out.At(w)| then (b.(overflow := true), false)
    else (b.(out := b.out.With(w, b.out.At(w) + data),
             generatedLen := (b.generatedLen + |data|) % SIZE,
             sent := b.sent.With(w, b.sent.At(w) + data)), true)
  }

  function ReceiveRecord(b: Backend): (r: (Backend, seq<byte>))
  {
    if b.readLevel >= LEVELS then (b, [])
    else
      var (lane, bytes) := Borrow(b.lanes.At(b.readLevel));
      (b.(lanes := b.lanes.With(b.readLevel, lane)), bytes)
  }

  function ReleaseRecord(b: Backend, count: nat): (r: (Backend, bool))
  {
    if b.readLevel >= LEVELS || count > b.lanes.At(b.readLevel).leased then (b, false)
    else (b.(lanes := b.lanes.With(b.readLevel, Lanes.Release(b.lanes.At(b.readLevel), count).0),
             releasedLen := (b.releasedLen + count) % SIZE), true)
  }

  function Store(h: Handover, direction: int, secret: seq<byte>): Handover
  {
    if direction == WRITE_SECRET then h.(local := Some(secret), sent := false)
    else if direction == READ_SECRET then h.(peer := Some(secret), sent := false)
    else h
  }

  /** The current level changes first, whatever becomes of the secret; only a 32-byte secret of
      the handshake or application level is kept, and keeping one re-arms its hand-over. */
  function Yield(b: Backend, level: nat, direction: int, secret: seq<byte>): (r: (Backend, bool))
  {
    var b1 := if level < LEVELS && direction == READ_SECRET then b.(readLevel := level)
              else if level < LEVELS && direction == WRITE_SECRET then b.(writeLevel := level)
              else b;
    if level != HANDSHAKE_LEVEL && level != APPLICATION_LEVEL then (b1, true)
    else if |secret| != SECRET_LEN then (b1, false)
    else if direction != WRITE_SECRET && direction != READ_SECRET then (b1, true)
    else
      var b2 := b1.(log := b1.log + [Yielded(level, direction, secret)]);
      if level == HANDSHAKE_LEVEL then (b2.(handshake := Store(b.handshake, direction, secret)), true)
      else (b2.(oneRtt := Store(b.oneRtt, direction, secret)), true)
  }

  function GotTransportParams(b: Backend, params: seq<byte>): (r: (Backend, bool))
  {
    if |params| > PARAMS_CAPACITY then (b, false) else (b.(params := Some(params), paramsSent := false), true)
  }

  function Handle(b: Backend, cb: Callback): Backend
  {
    match cb
    case Send(data) => SendCrypto(b, data).0
    case Receive => ReceiveRecord(b).0
    case Release(count) => ReleaseRecord(b, count).0
    case YieldSecret(level, direction, secret) => Yield(b, level, direction, secret).0
    case GotParams(params) => GotTransportParams(b, params).0
  }

  function HandleAll(b: Backend, script: seq<Callback>): Backend
    decreases |script|
  {
    if script == [] then b else HandleAll(Handle(b, script[0]), script[1..])
  }

  // ---- the host's calls ----

  /** The level behind a packet space; other numbers are no space at all. */
  function SpaceLevel(space: int): (r: Option<nat>)
    ensures r.Some? <==> 0 <= space <= 2
    ensures r.Some? ==> r.value < LEVELS && r.value != 1
  {
    if space == 0 then Some(0) else if space == 1 then Some(2) else if space == 2 then Some(3) else None
  }

  datatype Call =
    | Deliver(space: int, data: seq<byte>)
    | Pull(space: int, outLen: nat, drive: Drive)
    | PullParams(outLen: nat)
    | PullSecrets(oneRtt: bool)
    | DebugConsume
    | DebugParams(params: seq<byte>)
    | DebugYield(toOneRtt: bool, direction: int, secret: seq<byte>)

  /** A call's effect: the backend after it, the status, and the bytes written to the host. */
  datatype Reply = Reply(next: Backend, status: Status, written: seq<byte>)

  function DeliverCall(b: Backend, space: int, data: seq<byte>): Reply
  {
    var level := SpaceLevel(space);
    if level.None? then Reply(b, Internal, [])
    else
      var (lane, fits) := Append(b.lanes.At(level.value), data, BUFFER_LEN);
      if !fits then Reply(b, BufferTooSmall, [])
      else Reply(b.(lanes := b.lanes.With(level.value, lane), receivedLen := (b.receivedLen + |data|) % SIZE), Ok, [])
  }

  function CopyPendingOutbound(b: Backend, level: nat, outLen: nat): Reply
    requires level < LEVELS
  {
    var pending := b.out.At(level);
    if pending == [] then Reply(b, Pending, [])
    else if outLen < |pending| then Reply(b, BufferTooSmall, [])
    else Reply(b.(out := b.out.With(level, []), pulled := b.pulled.With(level, b.pulled.At(level) + pending)), Ok, pending)
  }

  /** A pull first empties what is pending; only an Initial pull with nothing pending drives TLS. */
  function PullCall(b: Backend, space: int, outLen: nat, drive: Drive): Reply
  {
    var level := SpaceLevel(space);
    if level.None? then Reply(b, Internal, [])
    else
      var first := CopyPendingOutbound(b, level.value, outLen);
      if first.status != Pending then first
      else if level.value != 0 then Reply(b, Pending, [])
      else
        var error := if drive.rc != 1 then drive.sslError else SSL_ERROR_NONE;
        var driven := HandleAll(b, drive.script).(lastError := error);
        if driven.overflow then Reply(driven, BufferTooSmall, [])
        else
          var second := CopyPendingOutbound(driven, level.value, outLen);
          if second.status != Pending then second
          else if drive.rc == 1 || error == SSL_ERROR_WANT_READ || error == SSL_ERROR_WANT_WRITE then Reply(driven, Pending, [])
          else Reply(driven, CryptoError, [])
  }

  function PullParamsCall(b: Backend, outLen: nat): Reply
  {
    if b.params.None? || b.paramsSent then Reply(b, Pending, [])
    else if outLen < |b.params.value| then Reply(b, BufferTooSmall, [])
    else Reply(b.(paramsSent := true), Ok, b.params.value)
  }

  function PullSecretsCall(b: Backend, oneRtt: bool): Reply
  {
    var h := if oneRtt then b.oneRtt else b.handshake;
    if h.local.None? || h.peer.None? || h.sent then Reply(b, Pending, [])
    else
      var level := if oneRtt then APPLICATION_LEVEL else HANDSHAKE_LEVEL;
      var b1 := b.(log := b.log + [HandedOver(level, h.local.value, h.peer.value)]);
      Reply(if oneRtt then b1.(oneRtt := h.(sent := true)) else b1.(handshake := h.(sent := true)), Ok,
            h.local.value + h.peer.value)
  }

  function DebugConsumeCall(b: Backend): Reply
  {
    var (b1, bytes) := ReceiveRecord(b);
    if bytes == [] then Reply(b1, Pending, [])
    else var (b2, ok) := ReleaseRecord(b1, |bytes|); Reply(b2, if ok then Ok else CryptoError, [])
  }

  function Step(b: Backend, call: Call): Reply
  {
    match call
    case Deliver(space, data) => DeliverCall(b, space, data)
    case Pull(space, outLen, drive) => PullCall(b, space, outLen, drive)
    case PullParams(outLen) => PullParamsCall(b, outLen)
    case PullSecrets(oneRtt) => PullSecretsCall(b, oneRtt)
    case DebugConsume => DebugConsumeCall(b)
    case DebugParams(params) =>
      var (next, ok) := GotTransportParams(b, params); Reply(next, if ok then Ok else BufferTooSmall, [])
    case DebugYield(toOneRtt, direction, secret) =>
      var (next, ok) := Yield(b, if toOneRtt then APPLICATION_LEVEL else HANDSHAKE_LEVEL, direction, secret);
      Reply(next, if ok then Ok else CryptoError, [])
  }

  function Run(b: Backend, calls: seq<Call>): Backend
    decreases |calls|
  {
    if calls == [] then b else Run(Step(b, calls[0]).next, calls[1..])
  }

  predicate KeysReady(b: Backend)
  {
    && b.params.Some? && b.handshake.local.Some? && b.handshake.peer.Some? && b.oneRtt.local.Some? && b.oneRtt.peer.Some?
  }

  predicate Confirmed(b: Backend)
  {
    KeysReady(b) && b.receivedLen != 0 && b.releasedLen == b.receivedLen
  }

  // ---- sums over the levels ----

  function TotalAccepted(lanes: PerLevel<Lane>): nat
  {
    |lanes.none.accepted| + |lanes.early.accepted| + |lanes.handshake.accepted| + |lanes.application.accepted|
  }

  function TotalReleased(lanes: PerLevel<Lane>): nat
  {
    |lanes.none.released| + |lanes.early.released| + |lanes.handshake.released| + |lanes.application.released|
  }

  function TotalDiscarded(lanes: PerLevel<Lane>): nat
  {
    |lanes.none.discarded| + |lanes.early.discarded| + |lanes.handshake.discarded| + |lanes.application.discarded|
  }

  function TotalPending(lanes: PerLevel<Lane>): nat
  {
    |lanes.none.inbound| + |lanes.early.inbound| + |lanes.handshake.inbound| + |lanes.application.inbound|
  }

  function Total(s: PerLevel<seq<byte>>): nat { |s.none| + |s.early| + |s.handshake| + |s.application| }

  // ---- the invariant ----

  /** Whatever TLS handed over at a level is in the host's hands or still pending, in order. */
  ghost predicate ValidLevel(b: Backend, l: nat)
    requires l < LEVELS
  {
    && Lanes.Valid(b.lanes.At(l), BUFFER_LEN)
    && |b.out.At(l)| <= BUFFER_LEN
    && b.pulled.At(l) + b.out.At(l) == b.sent.At(l)
  }

  /** The wrapped counters against the true totals. */
  ghost predicate Counted(b: Backend)
  {
    && b.receivedLen == TotalAccepted(b.lanes) % SIZE
    && b.releasedLen == TotalReleased(b.lanes) % SIZE
    && b.generatedLen == Total(b.sent) % SIZE
  }

  ghost predicate Valid(b: Backend)
  {
    && b.readLevel < LEVELS && b.writeLevel < LEVELS
    && (forall l :: 0 <= l < LEVELS ==> ValidLevel(b, l))
    && b.pulled.early == []
    && Counted(b)
  }

  // ---- what every step keeps ----

  lemma NewBackendValid()
    ensures Valid(NEW_BACKEND)
  {
    EmptyLaneValid(BUFFER_LEN);
    forall l | 0 <= l < LEVELS ensures ValidLevel(NEW_BACKEND, l) {}
  }

  lemma WrapAdd(total: nat, n: nat)
    ensures (total % SIZE + n) % SIZE == (total + n) % SIZE
  {
    var q := total / SIZE;
    assert total == q * SIZE + total % SIZE;
    WrapMultiple(total % SIZE + n, q);
  }

  lemma {:induction false} WrapMultiple(r: nat, q: nat)
    ensures (r + q * SIZE) % SIZE == r % SIZE
  {
    if q > 0 {
      WrapMultiple(r, q - 1);
      assert r + q * SIZE == (r + (q - 1) * SIZE) + SIZE;
    }
  }

  lemma TotalWith(s: PerLevel<seq<byte>>, l: nat, v: seq<byte>)
    requires l < LEVELS
    ensures Total(s.With(l, v)) == Total(s) - |s.At(l)| + |v|
  {
  }

  lemma LaneTotals(lanes: PerLevel<Lane>, l: nat, lane: Lane)
    requires l < LEVELS
    ensures var after, before := lanes.With(l, lane), lanes.At(l);
            && TotalAccepted(after) == TotalAccepted(lanes) - |before.accepted| + |lane.accepted|
            && TotalReleased(after) == TotalReleased(lanes) - |before.released| + |lane.released|
            && TotalDiscarded(after) == TotalDiscarded(lanes) - |before.discarded| + |lane.discarded|
            && TotalPending(after) == TotalPending(lanes) - |before.inbound| + |lane.inbound|
  {
  }

  /** Bytes a callback throws away: what an accepted release finds buffered beyond its loan. */
  ghost function Overrun(b: Backend, cb: Callback): nat
  {
    if cb.Release? && b.readLevel < LEVELS && cb.count <= b.lanes.At(b.readLevel).leased
    then |b.lanes.At(b.readLevel).inbound| - b.lanes.At(b.readLevel).leased else 0
  }

  lemma SendTotals(b: Backend, data: seq<byte>)
    requires Counted(b)
    ensures Counted(SendCrypto(b, data).0) && SendCrypto(b, data).0.lanes == b.lanes
  {
    hide TotalAccepted, TotalReleased, Total;
    if b.writeLevel < LEVELS {
      TotalWith(b.sent, b.writeLevel, b.sent.At(b.writeLevel) + data);
      WrapAdd(Total(b.sent), |data|);
    }
  }

  lemma ReceiveTotals(b: Backend)
    ensures var lanes := ReceiveRecord(b).0.lanes;
            && TotalAccepted(lanes) == TotalAccepted(b.lanes) && TotalReleased(lanes) == TotalReleased(b.lanes)
            && TotalDiscarded(lanes) == TotalDiscarded(b.lanes) && TotalPending(lanes) == TotalPending(b.lanes)
  {
    hide TotalAccepted, TotalReleased, TotalDiscarded, TotalPending;
    if b.readLevel < LEVELS {
      LaneTotals(b.lanes, b.readLevel, Borrow(b.lanes.At(b.readLevel)).0);
    }
  }

  lemma ReleaseTotals(b: Backend, count: nat)
    ensures var r := ReleaseRecord(b, count);
            && TotalAccepted(r.0.lanes) == TotalAccepted(b.lanes)
            && TotalReleased(r.0.lanes) == TotalReleased(b.lanes) + (if r.1 then count else 0)
            && TotalDiscarded(r.0.lanes) == TotalDiscarded(b.lanes) + Overrun(b, Release(count))
            && (Counted(b) ==> Counted(r.0))
  {
    hide TotalAccepted, TotalReleased, TotalDiscarded, TotalPending, Total;
    if ReleaseRecord(b, count).1 {
      LaneTotals(b.lanes, b.readLevel, Lanes.Release(b.lanes.At(b.readLevel), count).0);
      WrapAdd(TotalReleased(b.lanes), count);
    }
  }

  /** A callback accepts nothing from the network, and discards exactly its overrun. */
  lemma HandleTotals(b: Backend, cb: Callback)
    requires Counted(b)
    ensures TotalAccepted(Handle(b, cb).lanes) == TotalAccepted(b.lanes)
    ensures TotalDiscarded(Handle(b, cb).lanes) == TotalDiscarded(b.lanes) + Overrun(b, cb)
    ensures Counted(Handle(b, cb))
  {
    hide TotalAccepted, TotalReleased, TotalDiscarded, TotalPending, Total;
    match cb {
      case Send(data) => SendTotals(b, data);
      case Receive => ReceiveTotals(b);
      case Release(count) => ReleaseTotals(b, count);
      case YieldSecret(level, direction, secret) =>
      case GotParams(params) =>
    }
  }

  lemma LaneKept(b: Backend, cb: Callback, l: nat)
    requires l < LEVELS && Lanes.Valid(b.lanes.At(l), BUFFER_LEN)
    ensures Lanes.Valid(Handle(b, cb).lanes.At(l), BUFFER_LEN)
  {
    if cb.Release? {
      ReleaseKeepsValid(b.lanes.At(l), cb.count, BUFFER_LEN);
    }
  }

  lemma OutputKept(b: Backend, cb: Callback, l: nat)
    requires l < LEVELS && |b.out.At(l)| <= BUFFER_LEN && b.pulled.At(l) + b.out.At(l) == b.sent.At(l)
    ensures var b' := Handle(b, cb);
            |b'.out.At(l)| <= BUFFER_LEN && b'.pulled.At(l) + b'.out.At(l) == b'.sent.At(l)
  {
    hide Append, Lanes.Release, Borrow;
    if cb.Send? {
      assert b.pulled.At(l) + (b.out.At(l) + cb.data) == b.sent.At(l) + cb.data;
    }
  }

  lemma HandleKeepsLevel(b: Backend, cb: Callback, l: nat)
    requires l < LEVELS && ValidLevel(b, l)
    ensures ValidLevel(Handle(b, cb), l)
  {
    LaneKept(b, cb, l);
    OutputKept(b, cb, l);
  }

  lemma HandleKeepsValid(b: Backend, cb: Callback)
    requires Valid(b)
    ensures Valid(Handle(b, cb))
  {
    HandleTotals(b, cb);
    forall l | 0 <= l < LEVELS ensures ValidLevel(Handle(b, cb), l) {
      assert ValidLevel(b, l);
      HandleKeepsLevel(b, cb, l);
    }
  }

  lemma {:induction false} ScriptKeepsValid(b: Backend, script: seq<Callback>)
    requires Valid(b)
    ensures Valid(HandleAll(b, script)) && HandleAll(b, script).pulled == b.pulled
    decreases |script|
  {
    if script != [] {
      HandleKeepsValid(b, script[0]);
      ScriptKeepsValid(Handle(b, script[0]), script[1..]);
    }
  }

  lemma CopyKeepsValid(b: Backend, level: nat, outLen: nat)
    requires Valid(b) && level < LEVELS && level != 1
    ensures Valid(CopyPendingOutbound(b, level, outLen).next)
  {
    var b' := CopyPendingOutbound(b, level, outLen).next;
    forall l | 0 <= l < LEVELS ensures ValidLevel(b', l) {
      assert ValidLevel(b, l);
    }
  }

  lemma DeliverKeepsValid(b: Backend, space: int, data: seq<byte>)
    requires Valid(b)
    ensures Valid(DeliverCall(b, space, data).next)
    ensures TotalDiscarded(DeliverCall(b, space, data).next.lanes) == TotalDiscarded(b.lanes)
  {
    var level := SpaceLevel(space);
    if level.Some? {
      var b' := DeliverCall(b, space, data).next;
      LaneTotals(b.lanes, level.value, Append(b.lanes.At(level.value), data, BUFFER_LEN).0);
      WrapAdd(TotalAccepted(b.lanes), |data|);
      forall l | 0 <= l < LEVELS ensures ValidLevel(b', l) {
        assert ValidLevel(b, l);
        AppendKeepsValid(b.lanes.At(l), data, BUFFER_LEN);
      }
    }
  }

  /** A field outside the invariant. */
  lemma OtherFieldsKeepValid(b: Backend, b': Backend)
    requires Valid(b)
    requires b'.lanes == b.lanes && b'.out == b.out && b'.sent == b.sent && b'.pulled == b.pulled
    requires b'.receivedLen == b.receivedLen && b'.releasedLen == b.releasedLen && b'.generatedLen == b.generatedLen
    requires b'.readLevel < LEVELS && b'.writeLevel < LEVELS
    ensures Valid(b')
  {
    forall l | 0 <= l < LEVELS ensures ValidLevel(b', l) {
      assert ValidLevel(b, l);
    }
  }

  lemma PullKeepsValid(b: Backend, space: int, outLen: nat, drive: Drive)
    requires Valid(b)
    ensures Valid(PullCall(b, space, outLen, drive).next)
  {
    var level := SpaceLevel(space);
    if level.Some? {
      CopyKeepsValid(b, level.value, outLen);
      var script := HandleAll(b, drive.script);
      var driven := script.(lastError := if drive.rc != 1 then drive.sslError else SSL_ERROR_NONE);
      ScriptKeepsValid(b, drive.script);
      OtherFieldsKeepValid(script, driven);
      CopyKeepsValid(driven, level.value, outLen);
    }
  }

  lemma StepKeepsValid(b: Backend, call: Call)
    requires Valid(b)
    ensures Valid(Step(b, call).next)
  {
    match call {
      case Deliver(space, data) => DeliverKeepsValid(b, space, data);
      case Pull(space, outLen, drive) => PullKeepsValid(b, space, outLen, drive);
      case PullParams(outLen) => OtherFieldsKeepValid(b, Step(b, call).next);
      case PullSecrets(oneRtt) => OtherFieldsKeepValid(b, Step(b, call).next);
      case DebugConsume =>
        var (b1, bytes) := ReceiveRecord(b);
        HandleKeepsValid(b, Callback.Receive);
        HandleKeepsValid(b1, Release(|bytes|));
      case DebugParams(params) => HandleKeepsValid(b, GotParams(params));
      case DebugYield(toOneRtt, direction, secret) =>
        HandleKeepsValid(b, YieldSecret(if toOneRtt then APPLICATION_LEVEL else HANDSHAKE_LEVEL, direction, secret));
    }
  }

  lemma {:induction false} RunKeepsValid(b: Backend, calls: seq<Call>)
    requires Valid(b)
    ensures Valid(Run(b, calls))
    decreases |calls|
  {
    if calls != [] {
      StepKeepsValid(b, calls[0]);
      RunKeepsValid(Step(b, calls[0]).next, calls[1..]);
    }
  }
}
