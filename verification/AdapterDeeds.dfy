/** The backend told from the outside: what every host call makes happen, as a list of deeds, and the
    proof that the backend's state and its answers are folds over that list. */
module AdapterDeeds {
  import opened Streams
  import opened Lanes
  import opened Callbacks
  import opened Deeds
  import opened Adapter

  /** The encryption level that carries a packet space: Initial, Handshake and Application. */
  function Carrier(space: int): nat
    requires 0 <= space <= 2
  {
    if space == 0 then 0 else if space == 1 then 2 else 3
  }

  function InboundAt(deeds: seq<Deed>, l: nat): Lane { LaneOf(deeds, l, BUFFER_LEN) }
  function WaitingAt(deeds: seq<Deed>, l: nat): seq<byte> { Waiting(deeds, l, BUFFER_LEN) }
  function SentAt(deeds: seq<Deed>, l: nat): seq<byte> { Sent(deeds, l, BUFFER_LEN) }

  // ---- what a call makes happen ----

  function DeliverDeeds(before: seq<Deed>, space: int, data: seq<byte>): seq<Deed>
  {
    if 0 <= space <= 2 && |InboundAt(before, Carrier(space)).inbound| + |data| <= BUFFER_LEN then [Arrived(Carrier(space), data)]
    else []
  }

  /** What waits is taken if the buffer is large enough. */
  function TakeDeeds(before: seq<Deed>, l: nat, outLen: nat): seq<Deed>
  {
    if WaitingAt(before, l) != [] && |WaitingAt(before, l)| <= outLen then [Taken(l)] else []
  }

  /** A pull takes what waits; only an Initial pull that finds nothing waiting lets TLS act, and it
      then takes what TLS has sent, unless a send has ever been refused. */
  function PullDeeds(before: seq<Deed>, space: int, outLen: nat, drive: Drive): seq<Deed>
  {
    if !(0 <= space <= 2) then []
    else if WaitingAt(before, Carrier(space)) != [] then TakeDeeds(before, Carrier(space), outLen)
    else if space != 0 then []
    else
      var made := AllMade(drive.script);
      if Overflowed(before + made, BUFFER_LEN) then made else made + TakeDeeds(before + made, 0, outLen)
  }

  /** A borrow, and a release of everything it lent. */
  function ConsumeDeeds(before: seq<Deed>): seq<Deed>
  {
    var lane := InboundAt(before, CurrentLevel(CallbacksOf(before), READ_SECRET));
    if lane.leased == 0 && lane.inbound != [] then [Made(Callback.Receive), Made(Callback.Release(|lane.inbound|))]
    else [Made(Callback.Receive)]
  }

  function DeedsOf(before: seq<Deed>, call: Call): seq<Deed>
  {
    match call
    case Deliver(space, data) => DeliverDeeds(before, space, data)
    case Pull(space, outLen, drive) => PullDeeds(before, space, outLen, drive)
    case PullParams(_) => []
    case PullSecrets(_) => []
    case DebugConsume => ConsumeDeeds(before)
    case DebugParams(params) => [Made(GotParams(params))]
    case DebugYield(toOneRtt, direction, secret) => [Made(YieldSecret(if toOneRtt then 3 else 2, direction, secret))]
  }

  function AllDeeds(calls: seq<Call>): seq<Deed>
  {
    if calls == [] then []
    else
      var before := AllDeeds(calls[..|calls| - 1]);
      before + DeedsOf(before, calls[|calls| - 1])
  }

  // ---- the state they tell ----

  /** A yield that counts: 32 bytes, either direction, handshake or application level. */
  predicate Counts(cb: Callback)
  {
    cb.YieldSecret? && 2 <= cb.level <= 3 && 0 <= cb.direction <= 1 && |cb.secret| == SECRET_LEN
  }

  function KeptYields(cbs: seq<Callback>): seq<Entry>
  {
    if cbs == [] then []
    else
      var cb := cbs[|cbs| - 1];
      KeptYields(cbs[..|cbs| - 1]) +
      (if Counts(cb) then [Yielded(cb.level, cb.direction, cb.secret)] else [])
  }

  function YieldsIn(log: seq<Entry>): seq<Entry>
  {
    if log == [] then []
    else YieldsIn(log[..|log| - 1]) + (if log[|log| - 1].Yielded? then [log[|log| - 1]] else [])
  }

  ghost predicate TellsKeys(b: Backend, cbs: seq<Callback>)
  {
    && b.readLevel == CurrentLevel(cbs, READ_SECRET) && b.writeLevel == CurrentLevel(cbs, WRITE_SECRET)
    && b.params == Announced(None, cbs)
    && b.handshake.local == LastSecret(cbs, 2, WRITE_SECRET) && b.handshake.peer == LastSecret(cbs, 2, READ_SECRET)
    && b.oneRtt.local == LastSecret(cbs, 3, WRITE_SECRET) && b.oneRtt.peer == LastSecret(cbs, 3, READ_SECRET)
    && YieldsIn(b.log) == KeptYields(cbs)
  }

  ghost predicate TellsLevel(b: Backend, deeds: seq<Deed>, l: nat)
    requires l < LEVELS
  {
    && b.lanes.At(l) == InboundAt(deeds, l) && b.lanes.At(l).accepted == Arrivals(deeds, l)
    && b.out.At(l) == WaitingAt(deeds, l) && b.sent.At(l) == SentAt(deeds, l)
  }

  ghost predicate Tells(b: Backend, deeds: seq<Deed>)
  {
    && TellsKeys(b, CallbacksOf(deeds))
    && b.overflow == Overflowed(deeds, BUFFER_LEN)
    && forall l :: 0 <= l < LEVELS ==> TellsLevel(b, deeds, l)
  }

  lemma NothingToTell()
    ensures Tells(NEW_BACKEND, [])
  {
    forall l | 0 <= l < LEVELS ensures TellsLevel(NEW_BACKEND, [], l) { }
  }

  // ---- callbacks ----

  /** What one more callback changes in the folds. */
  lemma LevelGrows(cbs: seq<Callback>, cb: Callback, direction: int)
    ensures CurrentLevel(cbs + [cb], direction) == if Switches(cb, direction) then cb.level else CurrentLevel(cbs, direction)
  {
    Snoc(cbs, cb);
  }

  lemma SecretGrows(cbs: seq<Callback>, cb: Callback, level: nat, direction: int)
    ensures LastSecret(cbs + [cb], level, direction) ==
              if BringsSecret(cb, level, direction) then Some(cb.secret) else LastSecret(cbs, level, direction)
  {
    Snoc(cbs, cb);
  }

  lemma OthersGrow(cbs: seq<Callback>, cb: Callback)
    ensures Announced(None, cbs + [cb]) == if Announces(cb) then Some(cb.params) else Announced(None, cbs)
    ensures KeptYields(cbs + [cb]) == KeptYields(cbs) + if Counts(cb) then [Yielded(cb.level, cb.direction, cb.secret)] else []
  {
    Snoc(cbs, cb);
  }

  lemma LogGrows(log: seq<Entry>, e: Entry)
    ensures YieldsIn(log + [e]) == YieldsIn(log) + if e.Yielded? then [e] else []
  {
    Snoc(log, e);
  }

  /** Moving bytes touches no level, parameter, secret or log entry. */
  lemma KeysElsewhere(b: Backend, cb: Callback)
    ensures cb.Send? || cb.Receive? || cb.Release? ==>
              var b' := Handle(b, cb);
              && b'.readLevel == b.readLevel && b'.writeLevel == b.writeLevel && b'.params == b.params
              && b'.paramsSent == b.paramsSent && b'.handshake == b.handshake && b'.oneRtt == b.oneRtt && b'.log == b.log
  {
  }

  lemma CallbackTellsKeys(b: Backend, cbs: seq<Callback>, cb: Callback)
    requires TellsKeys(b, cbs)
    ensures TellsKeys(Handle(b, cb), cbs + [cb])
  {
    hide CurrentLevel, LastSecret, Announced, KeptYields, YieldsIn, SendCrypto, ReceiveRecord, ReleaseRecord;
    KeysElsewhere(b, cb);
    LevelGrows(cbs, cb, READ_SECRET);
    LevelGrows(cbs, cb, WRITE_SECRET);
    SecretGrows(cbs, cb, 2, WRITE_SECRET);
    SecretGrows(cbs, cb, 2, READ_SECRET);
    SecretGrows(cbs, cb, 3, WRITE_SECRET);
    SecretGrows(cbs, cb, 3, READ_SECRET);
    OthersGrow(cbs, cb);
    if Counts(cb) {
      LogGrows(b.log, Yielded(cb.level, cb.direction, cb.secret));
    }
  }

  lemma LaneAfterCallback(b: Backend, cb: Callback, l: nat)
    requires l < LEVELS
    ensures var lane := b.lanes.At(l);
            Handle(b, cb).lanes.At(l) == if l != b.readLevel then lane
                                         else if cb.Receive? then Borrow(lane).0
                                         else if cb.Release? then Lanes.Release(lane, cb.count).0
                                         else lane
  {
  }

  lemma CallbackTellsLane(b: Backend, deeds: seq<Deed>, cb: Callback, l: nat)
    requires l < LEVELS && TellsLevel(b, deeds, l)
    requires b.readLevel == CurrentLevel(CallbacksOf(deeds), READ_SECRET)
    ensures var deeds' := deeds + [Made(cb)];
            Handle(b, cb).lanes.At(l) == InboundAt(deeds', l) && Handle(b, cb).lanes.At(l).accepted == Arrivals(deeds', l)
  {
    hide CurrentLevel, Handle, Waiting, Sent;
    Snoc(deeds, Made(cb));
    LaneAfterCallback(b, cb, l);
    assert Arrivals(deeds, l) + [] == Arrivals(deeds, l);
  }

  lemma OutputAfterCallback(b: Backend, cb: Callback, l: nat)
    requires l < LEVELS
    ensures var more := if cb.Send? && l == b.writeLevel && |b.out.At(l)| + |cb.data| <= BUFFER_LEN then cb.data else [];
            Handle(b, cb).out.At(l) == b.out.At(l) + more && Handle(b, cb).sent.At(l) == b.sent.At(l) + more
  {
    assert b.out.At(l) + [] == b.out.At(l) && b.sent.At(l) + [] == b.sent.At(l);
  }

  lemma CallbackTellsOutput(b: Backend, deeds: seq<Deed>, cb: Callback, l: nat)
    requires l < LEVELS && TellsLevel(b, deeds, l)
    requires b.writeLevel == CurrentLevel(CallbacksOf(deeds), WRITE_SECRET)
    ensures var deeds' := deeds + [Made(cb)];
            Handle(b, cb).out.At(l) == WaitingAt(deeds', l) && Handle(b, cb).sent.At(l) == SentAt(deeds', l)
  {
    hide CurrentLevel, Handle, LaneOf, Arrivals;
    Snoc(deeds, Made(cb));
    OutputAfterCallback(b, cb, l);
    assert b.out.At(l) + [] == b.out.At(l);
  }

  lemma CallbackTellsLevel(b: Backend, deeds: seq<Deed>, cb: Callback, l: nat)
    requires l < LEVELS && TellsLevel(b, deeds, l)
    requires b.readLevel == CurrentLevel(CallbacksOf(deeds), READ_SECRET)
    requires b.writeLevel == CurrentLevel(CallbacksOf(deeds), WRITE_SECRET)
    ensures TellsLevel(Handle(b, cb), deeds + [Made(cb)], l)
  {
    hide CurrentLevel, Handle, LaneOf, Arrivals, Waiting, Sent;
    CallbackTellsLane(b, deeds, cb, l);
    CallbackTellsOutput(b, deeds, cb, l);
  }

  lemma CallbackTellsOverflow(b: Backend, deeds: seq<Deed>, cb: Callback)
    requires b.overflow == Overflowed(deeds, BUFFER_LEN)
    requires b.writeLevel == CurrentLevel(CallbacksOf(deeds), WRITE_SECRET) && TellsLevel(b, deeds, b.writeLevel)
    ensures Handle(b, cb).overflow == Overflowed(deeds + [Made(cb)], BUFFER_LEN)
  {
    hide CurrentLevel, LaneOf, Sent, Arrivals, Lanes.Release, Borrow;
    Snoc(deeds, Made(cb));
  }

  lemma CallbackTells(b: Backend, deeds: seq<Deed>, cb: Callback)
    requires Tells(b, deeds)
    ensures Tells(Handle(b, cb), deeds + [Made(cb)])
  {
    hide TellsLevel, Handle, Overflowed, CurrentLevel, LastSecret, Announced, KeptYields, YieldsIn;
    Snoc(deeds, Made(cb));
    CallbackTellsKeys(b, CallbacksOf(deeds), cb);
    CallbackTellsOverflow(b, deeds, cb);
    forall l | 0 <= l < LEVELS ensures TellsLevel(Handle(b, cb), deeds + [Made(cb)], l) { CallbackTellsLevel(b, deeds, cb, l); }
  }

  lemma {:induction false} ScriptTells(b: Backend, deeds: seq<Deed>, script: seq<Callback>)
    requires Tells(b, deeds)
    ensures Tells(HandleAll(b, script), deeds + AllMade(script))
    decreases |script|
  {
    hide Tells, Handle;
    if script == [] {
      assert deeds + AllMade(script) == deeds;
    } else {
      CallbackTells(b, deeds, script[0]);
      ScriptTells(Handle(b, script[0]), deeds + [Made(script[0])], script[1..]);
      assert deeds + [Made(script[0])] + AllMade(script[1..]) == deeds + AllMade(script);
    }
  }

  // ---- the host's calls ----

  lemma NoCallback(deeds: seq<Deed>, deed: Deed)
    requires !deed.Made?
    ensures CallbacksOf(deeds + [deed]) == CallbacksOf(deeds)
    ensures Overflowed(deeds + [deed], BUFFER_LEN) == Overflowed(deeds, BUFFER_LEN)
  {
    Snoc(deeds, deed);
  }

  lemma TakeTells(b: Backend, deeds: seq<Deed>, level: nat, outLen: nat)
    requires Tells(b, deeds) && level < LEVELS
    ensures Tells(CopyPendingOutbound(b, level, outLen).next, deeds + TakeDeeds(deeds, level, outLen))
  {
    var b', more := CopyPendingOutbound(b, level, outLen).next, TakeDeeds(deeds, level, outLen);
    assert TellsLevel(b, deeds, level);
    if more == [] {
      assert deeds + more == deeds;
    } else {
      NoCallback(deeds, Taken(level));
      forall l | 0 <= l < LEVELS ensures TellsLevel(b', deeds + more, l) {
        assert TellsLevel(b, deeds, l);
        TakenAt(deeds, level, l);
      }
    }
  }

  lemma TakenAt(deeds: seq<Deed>, level: nat, l: nat)
    ensures var d := deeds + [Taken(level)];
            && WaitingAt(d, l) == (if l == level then [] else WaitingAt(deeds, l))
            && SentAt(d, l) == SentAt(deeds, l) && InboundAt(d, l) == InboundAt(deeds, l) && Arrivals(d, l) == Arrivals(deeds, l)
  {
    Snoc(deeds, Taken(level));
  }

  lemma ArrivedAt(deeds: seq<Deed>, level: nat, data: seq<byte>, l: nat)
    ensures var d := deeds + [Arrived(level, data)];
            && WaitingAt(d, l) == WaitingAt(deeds, l) && SentAt(d, l) == SentAt(deeds, l)
            && InboundAt(d, l) == (if l == level then Append(InboundAt(deeds, l), data, BUFFER_LEN).0 else InboundAt(deeds, l))
            && Arrivals(d, l) == Arrivals(deeds, l) + (if l == level then data else [])
  {
    Snoc(deeds, Arrived(level, data));
  }

  lemma DeliverTells(b: Backend, deeds: seq<Deed>, space: int, data: seq<byte>)
    requires Tells(b, deeds)
    ensures Tells(DeliverCall(b, space, data).next, deeds + DeliverDeeds(deeds, space, data))
    ensures DeliverCall(b, space, data).status ==
              if !(0 <= space <= 2) then Internal else if DeliverDeeds(deeds, space, data) == [] then BufferTooSmall else Ok
  {
    var b', more := DeliverCall(b, space, data).next, DeliverDeeds(deeds, space, data);
    if 0 <= space <= 2 {
      assert TellsLevel(b, deeds, Carrier(space));
    }
    if more == [] {
      assert deeds + more == deeds;
    } else {
      NoCallback(deeds, more[0]);
      forall l | 0 <= l < LEVELS ensures TellsLevel(b', deeds + more, l) {
        assert TellsLevel(b, deeds, l);
        ArrivedAt(deeds, Carrier(space), data, l);
      }
    }
  }

  /** An error code is not part of what the deeds tell. */
  lemma ErrorTellsNothing(b: Backend, deeds: seq<Deed>, error: int)
    requires Tells(b, deeds)
    ensures Tells(b.(lastError := error), deeds)
  {
    forall l | 0 <= l < LEVELS ensures TellsLevel(b.(lastError := error), deeds, l) { assert TellsLevel(b, deeds, l); }
  }

  lemma LevelTold(b: Backend, deeds: seq<Deed>, l: nat)
    requires Tells(b, deeds) && l < LEVELS
    ensures b.out.At(l) == WaitingAt(deeds, l) && b.overflow == Overflowed(deeds, BUFFER_LEN)
  {
    assert TellsLevel(b, deeds, l);
  }

  /** The answer of a pull, from what waits before and after TLS acts and from TLS's own answer. */
  function PullAnswer(deeds: seq<Deed>, space: int, outLen: nat, drive: Drive): (Status, seq<byte>)
  {
    if !(0 <= space <= 2) then (Internal, [])
    else
      var now, after := WaitingAt(deeds, Carrier(space)), deeds + AllMade(drive.script);
      if now != [] then (if |now| <= outLen then (Ok, now) else (BufferTooSmall, []))
      else if space != 0 then (Pending, [])
      else
        var later := WaitingAt(after, 0);
        if Overflowed(after, BUFFER_LEN) || |later| > outLen then (BufferTooSmall, [])
        else if later != [] then (Ok, later)
        else if drive.rc == 1 || drive.sslError == SSL_ERROR_WANT_READ || drive.sslError == SSL_ERROR_WANT_WRITE then (Pending, [])
        else (CryptoError, [])
  }

  lemma PullTells(b: Backend, deeds: seq<Deed>, space: int, outLen: nat, drive: Drive)
    requires Tells(b, deeds)
    ensures Tells(PullCall(b, space, outLen, drive).next, deeds + PullDeeds(deeds, space, outLen, drive))
    ensures var r := PullCall(b, space, outLen, drive); (r.status, r.written) == PullAnswer(deeds, space, outLen, drive)
  {
    hide Tells, WaitingAt, HandleAll, Overflowed;
    if 0 <= space <= 2 {
      var level := Carrier(space);
      LevelTold(b, deeds, level);
      TakeTells(b, deeds, level, outLen);
      var made := AllMade(drive.script);
      ScriptTells(b, deeds, drive.script);
      var error := if drive.rc != 1 then drive.sslError else SSL_ERROR_NONE;
      ErrorTellsNothing(HandleAll(b, drive.script), deeds + made, error);
      var driven := HandleAll(b, drive.script).(lastError := error);
      LevelTold(driven, deeds + made, level);
      TakeTells(driven, deeds + made, level, outLen);
      assert deeds + (made + TakeDeeds(deeds + made, level, outLen)) == deeds + made + TakeDeeds(deeds + made, level, outLen);
    }
    assert deeds + [] == deeds;
  }

  lemma ConsumeTells(b: Backend, deeds: seq<Deed>)
    requires Tells(b, deeds)
    ensures Tells(DebugConsumeCall(b).next, deeds + ConsumeDeeds(deeds))
    ensures DebugConsumeCall(b).status == if |ConsumeDeeds(deeds)| == 2 then Ok else Pending
  {
    hide TellsLevel, CurrentLevel, CallbacksOf, LaneOf, Overflowed;
    var lane := b.lanes.At(b.readLevel);
    assert lane == InboundAt(deeds, b.readLevel) by { LaneIsTold(b, deeds, b.readLevel); }
    CallbackTells(b, deeds, Callback.Receive);
    var b1 := ReceiveRecord(b).0;
    CallbackTells(b1, deeds + [Made(Callback.Receive)], Callback.Release(|lane.inbound|));
    assert deeds + [Made(Callback.Receive)] + [Made(Callback.Release(|lane.inbound|))]
        == deeds + [Made(Callback.Receive), Made(Callback.Release(|lane.inbound|))];
  }

  lemma LaneIsTold(b: Backend, deeds: seq<Deed>, l: nat)
    requires Tells(b, deeds) && l < LEVELS
    ensures b.lanes.At(l) == InboundAt(deeds, l)
  {
    assert TellsLevel(b, deeds, l);
  }

  lemma HandOverTells(b: Backend, deeds: seq<Deed>, b': Backend)
    requires Tells(b, deeds)
    requires b'.lanes == b.lanes && b'.out == b.out && b'.sent == b.sent && b'.overflow == b.overflow
    requires b'.readLevel == b.readLevel && b'.writeLevel == b.writeLevel && b'.params == b.params
    requires b'.handshake.(sent := b.handshake.sent) == b.handshake && b'.oneRtt.(sent := b.oneRtt.sent) == b.oneRtt
    requires b'.log == b.log || (b'.log != [] && b'.log[..|b'.log| - 1] == b.log && b'.log[|b'.log| - 1].HandedOver?)
    ensures Tells(b', deeds)
  {
    assert YieldsIn(b'.log) == YieldsIn(b.log);
    forall l | 0 <= l < LEVELS ensures TellsLevel(b', deeds, l) { assert TellsLevel(b, deeds, l); }
  }

  lemma StepTells(b: Backend, deeds: seq<Deed>, call: Call)
    requires Tells(b, deeds)
    ensures Tells(Step(b, call).next, deeds + DeedsOf(deeds, call))
  {
    hide Tells, HandleAll, DeliverDeeds, PullDeeds, ConsumeDeeds, PullCall, DeliverCall, DebugConsumeCall;
    match call {
      case Deliver(space, data) => DeliverTells(b, deeds, space, data);
      case Pull(space, outLen, drive) => PullTells(b, deeds, space, outLen, drive);
      case DebugConsume => ConsumeTells(b, deeds);
      case DebugParams(params) => CallbackTells(b, deeds, GotParams(params));
      case DebugYield(toOneRtt, direction, secret) =>
        CallbackTells(b, deeds, YieldSecret(if toOneRtt then 3 else 2, direction, secret));
      case PullParams(_) =>
        assert deeds + [] == deeds;
        HandOverTells(b, deeds, Step(b, call).next);
      case PullSecrets(_) =>
        assert deeds + [] == deeds;
        HandOverTells(b, deeds, Step(b, call).next);
    }
  }

  lemma {:induction false} RunSnoc(b: Backend, calls: seq<Call>)
    requires calls != []
    ensures Run(b, calls) == Step(Run(b, calls[..|calls| - 1]), calls[|calls| - 1]).next
    decreases |calls|
  {
    hide Step;
    if |calls| == 1 {
      assert calls[1..] == [] && calls[..0] == [];
      assert Run(Step(b, calls[0]).next, []) == Step(b, calls[0]).next;
    } else {
      RunSnoc(Step(b, calls[0]).next, calls[1..]);
      assert calls[1..][..|calls| - 2] == calls[..|calls| - 1][1..];
    }
  }

  /** In every reachable state, whatever TLS did: the current levels, the parameters and the secrets
      are those the callbacks told last; each level's pending and sent bytes are the sends made while
      it was the write level; its lane is what arrivals, borrows and releases at it make it; and the
      log's yields are exactly the yields that count. */
  lemma {:induction false} BackendIsTold(calls: seq<Call>)
    ensures Tells(Run(NEW_BACKEND, calls), AllDeeds(calls))
    decreases |calls|
  {
    hide Tells, Step, DeedsOf;
    if calls == [] {
      NothingToTell();
      assert Run(NEW_BACKEND, calls) == NEW_BACKEND;
    } else {
      var before := calls[..|calls| - 1];
      BackendIsTold(before);
      RunSnoc(NEW_BACKEND, calls);
      StepTells(Run(NEW_BACKEND, before), AllDeeds(before), calls[|calls| - 1]);
    }
  }

  /** Every answer of a receive, a pull or a debugging call is determined by the deeds before it. */
  lemma AnswersAreTold(calls: seq<Call>, call: Call)
    ensures var r, deeds := Step(Run(NEW_BACKEND, calls), call), AllDeeds(calls);
            && (call.Pull? ==> (r.status, r.written) == PullAnswer(deeds, call.space, call.outLen, call.drive))
            && (call.Deliver? ==>
                  r.status == if !(0 <= call.space <= 2) then Internal
                              else if |InboundAt(deeds, Carrier(call.space)).inbound| + |call.data| <= BUFFER_LEN then Ok
                              else BufferTooSmall)
            && (call.DebugConsume? ==> r.status == if |ConsumeDeeds(deeds)| == 2 then Ok else Pending)
            && (call.DebugParams? ==> r.status == if |call.params| <= PARAMS_CAPACITY then Ok else BufferTooSmall)
            && (call.DebugYield? ==> r.status == if |call.secret| == SECRET_LEN then Ok else CryptoError)
  {
    hide Run, AllDeeds, PullCall, DeliverCall, DebugConsumeCall, PullAnswer, ConsumeDeeds, Tells;
    BackendIsTold(calls);
    var b, deeds := Run(NEW_BACKEND, calls), AllDeeds(calls);
    match call {
      case Deliver(space, data) => DeliverTells(b, deeds, space, data);
      case Pull(space, outLen, drive) => PullTells(b, deeds, space, outLen, drive);
      case DebugConsume => ConsumeTells(b, deeds);
      case _ =>
    }
  }

  /** The keys a confirmed handshake needs: parameters announced, and a usable secret brought for
      either direction of the handshake and the application level. */
  ghost predicate KeysMade(cbs: seq<Callback>)
  {
    && (exists i :: 0 <= i < |cbs| && Announces(cbs[i]))
    && (exists i :: 0 <= i < |cbs| && BringsSecret(cbs[i], 2, READ_SECRET))
    && (exists i :: 0 <= i < |cbs| && BringsSecret(cbs[i], 2, WRITE_SECRET))
    && (exists i :: 0 <= i < |cbs| && BringsSecret(cbs[i], 3, READ_SECRET))
    && (exists i :: 0 <= i < |cbs| && BringsSecret(cbs[i], 3, WRITE_SECRET))
  }

  lemma KeysAreTold(calls: seq<Call>)
    ensures KeysReady(Run(NEW_BACKEND, calls)) <==> KeysMade(CallbacksOf(AllDeeds(calls)))
  {
    hide Run, AllDeeds;
    BackendIsTold(calls);
  }

  /** Something arrived at some level. */
  ghost predicate SomethingArrived(deeds: seq<Deed>)
  {
    exists l :: 0 <= l < LEVELS && Arrivals(deeds, l) != []
  }

  lemma ArrivalsAreTold(calls: seq<Call>)
    ensures TotalAccepted(Run(NEW_BACKEND, calls).lanes) != 0 <==> SomethingArrived(AllDeeds(calls))
  {
    hide Run, AllDeeds, Arrivals, LaneOf, Waiting, Sent;
    BackendIsTold(calls);
    var b, deeds := Run(NEW_BACKEND, calls), AllDeeds(calls);
    assert TellsLevel(b, deeds, 0) && TellsLevel(b, deeds, 1) && TellsLevel(b, deeds, 2) && TellsLevel(b, deeds, 3);
    if TotalAccepted(b.lanes) != 0 {
      assert Arrivals(deeds, 0) != [] || Arrivals(deeds, 1) != [] || Arrivals(deeds, 2) != [] || Arrivals(deeds, 3) != [];
    }
  }

  /** What each callback is told back, in every reachable state, from the deeds so far. */
  lemma RepliesAreTold(calls: seq<Call>, data: seq<byte>, count: nat, level: nat, direction: int)
    ensures var b, deeds := Run(NEW_BACKEND, calls), AllDeeds(calls);
            var cbs := CallbacksOf(deeds);
            var lane := InboundAt(deeds, CurrentLevel(cbs, READ_SECRET));
            && (SendCrypto(b, data).1 <==> |WaitingAt(deeds, CurrentLevel(cbs, WRITE_SECRET))| + |data| <= BUFFER_LEN)
            && ReceiveRecord(b).1 == (if lane.leased == 0 then lane.inbound else [])
            && (ReleaseRecord(b, count).1 <==> count <= lane.leased)
            && (Yield(b, level, direction, data).1 <==> (level == 2 || level == 3 ==> |data| == SECRET_LEN))
            && (GotTransportParams(b, data).1 <==> |data| <= PARAMS_CAPACITY)
  {
    hide Run, AllDeeds, CurrentLevel, CallbacksOf, LaneOf, Waiting, Sent, Arrivals;
    BackendIsTold(calls);
    var b, deeds := Run(NEW_BACKEND, calls), AllDeeds(calls);
    assert TellsLevel(b, deeds, b.readLevel) && TellsLevel(b, deeds, b.writeLevel);
  }

  /** The error TLS reported when it last acted; none after a success or before it first acted. */
  function ErrorOf(calls: seq<Call>): int
  {
    if calls == [] then SSL_ERROR_NONE
    else
      var before, call := calls[..|calls| - 1], calls[|calls| - 1];
      if call.Pull? && call.space == 0 && WaitingAt(AllDeeds(before), 0) == []
      then (if call.drive.rc == 1 then SSL_ERROR_NONE else call.drive.sslError)
      else ErrorOf(before)
  }

  lemma {:induction false} ScriptKeepsError(b: Backend, script: seq<Callback>)
    ensures HandleAll(b, script).lastError == b.lastError
    decreases |script|
  {
    if script != [] {
      ScriptKeepsError(Handle(b, script[0]), script[1..]);
    }
  }

  lemma StepError(b: Backend, call: Call)
    ensures Step(b, call).next.lastError ==
              if call.Pull? && call.space == 0 && b.out.At(0) == []
              then (if call.drive.rc == 1 then SSL_ERROR_NONE else call.drive.sslError)
              else b.lastError
  {
    hide HandleAll;
    if call.Pull? {
      ScriptKeepsError(b, call.drive.script);
    }
  }

  lemma {:induction false} ErrorIsTold(calls: seq<Call>)
    ensures Run(NEW_BACKEND, calls).lastError == ErrorOf(calls)
    decreases |calls|
  {
    hide Step, Tells, AllDeeds, WaitingAt;
    if calls == [] {
      assert Run(NEW_BACKEND, calls) == NEW_BACKEND;
    } else {
      var before := calls[..|calls| - 1];
      ErrorIsTold(before);
      RunSnoc(NEW_BACKEND, calls);
      BackendIsTold(before);
      LevelTold(Run(NEW_BACKEND, before), AllDeeds(before), 0);
      StepError(Run(NEW_BACKEND, before), calls[|calls| - 1]);
    }
  }
}
