/** The backend as the program keeps it: byte tables, lengths, flags and wrapping counters,
    written in place by callbacks and host calls. Each method is proved against the adapter
    specification. */
module TlsBackends {
  import opened Streams
  import opened Lanes
  import opened Callbacks
  import opened Buffers
  import opened LaneTables
  import Spec = Adapter

  type OutLength = n: nat | n <= Spec.BUFFER_LEN

  class TlsBackend {
    const inbound: LaneTable
    const outbound: array2<byte>
    var outLen: PerLevel<OutLength>
    var readLevel: nat
    var writeLevel: nat
    var receivedLen: nat
    var releasedLen: nat
    var generatedLen: nat
    var overflow: bool
    var handshake: Spec.Handover
    var oneRtt: Spec.Handover
    const params: array<byte>
    var paramsLen: nat
    var paramsAvailable: bool
    var paramsSent: bool
    var lastError: int
    ghost var sent: PerLevel<seq<byte>>
    ghost var pulled: PerLevel<seq<byte>>
    ghost var log: seq<Spec.Entry>

    ghost predicate Valid()
      reads this`paramsLen, inbound
    {
      && inbound.Valid() && inbound.capacity == Spec.BUFFER_LEN
      && inbound.bytes != outbound && outbound.Length0 == LEVELS && outbound.Length1 == Spec.BUFFER_LEN
      && params.Length == PARAMS_CAPACITY && paramsLen <= PARAMS_CAPACITY
    }

    ghost function OutView(): (r: PerLevel<seq<byte>>)
      requires Valid()
      reads this`outLen, this`paramsLen, inbound, outbound
      ensures forall l :: 0 <= l < LEVELS ==> r.At(l) == Row(outbound, l, outLen.At(l))
    {
      PerLevel(Row(outbound, 0, outLen.At(0)), Row(outbound, 1, outLen.At(1)),
               Row(outbound, 2, outLen.At(2)), Row(outbound, 3, outLen.At(3)))
    }

    ghost function ParamsView(): Option<seq<byte>>
      requires Valid()
      reads this`paramsLen, this`paramsAvailable, inbound, params
    {
      if paramsAvailable then Some(params[..paramsLen]) else None
    }

    ghost function View(): Spec.Backend
      requires Valid()
      reads this, inbound, inbound.bytes, outbound, params
    {
      Spec.Backend(inbound.View(), OutView(), readLevel, writeLevel, receivedLen, releasedLen, generatedLen, overflow,
                   handshake, oneRtt, ParamsView(), paramsSent, lastError, sent, pulled, log)
    }

    constructor ()
      ensures Valid() && View() == Spec.NEW_BACKEND
    {
      inbound := new LaneTable(Spec.BUFFER_LEN);
      outbound, params := new byte[LEVELS, Spec.BUFFER_LEN], new byte[PARAMS_CAPACITY];
      outLen, readLevel, writeLevel := Everywhere(0), 0, 0;
      receivedLen, releasedLen, generatedLen, overflow := 0, 0, 0, false;
      handshake, oneRtt := Spec.NO_SECRETS, Spec.NO_SECRETS;
      paramsLen, paramsAvailable, paramsSent, lastError := 0, false, false, SSL_ERROR_NONE;
      sent, pulled, log := Everywhere([]), Everywhere([]), [];
      new;
      hide LaneTable.View;
      SameLevels(OutView(), Everywhere([]));
    }

    method Send(data: seq<byte>) returns (ok: bool)
      requires Valid()
      modifies this`outLen, this`overflow, this`generatedLen, this`sent, outbound
      ensures Valid() && (View(), ok) == Spec.SendCrypto(old(View()), data)
    {
      hide LaneTable.View, OutView, ParamsView, LaneTable.LaneView;
      var w := writeLevel;
      if w >= LEVELS {
        return false;
      }
      assert |OutView().At(w)| == outLen.At(w);
      if |data| > Spec.BUFFER_LEN - outLen.At(w) {
        overflow := true;
        return false;
      }
      Push(w, data);
      generatedLen := (generatedLen + |data|) % Spec.SIZE;
      sent := sent.With(w, sent.At(w) + data);
      return true;
    }

    method Push(w: nat, data: seq<byte>)
      requires Valid() && w < LEVELS && |data| <= Spec.BUFFER_LEN - outLen.At(w)
      modifies this`outLen, outbound
      ensures Valid() && OutView() == old(OutView()).With(w, old(OutView()).At(w) + data)
    {
      CopyIn(outbound, w, outLen.At(w), data);
      outLen := outLen.With(w, outLen.At(w) + |data|);
      assert OutView().At(w) == old(OutView()).At(w) + data;
      assert forall l :: 0 <= l < LEVELS && l != w ==> OutView().At(l) == old(OutView()).At(l);
      SameLevels(OutView(), old(OutView()).With(w, old(OutView()).At(w) + data));
    }

    method Receive() returns (bytes: seq<byte>)
      requires Valid()
      modifies inbound
      ensures Valid() && (View(), bytes) == Spec.ReceiveRecord(old(View()))
    {
      hide LaneTable.View;
      if readLevel >= LEVELS {
        return [];
      }
      bytes := inbound.Lend(readLevel);
      assert OutView() == old(OutView());
    }

    method Release(count: nat) returns (ok: bool)
      requires Valid()
      modifies this`releasedLen, inbound, inbound.bytes
      ensures Valid() && (View(), ok) == Spec.ReleaseRecord(old(View()), count)
    {
      hide LaneTable.View;
      if readLevel >= LEVELS || count > inbound.OnLoan(readLevel) {
        return false;
      }
      releasedLen := (releasedLen + count) % Spec.SIZE;
      ok := inbound.TakeBack(readLevel, count);
      assert OutView() == old(OutView());
    }

    method YieldSecret(level: nat, direction: int, secret: seq<byte>) returns (ok: bool)
      requires Valid()
      modifies this`readLevel, this`writeLevel, this`handshake, this`oneRtt, this`log
      ensures Valid() && (View(), ok) == Spec.Yield(old(View()), level, direction, secret)
    {
      hide LaneTable.View, OutView, ParamsView, LaneTable.LaneView;
      if level < LEVELS {
        if direction == 0 {
          readLevel := level;
        } else if direction == 1 {
          writeLevel := level;
        }
      }
      if level != Spec.HANDSHAKE_LEVEL && level != Spec.APPLICATION_LEVEL {
        return true;
      }
      if |secret| != SECRET_LEN {
        return false;
      }
      if direction == 0 || direction == 1 {
        log := log + [Spec.Yielded(level, direction, secret)];
      }
      if level == Spec.HANDSHAKE_LEVEL {
        handshake := Spec.Store(handshake, direction, secret);
      } else {
        oneRtt := Spec.Store(oneRtt, direction, secret);
      }
      return true;
    }

    method GotParams(newParams: seq<byte>) returns (ok: bool)
      requires Valid()
      modifies this`paramsLen, this`paramsAvailable, this`paramsSent, params
      ensures Valid() && (View(), ok) == Spec.GotTransportParams(old(View()), newParams)
    {
      hide LaneTable.View;
      if |newParams| > params.Length {
        return false;
      }
      forall i | 0 <= i < |newParams| {
        params[i] := newParams[i];
      }
      paramsLen, paramsAvailable, paramsSent := |newParams|, true, false;
      assert params[..paramsLen] == newParams;
      SameLevels(OutView(), old(OutView()));
      return true;
    }

    method Invoke(cb: Callback)
      requires Valid()
      modifies this, inbound, inbound.bytes, outbound, params
      ensures Valid() && View() == Spec.Handle(old(View()), cb)
    {
      hide View;
      match cb {
        case Send(data) => var _ := Send(data);
        case Receive => var _ := Receive();
        case Release(count) => var _ := Release(count);
        case YieldSecret(level, direction, secret) => var _ := YieldSecret(level, direction, secret);
        case GotParams(newParams) => var _ := GotParams(newParams);
      }
    }

    /** SSL_do_handshake: OpenSSL makes the calls of the script, in order. */
    method Handshake(script: seq<Callback>)
      requires Valid()
      modifies this, inbound, inbound.bytes, outbound, params
      ensures Valid() && View() == Spec.HandleAll(old(View()), script)
    {
      hide View, Spec.Handle;
      var i := 0;
      while i < |script|
        invariant 0 <= i <= |script| && Valid()
        invariant Spec.HandleAll(View(), script[i..]) == Spec.HandleAll(old(View()), script)
      {
        assert script[i..][0] == script[i] && script[i..][1..] == script[i + 1..];
        Invoke(script[i]);
        i := i + 1;
      }
    }

    method Deliver(space: int, data: seq<byte>) returns (status: Spec.Status)
      requires Valid()
      modifies this`receivedLen, inbound, inbound.bytes
      ensures Valid() && Spec.Reply(View(), status, []) == Spec.DeliverCall(old(View()), space, data)
    {
      hide LaneTable.View;
      var level := Spec.SpaceLevel(space);
      if level.None? {
        return Spec.Internal;
      }
      if |data| > Spec.BUFFER_LEN - inbound.Held(level.value) {
        return Spec.BufferTooSmall;
      }
      var _ := inbound.Extend(level.value, data);
      receivedLen := (receivedLen + |data|) % Spec.SIZE;
      assert OutView() == old(OutView());
      return Spec.Ok;
    }

    method CopyPendingOutbound(level: nat, outCapacity: nat) returns (status: Spec.Status, written: seq<byte>)
      requires Valid() && level < LEVELS
      modifies this`outLen, this`pulled
      ensures Valid() && Spec.Reply(View(), status, written) == Spec.CopyPendingOutbound(old(View()), level, outCapacity)
    {
      hide LaneTable.View;
      if outLen.At(level) == 0 {
        return Spec.Pending, [];
      }
      if outCapacity < outLen.At(level) {
        return Spec.BufferTooSmall, [];
      }
      status, written := Spec.Ok, Row(outbound, level, outLen.At(level));
      outLen := outLen.With(level, 0);
      pulled := pulled.With(level, pulled.At(level) + written);
      assert forall l :: 0 <= l < LEVELS && l != level ==> OutView().At(l) == old(OutView()).At(l);
      SameLevels(OutView(), old(OutView()).With(level, []));
    }

    method Drive(d: Callbacks.Drive)
      requires Valid()
      modifies this, inbound, inbound.bytes, outbound, params
      ensures Valid()
      ensures View() == Spec.HandleAll(old(View()), d.script).(lastError := if d.rc != 1 then d.sslError else SSL_ERROR_NONE)
    {
      hide LaneTable.View, Spec.HandleAll;
      Handshake(d.script);
      if d.rc != 1 {
        lastError := d.sslError;
      } else {
        lastError := SSL_ERROR_NONE;
      }
      assert OutView() == Spec.HandleAll(old(View()), d.script).out;
    }

    lemma FlagsShow()
      requires Valid()
      ensures View().overflow == overflow && View().lastError == lastError
    {
    }

    method Pull(space: int, outCapacity: nat, d: Callbacks.Drive) returns (status: Spec.Status, written: seq<byte>)
      requires Valid()
      modifies this, inbound, inbound.bytes, outbound, params
      ensures Valid() && Spec.Reply(View(), status, written) == Spec.PullCall(old(View()), space, outCapacity, d)
    {
      hide View, Spec.HandleAll, Spec.CopyPendingOutbound;
      var level := Spec.SpaceLevel(space);
      if level.None? {
        return Spec.Internal, [];
      }
      CopyLeavesPending(View(), level.value, outCapacity);
      status, written := CopyPendingOutbound(level.value, outCapacity);
      if status != Spec.Pending {
        return;
      }
      if level.value != 0 {
        return;
      }
      Drive(d);
      FlagsShow();
      if overflow {
        return Spec.BufferTooSmall, [];
      }
      CopyLeavesPending(View(), level.value, outCapacity);
      status, written := CopyPendingOutbound(level.value, outCapacity);
      if status != Spec.Pending {
        return;
      }
      FlagsShow();
      if d.rc == 1 || lastError == SSL_ERROR_WANT_READ || lastError == SSL_ERROR_WANT_WRITE {
        return Spec.Pending, [];
      }
      return Spec.CryptoError, [];
    }

    method PullParams(outCapacity: nat) returns (status: Spec.Status, written: seq<byte>)
      requires Valid()
      modifies this`paramsSent
      ensures Valid() && Spec.Reply(View(), status, written) == Spec.PullParamsCall(old(View()), outCapacity)
    {
      hide LaneTable.View;
      if !paramsAvailable || paramsSent {
        return Spec.Pending, [];
      }
      if outCapacity < paramsLen {
        return Spec.BufferTooSmall, [];
      }
      paramsSent := true;
      assert OutView() == old(OutView());
      return Spec.Ok, params[..paramsLen];
    }

    method PullSecrets(toOneRtt: bool) returns (status: Spec.Status, written: seq<byte>)
      requires Valid()
      modifies this`handshake, this`oneRtt, this`log
      ensures Valid() && Spec.Reply(View(), status, written) == Spec.PullSecretsCall(old(View()), toOneRtt)
    {
      hide LaneTable.View, OutView;
      var h := if toOneRtt then oneRtt else handshake;
      if h.local.None? || h.peer.None? || h.sent {
        return Spec.Pending, [];
      }
      if toOneRtt {
        log := log + [Spec.HandedOver(Spec.APPLICATION_LEVEL, h.local.value, h.peer.value)];
        oneRtt := oneRtt.(sent := true);
      } else {
        log := log + [Spec.HandedOver(Spec.HANDSHAKE_LEVEL, h.local.value, h.peer.value)];
        handshake := handshake.(sent := true);
      }
      return Spec.Ok, h.local.value + h.peer.value;
    }

    method HandshakeConfirmed() returns (confirmed: bool)
      requires Valid()
      ensures confirmed == Spec.Confirmed(View())
    {
      return paramsAvailable && handshake.local.Some? && handshake.peer.Some? && oneRtt.local.Some? && oneRtt.peer.Some?
             && receivedLen != 0 && releasedLen == receivedLen;
    }

    /** The pending total, summed level by level. */
    method PendingInboundLen() returns (total: nat)
      requires Valid()
      ensures total == Spec.TotalPending(View().lanes)
    {
      total := 0;
      var level := 0;
      while level < LEVELS
        invariant 0 <= level <= LEVELS
        invariant total == (if level > 0 then inbound.Held(0) else 0) + (if level > 1 then inbound.Held(1) else 0)
                           + (if level > 2 then inbound.Held(2) else 0) + (if level > 3 then inbound.Held(3) else 0)
      {
        total := total + inbound.Held(level);
        level := level + 1;
      }
    }

    method DebugConsume() returns (status: Spec.Status)
      requires Valid()
      modifies this`releasedLen, inbound, inbound.bytes
      ensures Valid() && Spec.Reply(View(), status, []) == Spec.DebugConsumeCall(old(View()))
    {
      hide View, Spec.ReceiveRecord, Spec.ReleaseRecord;
      var bytes := Receive();
      if bytes == [] {
        return Spec.Pending;
      }
      var ok := Release(|bytes|);
      return if ok then Spec.Ok else Spec.CryptoError;
    }
  }

  lemma CopyLeavesPending(b: Spec.Backend, level: nat, outLen: nat)
    requires level < LEVELS
    ensures var r := Spec.CopyPendingOutbound(b, level, outLen);
            (r.status == Spec.Pending ==> r.next == b && r.written == []) && (r.status == Spec.BufferTooSmall ==> r.next == b)
  {
  }
}
