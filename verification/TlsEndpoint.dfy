/** The endpoint as the program keeps it: fixed byte tables, lengths, and callbacks that write
    them in place. Each method is proved against the endpoint specification. */
module TlsEndpoints {
  import opened Streams
  import opened Lanes
  import opened Callbacks
  import opened Buffers
  import opened LaneTables
  import Spec = Endpoints

  /** A row's outbound lengths: bytes pending, bytes ever sent, bytes in the history. */
  datatype OutFill = OutFill(len: nat, total: nat, history: nat)
  type OutLengths = f: OutFill | f.len <= Spec.CAPACITY && f.history <= Spec.CAPACITY witness OutFill(0, 0, 0)

  class TlsEndpoint {
    const inbound: LaneTable
    const outbound: array2<byte>
    const history: array2<byte>
    var outFill: PerLevel<OutLengths>
    var secrets: PerLevel<Spec.Secrets>
    var readLevel: nat
    var writeLevel: nat
    const peerParams: array<byte>
    var peerParamsLen: nat
    var done: bool
    var lastError: int

    /** The tables have their C dimensions and are distinct. */
    ghost predicate Valid()
      reads this`peerParamsLen, inbound
    {
      && inbound.Valid() && inbound.capacity == Spec.CAPACITY
      && inbound.bytes != outbound && inbound.bytes != history && outbound != history
      && outbound.Length0 == history.Length0 == LEVELS
      && outbound.Length1 == history.Length1 == Spec.CAPACITY
      && peerParams.Length == PARAMS_CAPACITY && peerParamsLen <= PARAMS_CAPACITY
    }

    ghost function OutputView(l: nat): Spec.Output
      requires l < LEVELS && Valid()
      reads this`outFill, this`peerParamsLen, inbound, outbound, history
    {
      Spec.Output(Row(outbound, l, outFill.At(l).len), outFill.At(l).total, Row(history, l, outFill.At(l).history))
    }

    ghost function OutputsView(): (r: PerLevel<Spec.Output>)
      requires Valid()
      reads this`outFill, this`peerParamsLen, inbound, outbound, history
      ensures forall l :: 0 <= l < LEVELS ==> r.At(l) == OutputView(l)
    {
      PerLevel(OutputView(0), OutputView(1), OutputView(2), OutputView(3))
    }

    ghost function View(): Spec.Endpoint
      requires Valid()
      reads this, inbound, inbound.bytes, outbound, history, peerParams
    {
      Spec.Endpoint(inbound.View(), OutputsView(), secrets, readLevel, writeLevel, peerParams[..peerParamsLen], done, lastError)
    }

    lemma DoneShows()
      requires Valid()
      ensures View().done == done
    {
    }

    constructor ()
      ensures Valid() && View() == Spec.NEW_ENDPOINT
      ensures fresh(inbound) && fresh(inbound.bytes) && fresh(outbound) && fresh(history) && fresh(peerParams)
    {
      inbound := new LaneTable(Spec.CAPACITY);
      outbound, history := new byte[LEVELS, Spec.CAPACITY], new byte[LEVELS, Spec.CAPACITY];
      peerParams := new byte[PARAMS_CAPACITY];
      outFill := Everywhere(OutFill(0, 0, 0));
      secrets := Everywhere(Spec.Secrets(None, None));
      readLevel, writeLevel, peerParamsLen, done, lastError := 0, 0, 0, false, SSL_ERROR_NONE;
      new;
      hide LaneTable.View;
      forall l | 0 <= l < LEVELS ensures OutputView(l) == Spec.Output([], 0, []) {}
      SameLevels(OutputsView(), Everywhere(Spec.Output([], 0, [])));
    }

    /** The two copies of an accepted send. */
    method Push(w: nat, data: seq<byte>)
      requires Valid() && w < LEVELS
      requires |data| <= Spec.CAPACITY - outFill.At(w).len && |data| <= Spec.CAPACITY - outFill.At(w).history
      modifies this`outFill, outbound, history
      ensures Valid()
      ensures var o := old(OutputsView()).At(w);
              OutputsView() == old(OutputsView()).With(w, Spec.Output(o.pending + data, o.total + |data|, o.history + data))
    {
      var f := outFill.At(w);
      CopyIn(outbound, w, f.len, data);
      CopyIn(history, w, f.history, data);
      outFill := outFill.With(w, OutFill(f.len + |data|, f.total + |data|, f.history + |data|));
      ghost var o := old(OutputView(w));
      assert OutputView(w) == Spec.Output(o.pending + data, o.total + |data|, o.history + data);
      assert forall l :: 0 <= l < LEVELS && l != w ==> OutputView(l) == old(OutputView(l));
      SameLevels(OutputsView(), old(OutputsView()).With(w, OutputView(w)));
    }

    method Send(data: seq<byte>) returns (ok: bool)
      requires Valid()
      modifies this`outFill, outbound, history
      ensures Valid() && (View(), ok) == Spec.SendCrypto(old(View()), data)
    {
      hide LaneTable.View;
      var w := writeLevel;
      if w >= LEVELS || |data| > Spec.CAPACITY - outFill.At(w).len || |data| > Spec.CAPACITY - outFill.At(w).history {
        return false;
      }
      Push(w, data);
      return true;
    }

    method Receive() returns (bytes: seq<byte>)
      requires Valid()
      modifies inbound
      ensures Valid() && (View(), bytes) == Spec.ReceiveRecord(old(View()))
    {
      hide LaneTable.View;
      if readLevel >= LEVELS {
        return [];
      }
      bytes := inbound.Lend(readLevel);
      assert OutputsView() == old(OutputsView());
    }

    method Release(count: nat) returns (ok: bool)
      requires Valid()
      modifies inbound, inbound.bytes
      ensures Valid() && (View(), ok) == Spec.ReleaseRecord(old(View()), count)
    {
      hide LaneTable.View;
      if readLevel >= LEVELS {
        return false;
      }
      ok := inbound.TakeBack(readLevel, count);
      assert OutputsView() == old(OutputsView());
    }

    /** The level switches before the secret's length is looked at. */
    method YieldSecret(level: nat, direction: int, secret: seq<byte>) returns (ok: bool)
      requires Valid()
      modifies this`readLevel, this`writeLevel, this`secrets
      ensures Valid() && (View(), ok) == Spec.Yield(old(View()), level, direction, secret)
    {
      hide LaneTable.View, OutputsView;
      if level >= LEVELS {
        return false;
      }
      if direction == 0 {
        readLevel := level;
      } else if direction == 1 {
        writeLevel := level;
      }
      if (direction == READ_SECRET || direction == WRITE_SECRET) && |secret| == SECRET_LEN {
        var s := secrets.At(level);
        secrets := secrets.With(level, if direction == READ_SECRET then s.(read := Some(secret)) else s.(write := Some(secret)));
      }
      return true;
    }

    method GotParams(params: seq<byte>) returns (ok: bool)
      requires Valid()
      modifies this`peerParamsLen, peerParams
      ensures Valid() && (View(), ok) == Spec.GotTransportParams(old(View()), params)
    {
      hide LaneTable.View;
      if |params| > peerParams.Length {
        return false;
      }
      forall i | 0 <= i < |params| {
        peerParams[i] := params[i];
      }
      peerParamsLen := |params|;
      assert peerParams[..peerParamsLen] == params;
      assert forall l :: 0 <= l < LEVELS ==> OutputView(l) == old(OutputView(l));
      SameLevels(OutputsView(), old(OutputsView()));
      return true;
    }

    method Invoke(cb: Callback)
      requires Valid()
      modifies this, inbound, inbound.bytes, outbound, history, peerParams
      ensures Valid() && View() == Spec.Handle(old(View()), cb)
    {
      hide View;
      match cb {
        case Send(data) => var _ := Send(data);
        case Receive => var _ := Receive();
        case Release(count) => var _ := Release(count);
        case YieldSecret(level, direction, secret) => var _ := YieldSecret(level, direction, secret);
        case GotParams(params) => var _ := GotParams(params);
      }
    }

    /** SSL_do_handshake: OpenSSL makes the calls of the script, in order. */
    method Handshake(script: seq<Callback>)
      requires Valid()
      modifies this, inbound, inbound.bytes, outbound, history, peerParams
      ensures Valid() && View() == Spec.HandleAll(old(View()), script)
    {
      hide View, Spec.Handle;
      var i := 0;
      while i < |script|
        invariant 0 <= i <= |script| && Valid()
        invariant Spec.HandleAll(View(), script[i..]) == Spec.HandleAll(old(View()), script)
      {
        assert script[i..][0] == script[i] && script[i..][1..] == script[i + 1..];
        Invoke(script[i]);
        i := i + 1;
      }
    }

    method DriveHandshake(d: Drive)
      requires Valid()
      modifies this, inbound, inbound.bytes, outbound, history, peerParams
      ensures Valid() && View() == Spec.DriveHandshake(old(View()), d)
    {
      hide LaneTable.View, OutputsView;
      Handshake(d.script);
      if d.rc == 1 {
        done, lastError := true, SSL_ERROR_NONE;
      } else {
        lastError := d.sslError;
      }
    }

    method Provide(level: int, data: seq<byte>) returns (ok: bool)
      requires Valid()
      modifies inbound, inbound.bytes
      ensures Valid() && (View(), ok) == Spec.ProvideCrypto(old(View()), level, data)
    {
      hide LaneTable.View;
      if level < 0 || level >= LEVELS {
        return false;
      }
      ok := inbound.Extend(level, data);
      assert OutputsView() == old(OutputsView());
    }

    /** Forgets a level's pending output; the table keeps the bytes as garbage. */
    method Forget(level: nat)
      requires Valid() && level < LEVELS
      modifies this`outFill
      ensures Valid() && OutputsView() == old(OutputsView()).With(level, old(OutputsView()).At(level).(pending := []))
    {
      outFill := outFill.With(level, outFill.At(level).(len := 0));
      assert forall l :: 0 <= l < LEVELS && l != level ==> OutputView(l) == old(OutputView(l));
      SameLevels(OutputsView(), old(OutputsView()).With(level, old(OutputsView()).At(level).(pending := [])));
    }

    method CopyPending(level: int, hasOut: bool, outCapacity: nat) returns (copied: Option<seq<byte>>)
      requires Valid()
      modifies this`outFill
      ensures Valid() && (View(), copied) == Spec.CopyPending(old(View()), level, hasOut, outCapacity)
    {
      hide LaneTable.View;
      if level < 0 || level >= LEVELS || outFill.At(level).len > outCapacity || (outFill.At(level).len > 0 && !hasOut) {
        return None;
      }
      copied := Some(Row(outbound, level, outFill.At(level).len));
      Forget(level);
    }
  }

  /** Two endpoints that share no table. */
  ghost predicate Separate(a: TlsEndpoint, b: TlsEndpoint)
  {
    && a != b && a.peerParams != b.peerParams && a.inbound != b.inbound
    && a.inbound.bytes != b.inbound.bytes && a.inbound.bytes != b.outbound && a.inbound.bytes != b.history
    && a.outbound != b.inbound.bytes && a.outbound != b.outbound && a.outbound != b.history
    && a.history != b.inbound.bytes && a.history != b.outbound && a.history != b.history
  }

  /** One turn of the pump's loop; false when this level's output does not fit. */
  method PumpOne(from: TlsEndpoint, to: TlsEndpoint, level: nat) returns (ok: bool)
    requires Separate(from, to) && from.Valid() && to.Valid() && level < LEVELS
    modifies from`outFill, to.inbound, to.inbound.bytes
    ensures from.Valid() && to.Valid()
    ensures Spec.PumpFrom(old(from.View()), old(to.View()), level) ==
            if ok then Spec.PumpFrom(from.View(), to.View(), level + 1) else (from.View(), to.View(), false)
  {
    hide LaneTable.View;
    assert |from.View().outputs.At(level).pending| == from.outFill.At(level).len;
    if from.outFill.At(level).len == 0 {
      return true;
    }
    if from.outFill.At(level).len > Spec.CAPACITY - to.inbound.Held(level) {
      return false;
    }
    ghost var f, t := from.View(), to.View();
    var _ := to.inbound.Extend(level, Row(from.outbound, level, from.outFill.At(level).len));
    assert from.View() == f;
    assert to.OutputsView() == old(to.OutputsView());
    from.Forget(level);
    assert (from.View(), to.View()) == Spec.PumpLevel(f, t, level);
    return true;
  }

  /** Moves the pending output of every level into the peer's buffers, until one does not fit. */
  method PumpCrypto(from: TlsEndpoint, to: TlsEndpoint) returns (ok: bool)
    requires Separate(from, to) && from.Valid() && to.Valid()
    modifies from`outFill, to.inbound, to.inbound.bytes
    ensures from.Valid() && to.Valid()
    ensures (from.View(), to.View(), ok) == Spec.Pump(old(from.View()), old(to.View()))
  {
    hide TlsEndpoint.View;
    ghost var goal := Spec.Pump(from.View(), to.View());
    var level := 0;
    while level < LEVELS
      invariant 0 <= level <= LEVELS && from.Valid() && to.Valid()
      invariant Spec.PumpFrom(from.View(), to.View(), level) == goal
    {
      var fits := PumpOne(from, to, level);
      if !fits {
        return false;
      }
      level := level + 1;
    }
    return true;
  }
}
