/** What the backend's counters, pulls and confirmation promise over whole runs, with no
    assumption on the order in which TLS makes its callbacks. */
module AdapterClaims {
  import opened Streams
  import opened Lanes
  import opened Callbacks
  import opened Deeds
  import opened Adapter
  import opened AdapterDeeds

  // ---- loss accounting ----

  /** Every received byte is released, pending or discarded. */
  lemma Accounting(b: Backend)
    requires Adapter.Valid(b)
    ensures TotalAccepted(b.lanes) == TotalReleased(b.lanes) + TotalPending(b.lanes) + TotalDiscarded(b.lanes)
  {
    assert ValidLevel(b, 0) && ValidLevel(b, 1) && ValidLevel(b, 2) && ValidLevel(b, 3);
    LossAccounting(b.lanes.At(0));
    LossAccounting(b.lanes.At(1));
    LossAccounting(b.lanes.At(2));
    LossAccounting(b.lanes.At(3));
  }

  /** Bytes thrown away by the releases a script makes. */
  ghost function ScriptOverrun(b: Backend, script: seq<Callback>): nat
    decreases |script|
  {
    if script == [] then 0 else Overrun(b, script[0]) + ScriptOverrun(Handle(b, script[0]), script[1..])
  }

  /** A pull reaches TLS only in the Initial space with nothing pending there. */
  ghost predicate Drives(b: Backend, call: Call)
  {
    call.Pull? && call.space == 0 && b.out.none == []
  }

  ghost function RunOverrun(b: Backend, calls: seq<Call>): nat
    decreases |calls|
  {
    if calls == [] then 0
    else (if Drives(b, calls[0]) then ScriptOverrun(b, calls[0].drive.script) else 0)
         + RunOverrun(Step(b, calls[0]).next, calls[1..])
  }

  lemma {:induction false} ScriptTotals(b: Backend, script: seq<Callback>)
    requires Counted(b)
    ensures var b' := HandleAll(b, script);
            && TotalAccepted(b'.lanes) == TotalAccepted(b.lanes)
            && TotalReleased(b'.lanes) >= TotalReleased(b.lanes)
            && TotalDiscarded(b'.lanes) == TotalDiscarded(b.lanes) + ScriptOverrun(b, script)
    decreases |script|
  {
    hide TotalAccepted, TotalReleased, TotalDiscarded, Counted, Overrun;
    if script != [] {
      HandleTotals(b, script[0]);
      HandleReleases(b, script[0]);
      ScriptTotals(Handle(b, script[0]), script[1..]);
    }
  }

  lemma HandleReleases(b: Backend, cb: Callback)
    ensures TotalReleased(Handle(b, cb).lanes) >= TotalReleased(b.lanes)
  {
    hide TotalReleased;
    match cb {
      case Receive => ReceiveTotals(b);
      case Release(count) => ReleaseTotals(b, count);
      case _ =>
    }
  }

  /** Only an accepted delivery adds received bytes, only a driven pull discards any, and nothing
      un-releases a byte. */
  lemma StepTotals(b: Backend, call: Call)
    requires Adapter.Valid(b)
    ensures var r := Step(b, call);
            && TotalAccepted(r.next.lanes) == TotalAccepted(b.lanes) + (if call.Deliver? && r.status == Ok then |call.data| else 0)
            && TotalReleased(r.next.lanes) >= TotalReleased(b.lanes)
            && TotalDiscarded(r.next.lanes)
               == TotalDiscarded(b.lanes) + (if Drives(b, call) then ScriptOverrun(b, call.drive.script) else 0)
  {
    hide TotalAccepted, TotalReleased, TotalDiscarded, TotalPending, Counted, Overrun;
    match call {
      case Deliver(space, data) =>
        var level := SpaceLevel(space);
        if level.Some? {
          LaneTotals(b.lanes, level.value, Append(b.lanes.At(level.value), data, BUFFER_LEN).0);
        }
      case Pull(space, outLen, drive) =>
        ScriptTotals(b, drive.script);
      case DebugConsume => ConsumeTotals(b);
      case _ =>
    }
  }

  lemma ConsumeTotals(b: Backend)
    ensures var b' := DebugConsumeCall(b).next;
            && TotalAccepted(b'.lanes) == TotalAccepted(b.lanes)
            && TotalReleased(b'.lanes) >= TotalReleased(b.lanes)
            && TotalDiscarded(b'.lanes) == TotalDiscarded(b.lanes)
  {
    hide TotalAccepted, TotalReleased, TotalDiscarded, Counted;
    ReceiveTotals(b);
    var (b1, bytes) := ReceiveRecord(b);
    ReleaseTotals(b1, |bytes|);
  }

  lemma {:induction false} RunDiscards(b: Backend, calls: seq<Call>)
    requires Adapter.Valid(b)
    ensures TotalDiscarded(Run(b, calls).lanes) == TotalDiscarded(b.lanes) + RunOverrun(b, calls)
    ensures TotalAccepted(Run(b, calls).lanes) >= TotalAccepted(b.lanes)
    decreases |calls|
  {
    if calls != [] {
      StepTotals(b, calls[0]);
      StepKeepsValid(b, calls[0]);
      RunDiscards(Step(b, calls[0]).next, calls[1..]);
    }
  }

  /** Exact loss accounting over any run: what was received is what was released, what is pending
      and what releases overran; so released and pending make up the received bytes exactly when
      no release ever met bytes beyond its loan. */
  lemma LossAccountingOverRuns(calls: seq<Call>)
    ensures var lanes := Run(NEW_BACKEND, calls).lanes;
            && TotalAccepted(lanes) == TotalReleased(lanes) + TotalPending(lanes) + RunOverrun(NEW_BACKEND, calls)
            && (TotalReleased(lanes) + TotalPending(lanes) == TotalAccepted(lanes) <==> RunOverrun(NEW_BACKEND, calls) == 0)
  {
    NewBackendValid();
    RunKeepsValid(NEW_BACKEND, calls);
    Accounting(Run(NEW_BACKEND, calls));
    RunDiscards(NEW_BACKEND, calls);
  }

  // ---- confirmation ----

  lemma WrappedEqual(a: nat, d: nat)
    ensures (a + d) % SIZE == a % SIZE <==> d % SIZE == 0
  {
    WrapAdd(d, a);
    var r, s := d % SIZE, a % SIZE;
    WrapAdd(a, r);
    assert (a + d) % SIZE == (s + r) % SIZE;
    if s + r < SIZE {
      assert (s + r) % SIZE == s + r;
    } else {
      assert (s + r) % SIZE == s + r - SIZE;
    }
  }

  /** The confirmation predicate, in terms of bytes instead of counters. */
  lemma ConfirmedByBytes(b: Backend)
    requires Adapter.Valid(b)
    ensures Confirmed(b) <==>
              && KeysReady(b) && TotalAccepted(b.lanes) % SIZE != 0
              && (TotalPending(b.lanes) + TotalDiscarded(b.lanes)) % SIZE == 0
  {
    hide TotalAccepted, TotalReleased, TotalDiscarded, TotalPending;
    Accounting(b);
    WrappedEqual(TotalReleased(b.lanes), TotalPending(b.lanes) + TotalDiscarded(b.lanes));
  }

  /** Confirmation in every reachable state, in terms of what TLS did and which bytes went where:
      the keys were made, the arrivals are no multiple of 2^64, and what is pending or was discarded
      is one. */
  lemma ConfirmedExactly(calls: seq<Call>)
    ensures var b := Run(NEW_BACKEND, calls);
            Confirmed(b) <==>
              && KeysMade(CallbacksOf(AllDeeds(calls))) && TotalAccepted(b.lanes) % SIZE != 0
              && (TotalPending(b.lanes) + TotalDiscarded(b.lanes)) % SIZE == 0
  {
    hide TotalAccepted, TotalReleased, TotalDiscarded, TotalPending, Run, KeysReady, KeysMade, AllDeeds;
    NewBackendValid();
    RunKeepsValid(NEW_BACKEND, calls);
    ConfirmedByBytes(Run(NEW_BACKEND, calls));
    KeysAreTold(calls);
  }

  /** Confirmation implies integrity, whatever order TLS made its callbacks in: in every reachable
      state whose received bytes a size_t can count, the predicate says exactly that TLS announced
      parameters and brought all four secrets, something arrived, and at every level every received
      byte was released, in order, with none pending and none ever discarded. */
  lemma ConfirmedMeansIntact(calls: seq<Call>)
    ensures var b, deeds := Run(NEW_BACKEND, calls), AllDeeds(calls);
            TotalAccepted(b.lanes) < SIZE ==>
              (Confirmed(b) <==> KeysMade(CallbacksOf(deeds)) && SomethingArrived(deeds) && Intact(b))
  {
    hide TotalAccepted, TotalReleased, TotalDiscarded, TotalPending, Run, Intact, KeysMade, SomethingArrived, AllDeeds, Confirmed;
    NewBackendValid();
    RunKeepsValid(NEW_BACKEND, calls);
    var b := Run(NEW_BACKEND, calls);
    if TotalAccepted(b.lanes) < SIZE {
      ConfirmedExactly(calls);
      ArrivalsAreTold(calls);
      Accounting(b);
      IntactIffNothingLeft(b);
    }
  }

  ghost predicate Intact(b: Backend)
  {
    forall l :: 0 <= l < LEVELS ==>
      b.lanes.At(l).released == b.lanes.At(l).accepted && b.lanes.At(l).inbound == [] && b.lanes.At(l).discarded == []
  }

  lemma IntactIffNothingLeft(b: Backend)
    requires Adapter.Valid(b)
    ensures Intact(b) <==> TotalPending(b.lanes) + TotalDiscarded(b.lanes) == 0
  {
    if TotalPending(b.lanes) + TotalDiscarded(b.lanes) == 0 {
      forall l | 0 <= l < LEVELS
        ensures b.lanes.At(l).released == b.lanes.At(l).accepted && b.lanes.At(l).inbound == [] && b.lanes.At(l).discarded == []
      {
        assert ValidLevel(b, l);
        LossAccounting(b.lanes.At(l));
        assert b.lanes.At(l).released + [] == b.lanes.At(l).released;
      }
    }
    if Intact(b) {
      assert b.lanes.At(0).inbound == b.lanes.At(1).inbound == b.lanes.At(2).inbound == b.lanes.At(3).inbound == [];
      assert b.lanes.At(0).discarded == b.lanes.At(1).discarded == b.lanes.At(2).discarded == b.lanes.At(3).discarded == [];
    }
  }

  /** Nothing takes a key away once it is there. */
  lemma KeysStay(b: Backend, call: Call)
    requires KeysReady(b)
    ensures KeysReady(Step(b, call).next)
  {
    hide HandleAll, Append, Lanes.Release, Borrow;
    if call.Pull? {
      KeysStayThroughScript(b, call.drive.script);
    }
  }

  lemma {:induction false} KeysStayThroughScript(b: Backend, script: seq<Callback>)
    requires KeysReady(b)
    ensures KeysReady(HandleAll(b, script))
    decreases |script|
  {
    hide Handle, KeysReady;
    if script != [] {
      CallbackKeepsKeys(b, script[0]);
      KeysStayThroughScript(Handle(b, script[0]), script[1..]);
    }
  }

  lemma CallbackKeepsKeys(b: Backend, cb: Callback)
    requires KeysReady(b)
    ensures KeysReady(Handle(b, cb))
  {
  }

  /** Confirmation stability: only an accepted delivery of at least one byte can take it back. */
  lemma OnlyDeliveryUnconfirms(b: Backend, call: Call)
    requires Adapter.Valid(b) && Confirmed(b) && TotalAccepted(b.lanes) < SIZE
    requires !(call.Deliver? && Step(b, call).status == Ok && call.data != [])
    ensures Confirmed(Step(b, call).next)
  {
    hide TotalAccepted, TotalReleased, TotalDiscarded, TotalPending, Step, KeysReady;
    ConfirmedByBytes(b);
    Accounting(b);
    KeysStay(b, call);
    StepKeepsValid(b, call);
    var next := Step(b, call).next;
    StepTotals(b, call);
    Accounting(next);
    ConfirmedByBytes(next);
  }

  lemma {:induction false} QuietRunStaysConfirmed(b: Backend, calls: seq<Call>)
    requires Adapter.Valid(b) && Confirmed(b) && TotalAccepted(b.lanes) < SIZE
    requires forall i :: 0 <= i < |calls| && calls[i].Deliver? ==> calls[i].data == []
    ensures Confirmed(Run(b, calls))
    decreases |calls|
  {
    if calls != [] {
      OnlyDeliveryUnconfirms(b, calls[0]);
      StepTotals(b, calls[0]);
      StepKeepsValid(b, calls[0]);
      QuietRunStaysConfirmed(Step(b, calls[0]).next, calls[1..]);
    }
  }

  /** A discarded byte rules confirmation out for good. */
  lemma LossIsFinal(b: Backend, calls: seq<Call>)
    requires Adapter.Valid(b) && TotalDiscarded(b.lanes) > 0
    ensures TotalAccepted(Run(b, calls).lanes) < SIZE ==> !Confirmed(Run(b, calls))
  {
    hide TotalAccepted, TotalReleased, TotalDiscarded, TotalPending;
    RunDiscards(b, calls);
    RunKeepsValid(b, calls);
    Accounting(Run(b, calls));
    ConfirmedByBytes(Run(b, calls));
  }
}
