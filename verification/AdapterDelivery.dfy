/** Outbound bytes reach the host exactly once and in order, traffic secrets are handed over at most
    once per re-arming yield, and the peer's transport parameters at most once per announcement. */
module AdapterDelivery {
  import opened Streams
  import opened Lanes
  import opened Callbacks
  import opened Deeds
  import opened Adapter
  import opened AdapterDeeds

  // ---- outbound bytes ----

  /** The bytes written by the OK pulls of one packet space, concatenated in call order. */
  function Delivered(b: Backend, calls: seq<Call>, space: int): seq<byte>
    decreases |calls|
  {
    if calls == [] then []
    else
      var r := Step(b, calls[0]);
      (if calls[0].Pull? && calls[0].space == space && r.status == Ok then r.written else [])
      + Delivered(r.next, calls[1..], space)
  }

  /** No level's pending output shrinks. */
  ghost predicate OutputGrows(b: Backend, b': Backend)
  {
    forall l :: 0 <= l < LEVELS ==> b.out.At(l) <= b'.out.At(l)
  }

  lemma CallbackOnlyAdds(b: Backend, cb: Callback)
    ensures OutputGrows(b, Handle(b, cb)) && Handle(b, cb).pulled == b.pulled
  {
  }

  lemma {:induction false} ScriptOnlyAdds(b: Backend, script: seq<Callback>)
    ensures OutputGrows(b, HandleAll(b, script)) && HandleAll(b, script).pulled == b.pulled
    decreases |script|
  {
    hide Handle;
    if script != [] {
      CallbackOnlyAdds(b, script[0]);
      ScriptOnlyAdds(Handle(b, script[0]), script[1..]);
    }
  }

  /** A pull is OK exactly when it wrote bytes; an OK pull moves all that was pending in its own
      space and no other to the host; any other outcome takes nothing from anyone. */
  lemma PullReply(b: Backend, space: int, outLen: nat, drive: Drive)
    ensures var r := PullCall(b, space, outLen, drive);
            && (r.status == Ok <==> r.written != [])
            && (r.status == Ok ==>
                  && SpaceLevel(space).Some? && |r.written| <= outLen
                  && r.next.out.At(SpaceLevel(space).value) == []
                  && b.out.At(SpaceLevel(space).value) <= r.written
                  && r.next.pulled == b.pulled.With(SpaceLevel(space).value, b.pulled.At(SpaceLevel(space).value) + r.written)
                  && forall l :: 0 <= l < LEVELS && l != SpaceLevel(space).value ==> b.out.At(l) <= r.next.out.At(l))
            && (r.status != Ok ==> r.next.pulled == b.pulled && OutputGrows(b, r.next))
  {
    hide HandleAll;
    ScriptOnlyAdds(b, drive.script);
  }

  lemma OtherCallsTakeNothing(b: Backend, call: Call)
    requires !call.Pull?
    ensures Step(b, call).next.pulled == b.pulled
  {
  }

  lemma SpacesNeverMix(s: int, t: int)
    requires SpaceLevel(s).Some? && SpaceLevel(t).Some? && s != t
    ensures SpaceLevel(s).value != SpaceLevel(t).value
  {
  }

  lemma {:induction false} DeliveredIsPulled(b: Backend, calls: seq<Call>, space: int)
    requires SpaceLevel(space).Some?
    ensures var l := SpaceLevel(space).value;
            Run(b, calls).pulled.At(l) == b.pulled.At(l) + Delivered(b, calls, space)
    decreases |calls|
  {
    hide PullCall;
    var l := SpaceLevel(space).value;
    if calls == [] {
      assert b.pulled.At(l) + [] == b.pulled.At(l);
    } else {
      var r := Step(b, calls[0]);
      DeliveredIsPulled(r.next, calls[1..], space);
      if calls[0].Pull? {
        PullReply(b, calls[0].space, calls[0].outLen, calls[0].drive);
        if r.status == Ok && calls[0].space != space {
          SpacesNeverMix(calls[0].space, space);
        }
      } else {
        OtherCallsTakeNothing(b, calls[0]);
      }
      var here := if calls[0].Pull? && calls[0].space == space && r.status == Ok then r.written else [];
      assert r.next.pulled.At(l) == b.pulled.At(l) + here;
      var later := Delivered(r.next, calls[1..], space);
      assert b.pulled.At(l) + here + later == b.pulled.At(l) + (here + later);
    }
  }

  /** Exactly-once delivery: per packet space, the OK pulls so far followed by what is pending are
      the bytes of the sends TLS made while the space's level was its write level, in order, each
      that fitted; the generated counter is their total; and bytes sent at the early-data level,
      which no space maps to, never leave. */
  lemma ExactlyOnceDelivery(calls: seq<Call>, space: int)
    ensures var b, deeds := Run(NEW_BACKEND, calls), AllDeeds(calls);
            && (0 <= space <= 2 ==>
                  Delivered(NEW_BACKEND, calls, space) + WaitingAt(deeds, Carrier(space)) == SentAt(deeds, Carrier(space)))
            && b.generatedLen == (Total(b.pulled) + Total(b.out)) % SIZE
            && WaitingAt(deeds, 1) == SentAt(deeds, 1)
  {
    hide Run, Delivered, Lanes.Valid, TotalAccepted, TotalReleased, AllDeeds, Waiting, Sent;
    NewBackendValid();
    RunKeepsValid(NEW_BACKEND, calls);
    var b := Run(NEW_BACKEND, calls);
    forall l | 0 <= l < LEVELS ensures b.pulled.At(l) + b.out.At(l) == b.sent.At(l) { assert ValidLevel(b, l); }
    SplitTotals(b.pulled, b.out, b.sent);
    if SpaceLevel(space).Some? {
      DeliveredIsPulled(NEW_BACKEND, calls, space);
      assert [] + Delivered(NEW_BACKEND, calls, space) == Delivered(NEW_BACKEND, calls, space);
    }
    assert b.pulled.At(1) + b.out.At(1) == b.out.At(1);
    OutputIsTold(calls, 1);
    if 0 <= space <= 2 {
      OutputIsTold(calls, Carrier(space));
    }
  }

  lemma OutputIsTold(calls: seq<Call>, l: nat)
    requires l < LEVELS
    ensures var b, deeds := Run(NEW_BACKEND, calls), AllDeeds(calls);
            b.out.At(l) == WaitingAt(deeds, l) && b.sent.At(l) == SentAt(deeds, l)
  {
    hide Run, AllDeeds, Waiting, Sent, LaneOf;
    BackendIsTold(calls);
    assert TellsLevel(Run(NEW_BACKEND, calls), AllDeeds(calls), l);
  }

  lemma SplitTotals(s: PerLevel<seq<byte>>, t: PerLevel<seq<byte>>, u: PerLevel<seq<byte>>)
    requires forall l :: 0 <= l < LEVELS ==> s.At(l) + t.At(l) == u.At(l)
    ensures Total(u) == Total(s) + Total(t)
  {
    assert s.At(0) + t.At(0) == u.At(0) && s.At(1) + t.At(1) == u.At(1);
    assert s.At(2) + t.At(2) == u.At(2) && s.At(3) + t.At(3) == u.At(3);
  }

  // ---- secrets ----

  /** The last secret yielded for a level and direction, going by the log alone. */
  function Latest(log: seq<Entry>, level: nat, direction: int): Option<seq<byte>>
  {
    if log == [] then None
    else
      var e := log[|log| - 1];
      if e.Yielded? && e.level == level && e.direction == direction then Some(e.secret)
      else Latest(log[..|log| - 1], level, direction)
  }

  /** The level's last log entry is a hand-over. */
  predicate Spent(log: seq<Entry>, level: nat)
  {
    log != [] &&
    var e := log[|log| - 1];
    if e.level == level then e.HandedOver? else Spent(log[..|log| - 1], level)
  }

  /** Every hand-over in the log gave out the latest secrets of both directions, re-armed since
      the previous one. */
  ghost predicate Legal(log: seq<Entry>)
  {
    log == [] ||
    (var before, e := log[..|log| - 1], log[|log| - 1];
     && Legal(before)
     && (e.HandedOver? ==>
           && Latest(before, e.level, WRITE_SECRET) == Some(e.local)
           && Latest(before, e.level, READ_SECRET) == Some(e.peer)
           && !Spent(before, e.level))
     && (e.Yielded? ==> |e.secret| == SECRET_LEN && (e.direction == WRITE_SECRET || e.direction == READ_SECRET)))
  }

  function FromLog(log: seq<Entry>, level: nat): Handover
  {
    Handover(Latest(log, level, WRITE_SECRET), Latest(log, level, READ_SECRET), Spent(log, level))
  }

  /** The flags and bytes the program keeps are a function of the log, and the log is legal. */
  ghost predicate Logged(b: Backend)
  {
    b.handshake == FromLog(b.log, HANDSHAKE_LEVEL) && b.oneRtt == FromLog(b.log, APPLICATION_LEVEL) && Legal(b.log)
  }

  /** What one more entry changes. */
  lemma LogGrows(log: seq<Entry>, e: Entry, level: nat, direction: int)
    ensures Latest(log + [e], level, direction) ==
              if e.Yielded? && e.level == level && e.direction == direction then Some(e.secret) else Latest(log, level, direction)
    ensures Spent(log + [e], level) == if e.level == level then e.HandedOver? else Spent(log, level)
  {
    assert (log + [e])[..|log + [e]| - 1] == log;
  }

  lemma YieldIsLegal(log: seq<Entry>, level: nat, direction: int, secret: seq<byte>)
    requires Legal(log) && |secret| == SECRET_LEN && (direction == WRITE_SECRET || direction == READ_SECRET)
    ensures Legal(log + [Yielded(level, direction, secret)])
  {
    var log' := log + [Yielded(level, direction, secret)];
    assert log'[..|log'| - 1] == log;
  }

  lemma FromGrownLog(log: seq<Entry>, level: nat, direction: int, secret: seq<byte>, at: nat)
    requires direction == WRITE_SECRET || direction == READ_SECRET
    ensures FromLog(log + [Yielded(level, direction, secret)], at) ==
              if at == level then Store(FromLog(log, at), direction, secret) else FromLog(log, at)
  {
    hide Latest, Spent;
    LogGrows(log, Yielded(level, direction, secret), at, WRITE_SECRET);
    LogGrows(log, Yielded(level, direction, secret), at, READ_SECRET);
  }

  lemma YieldKeepsLogged(b: Backend, level: nat, direction: int, secret: seq<byte>)
    requires Logged(b)
    ensures Logged(Yield(b, level, direction, secret).0)
  {
    hide FromLog, Legal, Store;
    if |secret| == SECRET_LEN && (direction == WRITE_SECRET || direction == READ_SECRET) {
      YieldIsLegal(b.log, level, direction, secret);
      FromGrownLog(b.log, level, direction, secret, HANDSHAKE_LEVEL);
      FromGrownLog(b.log, level, direction, secret, APPLICATION_LEVEL);
    }
  }

  lemma CallbackKeepsLogged(b: Backend, cb: Callback)
    requires Logged(b)
    ensures Logged(Handle(b, cb))
  {
    hide Latest, Spent, Legal, Yield;
    if cb.YieldSecret? {
      YieldKeepsLogged(b, cb.level, cb.direction, cb.secret);
    }
  }

  lemma {:induction false} ScriptKeepsLogged(b: Backend, script: seq<Callback>)
    requires Logged(b)
    ensures Logged(HandleAll(b, script))
    decreases |script|
  {
    hide Logged, Handle;
    if script != [] {
      CallbackKeepsLogged(b, script[0]);
      ScriptKeepsLogged(Handle(b, script[0]), script[1..]);
    }
  }

  /** A hand-over happens exactly when both directions have a secret and a yield came since the
      last hand-over; it gives out the latest local and peer secrets. */
  lemma PullSecretsReply(b: Backend, oneRtt: bool)
    requires Logged(b)
    ensures var r, level := PullSecretsCall(b, oneRtt), if oneRtt then APPLICATION_LEVEL else HANDSHAKE_LEVEL;
            && Logged(r.next)
            && (r.status == Ok <==>
                  && Latest(b.log, level, WRITE_SECRET).Some? && Latest(b.log, level, READ_SECRET).Some? && !Spent(b.log, level))
            && (r.status == Ok ==>
                  && r.written == Latest(b.log, level, WRITE_SECRET).value + Latest(b.log, level, READ_SECRET).value
                  && r.next.log == b.log + [HandedOver(level, Latest(b.log, level, WRITE_SECRET).value,
                                                       Latest(b.log, level, READ_SECRET).value)])
            && (r.status != Ok ==> r.next == b && r.status == Pending)
  {
    var b' := PullSecretsCall(b, oneRtt).next;
    if b'.log != b.log {
      assert b'.log[..|b'.log| - 1] == b.log;
    }
  }

  lemma StepKeepsLogged(b: Backend, call: Call)
    requires Logged(b)
    ensures Logged(Step(b, call).next)
  {
    hide Latest, Spent, Legal, Yield, PullSecretsCall, HandleAll;
    match call {
      case Pull(space, outLen, drive) => ScriptKeepsLogged(b, drive.script);
      case PullSecrets(oneRtt) => PullSecretsReply(b, oneRtt);
      case DebugYield(toOneRtt, direction, secret) =>
        YieldKeepsLogged(b, if toOneRtt then APPLICATION_LEVEL else HANDSHAKE_LEVEL, direction, secret);
      case _ =>
    }
  }

  lemma {:induction false} RunKeepsLogged(b: Backend, calls: seq<Call>)
    requires Logged(b)
    ensures Logged(Run(b, calls))
    decreases |calls|
  {
    hide Logged, Step;
    if calls != [] {
      StepKeepsLogged(b, calls[0]);
      RunKeepsLogged(Step(b, calls[0]).next, calls[1..]);
    }
  }

  lemma {:induction false} LegalPrefix(log: seq<Entry>, i: nat)
    requires Legal(log) && i <= |log|
    ensures Legal(log[..i])
    decreases |log|
  {
    if i == |log| {
      assert log[..i] == log;
    } else {
      LegalPrefix(log[..|log| - 1], i);
      assert log[..|log| - 1][..i] == log[..i];
    }
  }

  /** A level spent before position `i` stays spent up to `j` unless a yield of it comes between. */
  lemma {:induction false} SpentUntilYield(log: seq<Entry>, i: nat, j: nat, level: nat)
    requires i < j <= |log| && log[i].HandedOver? && log[i].level == level
    requires forall k :: i < k < j ==> !(log[k].Yielded? && log[k].level == level)
    ensures Spent(log[..j], level)
    decreases j
  {
    assert log[..j][..j - 1] == log[..j - 1];
    if log[j - 1].level != level {
      SpentUntilYield(log, i, j - 1, level);
    }
  }

  function HandOvers(log: seq<Entry>, level: nat): nat
  {
    if log == [] then 0
    else var e := log[|log| - 1];
         (if e.HandedOver? && e.level == level then 1 else 0) + HandOvers(log[..|log| - 1], level)
  }

  function Yields(log: seq<Entry>, level: nat): nat
  {
    if log == [] then 0
    else var e := log[|log| - 1];
         (if e.Yielded? && e.level == level then 1 else 0) + Yields(log[..|log| - 1], level)
  }

  lemma {:induction false} LatestNeedsYield(log: seq<Entry>, level: nat)
    ensures Latest(log, level, WRITE_SECRET).Some? || Latest(log, level, READ_SECRET).Some? ==> Yields(log, level) >= 1
    ensures Latest(log, level, WRITE_SECRET).Some? && Latest(log, level, READ_SECRET).Some? ==> Yields(log, level) >= 2
  {
    if log != [] {
      LatestNeedsYield(log[..|log| - 1], level);
    }
  }

  lemma {:induction false} CountedHandOvers(log: seq<Entry>, level: nat)
    requires Legal(log)
    ensures HandOvers(log, level) > 0 ==> HandOvers(log, level) + (if Spent(log, level) then 1 else 2) <= Yields(log, level)
  {
    if log != [] {
      var before := log[..|log| - 1];
      CountedHandOvers(before, level);
      LatestNeedsYield(before, level);
    }
  }

  lemma LogIsWhatHappened(calls: seq<Call>)
    ensures YieldsIn(Run(NEW_BACKEND, calls).log) == KeptYields(CallbacksOf(AllDeeds(calls)))
    ensures HandOversIn(Run(NEW_BACKEND, calls).log) == SecretReplies(NEW_BACKEND, calls)
  {
    hide Run, AllDeeds, SecretReplies;
    BackendIsTold(calls);
    HandOversAreReplies(NEW_BACKEND, calls);
    assert HandOversIn(NEW_BACKEND.log) + SecretReplies(NEW_BACKEND, calls) == SecretReplies(NEW_BACKEND, calls);
  }

  /** Secret hand-over over whole runs: each hand-over gave the latest accepted yield of either
      direction, none came before both, two hand-overs of a level have an accepted yield of it
      between them, and a nonzero number of hand-overs is at most the yields minus one. The log it
      speaks of is what happened: its yields are the usable secrets TLS brought, its hand-overs the
      OK secret pulls with what they wrote. */
  lemma SecretHandOver(calls: seq<Call>, level: nat)
    ensures var log := Run(NEW_BACKEND, calls).log;
            && (forall i :: 0 <= i < |log| && log[i].HandedOver? ==> Justified(log, i))
            && (forall i, j :: 0 <= i < j < |log| && log[i].HandedOver? && log[j].HandedOver? && log[i].level == log[j].level ==>
                  Rearmed(log, i, j))
            && (HandOvers(log, level) > 0 ==> HandOvers(log, level) <= Yields(log, level) - 1)
            && YieldsIn(log) == KeptYields(CallbacksOf(AllDeeds(calls)))
            && HandOversIn(log) == SecretReplies(NEW_BACKEND, calls)
  {
    hide Run, AllDeeds, SecretReplies;
    LogIsWhatHappened(calls);
    RunKeepsLogged(NEW_BACKEND, calls);
    var log := Run(NEW_BACKEND, calls).log;
    forall i | 0 <= i < |log| && log[i].HandedOver? ensures Justified(log, i) { HandOverJustified(log, i); }
    forall i, j | 0 <= i < j < |log| && log[i].HandedOver? && log[j].HandedOver? && log[i].level == log[j].level
      ensures Rearmed(log, i, j)
    {
      HandOversApart(log, i, j);
    }
    CountedHandOvers(log, level);
  }

  /** The level and bytes of each OK secret pull, in call order. */
  function SecretReplies(b: Backend, calls: seq<Call>): seq<(nat, seq<byte>)>
    decreases |calls|
  {
    if calls == [] then []
    else
      var r := Step(b, calls[0]);
      (if calls[0].PullSecrets? && r.status == Ok then [(if calls[0].oneRtt then 3 else 2, r.written)] else [])
      + SecretReplies(r.next, calls[1..])
  }

  function HandOversIn(log: seq<Entry>): seq<(nat, seq<byte>)>
  {
    if log == [] then []
    else
      var e := log[|log| - 1];
      HandOversIn(log[..|log| - 1]) + (if e.HandedOver? then [(e.level, e.local + e.peer)] else [])
  }

  lemma YieldHandsNothingOver(b: Backend, level: nat, direction: int, secret: seq<byte>)
    ensures HandOversIn(Yield(b, level, direction, secret).0.log) == HandOversIn(b.log)
  {
    Snoc(b.log, Yielded(level, direction, secret));
  }

  lemma CallbackHandsNothingOver(b: Backend, cb: Callback)
    ensures HandOversIn(Handle(b, cb).log) == HandOversIn(b.log)
  {
    hide HandOversIn, Yield;
    if cb.YieldSecret? {
      YieldHandsNothingOver(b, cb.level, cb.direction, cb.secret);
    }
  }

  lemma {:induction false} ScriptHandsNothingOver(b: Backend, script: seq<Callback>)
    ensures HandOversIn(HandleAll(b, script).log) == HandOversIn(b.log)
    decreases |script|
  {
    hide HandOversIn, Handle;
    if script != [] {
      CallbackHandsNothingOver(b, script[0]);
      ScriptHandsNothingOver(Handle(b, script[0]), script[1..]);
    }
  }

  lemma StepHandsOver(b: Backend, call: Call)
    ensures var r := Step(b, call);
            HandOversIn(r.next.log) == HandOversIn(b.log) +
              if call.PullSecrets? && r.status == Ok then [(if call.oneRtt then 3 else 2, r.written)] else []
  {
    hide HandOversIn, HandleAll, Yield;
    assert HandOversIn(b.log) + [] == HandOversIn(b.log);
    match call {
      case Pull(_, _, drive) => ScriptHandsNothingOver(b, drive.script);
      case PullSecrets(oneRtt) => PullHandsOver(b, oneRtt);
      case DebugYield(toOneRtt, direction, secret) => YieldHandsNothingOver(b, if toOneRtt then 3 else 2, direction, secret);
      case _ =>
    }
  }

  lemma PullHandsOver(b: Backend, oneRtt: bool)
    ensures var r := PullSecretsCall(b, oneRtt);
            HandOversIn(r.next.log) == HandOversIn(b.log) + if r.status == Ok then [(if oneRtt then 3 else 2, r.written)] else []
  {
    var h := if oneRtt then b.oneRtt else b.handshake;
    if PullSecretsCall(b, oneRtt).status == Ok {
      Snoc(b.log, HandedOver(if oneRtt then 3 else 2, h.local.value, h.peer.value));
    }
  }

  /** The hand-overs in the log are exactly the OK secret pulls, in order, with what each wrote. */
  lemma {:induction false} HandOversAreReplies(b: Backend, calls: seq<Call>)
    ensures HandOversIn(Run(b, calls).log) == HandOversIn(b.log) + SecretReplies(b, calls)
    decreases |calls|
  {
    hide Step, HandOversIn;
    if calls == [] {
      assert HandOversIn(b.log) + [] == HandOversIn(b.log);
    } else {
      StepHandsOver(b, calls[0]);
      HandOversAreReplies(Step(b, calls[0]).next, calls[1..]);
    }
  }

  ghost predicate Justified(log: seq<Entry>, i: nat)
    requires i < |log| && log[i].HandedOver?
  {
    && Latest(log[..i], log[i].level, WRITE_SECRET) == Some(log[i].local)
    && Latest(log[..i], log[i].level, READ_SECRET) == Some(log[i].peer)
  }

  ghost predicate Rearmed(log: seq<Entry>, i: nat, j: nat)
    requires i < j < |log|
  {
    exists k :: i < k < j && log[k].Yielded? && log[k].level == log[i].level
  }

  lemma HandOverJustified(log: seq<Entry>, i: nat)
    requires Legal(log) && i < |log| && log[i].HandedOver?
    ensures Justified(log, i)
  {
    LegalPrefix(log, i + 1);
    assert log[..i + 1][..i] == log[..i];
  }

  lemma HandOversApart(log: seq<Entry>, i: nat, j: nat)
    requires Legal(log) && i < j < |log| && log[i].HandedOver? && log[j].HandedOver? && log[i].level == log[j].level
    ensures Rearmed(log, i, j)
  {
    LegalPrefix(log, j + 1);
    assert log[..j + 1][..j] == log[..j];
    if !Rearmed(log, i, j) {
      SpentUntilYield(log, i, j, log[i].level);
    }
  }

  // ---- transport parameters ----

  predicate Silent(script: seq<Callback>)
  {
    forall i :: 0 <= i < |script| ==> !Announces(script[i])
  }

  lemma {:induction false} HandleAllSnoc(b: Backend, script: seq<Callback>)
    requires script != []
    ensures HandleAll(b, script) == Handle(HandleAll(b, script[..|script| - 1]), script[|script| - 1])
    decreases |script|
  {
    hide Handle;
    if |script| == 1 {
      assert script[1..] == [] && script[..0] == [];
      assert HandleAll(Handle(b, script[0]), script[1..]) == Handle(b, script[0]);
    } else {
      HandleAllSnoc(Handle(b, script[0]), script[1..]);
      assert script[1..][..|script| - 2] == script[..|script| - 1][1..];
    }
  }

  lemma CallbackParams(b: Backend, cb: Callback)
    ensures Handle(b, cb).params == if Announces(cb) then Some(cb.params) else b.params
    ensures Handle(b, cb).paramsSent == (!Announces(cb) && b.paramsSent)
  {
    hide SendCrypto, ReceiveRecord, ReleaseRecord;
    KeysElsewhere(b, cb);
  }

  lemma {:induction false} ScriptParams(b: Backend, script: seq<Callback>)
    ensures HandleAll(b, script).params == Announced(b.params, script)
    ensures HandleAll(b, script).paramsSent == (Silent(script) && b.paramsSent)
    decreases |script|
  {
    hide Handle, HandleAll;
    if script == [] {
      assert HandleAll(b, []) == b by { NothingHandled(b); }
    } else {
      var before := script[..|script| - 1];
      ScriptParams(b, before);
      HandleAllSnoc(b, script);
      CallbackParams(HandleAll(b, before), script[|script| - 1]);
      assert Silent(script) <==> Silent(before) && !Announces(script[|script| - 1]);
    }
  }

  lemma NothingHandled(b: Backend)
    ensures HandleAll(b, []) == b
  {
  }

  /** The call may bring new peer parameters. */
  predicate Reannounces(call: Call)
  {
    (call.Pull? && !Silent(call.drive.script)) || (call.DebugParams? && |call.params| <= PARAMS_CAPACITY)
  }

  lemma StepParams(b: Backend, call: Call)
    requires !Reannounces(call)
    ensures var r := Step(b, call);
            && r.next.params == b.params
            && r.next.paramsSent == (b.paramsSent || (call.PullParams? && r.status == Ok))
            && (call.PullParams? ==> (r.status == Ok <==> b.params.Some? && !b.paramsSent && |b.params.value| <= call.outLen))
            && (call.PullParams? && r.status == Ok ==> r.written == b.params.value)
  {
    hide HandleAll;
    if call.Pull? {
      ScriptParams(b, call.drive.script);
      SilentAnnouncesNothing(b.params, call.drive.script);
    }
  }

  lemma {:induction false} SilentAnnouncesNothing(before: Option<seq<byte>>, script: seq<Callback>)
    requires Silent(script)
    ensures Announced(before, script) == before
    decreases |script|
  {
    if script != [] {
      SilentAnnouncesNothing(before, script[..|script| - 1]);
    }
  }

  /** OK parameter pulls among some calls. */
  function ParamsPulls(b: Backend, calls: seq<Call>): nat
    decreases |calls|
  {
    if calls == [] then 0
    else var r := Step(b, calls[0]);
         (if calls[0].PullParams? && r.status == Ok then 1 else 0) + ParamsPulls(r.next, calls[1..])
  }

  /** Between two announcements the peer's parameters are handed over at most once, and not at all
      if they already were; a large enough pull does hand them over, byte for byte. */
  lemma {:induction false} ParamsHandedOverOnce(b: Backend, calls: seq<Call>)
    requires forall i :: 0 <= i < |calls| ==> !Reannounces(calls[i])
    ensures ParamsPulls(b, calls) <= if b.paramsSent || b.params.None? then 0 else 1
    ensures b.params.Some? && (exists i :: 0 <= i < |calls| && calls[i].PullParams? && |b.params.value| <= calls[i].outLen) ==>
              Run(b, calls).paramsSent
    ensures Run(b, calls).params == b.params && (b.paramsSent ==> Run(b, calls).paramsSent)
    decreases |calls|
  {
    hide Step;
    if calls != [] {
      StepParams(b, calls[0]);
      ParamsHandedOverOnce(Step(b, calls[0]).next, calls[1..]);
      assert forall i :: 0 < i < |calls| ==> calls[i] == calls[1..][i - 1];
    }
  }
}
