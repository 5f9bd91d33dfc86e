/** The burst-dropping packet connection: any number of readers share one counter and decide,
    by compare-and-swap, whose datagram is dropped next. */
module Dropper {
  import opened Streams

  type Datagram = seq<byte>

  /** droppedCount is a 32-bit unsigned integer. */
  const WIDTH: nat := 0x1_0000_0000

  /** Where a reader is in its loop, and the datagram in its hands. `Loaded` remembers the counter
      value it will try to swap. */
  datatype PC = Reading | Examining(packet: Datagram) | SawEnabled(packet: Datagram) | Loaded(packet: Datagram, seen: nat)

  /** `read`, `delivered` and `dropped` are the reader's history. */
  datatype Reader = Reader(pc: PC, read: seq<Datagram>, delivered: seq<Datagram>, dropped: seq<Datagram>)

  datatype State = State(enabled: bool, count: nat, limit: nat, readers: seq<Reader>)

  /** One atomic action: the other goroutine enabling drops, or one reader's next step. */
  datatype Action =
    | Enable
    | Read(t: nat, packet: Datagram)
    | ReadError(t: nat)
    | LoadEnabled(t: nat)
    | LoadCount(t: nat)
    | Swap(t: nat)

  predicate By(a: Action, t: nat) { !a.Enable? && a.t == t }

  predicate Possible(s: State, a: Action)
  {
    a.Enable? ||
    (a.t < |s.readers| &&
     var pc := s.readers[a.t].pc;
     match a
     case Read(_, _) => pc.Reading?
     case ReadError(_) => pc.Reading?
     case LoadEnabled(_) => pc.Examining?
     case LoadCount(_) => pc.SawEnabled?
     case Swap(_) => pc.Loaded?
     case Enable => true)
  }

  function Deliver(r: Reader, packet: Datagram): Reader
  {
    r.(pc := Reading, delivered := r.delivered + [packet])
  }

  predicate SwapWins(s: State, a: Action)
    requires Possible(s, a)
  {
    a.Swap? && s.readers[a.t].pc.seen == s.count
  }

  function Next(s: State, a: Action): State
    requires Possible(s, a)
  {
    match a
    case Enable => s.(enabled := true)
    case Read(t, packet) =>
      var r := s.readers[t]; s.(readers := s.readers[t := r.(pc := Examining(packet), read := r.read + [packet])])
    case ReadError(t) => s
    case LoadEnabled(t) =>
      var r := s.readers[t];
      s.(readers := s.readers[t := if s.enabled then r.(pc := SawEnabled(r.pc.packet)) else Deliver(r, r.pc.packet)])
    case LoadCount(t) =>
      var r := s.readers[t];
      s.(readers := s.readers[t := if s.count < s.limit then r.(pc := Loaded(r.pc.packet, s.count)) else Deliver(r, r.pc.packet)])
    case Swap(t) =>
      var r := s.readers[t];
      if r.pc.seen == s.count
      then s.(count := (r.pc.seen + 1) % WIDTH,
              readers := s.readers[t := r.(pc := Reading, dropped := r.dropped + [r.pc.packet])])
      else s.(readers := s.readers[t := Deliver(r, r.pc.packet)])
  }

  ghost predicate Trace(s: State, actions: seq<Action>)
    decreases |actions|
  {
    actions == [] || (Possible(s, actions[0]) && Trace(Next(s, actions[0]), actions[1..]))
  }

  ghost function After(s: State, actions: seq<Action>): State
    requires Trace(s, actions)
    decreases |actions|
  {
    if actions == [] then s else After(Next(s, actions[0]), actions[1..])
  }

  function Fresh(n: nat): (r: seq<Reader>)
    ensures |r| == n && forall i :: 0 <= i < n ==> r[i] == Reader(Reading, [], [], [])
  {
    seq(n, i => Reader(Reading, [], [], []))
  }

  function Start(n: nat, limit: nat, enabled: bool): State { State(enabled, 0, limit, Fresh(n)) }

  // ---- safety ----

  ghost function Dropped(readers: seq<Reader>): nat
  {
    if readers == [] then 0 else |readers[0].dropped| + Dropped(readers[1..])
  }

  lemma {:induction false} DroppedUpdate(readers: seq<Reader>, t: nat, r: Reader)
    requires t < |readers|
    ensures Dropped(readers[t := r]) == Dropped(readers) - |readers[t].dropped| + |r.dropped|
    decreases |readers|
  {
    if t == 0 {
      assert readers[t := r][1..] == readers[1..];
    } else {
      DroppedUpdate(readers[1..], t - 1, r);
      assert readers[t := r][1..] == readers[1..][t - 1 := r];
    }
  }

  lemma {:induction false} DroppedFresh(n: nat)
    ensures Dropped(Fresh(n)) == 0
  {
    if n > 0 {
      DroppedFresh(n - 1);
      assert Fresh(n)[1..] == Fresh(n - 1);
    }
  }

  /** Every datagram a reader took was delivered, dropped, or is in its hands, in order. */
  ghost predicate Settled(r: Reader)
  {
    if r.pc.Reading? then Interleaves(r.read, r.delivered, r.dropped)
    else r.read != [] && r.read[|r.read| - 1] == r.pc.packet
         && Interleaves(r.read[..|r.read| - 1], r.delivered, r.dropped)
  }

  ghost predicate Valid(s: State)
  {
    && s.count == Dropped(s.readers) <= s.limit < WIDTH
    && (forall t :: 0 <= t < |s.readers| ==> Settled(s.readers[t]))
    && (forall t :: 0 <= t < |s.readers| && s.readers[t].pc.Loaded? ==> s.readers[t].pc.seen < s.limit)
  }

  lemma PacketSettled(r: Reader)
    requires Settled(r) && !r.pc.Reading?
    ensures Settled(Deliver(r, r.pc.packet))
    ensures Settled(r.(pc := Reading, dropped := r.dropped + [r.pc.packet]))
  {
    var n := |r.read| - 1;
    assert r.read == r.read[..n] + [r.pc.packet];
    KeepOne(r.read[..n], r.delivered, r.dropped, r.pc.packet);
    LoseOne(r.read[..n], r.delivered, r.dropped, r.pc.packet);
  }

  /** The one reader that moves stays settled, and the counter follows its drops. */
  lemma MoverStaysSettled(s: State, a: Action)
    requires Valid(s) && Possible(s, a) && !a.Enable?
    ensures var s', r, r' := Next(s, a), s.readers[a.t], Next(s, a).readers[a.t];
            && s'.readers == s.readers[a.t := r'] && s'.limit == s.limit
            && Settled(r') && (r'.pc.Loaded? ==> r'.pc.seen < s.limit)
            && s'.count - s.count == |r'.dropped| - |r.dropped| && s'.count <= s.limit
  {
    hide Interleaves, Dropped;
    var r, r' := s.readers[a.t], Next(s, a).readers[a.t];
    assert Settled(r);
    if a.Read? {
      assert r'.read[..|r'.read| - 1] == r.read;
    } else if !a.ReadError? {
      PacketSettled(r);
    }
  }

  lemma NextKeepsValid(s: State, a: Action)
    requires Valid(s) && Possible(s, a)
    ensures Valid(Next(s, a)) && Next(s, a).limit == s.limit && |Next(s, a).readers| == |s.readers|
  {
    hide Settled, Dropped;
    if !a.Enable? {
      MoverStaysSettled(s, a);
      DroppedUpdate(s.readers, a.t, Next(s, a).readers[a.t]);
    }
  }

  lemma {:induction false} AfterKeepsValid(s: State, actions: seq<Action>)
    requires Valid(s) && Trace(s, actions)
    ensures Valid(After(s, actions)) && After(s, actions).limit == s.limit && |After(s, actions).readers| == |s.readers|
    decreases |actions|
  {
    if actions != [] {
      NextKeepsValid(s, actions[0]);
      AfterKeepsValid(Next(s, actions[0]), actions[1..]);
    }
  }

  /** For any number of readers and any interleaving: the counter is the number of discarded
      datagrams, it never passes the limit, and each reader's datagrams are delivered and dropped
      in the order it read them, each once. */
  lemma ConcurrentSafety(n: nat, limit: nat, enabled: bool, actions: seq<Action>)
    requires limit < WIDTH && Trace(Start(n, limit, enabled), actions)
    ensures var s := After(Start(n, limit, enabled), actions);
            && s.count == Dropped(s.readers) <= limit
            && |s.readers| == n && forall t :: 0 <= t < n ==> Settled(s.readers[t])
  {
    DroppedFresh(n);
    AfterKeepsValid(Start(n, limit, enabled), actions);
  }

  // ---- losing a race ----

  /** A successful swap of some reader other than `t` among the first `m` actions. */
  ghost predicate Overtaken(s: State, actions: seq<Action>, m: nat, t: nat)
    requires Trace(s, actions) && m <= |actions|
  {
    exists k :: 0 <= k < m && WinsAt(s, actions, k) && !By(actions[k], t)
  }

  ghost predicate WinsAt(s: State, actions: seq<Action>, k: nat)
    requires Trace(s, actions) && k < |actions|
  {
    TraceSplits(s, actions, k);
    SwapWins(After(s, actions[..k]), actions[k])
  }

  lemma {:induction false} TraceSplits(s: State, actions: seq<Action>, k: nat)
    requires Trace(s, actions) && k <= |actions|
    ensures Trace(s, actions[..k]) && Trace(After(s, actions[..k]), actions[k..])
    ensures k < |actions| ==> Possible(After(s, actions[..k]), actions[k])
    decreases k
  {
    if k == 0 {
      assert actions[..0] == [] && actions[0..] == actions;
    } else {
      TraceSplits(Next(s, actions[0]), actions[1..], k - 1);
      assert actions[..k][1..] == actions[1..][..k - 1];
      assert actions[1..][k - 1..] == actions[k..];
    }
  }

  /** While `t` does not move, either somebody wins a swap or `t` and the count stand still. */
  lemma {:induction false} OvertakenOrStill(s: State, actions: seq<Action>, t: nat)
    requires Trace(s, actions) && t < |s.readers|
    requires forall k :: 0 <= k < |actions| ==> !By(actions[k], t)
    ensures || Overtaken(s, actions, |actions|, t)
            || (var s' := After(s, actions); s'.count == s.count && t < |s'.readers| && s'.readers[t] == s.readers[t])
    decreases |actions|
  {
    if actions != [] {
      var s1, rest := Next(s, actions[0]), actions[1..];
      OvertakenOrStill(s1, rest, t);
      if SwapWins(s, actions[0]) {
        assert actions[..0] == [];
        assert WinsAt(s, actions, 0) && !By(actions[0], t);
      } else if Overtaken(s1, rest, |rest|, t) {
        var k :| 0 <= k < |rest| && WinsAt(s1, rest, k) && !By(rest[k], t);
        TraceSplits(s1, rest, k);
        TraceSplits(s, actions, k + 1);
        assert actions[..k + 1][1..] == rest[..k];
        assert WinsAt(s, actions, k + 1);
      }
    }
  }

  /** A datagram delivered by a reader that saw dropping enabled and the count below the limit
      lost a race: between its load and its failed swap another reader's swap succeeded. */
  lemma LostRace(s: State, actions: seq<Action>, t: nat)
    requires t < |s.readers| && s.readers[t].pc.SawEnabled? && s.count < s.limit
    requires Possible(s, LoadCount(t))
    requires Trace(Next(s, LoadCount(t)), actions)
    requires forall k :: 0 <= k < |actions| ==> !By(actions[k], t)
    requires var s' := After(Next(s, LoadCount(t)), actions);
             Possible(s', Swap(t)) && !SwapWins(s', Swap(t))
    ensures Overtaken(Next(s, LoadCount(t)), actions, |actions|, t)
  {
    OvertakenOrStill(Next(s, LoadCount(t)), actions, t);
  }

  // ---- one reader ----

  /** What the underlying read yields: an error, or a datagram together with the value of
      droppingEnabled when this datagram is examined. */
  datatype Outcome = Failed | Got(packet: Datagram, enabled: bool)

  /** How one ReadFrom ends: with an error, with a datagram, or still waiting for input. */
  datatype Result = Error | Packet(packet: Datagram) | Blocked

  predicate Drops(o: Outcome, count: nat, limit: nat) { o.Got? && o.enabled && count < limit }

  /** The outcomes used up by one ReadFrom, its result and the counter after it. */
  function ReadOne(count: nat, limit: nat, input: seq<Outcome>): (r: (nat, Result, nat))
    ensures r.0 <= |input| && (r.1.Blocked? ==> r.0 == |input|) && (!r.1.Blocked? ==> r.0 > 0)
    ensures count <= limit ==> r.0 <= limit - count + 1 && count <= r.2 <= limit
    decreases |input|
  {
    if input == [] then (0, Blocked, count)
    else if Drops(input[0], count, limit) then
      var (n, result, c) := ReadOne(count + 1, limit, input[1..]); (n + 1, result, c)
    else (1, if input[0].Failed? then Error else Packet(input[0].packet), count)
  }

  /** Everything repeated ReadFrom calls deliver from an input. */
  function ReadAll(count: nat, limit: nat, input: seq<Outcome>): seq<Datagram>
    decreases |input|
  {
    var (n, result, c) := ReadOne(count, limit, input);
    if result.Blocked? then []
    else (if result.Packet? then [result.packet] else []) + ReadAll(c, limit, input[n..])
  }

  function Datagrams(input: seq<Outcome>): seq<Datagram>
  {
    if input == [] then []
    else (if input[0].Got? then [input[0].packet] else []) + Datagrams(input[1..])
  }

  function Min(a: nat, b: nat): nat { if a < b then a else b }

  /** One outcome at a time: a dropped one leaves no trace but the counter. */
  lemma ReadAllStep(count: nat, limit: nat, input: seq<Outcome>)
    requires input != []
    ensures ReadAll(count, limit, input) ==
            if Drops(input[0], count, limit) then ReadAll(count + 1, limit, input[1..])
            else (if input[0].Got? then [input[0].packet] else []) + ReadAll(count, limit, input[1..])
  {
    var (n, result, c) := ReadOne(count, limit, input);
    if Drops(input[0], count, limit) {
      assert n > 0;
      assert input[1..][n - 1..] == input[n..];
    }
  }

  lemma {:induction false} AfterEnabling(count: nat, limit: nat, input: seq<Outcome>)
    requires count <= limit && forall i :: 0 <= i < |input| && input[i].Got? ==> input[i].enabled
    ensures ReadAll(count, limit, input) == Datagrams(input)[Min(limit - count, |Datagrams(input)|)..]
    decreases |input|
  {
    if input != [] {
      ReadAllStep(count, limit, input);
      AfterEnabling(if Drops(input[0], count, limit) then count + 1 else count, limit, input[1..]);
    }
  }

  /** Single-reader law: whenever enabling happens, what is delivered is everything read before it
      and everything read after it except exactly the first `limit` datagrams (fewer only when
      fewer arrive). */
  lemma {:induction false} BurstLaw(limit: nat, before: seq<Outcome>, after: seq<Outcome>)
    requires forall i :: 0 <= i < |before| && before[i].Got? ==> !before[i].enabled
    requires forall i :: 0 <= i < |after| && after[i].Got? ==> after[i].enabled
    ensures ReadAll(0, limit, before + after)
            == Datagrams(before) + Datagrams(after)[Min(limit, |Datagrams(after)|)..]
    decreases |before|
  {
    if before == [] {
      assert before + after == after;
      AfterEnabling(0, limit, after);
    } else {
      assert (before + after)[1..] == before[1..] + after;
      ReadAllStep(0, limit, before + after);
      BurstLaw(limit, before[1..], after);
    }
  }

  // ---- dropping only after enabling ----

  /** Dropping has been enabled by the end of some actions. */
  predicate Enabled(start: bool, actions: seq<Action>)
  {
    start || Enable in actions
  }

  lemma AfterSnoc(s: State, actions: seq<Action>)
    requires Trace(s, actions) && actions != []
    ensures var before, a := actions[..|actions| - 1], actions[|actions| - 1];
            Trace(s, before) && Possible(After(s, before), a) && After(s, actions) == Next(After(s, before), a)
  {
    var m := |actions| - 1;
    TraceSplits(s, actions, m);
    AfterSplits(s, actions, m);
    assert actions[m..][1..] == [];
    assert After(Next(After(s, actions[..m]), actions[m]), []) == Next(After(s, actions[..m]), actions[m]);
  }

  lemma {:induction false} AfterSplits(s: State, actions: seq<Action>, k: nat)
    requires Trace(s, actions) && k <= |actions| && Trace(s, actions[..k]) && Trace(After(s, actions[..k]), actions[k..])
    ensures After(s, actions) == After(After(s, actions[..k]), actions[k..])
    decreases k
  {
    hide Next, Possible;
    if k == 0 {
      assert actions[..0] == [] && actions[0..] == actions;
    } else {
      var first, rest := actions[..k], actions[1..];
      assert first[0] == actions[0] && first[1..] == rest[..k - 1] && rest[k - 1..] == actions[k..];
      assert After(s, first) == After(Next(s, actions[0]), rest[..k - 1]);
      AfterSplits(Next(s, actions[0]), rest, k - 1);
    }
  }

  lemma {:induction false} EnabledIsTold(s: State, actions: seq<Action>)
    requires Trace(s, actions)
    ensures After(s, actions).enabled == Enabled(s.enabled, actions)
    decreases |actions|
  {
    if actions != [] {
      EnabledIsTold(Next(s, actions[0]), actions[1..]);
      assert actions == [actions[0]] + actions[1..];
    }
  }

  /** A reader that examines a datagram hands it on at once exactly when dropping has not been enabled
      by then. */
  lemma ExaminedWhen(s: State, actions: seq<Action>, t: nat)
    requires Trace(s, actions) && Possible(After(s, actions), LoadEnabled(t))
    ensures var r, r' := After(s, actions).readers[t], Next(After(s, actions), LoadEnabled(t)).readers[t];
            && (!Enabled(s.enabled, actions) <==> r'.delivered == r.delivered + [r.pc.packet])
            && (Enabled(s.enabled, actions) ==> r'.pc == SawEnabled(r.pc.packet))
  {
    EnabledIsTold(s, actions);
  }

  /** Where the reader's present datagram was examined and found dropping enabled: after an Enable,
      and with no read of the reader since. */
  ghost predicate ExaminedAt(actions: seq<Action>, t: nat, i: nat)
  {
    && i < |actions| && actions[i] == LoadEnabled(t) && Enable in actions[..i]
    && forall k :: i < k < |actions| ==> !(actions[k].Read? && actions[k].t == t)
  }

  lemma ExaminedStays(actions: seq<Action>, a: Action, t: nat, i: nat)
    requires ExaminedAt(actions, t, i) && !(a.Read? && a.t == t)
    ensures ExaminedAt(actions + [a], t, i)
  {
    assert (actions + [a])[..i] == actions[..i];
  }

  /** A reader that got past the examination did so after an Enable. */
  lemma {:induction false} PastExamination(s: State, actions: seq<Action>, t: nat)
    requires !s.enabled && Trace(s, actions) && t < |s.readers| && s.readers[t].pc.Reading?
    ensures |After(s, actions).readers| == |s.readers|
    ensures After(s, actions).readers[t].pc.SawEnabled? || After(s, actions).readers[t].pc.Loaded? ==>
              exists i :: ExaminedAt(actions, t, i)
    decreases |actions|
  {
    if actions != [] {
      var before, a := actions[..|actions| - 1], actions[|actions| - 1];
      AfterSnoc(s, actions);
      PastExamination(s, before, t);
      assert actions == before + [a];
      EnabledIsTold(s, before);
      if i :| ExaminedAt(before, t, i) && !(a.Read? && a.t == t) {
        ExaminedStays(before, a, t, i);
      }
      if a == LoadEnabled(t) && Enable in before {
        assert actions[..|before|] == before;
        assert ExaminedAt(actions, t, |before|);
      }
    }
  }

  /** A datagram is dropped only if its reader examined it after dropping was enabled. */
  lemma DropNeedsEnable(n: nat, limit: nat, actions: seq<Action>, k: nat)
    requires Trace(Start(n, limit, false), actions) && k < |actions| && WinsAt(Start(n, limit, false), actions, k)
    ensures exists i :: ExaminedAt(actions[..k], actions[k].t, i)
  {
    TraceSplits(Start(n, limit, false), actions, k);
    SameReaders(Start(n, limit, false), actions[..k]);
    PastExamination(Start(n, limit, false), actions[..k], actions[k].t);
  }

  lemma {:induction false} SameReaders(s: State, actions: seq<Action>)
    requires Trace(s, actions)
    ensures |After(s, actions).readers| == |s.readers|
    decreases |actions|
  {
    if actions != [] {
      SameReaders(Next(s, actions[0]), actions[1..]);
    }
  }

  /** While nobody enables dropping nothing is dropped, and everything a reader has settled it has
      delivered, in order. */
  lemma {:induction false} NothingDroppedBefore(n: nat, limit: nat, actions: seq<Action>, t: nat)
    requires Trace(Start(n, limit, false), actions) && Enable !in actions && t < n
    ensures var s := After(Start(n, limit, false), actions);
            && s.count == 0 && |s.readers| == n
            && var r := s.readers[t];
               && r.dropped == [] && (r.pc.Reading? || r.pc.Examining?)
               && r.read == r.delivered + (if r.pc.Examining? then [r.pc.packet] else [])
    decreases |actions|
  {
    var start := Start(n, limit, false);
    if actions != [] {
      var before, a := actions[..|actions| - 1], actions[|actions| - 1];
      AfterSnoc(start, actions);
      NothingDroppedBefore(n, limit, before, t);
      EnabledIsTold(start, before);
      if !a.Enable? && a.t < n {
        NothingDroppedBefore(n, limit, before, a.t);
      }
    }
  }

  // ---- one reader of the concurrent system ----

  /** The datagram last read. */
  function LastRead(actions: seq<Action>): Datagram
  {
    if actions == [] then []
    else if actions[|actions| - 1].Read? then actions[|actions| - 1].packet
    else LastRead(actions[..|actions| - 1])
  }

  /** What a lone reader got from the network, with the enabling moments: each datagram at its
      examination, each failed read. */
  function Outcomes(start: bool, actions: seq<Action>): seq<Outcome>
  {
    if actions == [] then []
    else
      var before, a := actions[..|actions| - 1], actions[|actions| - 1];
      Outcomes(start, before) +
      (if a.LoadEnabled? then [Got(LastRead(before), Enabled(start, before))]
       else if a.ReadError? then [Failed]
       else [])
  }

  /** The counter after some outcomes. */
  function CountAfter(count: nat, limit: nat, input: seq<Outcome>): nat
    decreases |input|
  {
    if input == [] then count
    else CountAfter(if Drops(input[0], count, limit) then count + 1 else count, limit, input[1..])
  }

  lemma {:induction false} ReadAllSnoc(count: nat, limit: nat, input: seq<Outcome>, o: Outcome)
    ensures var c := CountAfter(count, limit, input);
            && CountAfter(count, limit, input + [o]) == (if Drops(o, c, limit) then c + 1 else c)
            && ReadAll(count, limit, input + [o])
               == ReadAll(count, limit, input) + (if o.Got? && !Drops(o, c, limit) then [o.packet] else [])
    decreases |input|
  {
    hide ReadAll;
    ReadAllStep(count, limit, input + [o]);
    if input == [] {
      assert input + [o] == [o] && [o][1..] == [];
      NothingRead(count, limit);
      NothingRead(count + 1, limit);
    } else {
      assert (input + [o])[1..] == input[1..] + [o];
      ReadAllStep(count, limit, input);
      ReadAllSnoc(if Drops(input[0], count, limit) then count + 1 else count, limit, input[1..], o);
    }
  }

  lemma NothingRead(count: nat, limit: nat)
    ensures ReadAll(count, limit, []) == []
  {
  }

  /** The lone reader, given its outcomes: a datagram past its examination is not settled yet. */
  ghost predicate Alone(s: State, limit: nat, outcomes: seq<Outcome>, held: Datagram)
  {
    && |s.readers| == 1 && s.limit == limit < WIDTH
    && var r := s.readers[0];
       && (!r.pc.Reading? ==> r.pc.packet == held)
       && if r.pc.SawEnabled? || r.pc.Loaded? then
            && outcomes != [] && outcomes[|outcomes| - 1] == Got(held, true)
            && s.count == CountAfter(0, limit, outcomes[..|outcomes| - 1])
            && r.delivered == ReadAll(0, limit, outcomes[..|outcomes| - 1])
            && (r.pc.Loaded? ==> r.pc.seen == s.count < limit)
          else
            s.count == CountAfter(0, limit, outcomes) && r.delivered == ReadAll(0, limit, outcomes)
  }

  /** What one more action changes in the outcomes and in the datagram held. */
  lemma OutcomesGrow(start: bool, before: seq<Action>, a: Action)
    ensures Outcomes(start, before + [a]) == Outcomes(start, before) +
              if a.LoadEnabled? then [Got(LastRead(before), Enabled(start, before))] else if a.ReadError? then [Failed] else []
    ensures LastRead(before + [a]) == if a.Read? then a.packet else LastRead(before)
  {
    assert (before + [a])[..|before|] == before;
  }

  /** A decision settles the last outcome: dropped below the limit, delivered at it. */
  lemma AloneDecides(s: State, limit: nat, os: seq<Outcome>, held: Datagram, a: Action)
    requires Possible(s, a) && Alone(s, limit, os, held) && (a.LoadCount? || a.Swap?)
    ensures Alone(Next(s, a), limit, os, held)
  {
    hide ReadAll, CountAfter;
    assert os == os[..|os| - 1] + [os[|os| - 1]];
    ReadAllSnoc(0, limit, os[..|os| - 1], os[|os| - 1]);
  }

  lemma AloneExamines(s: State, limit: nat, os: seq<Outcome>, held: Datagram, a: Action)
    requires Possible(s, a) && Alone(s, limit, os, held) && a.LoadEnabled?
    ensures Alone(Next(s, a), limit, os + [Got(held, s.enabled)], held)
  {
    hide ReadAll, CountAfter;
    ReadAllSnoc(0, limit, os, Got(held, false));
    assert (os + [Got(held, true)])[..|os|] == os;
  }

  lemma AloneReads(s: State, limit: nat, os: seq<Outcome>, held: Datagram, a: Action)
    requires Possible(s, a) && Alone(s, limit, os, held)
    ensures a.Enable? ==> Alone(Next(s, a), limit, os, held)
    ensures a.Read? ==> Alone(Next(s, a), limit, os, a.packet)
    ensures a.ReadError? ==> Alone(Next(s, a), limit, os + [Failed], held)
  {
    hide ReadAll, CountAfter;
    ReadAllSnoc(0, limit, os, Failed);
  }

  lemma AloneNext(s: State, limit: nat, start: bool, before: seq<Action>, a: Action)
    requires Possible(s, a) && s.enabled == Enabled(start, before)
    requires Alone(s, limit, Outcomes(start, before), LastRead(before))
    ensures Alone(Next(s, a), limit, Outcomes(start, before + [a]), LastRead(before + [a]))
  {
    hide Alone, Next, Outcomes, LastRead, Enabled;
    var os, held := Outcomes(start, before), LastRead(before);
    OutcomesGrow(start, before, a);
    assert os + [] == os;
    match a {
      case LoadEnabled(_) => AloneExamines(s, limit, os, held, a);
      case LoadCount(_) => AloneDecides(s, limit, os, held, a);
      case Swap(_) => AloneDecides(s, limit, os, held, a);
      case _ => AloneReads(s, limit, os, held, a);
    }
  }

  lemma {:induction false} AloneAlways(limit: nat, start: bool, actions: seq<Action>)
    requires limit < WIDTH && Trace(Start(1, limit, start), actions)
    ensures Alone(After(Start(1, limit, start), actions), limit, Outcomes(start, actions), LastRead(actions))
    decreases |actions|
  {
    hide Alone;
    if actions == [] {
      AloneAtStart(limit, start);
    } else {
      var before, a := actions[..|actions| - 1], actions[|actions| - 1];
      AfterSnoc(Start(1, limit, start), actions);
      AloneAlways(limit, start, before);
      EnabledIsTold(Start(1, limit, start), before);
      AloneNext(After(Start(1, limit, start), before), limit, start, before, a);
      assert actions == before + [a];
    }
  }

  lemma AloneAtStart(limit: nat, start: bool)
    requires limit < WIDTH
    ensures Alone(Start(1, limit, start), limit, [], [])
  {
    NothingRead(0, limit);
  }

  lemma {:induction false} OutcomesSplit(actions: seq<Action>) returns (before: seq<Outcome>, after: seq<Outcome>)
    ensures Outcomes(false, actions) == before + after
    ensures forall i :: 0 <= i < |before| && before[i].Got? ==> !before[i].enabled
    ensures forall i :: 0 <= i < |after| && after[i].Got? ==> after[i].enabled
    ensures Enable !in actions ==> after == []
    decreases |actions|
  {
    if actions == [] {
      before, after := [], [];
    } else {
      var rest, a := actions[..|actions| - 1], actions[|actions| - 1];
      before, after := OutcomesSplit(rest);
      var more := if a.LoadEnabled? then [Got(LastRead(rest), Enabled(false, rest))] else if a.ReadError? then [Failed] else [];
      assert actions == rest + [a];
      if Enable in rest {
        assert before + after + more == before + (after + more);
        after := after + more;
      } else {
        assert before + [] + more == before + more + [];
        before := before + more;
      }
    }
  }

  /** The concurrent system with a single reader is the single-reader law: whenever it is not in the
      middle of a decision, it has delivered what repeated reads deliver on the same datagrams and
      enabling moments, and so everything examined before enabling and everything after it except
      exactly the first `limit` datagrams. */
  lemma LoneReader(limit: nat, actions: seq<Action>) returns (before: seq<Outcome>, after: seq<Outcome>)
    requires limit < WIDTH && Trace(Start(1, limit, false), actions)
    ensures Outcomes(false, actions) == before + after
    ensures forall i :: 0 <= i < |before| && before[i].Got? ==> !before[i].enabled
    ensures forall i :: 0 <= i < |after| && after[i].Got? ==> after[i].enabled
    ensures var s := After(Start(1, limit, false), actions);
            && |s.readers| == 1
            && var r := s.readers[0];
               r.pc.Reading? || r.pc.Examining? ==>
                 && s.count == CountAfter(0, limit, before + after)
                 && r.delivered == ReadAll(0, limit, before + after)
                                == Datagrams(before) + Datagrams(after)[Min(limit, |Datagrams(after)|)..]
  {
    hide ReadAll, CountAfter, Datagrams, Outcomes;
    before, after := OutcomesSplit(actions);
    AloneAlways(limit, false, actions);
    BurstLaw(limit, before, after);
  }

  /** The connection object, as one reader uses it. */
  class DropConnection {
    var droppedCount: nat
    const dropLimit: nat

    constructor (limit: nat)
      ensures dropLimit == limit && droppedCount == 0
    {
      dropLimit, droppedCount := limit, 0;
    }

    /** Reads until a datagram is not dropped or the read fails; `used` outcomes are consumed, at
        most one more than the drops still allowed. */
    method ReadFrom(input: seq<Outcome>) returns (used: nat, result: Result)
      modifies this`droppedCount
      ensures (used, result, droppedCount) == ReadOne(old(droppedCount), dropLimit, input)
      ensures old(droppedCount) <= dropLimit ==> used <= dropLimit - old(droppedCount) + 1 && droppedCount <= dropLimit
    {
      ghost var count := droppedCount;
      used := 0;
      while used < |input|
        invariant used <= |input|
        invariant ReadOne(count, dropLimit, input)
               == var (n, r, c) := ReadOne(droppedCount, dropLimit, input[used..]); (used + n, r, c)
      {
        var o := input[used];
        ghost var rest := input[used..];
        assert rest[0] == o && rest[1..] == input[used + 1..];
        used := used + 1;
        if o.Failed? {
          return used, Error;
        }
        if o.enabled {
          var seen := droppedCount;
          if seen < dropLimit {
            droppedCount := seen + 1;
            continue;
          }
        }
        return used, Packet(o.packet);
      }
      assert input[used..] == [];
      return used, Blocked;
    }
  }
}
