/** The one way confirmation can be wrong: the size_t counters wrap. After 2^64 discarded bytes
    a single consumed byte makes the two counters equal again. */
module AdapterWrap {
  import opened Streams
  import opened Lanes
  import opened Callbacks
  import opened Adapter
  import opened AdapterClaims

  const ROUNDS: nat := 0x8_0000_0000_0000

  function Zeros(n: nat): (r: seq<byte>)
    ensures |r| == n
  {
    if n == 0 then [] else [0] + Zeros(n - 1)
  }

  function Setup(secret: seq<byte>): seq<Call>
  {
    [DebugParams([]),
     DebugYield(false, READ_SECRET, secret), DebugYield(false, WRITE_SECRET, secret),
     DebugYield(true, WRITE_SECRET, secret), DebugYield(true, READ_SECRET, secret)]
  }

  /** Fill the application-level buffer, then let TLS give back a loan it never took. */
  function Fill(zeros: seq<byte>): Call { Deliver(2, zeros) }
  const WASTE := Pull(0, 0, Drive([Release(0)], 1, 0))

  function Rounds(zeros: seq<byte>, n: nat): seq<Call>
    decreases n, zeros
  {
    if n == 0 then [] else [Fill(zeros), WASTE] + Rounds(zeros, n - 1)
  }

  /** Ready to confirm but for the byte counts, reading at the application level, nothing buffered. */
  ghost predicate Idle(b: Backend)
  {
    && KeysReady(b) && b.readLevel == APPLICATION_LEVEL && b.out.none == [] && !b.overflow
    && b.lanes.application.inbound == [] && b.lanes.application.leased == 0
  }

  lemma SetupLeadsToIdle(secret: seq<byte>)
    requires |secret| == SECRET_LEN
    ensures var b := Run(NEW_BACKEND, Setup(secret)); Idle(b) && b.lanes == NEW_BACKEND.lanes && b.receivedLen == b.releasedLen == 0
  {
    var setup := Setup(secret);
    var b1 := Step(NEW_BACKEND, setup[0]).next;
    var b2 := Step(b1, setup[1]).next;
    var b3 := Step(b2, setup[2]).next;
    var b4 := Step(b3, setup[3]).next;
    var b5 := Step(b4, setup[4]).next;
    assert Run(b5, setup[5..]) == b5;
    assert setup[4..][1..] == setup[5..];
    assert Run(b4, setup[4..]) == b5;
    assert setup[3..][1..] == setup[4..];
    assert Run(b3, setup[3..]) == b5;
    assert setup[2..][1..] == setup[3..];
    assert Run(b2, setup[2..]) == b5;
    assert setup[1..][1..] == setup[2..];
    assert Run(b1, setup[1..]) == b5;
  }

  lemma RunTwo(b: Backend, c1: Call, c2: Call, rest: seq<Call>)
    ensures Run(b, [c1, c2] + rest) == Run(Step(Step(b, c1).next, c2).next, rest)
  {
    var calls := [c1, c2] + rest;
    assert calls[1..] == [c2] + rest;
    assert ([c2] + rest)[1..] == rest;
    assert Run(Step(b, c1).next, [c2] + rest) == Run(Step(Step(b, c1).next, c2).next, rest);
  }

  /** One round receives 8192 bytes and discards them all. */
  lemma OneRound(b: Backend, zeros: seq<byte>)
    requires |zeros| == BUFFER_LEN && Idle(b) && b.releasedLen < SIZE
    ensures var b' := Step(Step(b, Fill(zeros)).next, WASTE).next;
            && Idle(b') && b'.releasedLen == b.releasedLen
            && b'.receivedLen == (b.receivedLen + BUFFER_LEN) % SIZE
            && TotalDiscarded(b'.lanes) == TotalDiscarded(b.lanes) + BUFFER_LEN
  {
    var b1 := Step(b, Fill(zeros)).next;
    assert b1.lanes.application.inbound == zeros;
    assert WASTE.drive.script[1..] == [];
    assert HandleAll(b1, WASTE.drive.script) == Handle(b1, Release(0));
    assert b1.lanes.application.inbound[0..0] == [];
  }

  lemma {:induction false} RoundsDiscard(b: Backend, zeros: seq<byte>, n: nat, rest: seq<Call>) returns (b': Backend)
    requires |zeros| == BUFFER_LEN && Idle(b) && b.releasedLen < SIZE && b.receivedLen < SIZE
    ensures Run(b, Rounds(zeros, n) + rest) == Run(b', rest)
    ensures Idle(b') && b'.releasedLen == b.releasedLen
    ensures b'.receivedLen < SIZE && b'.receivedLen == (b.receivedLen + n * BUFFER_LEN) % SIZE
    ensures TotalDiscarded(b'.lanes) == TotalDiscarded(b.lanes) + n * BUFFER_LEN
    decreases n
  {
    hide Step, Idle, TotalDiscarded, Fill, Run;
    if n == 0 {
      b' := b;
      assert Rounds(zeros, n) + rest == rest;
    } else {
      var next := Step(Step(b, Fill(zeros)).next, WASTE).next;
      OneRound(b, zeros);
      b' := RoundsDiscard(next, zeros, n - 1, rest);
      assert Rounds(zeros, n) + rest == [Fill(zeros), WASTE] + (Rounds(zeros, n - 1) + rest);
      RunTwo(b, Fill(zeros), WASTE, Rounds(zeros, n - 1) + rest);
      WrapAdd(b.receivedLen + BUFFER_LEN, (n - 1) * BUFFER_LEN);
    }
  }

  lemma {:induction false} RunConcat(b: Backend, a: seq<Call>, c: seq<Call>)
    ensures Run(b, a + c) == Run(Run(b, a), c)
    decreases |a|
  {
    hide Step;
    if a == [] {
      assert a + c == c;
    } else {
      assert (a + c)[1..] == a[1..] + c;
      RunConcat(Step(b, a[0]).next, a[1..], c);
    }
  }

  lemma LastByte(b: Backend)
    requires Idle(b) && b.receivedLen == b.releasedLen == 0
    ensures var b' := Step(Step(b, Deliver(2, [0])).next, DebugConsume).next;
            Confirmed(b') && TotalDiscarded(b'.lanes) == TotalDiscarded(b.lanes)
  {
    var b1 := Step(b, Deliver(2, [0])).next;
    assert b1.lanes.application.inbound == [0];
    assert b1.lanes.application.inbound[1..] == [];
  }

  /** The bound in the confirmation claims is not idle: here is a run that confirms a handshake in
      which 2^64 received bytes were thrown away. */
  lemma ConfirmationCanLieAfterWrap() returns (calls: seq<Call>)
    ensures Confirmed(Run(NEW_BACKEND, calls)) && TotalDiscarded(Run(NEW_BACKEND, calls).lanes) == SIZE
  {
    hide Step, Idle, TotalDiscarded, Confirmed, Zeros, Setup, Rounds, Fill;
    var zeros, setup, last := Zeros(BUFFER_LEN), Setup(Zeros(SECRET_LEN)), [Deliver(2, [0]), DebugConsume];
    calls := setup + (Rounds(zeros, ROUNDS) + last);
    var b := Run(NEW_BACKEND, setup);
    SetupLeadsToIdle(Zeros(SECRET_LEN));
    RunConcat(NEW_BACKEND, setup, Rounds(zeros, ROUNDS) + last);
    var b' := RoundsDiscard(b, zeros, ROUNDS, last);
    LastByte(b');
    RunTwo(b', Deliver(2, [0]), DebugConsume, []);
    assert last + [] == last;
    assert TotalDiscarded(NEW_BACKEND.lanes) == 0 by { NothingDiscardedYet(); }
  }

  lemma NothingDiscardedYet()
    ensures TotalDiscarded(NEW_BACKEND.lanes) == 0
  {
  }
}
