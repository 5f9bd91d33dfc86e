/** The loopback event loop: a send path that can be armed to lose chosen datagrams, and a
    virtual clock that moves only when nothing else can. */
module EventLoop {
  import opened Streams

  // ---- controlled loss ----

  /** One poll of the connection: nothing to send, or a datagram with its packet number, whether
      it added to the bytes in flight, and whether the socket would take it. */
  datatype Poll = Nothing | Ready(packet: seq<byte>, number: nat, ackEliciting: bool, sendOk: bool)

  /** The endpoint's arming: lose the next ack-eliciting datagram, lose this many of them, and the
      number of the first one ever lost. */
  datatype Arming = Arming(dropNext: bool, dropCount: nat, firstLost: Option<nat>)

  datatype Outcome = NoData | Lost | Sent | SendFailed

  predicate Loses(a: Arming, p: Poll) { p.Ready? && p.ackEliciting && (a.dropNext || a.dropCount != 0) }

  function AfterPoll(a: Arming, p: Poll): (r: (Arming, Outcome))
  {
    if p.Nothing? then (a, NoData)
    else if Loses(a, p) then
      (Arming(false, if a.dropCount != 0 then a.dropCount - 1 else 0,
              if a.firstLost.None? then Some(p.number) else a.firstLost), Lost)
    else (a, if p.sendOk then Sent else SendFailed)
  }

  /** The arming after a sequence of polls, and the datagrams that reached the socket. */
  function AfterPolls(a: Arming, polls: seq<Poll>): (r: (Arming, seq<seq<byte>>))
  {
    if polls == [] then (a, [])
    else
      var (before, sent) := AfterPolls(a, polls[..|polls| - 1]);
      var p := polls[|polls| - 1];
      var (after, outcome) := AfterPoll(before, p);
      (after, if outcome == Sent then sent + [p.packet] else sent)
  }

  /** How many losses an arming stands for. */
  function Budget(a: Arming): nat
  {
    if a.dropNext && a.dropCount == 0 then 1 else a.dropCount
  }

  /** Ack-eliciting datagrams among some polls. */
  function AckEliciting(polls: seq<Poll>): nat
  {
    if polls == [] then 0
    else (var p := polls[|polls| - 1]; if p.Ready? && p.ackEliciting then 1 else 0) + AckEliciting(polls[..|polls| - 1])
  }

  /** The polled datagrams in order, without the first `n` ack-eliciting ones and without those the
      socket refused. The rank of a datagram decides alone; no arming is involved. */
  function Survivors(polls: seq<Poll>, n: nat): seq<seq<byte>>
  {
    if polls == [] then []
    else
      var before, p := polls[..|polls| - 1], polls[|polls| - 1];
      if p.Ready? && p.sendOk && !(p.ackEliciting && AckEliciting(before) < n) then Survivors(before, n) + [p.packet]
      else Survivors(before, n)
  }

  /** Controlled-loss law: what is sent is what is polled, in order, minus exactly the first N
      ack-eliciting datagrams, N being the larger of the counter and the one-shot flag; and what
      is left of N afterwards is N minus the ack-eliciting datagrams seen. */
  lemma {:induction false} ControlledLoss(a: Arming, polls: seq<Poll>)
    ensures var (after, sent) := AfterPolls(a, polls);
            && sent == Survivors(polls, Budget(a))
            && Budget(after) == if AckEliciting(polls) < Budget(a) then Budget(a) - AckEliciting(polls) else 0
  {
    if polls != [] {
      ControlledLoss(a, polls[..|polls| - 1]);
    }
  }

  /** The answer to one poll: lost exactly while losses are due and the datagram elicits an ACK. */
  lemma PollAnswer(a: Arming, p: Poll)
    ensures AfterPoll(a, p).1 ==
              if p.Nothing? then NoData
              else if p.ackEliciting && Budget(a) > 0 then Lost
              else if p.sendOk then Sent else SendFailed
  {
  }

  /** Polls, and the two ways a test re-arms the endpoint in between. */
  datatype Event = Polling(poll: Poll) | ArmNext | ArmCount(n: nat)

  function AfterEvents(a: Arming, events: seq<Event>): Arming
  {
    if events == [] then a
    else
      var before := AfterEvents(a, events[..|events| - 1]);
      match events[|events| - 1]
      case Polling(p) => AfterPoll(before, p).0
      case ArmNext => before.(dropNext := true)
      case ArmCount(n) => before.(dropCount := n)
  }

  /** The packet numbers lost along the way, oldest first. */
  function LostNumbers(a: Arming, events: seq<Event>): seq<nat>
  {
    if events == [] then []
    else
      var before, e := events[..|events| - 1], events[|events| - 1];
      LostNumbers(a, before) + (if e.Polling? && Loses(AfterEvents(a, before), e.poll) then [e.poll.number] else [])
  }

  /** The recorded number is the first ever lost, whatever was re-armed since. */
  lemma {:induction false} FirstLostStays(a: Arming, events: seq<Event>)
    ensures AfterEvents(a, events).firstLost ==
            if a.firstLost.Some? then a.firstLost
            else if LostNumbers(a, events) == [] then None else Some(LostNumbers(a, events)[0])
  {
    if events != [] {
      FirstLostStays(a, events[..|events| - 1]);
    }
  }

  // ---- the virtual clock ----

  const TICK: int := 100000
  const I64_MAX: int := 0x7FFF_FFFF_FFFF_FFFF

  /** What one endpoint does in a step: whether a datagram arrived (and if so whether sending in
      response succeeded), whether a deadline was due, and its next deadline afterwards. */
  datatype Activity = Activity(arrived: bool, sendOk: bool, due: bool, deadline: Option<int>)

  datatype Tick = Now(now: int) | SendError | Overflow

  /** The earlier of two deadlines. */
  function Earliest(c: Option<int>, s: Option<int>): (r: Option<int>)
    ensures r.None? <==> c.None? && s.None?
    ensures r.Some? ==> (r == c || r == s) && (c.Some? ==> r.value <= c.value) && (s.Some? ==> r.value <= s.value)
  {
    if c.Some? then (if s.Some? then (if c.value < s.value then c else s) else c) else s
  }

  predicate Idle(client: Activity, server: Activity)
  {
    !client.arrived && !server.arrived && !client.due && !server.due
  }

  function StepClock(now: int, client: Activity, server: Activity): Tick
  {
    if (client.arrived && !client.sendOk) || (server.arrived && !server.sendOk) then SendError
    else if !Idle(client, server) then Now(now)
    else
      var d := Earliest(client.deadline, server.deadline);
      if d.None? then Now(now)
      else if now + TICK > I64_MAX then Overflow
      else Now(var target := if d.value < now + TICK then d.value else now + TICK; if now > target then now else target)
  }

  /** A run of steps; it stops at the first failure. */
  function Clock(now: int, steps: seq<(Activity, Activity)>): Tick
    decreases |steps|
  {
    if steps == [] then Now(now)
    else match StepClock(now, steps[0].0, steps[0].1)
      case Now(t) => Clock(t, steps[1..])
      case SendError => SendError
      case Overflow => Overflow
  }

  lemma {:induction false} ClockNeverGoesBack(now: int, steps: seq<(Activity, Activity)>)
    ensures Clock(now, steps).Now? ==> now <= Clock(now, steps).now
    decreases |steps|
  {
    if steps != [] {
      var t := StepClock(now, steps[0].0, steps[0].1);
      if t.Now? {
        ClockNeverGoesBack(t.now, steps[1..]);
      }
    }
  }

  /** A step never jumps past a deadline still ahead, on either side, and a step that makes
      progress does not move the clock at all. */
  lemma StepStopsAtDeadlines(now: int, client: Activity, server: Activity)
    requires StepClock(now, client, server).Now?
    ensures var t := StepClock(now, client, server).now;
            && (client.arrived || server.arrived || client.due || server.due ==> t == now)
            && (client.deadline.None? && server.deadline.None? ==> t == now)
            && (client.deadline.Some? ==> t <= now || t <= client.deadline.value)
            && (server.deadline.Some? ==> t <= now || t <= server.deadline.value)
            && now <= t <= now + TICK
  {
  }

  /** A step fails exactly when an arrival could not be answered, or when it is idle, has a deadline
      and stands within a tick of the end of time. */
  lemma StepFailsWhen(now: int, client: Activity, server: Activity)
    ensures var unanswered := (client.arrived && !client.sendOk) || (server.arrived && !server.sendOk);
            var quiet := !client.arrived && !server.arrived && !client.due && !server.due;
            && (StepClock(now, client, server) == SendError <==> unanswered)
            && (StepClock(now, client, server) == Overflow <==>
                  quiet && (client.deadline.Some? || server.deadline.Some?) && now + TICK > I64_MAX)
  {
  }

  function CeilTicks(distance: int): (k: nat)
    requires distance >= 0
    ensures k * TICK >= distance && (k > 0 ==> (k - 1) * TICK < distance)
  {
    (distance + TICK - 1) / TICK
  }

  /** With no arrivals and an unchanged deadline d ahead, the clock reaches d in exactly
      ceil((d - now) / 100000) idle steps, one full tick at a time before that, provided that
      many ticks still fit in an i64; otherwise the addition overflows on the way, although the
      deadline itself fits. */
  lemma {:induction false} ReachesDeadline(now: int, d: int, steps: seq<(Activity, Activity)>)
    requires now <= d
    requires forall i :: 0 <= i < |steps| ==>
               && !steps[i].0.arrived && !steps[i].1.arrived && !steps[i].0.due && !steps[i].1.due
               && Earliest(steps[i].0.deadline, steps[i].1.deadline) == Some(d)
    requires |steps| <= CeilTicks(d - now)
    ensures now + |steps| * TICK <= I64_MAX ==>
              Clock(now, steps) == Now(if |steps| == CeilTicks(d - now) then d else now + |steps| * TICK)
    ensures now + |steps| * TICK > I64_MAX && |steps| > 0 ==> Clock(now, steps) == Overflow
    decreases |steps|
  {
    if steps != [] {
      var t := if d < now + TICK then d else now + TICK;
      OneTickLess(d - now);
      ReachesDeadline(t, d, steps[1..]);
    }
  }

  lemma OneTickLess(distance: int)
    requires distance > 0
    ensures CeilTicks(distance) == 1 + CeilTicks(if distance < TICK then 0 else distance - TICK)
  {
  }

  // ---- the objects ----

  class LossyEndpoint {
    var dropNext: bool
    var dropCount: nat
    var firstLost: Option<nat>

    function View(): Arming
      reads this
    {
      Arming(dropNext, dropCount, firstLost)
    }

    constructor ()
      ensures View() == Arming(false, 0, None)
    {
      dropNext, dropCount, firstLost := false, 0, None;
    }

    method PollOneRttAndSend(p: Poll) returns (outcome: Outcome)
      modifies this
      ensures (View(), outcome) == AfterPoll(old(View()), p)
    {
      if p.Nothing? {
        return NoData;
      }
      if p.ackEliciting && (dropNext || dropCount != 0) {
        dropNext := false;
        if dropCount != 0 {
          dropCount := dropCount - 1;
        }
        if firstLost == None {
          firstLost := Some(p.number);
        }
        return Lost;
      }
      return if p.sendOk then Sent else SendFailed;
    }
  }

  class VirtualClock {
    var now: int

    constructor (start: int)
      ensures now == start
    {
      now := start;
    }

    /** One turn of the event loop over both endpoints; the clock is untouched on failure. */
    method StepEventLoop(client: Activity, server: Activity) returns (r: Tick)
      modifies this
      ensures r == StepClock(old(now), client, server)
      ensures now == if r.Now? then r.now else old(now)
    {
      var progressed := false;
      var endpoints := [client, server];
      var i := 0;
      while i < 2
        invariant 0 <= i <= 2 && now == old(now)
        invariant progressed <==> (i > 0 && client.arrived) || (i > 1 && server.arrived)
        invariant (i > 0 && client.arrived ==> client.sendOk) && (i > 1 && server.arrived ==> server.sendOk)
      {
        if endpoints[i].arrived {
          if !endpoints[i].sendOk {
            return SendError;
          }
          progressed := true;
        }
        i := i + 1;
      }
      if client.due || server.due {
        progressed := true;
      }
      if !progressed {
        var d := Earliest(client.deadline, server.deadline);
        if d.Some? {
          if now + TICK > I64_MAX {
            return Overflow;
          }
          var target := if d.value < now + TICK then d.value else now + TICK;
          now := if now > target then now else target;
        }
      }
      return Now(now);
    }
  }
}
