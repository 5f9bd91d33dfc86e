/** What an endpoint must look like, told from the outside: folds over the callbacks TLS made and
    over the arrivals and takes around them. Nothing here knows how either program keeps its state. */
module Deeds {
  import opened Streams
  import opened Lanes
  import opened Callbacks

  // ---- told by the callbacks alone ----

  /** The callback makes its level the current one for a direction. */
  predicate Switches(cb: Callback, direction: int)
  {
    cb.YieldSecret? && cb.level < LEVELS && cb.direction == direction
  }

  /** The level of the last switch in a direction; the lowest before any. */
  function CurrentLevel(cbs: seq<Callback>, direction: int): (r: nat)
    ensures r < LEVELS
  {
    if cbs == [] then 0
    else if Switches(cbs[|cbs| - 1], direction) then cbs[|cbs| - 1].level
    else CurrentLevel(cbs[..|cbs| - 1], direction)
  }

  /** The callback brings a usable secret of a level and direction. */
  predicate BringsSecret(cb: Callback, level: nat, direction: int)
  {
    cb.YieldSecret? && cb.level == level && cb.direction == direction && |cb.secret| == SECRET_LEN
  }

  function LastSecret(cbs: seq<Callback>, level: nat, direction: int): (r: Option<seq<byte>>)
    ensures r.Some? ==> |r.value| == SECRET_LEN
    ensures r.Some? <==> exists i :: 0 <= i < |cbs| && BringsSecret(cbs[i], level, direction)
  {
    if cbs == [] then None
    else if BringsSecret(cbs[|cbs| - 1], level, direction) then Some(cbs[|cbs| - 1].secret)
    else LastSecret(cbs[..|cbs| - 1], level, direction)
  }

  /** The callback announces peer transport parameters that fit. */
  predicate Announces(cb: Callback) { cb.GotParams? && |cb.params| <= PARAMS_CAPACITY }

  /** The last parameters announced, or those known before. */
  function Announced(before: Option<seq<byte>>, cbs: seq<Callback>): (r: Option<seq<byte>>)
    ensures r.Some? <==> before.Some? || exists i :: 0 <= i < |cbs| && Announces(cbs[i])
  {
    if cbs == [] then before
    else if Announces(cbs[|cbs| - 1]) then Some(cbs[|cbs| - 1].params)
    else Announced(before, cbs[..|cbs| - 1])
  }

  /** The bytes sent while `level` was the current write level, in order, each send in full or, when
      it would take the total past `capacity`, not at all. */
  function Transcribed(cbs: seq<Callback>, level: nat, capacity: nat): (r: seq<byte>)
    ensures |r| <= capacity
  {
    if cbs == [] then []
    else
      var earlier, cb := cbs[..|cbs| - 1], cbs[|cbs| - 1];
      var sent := Transcribed(earlier, level, capacity);
      if cb.Send? && CurrentLevel(earlier, WRITE_SECRET) == level && |sent| + |cb.data| <= capacity then sent + cb.data
      else sent
  }

  // ---- told by callbacks, arrivals and takes together ----

  /** A callback of TLS, bytes accepted from the network, or the host taking all that waits at a level. */
  datatype Deed = Made(cb: Callback) | Arrived(level: nat, data: seq<byte>) | Taken(level: nat)

  function CallbacksOf(deeds: seq<Deed>): seq<Callback>
  {
    if deeds == [] then []
    else CallbacksOf(deeds[..|deeds| - 1]) + (if deeds[|deeds| - 1].Made? then [deeds[|deeds| - 1].cb] else [])
  }

  function AllMade(script: seq<Callback>): (r: seq<Deed>)
    ensures |r| == |script| && forall i :: 0 <= i < |script| ==> r[i] == Made(script[i])
  {
    seq(|script|, i requires 0 <= i < |script| => Made(script[i]))
  }

  /** The deed is a send at a level. */
  predicate SendsAt(earlier: seq<Deed>, deed: Deed, level: nat)
  {
    deed.Made? && deed.cb.Send? && CurrentLevel(CallbacksOf(earlier), WRITE_SECRET) == level
  }

  /** Bytes sent at a level and not yet taken; a send that does not fit behind them is refused. */
  function Waiting(deeds: seq<Deed>, level: nat, capacity: nat): (r: seq<byte>)
    ensures |r| <= capacity
  {
    if deeds == [] then []
    else
      var earlier, deed := deeds[..|deeds| - 1], deeds[|deeds| - 1];
      var waiting := Waiting(earlier, level, capacity);
      if deed == Taken(level) then []
      else if SendsAt(earlier, deed, level) && |waiting| + |deed.cb.data| <= capacity then waiting + deed.cb.data
      else waiting
  }

  /** All bytes ever sent at a level, taken or not. */
  function Sent(deeds: seq<Deed>, level: nat, capacity: nat): seq<byte>
  {
    if deeds == [] then []
    else
      var earlier, deed := deeds[..|deeds| - 1], deeds[|deeds| - 1];
      Sent(earlier, level, capacity) +
      (if SendsAt(earlier, deed, level) && |Waiting(earlier, level, capacity)| + |deed.cb.data| <= capacity then deed.cb.data
       else [])
  }

  /** Some send was refused for want of room. */
  predicate Overflowed(deeds: seq<Deed>, capacity: nat)
  {
    deeds != [] &&
    var earlier, deed := deeds[..|deeds| - 1], deeds[|deeds| - 1];
    || Overflowed(earlier, capacity)
    || (deed.Made? && deed.cb.Send? &&
        |Waiting(earlier, CurrentLevel(CallbacksOf(earlier), WRITE_SECRET), capacity)| + |deed.cb.data| > capacity)
  }

  /** A level's inbound lane: arrivals at it, and the borrows and releases made while it was the
      current read level. */
  function LaneOf(deeds: seq<Deed>, level: nat, capacity: nat): Lane
  {
    if deeds == [] then EMPTY_LANE
    else
      var earlier, deed := deeds[..|deeds| - 1], deeds[|deeds| - 1];
      var lane := LaneOf(earlier, level, capacity);
      match deed
      case Arrived(l, data) => if l == level then Append(lane, data, capacity).0 else lane
      case Taken(_) => lane
      case Made(cb) =>
        if CurrentLevel(CallbacksOf(earlier), READ_SECRET) != level then lane
        else if cb.Receive? then Borrow(lane).0
        else if cb.Release? then Lanes.Release(lane, cb.count).0
        else lane
  }

  /** Bytes that arrived at a level. */
  function Arrivals(deeds: seq<Deed>, level: nat): seq<byte>
  {
    if deeds == [] then []
    else
      var deed := deeds[|deeds| - 1];
      Arrivals(deeds[..|deeds| - 1], level) + (if deed.Arrived? && deed.level == level then deed.data else [])
  }

  lemma Snoc<T>(s: seq<T>, x: T)
    ensures (s + [x])[..|s + [x]| - 1] == s && (s + [x])[|s + [x]| - 1] == x
  {
  }
}
