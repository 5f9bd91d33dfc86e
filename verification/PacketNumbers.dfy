/** Truncated packet numbers: what the sender writes into a header, what the receiver makes of it
    given the packets it has seen, and when the two agree. */
module PacketNumbers {
  import opened Streams
  import opened PacketRanges

  const MAX_PACKET: nat := 0x3FFF_FFFF_FFFF_FFFF

  /** How many packet numbers an encoding of `len` bytes tells apart. */
  function Window(len: nat): nat
    requires 1 <= len <= 4
  {
    if len == 1 then 0x100 else if len == 2 then 0x1_0000 else if len == 3 then 0x100_0000 else 0x1_0000_0000
  }

  /** The part of a number an encoding keeps. */
  function Low(n: nat, window: nat): (r: nat)
    requires window > 0
    ensures r < window && r <= n
  {
    n % window
  }

  datatype Encoding = Encoding(len: nat, truncated: nat)

  function LengthFor(unacked: nat): (r: Option<nat>)
    ensures r.Some? <==> 0 < unacked <= 0x8000_0000
    ensures r.Some? ==> 1 <= r.value <= 4 && unacked <= Window(r.value) / 2
    ensures r.Some? && r.value > 1 ==> unacked > Window(r.value - 1) / 2
  {
    if unacked == 0 then None
    else if unacked <= 0x80 then Some(1)
    else if unacked <= 0x8000 then Some(2)
    else if unacked <= 0x80_0000 then Some(3)
    else if unacked <= 0x8000_0000 then Some(4)
    else None
  }

  /** The encoding chosen for an outgoing packet, given the largest number known to have arrived. */
  function Encode(pn: Number, acked: Option<Number>): (r: Option<Encoding>)
    ensures r.Some? <==> pn <= MAX_PACKET && if acked.Some? then acked.value < pn <= acked.value + 0x8000_0000 else pn < 0x8000_0000
    ensures r.Some? ==>
              var unacked := if acked.Some? then pn - acked.value else pn + 1;
              && 1 <= r.value.len <= 4 && unacked <= Window(r.value.len) / 2
              && (r.value.len > 1 ==> unacked > Window(r.value.len - 1) / 2)
  {
    if pn > MAX_PACKET || (acked.Some? && (acked.value > MAX_PACKET || pn <= acked.value)) then None
    else
      var len := LengthFor(if acked.Some? then pn - acked.value else pn + 1);
      if len.None? then None else Some(Encoding(len.value, Low(pn, Window(len.value))))
  }

  /** Addition on 64 bits that stops at the top. */
  function Saturate(n: nat): Number { if n > MAX_U64 then MAX_U64 else n }

  /** The full number recovered from its low bytes: the candidate nearest to the expected number. */
  function Reconstruct(expected: Number, truncated: Number, len: nat): Option<Number>
  {
    if len == 0 || len > 4 || expected > MAX_PACKET + 1 then None
    else
      var window := Window(len);
      if truncated > window - 1 then None
      else
        var decoded := Nearest(expected, expected - Low(expected, window) + truncated, window);
        if decoded > MAX_PACKET then None else Some(decoded)
  }

  /** Of a candidate and its neighbours a window away, the one nearest to the expected number. */
  function Nearest(expected: Number, candidate: nat, window: nat): nat
  {
    if Saturate(candidate + window / 2) <= expected then candidate + window
    else if candidate > Saturate(expected + window / 2) && candidate >= window then candidate - window
    else candidate
  }

  lemma NearestWhen(expected: Number, candidate: nat, window: nat, pn: nat)
    requires window % 2 == 0 && 0 < window <= 0x1_0000_0000 && expected <= MAX_PACKET + 1
    requires candidate < expected + window && expected < candidate + window
    requires || pn == candidate || pn == candidate + window || pn >= candidate + 2 * window
             || pn + window == candidate || pn + 2 * window <= candidate
    ensures Nearest(expected, candidate, window) == pn <==>
              expected < pn + window / 2 && (pn <= expected + window / 2 || pn < window)
  {
    var half := window / 2;
    assert window == 2 * half;
  }

  /** The graph of reconstruction: the number returned is the one with these low bytes less than half
      a window behind the expected number and at most half a window ahead, or in the very first
      window; there is none for malformed arguments. */
  lemma ReconstructedWhen(expected: Number, truncated: Number, len: nat, pn: Number)
    ensures Reconstruct(expected, truncated, len) == Some(pn) <==>
              && 1 <= len <= 4 && pn <= MAX_PACKET && expected <= MAX_PACKET + 1
              && truncated == Low(pn, Window(len))
              && expected < pn + Window(len) / 2 && (pn <= expected + Window(len) / 2 || pn < Window(len))
  {
    hide Nearest, Low, Window;
    WindowsAreEven(len);
    if 1 <= len <= 4 && expected <= MAX_PACKET + 1 && truncated < Window(len) {
      var w := Window(len);
      var candidate := expected - Low(expected, w) + truncated;
      NearestIsNeighbour(expected, candidate, w);
      LowBytes(expected, truncated, w, pn);
      if truncated == Low(pn, w) {
        CandidateIsWithinWindow(expected, pn, w);
        CandidateIsCongruent(expected, pn, w);
        NearestWhen(expected, candidate, w, pn);
      }
    }
  }

  lemma WindowsAreEven(len: nat)
    ensures 1 <= len <= 4 ==> Window(len) % 2 == 0 && 0 < Window(len) <= 0x1_0000_0000
  {
  }

  lemma NearestIsNeighbour(expected: Number, candidate: nat, window: nat)
    ensures var r := Nearest(expected, candidate, window); r == candidate || r == candidate + window || r + window == candidate
  {
  }

  /** The candidate and its neighbours a window away have the given low bytes. */
  lemma LowBytes(e: nat, t: nat, w: nat, p: nat)
    requires t < w
    ensures var c := e - Low(e, w) + t; p == c || p == c + w || p + w == c ==> Low(p, w) == t
  {
    var q := e / w;
    assert e - e % w == w * q;
    if p == w * q + t {
      RemainderOf(w, q, t);
    } else if p == w * q + t + w {
      assert p == w * (q + 1) + t;
      RemainderOf(w, q + 1, t);
    } else if p + w == w * q + t {
      assert q >= 1;
      assert p == w * (q - 1) + t;
      RemainderOf(w, q - 1, t);
    }
  }

  lemma RemainderOf(w: nat, q: nat, t: nat)
    requires t < w
    ensures (w * q + t) % w == t
  {
    QuotientUnique(w * q + t, w, q, t);
  }

  lemma CandidateIsWithinWindow(e: nat, p: nat, w: nat)
    requires w > 0
    ensures var c := e - Low(e, w) + Low(p, w); c < e + w && e < c + w
  {
    assert 0 <= e % w < w && 0 <= p % w < w;
  }

  /** The candidate misses by whole windows. */
  lemma CandidateIsCongruent(e: nat, p: nat, w: nat)
    requires w > 0
    ensures var c := e - Low(e, w) + Low(p, w);
            p == c || p == c + w || p >= c + 2 * w || p + w == c || p + 2 * w <= c
  {
    assert e == w * (e / w) + e % w && p == w * (p / w) + p % w;
    WholeWindows(w, e / w, p / w);
  }

  lemma WholeWindows(w: nat, a: nat, b: nat)
    ensures w * b == w * a || w * b == w * a + w || w * b >= w * a + 2 * w || w * b + w == w * a || w * b + 2 * w <= w * a
  {
    if b >= a {
      Multiple(w, a, b - a);
    } else {
      Multiple(w, b, a - b);
    }
  }

  lemma Multiple(w: nat, a: nat, k: nat)
    ensures k == 0 || w * (a + k) == w * a + w || (k >= 2 && w * (a + k) >= w * a + 2 * w)
  {
    assert w * (a + k) == w * a + w * k;
    if k >= 2 {
      assert w * k == w * (k - 2) + w * 2;
    }
  }

  // ---- on the wire ----

  /** The low `len` bytes of `n`, most significant first. */
  function BigEndian(n: nat, len: nat): (r: seq<byte>)
    ensures |r| == len
  {
    if len == 0 then [] else BigEndian(n / 256, len - 1) + [(n % 256) as byte]
  }

  function Value(bytes: seq<byte>): nat
  {
    if bytes == [] then 0 else Value(bytes[..|bytes| - 1]) * 256 + bytes[|bytes| - 1] as nat
  }

  function Power256(k: nat): (r: nat)
    ensures r > 0
  {
    if k == 0 then 1 else 256 * Power256(k - 1)
  }

  lemma {:induction false} WireRoundTrip(n: nat, len: nat)
    requires n < Power256(len)
    ensures Value(BigEndian(n, len)) == n
  {
    if len > 0 {
      WireRoundTrip(n / 256, len - 1);
      assert BigEndian(n, len)[..len - 1] == BigEndian(n / 256, len - 1);
    }
  }

  lemma WindowIsPower(len: nat)
    requires 1 <= len <= 4
    ensures Window(len) == Power256(len)
  {
    assert Power256(1) == 256 && Power256(2) == 256 * 256 && Power256(3) == 256 * 256 * 256;
    assert Power256(4) == 256 * Power256(3);
  }

  method WriteNumber(n: Number, len: nat) returns (bytes: seq<byte>)
    requires 1 <= len <= 4
    ensures bytes == BigEndian(n, len)
  {
    var buffer := new byte[4](i => 0);
    var i := 0;
    while i < len
      invariant 0 <= i <= len && fresh(buffer)
      invariant forall j :: 0 <= j < i ==> buffer[j] as nat == (n / Power256(len - 1 - j)) % 256
    {
      buffer[i] := ((n / Power256(len - 1 - i)) % 256) as byte;
      i := i + 1;
    }
    bytes := buffer[..len];
    forall j | 0 <= j < len ensures bytes[j] == BigEndian(n, len)[j] { ByteAt(n, len, j); }
  }

  lemma {:induction false} ByteAt(n: nat, len: nat, j: nat)
    requires j < len
    ensures BigEndian(n, len)[j] as nat == (n / Power256(len - 1 - j)) % 256
  {
    if j < len - 1 {
      ByteAt(n / 256, len - 1, j);
      DivideTwice(n, Power256(len - 2 - j));
    }
  }

  lemma DivideTwice(n: nat, d: nat)
    requires d > 0
    ensures n / 256 / d == n / (256 * d)
  {
    var q, r := n / 256 / d, n / 256 % d;
    assert n == 256 * (d * q + r) + n % 256;
    assert n == (256 * d) * q + (256 * r + n % 256);
    assert 256 * r + n % 256 < 256 * d;
    QuotientUnique(n, 256 * d, q, 256 * r + n % 256);
  }

  lemma QuotientUnique(n: nat, d: nat, q: nat, r: nat)
    requires d > 0 && n == d * q + r && r < d
    ensures n / d == q
  {
    var q' := n / d;
    assert n == d * q' + n % d && d * (q - q') == n % d - r;
    assert 0 - d < d * (q - q') < d;
    assert q - q' >= 1 ==> d * (q - q') >= d * 1;
    assert q' - q >= 1 ==> d * (q' - q) >= d * 1;
  }

  method ReadNumber(bytes: seq<byte>, len: nat) returns (value: Option<nat>)
    ensures value == if |bytes| < len then None else Some(Value(bytes[..len]))
  {
    var sum := 0;
    var i := 0;
    while i < len
      invariant 0 <= i <= len && i <= |bytes| && sum == Value(bytes[..i])
    {
      if i == |bytes| {
        return None;
      }
      assert bytes[..i + 1][..i] == bytes[..i];
      sum := sum * 256 + bytes[i] as nat;
      i := i + 1;
    }
    return Some(sum);
  }

  // ---- sender and receiver together ----

  lemma {:induction false} AcceptedGrows(ns: seq<Number>, i: nat)
    requires i <= |ns|
    ensures Accepted(NEW_HISTORY, ns[..i]) <= Accepted(NEW_HISTORY, ns)
    decreases |ns|
  {
    hide Record;
    if i < |ns| {
      AcceptedGrows(ns[..|ns| - 1], i);
      assert ns[..|ns| - 1][..i] == ns[..i];
    } else {
      assert ns[..i] == ns;
    }
  }

  lemma {:induction false} AcceptedWasReceived(ns: seq<Number>, x: nat)
    requires x in Accepted(NEW_HISTORY, ns)
    ensures exists i :: 0 <= i < |ns| && ns[i] == x
  {
    hide Record, After;
    var before, n := ns[..|ns| - 1], ns[|ns| - 1];
    if x in Accepted(NEW_HISTORY, before) {
      AcceptedWasReceived(before, x);
    }
  }

  /** The expected number lies above everything ever accepted, forgotten or not. */
  lemma ExpectedIsAbove(ns: seq<Number>, x: nat)
    requires x in Accepted(NEW_HISTORY, ns) && forall i :: 0 <= i < |ns| ==> ns[i] <= MAX_PACKET
    ensures x < NextExpected(After(NEW_HISTORY, ns))
  {
    hide Record, After, Accepted;
    var h := After(NEW_HISTORY, ns);
    HistoryIsFaithful(ns);
    ExpectedInRange(ns);
    NextExpectedIsNew(h);
    AcceptedWasReceived(ns, x);
    assert Forgotten(h, x) ==> x < h.ranges[0].smallest;
  }

  lemma ExpectedInRange(ns: seq<Number>)
    requires forall i :: 0 <= i < |ns| ==> ns[i] <= MAX_PACKET
    ensures NextExpected(After(NEW_HISTORY, ns)) <= MAX_PACKET + 1
  {
    hide Record, After, Accepted;
    var h := After(NEW_HISTORY, ns);
    HistoryIsFaithful(ns);
    if h.ranges != [] {
      var top := h.ranges[0].largest;
      assert h.ranges[0].Has(top);
      AcceptedWasReceived(ns, top);
    }
  }

  /** The receiver has processed `ns`; after the first `i` of them it sent an acknowledgement in which
      the sender read `acked`, and the sender then numbers a packet relative to that. Whatever was
      reordered, lost or forgotten since, the receiver recovers the packet's number exactly when no
      packet half a window or more ahead has overtaken it. */
  lemma NumberSurvives(ns: seq<Number>, i: nat, acked: Option<Number>, pn: Number)
    requires i <= |ns| && (forall k :: 0 <= k < |ns| ==> ns[k] <= MAX_PACKET) && Encode(pn, acked).Some?
    requires acked.Some? ==>
               var h := After(NEW_HISTORY, ns[..i]);
               Valid(h) && h.ranges != [] && AckContains(AckFrameOf(h).value, acked.value)
    ensures var e := Encode(pn, acked).value;
            var expected := NextExpected(After(NEW_HISTORY, ns));
            Reconstruct(expected, Saturate(Value(BigEndian(e.truncated, e.len))), e.len) == Some(pn)
            <==> expected < pn + Window(e.len) / 2
  {
    hide Record, After, Accepted, Valid, AckContains, AckFrameOf, Reconstruct, BigEndian, Value, NextExpected;
    var e := Encode(pn, acked).value;
    var expected := NextExpected(After(NEW_HISTORY, ns));
    WindowIsPower(e.len);
    WireRoundTrip(e.truncated, e.len);
    ExpectedInRange(ns);
    ReconstructedWhen(expected, e.truncated, e.len, pn);
    if acked.Some? {
      var h := After(NEW_HISTORY, ns[..i]);
      AckRoundTrip(h, acked.value);
      HistoryIsFaithful(ns[..i]);
      AcceptedGrows(ns, i);
      ExpectedIsAbove(ns, acked.value);
    }
  }
}
