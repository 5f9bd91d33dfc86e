/** The bounded receive history of one packet number space: which packet numbers have been
    processed, so that none is processed twice, and what to acknowledge. */
module PacketRanges {
  import opened Streams

  const MAX_RANGES: nat := 32
  const MAX_U64: nat := 0xFFFF_FFFF_FFFF_FFFF

  type Number = n: nat | n <= MAX_U64

  /** An inclusive interval of received packet numbers. */
  datatype Range = Range(smallest: Number, largest: Number)
  {
    predicate Has(n: nat) { smallest <= n <= largest }
  }

  /** Ranges from the largest down, and the number up to which history was given up. */
  datatype History = History(ranges: seq<Range>, forgotten: Option<Number>)

  const NEW_HISTORY := History([], None)

  predicate Forgotten(h: History, n: nat) { h.forgotten.Some? && n <= h.forgotten.value }

  /** `n` is in the retained history. */
  ghost predicate Holds(ranges: seq<Range>, n: nat)
  {
    exists i :: 0 <= i < |ranges| && ranges[i].Has(n)
  }

  /** Ranges are proper, descending, and separated by at least one missing number. */
  ghost predicate Ordered(ranges: seq<Range>)
  {
    && (forall i :: 0 <= i < |ranges| ==> ranges[i].smallest <= ranges[i].largest)
    && (forall i, j :: 0 <= i < j < |ranges| ==> ranges[j].largest + 1 < ranges[i].smallest)
  }

  ghost predicate Valid(h: History)
  {
    && |h.ranges| <= MAX_RANGES && Ordered(h.ranges) && (h.forgotten.Some? ==> h.ranges != [])
    && (forall i :: 0 <= i < |h.ranges| ==> !Forgotten(h, h.ranges[i].smallest))
  }

  predicate Adjacent(previous: Number, next: Number) { previous != MAX_U64 && previous + 1 == next }

  // ---- where a number belongs ----

  datatype Place = Duplicate | Above(i: nat) | Below(i: nat) | Between(i: nat)

  /** The scan shared by lookup and insertion: the first range that decides about `n`. */
  function Find(ranges: seq<Range>, n: Number, i: nat): (r: Place)
    requires i <= |ranges|
    ensures r.Above? || r.Below? ==> r.i < |ranges|
    ensures r.Between? ==> r.i <= |ranges|
    decreases |ranges| - i
  {
    if i == |ranges| then Between(i)
    else if n > ranges[i].largest then (if Adjacent(ranges[i].largest, n) then Above(i) else Between(i))
    else if n >= ranges[i].smallest then Duplicate
    else if Adjacent(n, ranges[i].smallest) then Below(i)
    else Find(ranges, n, i + 1)
  }

  /** What the scan's answer means: everything before it lies well above `n`, everything after it
      well below. */
  ghost predicate Placed(ranges: seq<Range>, n: Number, place: Place)
  {
    match place
    case Duplicate => Holds(ranges, n)
    case Above(i) => i < |ranges| && ranges[i].largest + 1 == n && (forall j :: 0 <= j < i ==> n < ranges[j].smallest)
    case Below(i) => i < |ranges| && n + 1 == ranges[i].smallest && (forall j :: i < j < |ranges| ==> ranges[j].largest < n)
    case Between(i) =>
      && i <= |ranges|
      && (forall j :: 0 <= j < i ==> n + 1 < ranges[j].smallest)
      && (forall j :: i <= j < |ranges| ==> ranges[j].largest + 1 < n)
  }

  lemma {:induction false} FindPlaces(ranges: seq<Range>, n: Number, i: nat)
    requires Ordered(ranges) && i <= |ranges| && forall j :: 0 <= j < i ==> n + 1 < ranges[j].smallest
    ensures Placed(ranges, n, Find(ranges, n, i))
    decreases |ranges| - i
  {
    if i < |ranges| && n < ranges[i].smallest && !Adjacent(n, ranges[i].smallest) {
      FindPlaces(ranges, n, i + 1);
    }
  }

  // ---- recording ----

  function Insert(h: History, i: nat, n: Number): (r: (History, bool))
    requires i <= |h.ranges|
  {
    var last := |h.ranges| - 1;
    if |h.ranges| == MAX_RANGES && i == |h.ranges| then (h, false)
    else if |h.ranges| == MAX_RANGES then
      var lost := h.ranges[last].largest;
      (History(h.ranges[..i] + [Range(n, n)] + h.ranges[i..last],
               Some(if h.forgotten.Some? && h.forgotten.value > lost then h.forgotten.value else lost)), true)
    else (h.(ranges := h.ranges[..i] + [Range(n, n)] + h.ranges[i..]), true)
  }

  /** Range `i` grows up to `n`, and joins the range above when that closes the gap. */
  function Raised(rs: seq<Range>, i: nat, n: Number): seq<Range>
    requires i < |rs|
  {
    if i != 0 && Adjacent(n, rs[i - 1].smallest)
    then rs[..i - 1] + [Range(rs[i].smallest, rs[i - 1].largest)] + rs[i + 1..]
    else rs[i := Range(rs[i].smallest, n)]
  }

  /** Range `i` grows down to `n`, and joins the range below when that closes the gap. */
  function Lowered(rs: seq<Range>, i: nat, n: Number): seq<Range>
    requires i < |rs|
  {
    if i + 1 < |rs| && Adjacent(rs[i + 1].largest, n)
    then rs[..i] + [Range(rs[i + 1].smallest, rs[i].largest)] + rs[i + 2..]
    else rs[i := Range(n, rs[i].largest)]
  }

  /** Records a number, merging it with its neighbours; false for a duplicate, for a forgotten
      number, and for one that would start a new oldest range in a full table. */
  function Record(h: History, n: Number): (r: (History, bool))
  {
    if Forgotten(h, n) then (h, false)
    else
      var rs := h.ranges;
      match Find(rs, n, 0)
      case Duplicate => (h, false)
      case Between(i) => Insert(h, i, n)
      case Above(i) => (h.(ranges := Raised(rs, i, n)), true)
      case Below(i) => (h.(ranges := Lowered(rs, i, n)), true)
  }

  /** A record takes effect exactly when the number is neither known nor forgotten, and is not a
      stray number below everything a full table holds. */
  lemma RecordedWhen(h: History, n: Number)
    requires Valid(h)
    ensures Record(h, n).1 <==>
              && !Holds(h.ranges, n) && !Forgotten(h, n)
              && !(|h.ranges| == MAX_RANGES && n + 1 < h.ranges[MAX_RANGES - 1].smallest)
  {
    FindPlaces(h.ranges, n, 0);
  }

  /** The effect of a successful record on the set of retained numbers, minus what was forgotten. */
  ghost predicate Recorded(h: History, n: Number, h': History)
  {
    && Valid(h') && !Forgotten(h', n)
    && (forall x: nat :: Forgotten(h, x) ==> Forgotten(h', x))
    && (forall x: nat :: Holds(h'.ranges, x) <==> (Holds(h.ranges, x) || x == n) && !Forgotten(h', x))
  }

  lemma HoldsConcat(a: seq<Range>, b: seq<Range>, x: nat)
    ensures Holds(a + b, x) <==> Holds(a, x) || Holds(b, x)
  {
    if Holds(a, x) {
      var i :| 0 <= i < |a| && a[i].Has(x);
      assert (a + b)[i].Has(x);
    }
    if Holds(b, x) {
      var i :| 0 <= i < |b| && b[i].Has(x);
      assert (a + b)[|a| + i].Has(x);
    }
  }

  lemma HoldsOne(r: Range, x: nat)
    ensures Holds([r], x) <==> r.Has(x)
  {
    assert [r][0] == r;
  }

  /** Replacing the ranges `from..to` by one range changes what is held there and nowhere else. */
  lemma HoldsReplaced(rs: seq<Range>, from: nat, to: nat, r: Range, x: nat)
    requires from <= to <= |rs|
    ensures Holds(rs, x) <==> Holds(rs[..from], x) || Holds(rs[from..to], x) || Holds(rs[to..], x)
    ensures Holds(rs[..from] + [r] + rs[to..], x) <==> Holds(rs[..from], x) || r.Has(x) || Holds(rs[to..], x)
  {
    assert rs == rs[..from] + rs[from..to] + rs[to..];
    HoldsConcat(rs[..from] + rs[from..to], rs[to..], x);
    HoldsConcat(rs[..from], rs[from..to], x);
    HoldsConcat(rs[..from] + [r], rs[to..], x);
    HoldsConcat(rs[..from], [r], x);
    HoldsOne(r, x);
  }

  /** One range in place of the ranges `from..to`, clear of its neighbours. */
  lemma OrderedReplaced(rs: seq<Range>, from: nat, to: nat, r: Range)
    requires Ordered(rs) && from <= to <= |rs| && r.smallest <= r.largest
    requires forall j :: 0 <= j < from ==> r.largest + 1 < rs[j].smallest
    requires forall j :: to <= j < |rs| ==> rs[j].largest + 1 < r.smallest
    ensures Ordered(rs[..from] + [r] + rs[to..])
  {
    var s := rs[..from] + [r] + rs[to..];
    forall i | 0 <= i < |s| ensures s[i].smallest <= s[i].largest { }
    forall i, j | 0 <= i < j < |s| ensures s[j].largest + 1 < s[i].smallest { }
  }

  lemma InsertWithRoom(h: History, i: nat, n: Number)
    requires Valid(h) && !Forgotten(h, n) && Placed(h.ranges, n, Between(i)) && |h.ranges| < MAX_RANGES
    ensures Recorded(h, n, h.(ranges := h.ranges[..i] + [Range(n, n)] + h.ranges[i..]))
  {
    var rs := h.ranges;
    var h' := h.(ranges := rs[..i] + [Range(n, n)] + rs[i..]);
    OrderedReplaced(rs, i, i, Range(n, n));
    HeldIsRemembered(h);
    forall x: nat ensures Holds(h'.ranges, x) <==> Holds(rs, x) || x == n { HoldsReplaced(rs, i, i, Range(n, n), x); }
  }

  /** The oldest range goes, and everything up to its largest number is forgotten. */
  lemma InsertEvicting(h: History, i: nat, n: Number, h': History)
    requires Valid(h) && !Forgotten(h, n) && Placed(h.ranges, n, Between(i))
    requires |h.ranges| == MAX_RANGES && i < MAX_RANGES && Insert(h, i, n) == (h', true)
    ensures Recorded(h, n, h')
  {
    var rs, last := h.ranges, MAX_RANGES - 1;
    var kept := rs[..last];
    assert h'.ranges == kept[..i] + [Range(n, n)] + kept[i..];
    OrderedReplaced(kept, i, i, Range(n, n));
    HeldIsRemembered(h);
    forall x: nat ensures Holds(h'.ranges, x) <==> (Holds(rs, x) || x == n) && !Forgotten(h', x) {
      EvictedHolds(h, i, n, h', x);
    }
    forall k | 0 <= k < |h'.ranges| ensures !Forgotten(h', h'.ranges[k].smallest) {
      assert h'.ranges[k].Has(h'.ranges[k].smallest) && Holds(h'.ranges, h'.ranges[k].smallest);
    }
  }

  lemma EvictedHolds(h: History, i: nat, n: Number, h': History, x: nat)
    requires Valid(h) && !Forgotten(h, n) && Placed(h.ranges, n, Between(i))
    requires |h.ranges| == MAX_RANGES && i < MAX_RANGES && Insert(h, i, n) == (h', true)
    ensures Holds(h'.ranges, x) <==> (Holds(h.ranges, x) || x == n) && !Forgotten(h', x)
  {
    hide Holds;
    var rs, last := h.ranges, MAX_RANGES - 1;
    var kept := rs[..last];
    assert h'.ranges == kept[..i] + [Range(n, n)] + kept[i..];
    HoldsReplaced(kept, i, i, Range(n, n), x);
    assert rs == kept + [rs[last]];
    HoldsConcat(kept, [rs[last]], x);
    HoldsOne(rs[last], x);
    if Holds(kept, x) { KeptIsAbove(rs, last, x); }
    HeldIsRemembered(h);
    NothingHeld(x);
    assert kept[i..i] == [];
    assert n > rs[last].largest;
  }

  lemma NothingHeld(x: nat)
    ensures !Holds([], x)
  {
  }

  lemma KeptIsAbove(rs: seq<Range>, last: nat, x: nat)
    requires Ordered(rs) && last < |rs| && Holds(rs[..last], x)
    ensures x > rs[last].largest
  {
    var k :| 0 <= k < last && rs[..last][k].Has(x);
    assert rs[last].largest + 1 < rs[k].smallest;
  }

  lemma InsertRecords(h: History, i: nat, n: Number)
    requires Valid(h) && !Forgotten(h, n) && Placed(h.ranges, n, Between(i)) && Insert(h, i, n).1
    ensures Recorded(h, n, Insert(h, i, n).0)
  {
    hide Recorded, Holds;
    if |h.ranges| < MAX_RANGES {
      InsertWithRoom(h, i, n);
    } else {
      InsertEvicting(h, i, n, Insert(h, i, n).0);
    }
  }

  /** Nothing held is forgotten. */
  lemma HeldIsRemembered(h: History)
    requires Valid(h)
    ensures forall x: nat :: Holds(h.ranges, x) ==> !Forgotten(h, x)
  {
  }

  /** Widening or merging: one range takes the place of one or two and gains exactly `n`. */
  lemma MergeRecords(h: History, n: Number, from: nat, to: nat, r: Range)
    requires Valid(h) && !Forgotten(h, n) && from < to <= |h.ranges| && r.smallest <= r.largest
    requires forall j :: 0 <= j < from ==> r.largest + 1 < h.ranges[j].smallest
    requires forall j :: to <= j < |h.ranges| ==> h.ranges[j].largest + 1 < r.smallest
    requires forall x: nat :: r.Has(x) <==> x == n || Holds(h.ranges[from..to], x)
    ensures Recorded(h, n, h.(ranges := h.ranges[..from] + [r] + h.ranges[to..]))
  {
    var h', rs := h.(ranges := h.ranges[..from] + [r] + h.ranges[to..]), h.ranges;
    OrderedReplaced(rs, from, to, r);
    HeldIsRemembered(h);
    forall x: nat ensures Holds(h'.ranges, x) <==> Holds(rs, x) || x == n {
      HoldsReplaced(rs, from, to, r, x);
    }
    assert Holds(h'.ranges, r.smallest) by { HoldsReplaced(rs, from, to, r, r.smallest); }
    forall i | 0 <= i < |h'.ranges| ensures !Forgotten(h', h'.ranges[i].smallest) {
      assert h'.ranges[i].Has(h'.ranges[i].smallest);
      assert Holds(h'.ranges, h'.ranges[i].smallest);
    }
  }

  lemma TwoHeld(rs: seq<Range>, i: nat, x: nat)
    requires i + 1 < |rs|
    ensures Holds(rs[i..i + 2], x) <==> rs[i].Has(x) || rs[i + 1].Has(x)
  {
    assert rs[i..i + 2] == [rs[i]] + [rs[i + 1]];
    HoldsConcat([rs[i]], [rs[i + 1]], x);
    HoldsOne(rs[i], x);
    HoldsOne(rs[i + 1], x);
  }

  lemma OneHeld(rs: seq<Range>, i: nat, x: nat)
    requires i < |rs|
    ensures Holds(rs[i..i + 1], x) <==> rs[i].Has(x)
  {
    assert rs[i..i + 1] == [rs[i]];
    HoldsOne(rs[i], x);
  }

  lemma WidenRecords(h: History, n: Number, i: nat, r: Range)
    requires Valid(h) && !Forgotten(h, n) && i < |h.ranges|
    requires || (r == Range(h.ranges[i].smallest, n) && h.ranges[i].largest + 1 == n)
             || (r == Range(n, h.ranges[i].largest) && n + 1 == h.ranges[i].smallest)
    requires forall j :: 0 <= j < i ==> r.largest + 1 < h.ranges[j].smallest
    requires forall j :: i < j < |h.ranges| ==> h.ranges[j].largest + 1 < r.smallest
    ensures Recorded(h, n, h.(ranges := h.ranges[i := r]))
  {
    hide Holds, Recorded;
    var rs := h.ranges;
    forall x: nat ensures r.Has(x) <==> x == n || Holds(rs[i..i + 1], x) { OneHeld(rs, i, x); }
    MergeRecords(h, n, i, i + 1, r);
    assert rs[i := r] == rs[..i] + [r] + rs[i + 1..];
  }

  /** `n` closes the gap between two neighbours. */
  lemma BridgeRecords(h: History, n: Number, i: nat, r: Range)
    requires Valid(h) && !Forgotten(h, n) && i + 1 < |h.ranges| && r == Range(h.ranges[i + 1].smallest, h.ranges[i].largest)
    requires h.ranges[i + 1].largest + 1 == n && n + 1 == h.ranges[i].smallest
    ensures Recorded(h, n, h.(ranges := h.ranges[..i] + [r] + h.ranges[i + 2..]))
  {
    hide Holds, Recorded;
    var rs := h.ranges;
    forall x: nat ensures r.Has(x) <==> x == n || Holds(rs[i..i + 2], x) { TwoHeld(rs, i, x); }
    MergeRecords(h, n, i, i + 2, r);
  }

  lemma AboveRecords(h: History, n: Number, i: nat)
    requires Valid(h) && !Forgotten(h, n) && Find(h.ranges, n, 0) == Above(i) && Placed(h.ranges, n, Above(i))
    ensures Recorded(h, n, Record(h, n).0)
  {
    hide Holds, Recorded, Find;
    var rs := h.ranges;
    if i != 0 && Adjacent(n, rs[i - 1].smallest) {
      BridgeRecords(h, n, i - 1, Range(rs[i].smallest, rs[i - 1].largest));
    } else {
      forall j | 0 <= j < i ensures n + 1 < rs[j].smallest { assert j == i - 1 || rs[i - 1].largest + 1 < rs[j].smallest; }
      WidenRecords(h, n, i, Range(rs[i].smallest, n));
    }
  }

  lemma BelowRecords(h: History, n: Number, i: nat)
    requires Valid(h) && !Forgotten(h, n) && Find(h.ranges, n, 0) == Below(i) && Placed(h.ranges, n, Below(i))
    ensures Recorded(h, n, Record(h, n).0)
  {
    hide Holds, Recorded, Find;
    var rs := h.ranges;
    if i + 1 < |rs| && Adjacent(rs[i + 1].largest, n) {
      BridgeRecords(h, n, i, Range(rs[i + 1].smallest, rs[i].largest));
    } else {
      forall j | i < j < |rs| ensures rs[j].largest + 1 < n { assert j == i + 1 || rs[j].largest + 1 < rs[i + 1].smallest; }
      WidenRecords(h, n, i, Range(n, rs[i].largest));
    }
  }

  /** A successful record adds the number and keeps every other retained number, except those it
      gives up for good to stay within 32 ranges; a failed one changes nothing. */
  lemma RecordEffect(h: History, n: Number)
    requires Valid(h)
    ensures var (h', ok) := Record(h, n); if ok then Recorded(h, n, h') else h' == h
  {
    FindPlaces(h.ranges, n, 0);
    if Record(h, n).1 {
      match Find(h.ranges, n, 0) {
        case Between(i) => InsertRecords(h, i, n);
        case Above(i) => AboveRecords(h, n, i);
        case Below(i) => BelowRecords(h, n, i);
      }
    }
  }

  /** `n` touches nothing retained. */
  ghost predicate Isolated(h: History, n: nat)
  {
    !Holds(h.ranges, n) && !Holds(h.ranges, n + 1) && (n > 0 ==> !Holds(h.ranges, n - 1))
  }

  /** History is given up only to make room: an isolated number in a full table costs exactly the
      oldest range and whatever lies below it; no other record forgets anything. */
  lemma ForgetsWhen(h: History, n: Number, x: nat)
    requires Valid(h) && Record(h, n).1
    ensures Forgotten(Record(h, n).0, x) <==>
              Forgotten(h, x) || (|h.ranges| == MAX_RANGES && Isolated(h, n) && x <= h.ranges[MAX_RANGES - 1].largest)
  {
    FindPlaces(h.ranges, n, 0);
    match Find(h.ranges, n, 0) {
      case Between(i) => BetweenIsIsolated(h, n, i);
      case Above(i) => assert h.ranges[i].Has(n - 1);
      case Below(i) => assert h.ranges[i].Has(n + 1);
    }
  }

  lemma BetweenIsIsolated(h: History, n: Number, i: nat)
    requires Placed(h.ranges, n, Between(i))
    ensures Isolated(h, n)
  {
    forall j | 0 <= j < |h.ranges| ensures n + 1 < h.ranges[j].smallest || h.ranges[j].largest + 1 < n { }
  }

  // ---- every number at most once ----

  function After(h: History, ns: seq<Number>): History
  {
    if ns == [] then h else Record(After(h, ns[..|ns| - 1]), ns[|ns| - 1]).0
  }

  /** The numbers whose recording succeeded. */
  function Accepted(h: History, ns: seq<Number>): set<nat>
  {
    if ns == [] then {}
    else var before, n := ns[..|ns| - 1], ns[|ns| - 1];
         Accepted(h, before) + (if Record(After(h, before), n).1 then {n as nat} else {})
  }

  /** The retained history is exactly what was accepted and has not been forgotten since. */
  ghost predicate Faithful(h: History, accepted: set<nat>)
  {
    Valid(h) && forall x: nat :: Holds(h.ranges, x) <==> x in accepted && !Forgotten(h, x)
  }

  lemma {:induction false} HistoryIsFaithful(ns: seq<Number>)
    ensures Faithful(After(NEW_HISTORY, ns), Accepted(NEW_HISTORY, ns))
  {
    hide Record;
    if ns != [] {
      var before, n := ns[..|ns| - 1], ns[|ns| - 1];
      HistoryIsFaithful(before);
      RecordEffect(After(NEW_HISTORY, before), n);
      RecordedWhen(After(NEW_HISTORY, before), n);
    }
  }

  /** Whether the `i`-th number was recorded, i.e. whether its packet was processed. */
  ghost predicate AcceptedAt(ns: seq<Number>, i: nat)
    requires i < |ns|
  {
    Record(After(NEW_HISTORY, ns[..i]), ns[i]).1
  }

  /** No packet number is ever processed twice, however packets are reordered and replayed and
      however much history the bound forces out; and a new one is turned away only when it lies in
      the forgotten past or below everything a full table holds. */
  lemma AtMostOnce(ns: seq<Number>, j: nat)
    requires j < |ns|
    ensures AcceptedAt(ns, j) <==>
              var h := After(NEW_HISTORY, ns[..j]);
              && (forall i :: 0 <= i < j && ns[i] == ns[j] ==> !AcceptedAt(ns, i))
              && !Forgotten(h, ns[j]) && !(|h.ranges| == MAX_RANGES && ns[j] + 1 < h.ranges[MAX_RANGES - 1].smallest)
  {
    hide Record, After, Accepted;
    HistoryIsFaithful(ns[..j]);
    RecordedWhen(After(NEW_HISTORY, ns[..j]), ns[j]);
    AcceptedIffSome(ns[..j], ns[j]);
    assert forall i :: 0 <= i < j ==> ns[..j][..i] == ns[..i];
  }

  lemma {:induction false} AcceptedIffSome(ns: seq<Number>, n: Number)
    ensures n in Accepted(NEW_HISTORY, ns) <==> exists i :: 0 <= i < |ns| && ns[i] == n && AcceptedAt(ns, i)
  {
    hide Record, After;
    if ns != [] {
      var m := |ns| - 1;
      AcceptedIffSome(ns[..m], n);
      assert forall i :: 0 <= i <= m ==> ns[..m][..i] == ns[..i];
      assert ns[m] == n && AcceptedAt(ns, m) ==> n in Accepted(NEW_HISTORY, ns);
      if i :| 0 <= i < m && ns[..m][i] == n && AcceptedAt(ns[..m], i) {
        assert AcceptedAt(ns, i);
      }
    }
  }

  // ---- acknowledging ----

  datatype AckRange = AckRange(gap: nat, length: nat)
  datatype AckFrame = AckFrame(largest: nat, first: nat, ranges: seq<AckRange>)

  predicate Apart(upper: Range, lower: Range)
  {
    lower.smallest <= lower.largest && lower.largest + 1 < upper.smallest
  }

  /** The gap between two neighbouring ranges and the length of the lower one; the subtractions do
      not wrap because neighbours are apart. */
  function AckRangeOf(upper: Range, lower: Range): AckRange
    requires Apart(upper, lower)
  {
    AckRange(upper.smallest - lower.largest - 2, lower.largest - lower.smallest)
  }

  function AckRangesOf(rs: seq<Range>): seq<AckRange>
    requires Ordered(rs) && rs != []
  {
    seq(|rs| - 1, k requires 0 <= k < |rs| - 1 => AckRangeOf(rs[k], rs[k + 1]))
  }

  lemma AckRangeAt(rs: seq<Range>, k: nat)
    requires Ordered(rs) && k + 1 < |rs|
    ensures |AckRangesOf(rs)| == |rs| - 1 && Apart(rs[k], rs[k + 1]) && AckRangesOf(rs)[k] == AckRangeOf(rs[k], rs[k + 1])
  {
  }

  lemma AckRangeCount(rs: seq<Range>)
    requires Ordered(rs) && rs != []
    ensures |AckRangesOf(rs)| == |rs| - 1
  {
  }

  /** The acknowledgement for everything retained. */
  function AckFrameOf(h: History): Option<AckFrame>
    requires Ordered(h.ranges)
  {
    if h.ranges == [] then None
    else Some(AckFrame(h.ranges[0].largest, h.ranges[0].largest - h.ranges[0].smallest, AckRangesOf(h.ranges)))
  }

  /** The peer's reading of an ACK frame: walk the gaps and lengths down from the largest number. */
  predicate AckContains(ack: AckFrame, n: nat)
  {
    ack.first <= ack.largest &&
    (ack.largest - ack.first <= n <= ack.largest || AckContainsBelow(ack.ranges, ack.largest - ack.first, n))
  }

  predicate AckContainsBelow(ranges: seq<AckRange>, smallest: nat, n: nat)
  {
    if ranges == [] || ranges[0].gap + 2 > MAX_U64 || smallest < ranges[0].gap + 2 then false
    else
      var largest := smallest - (ranges[0].gap + 2);
      if ranges[0].length > largest then false
      else largest - ranges[0].length <= n <= largest || AckContainsBelow(ranges[1..], largest - ranges[0].length, n)
  }

  predicate AckValid(ack: AckFrame)
  {
    ack.first <= ack.largest && AckValidBelow(ack.ranges, ack.largest - ack.first)
  }

  predicate AckValidBelow(ranges: seq<AckRange>, smallest: nat)
  {
    ranges == [] ||
    (ranges[0].gap + 2 <= MAX_U64 && ranges[0].gap + 2 <= smallest &&
     var largest := smallest - (ranges[0].gap + 2);
     ranges[0].length <= largest && AckValidBelow(ranges[1..], largest - ranges[0].length))
  }

  /** How far a frame's ranges reach down below its first one. */
  function Reach(ranges: seq<AckRange>): nat
  {
    if ranges == [] then 0 else ranges[0].gap + 2 + ranges[0].length + Reach(ranges[1..])
  }

  lemma {:induction false} ReachFits(ranges: seq<AckRange>, smallest: nat)
    requires smallest <= MAX_U64
    ensures AckValidBelow(ranges, smallest) <==> Reach(ranges) <= smallest
  {
    if ranges != [] && ranges[0].gap + 2 + ranges[0].length <= smallest {
      ReachFits(ranges[1..], smallest - (ranges[0].gap + 2) - ranges[0].length);
    }
  }

  /** A frame is well formed exactly when its ranges do not reach below packet number 0. */
  lemma AckValidWhen(ack: AckFrame)
    requires ack.largest <= MAX_U64
    ensures AckValid(ack) <==> ack.first + Reach(ack.ranges) <= ack.largest
  {
    hide AckValidBelow, Reach;
    if ack.first <= ack.largest {
      ReachFits(ack.ranges, ack.largest - ack.first);
    }
  }

  /** The range after the first `k` lies below them: its largest number. */
  function Top(smallest: nat, ranges: seq<AckRange>, k: nat): int
    requires k < |ranges|
  {
    smallest - Reach(ranges[..k]) - ranges[k].gap - 2
  }

  lemma {:induction false} AckReadsBelow(ranges: seq<AckRange>, smallest: nat, n: nat)
    requires AckValidBelow(ranges, smallest)
    ensures AckContainsBelow(ranges, smallest, n) <==>
              exists k :: 0 <= k < |ranges| && Top(smallest, ranges, k) - ranges[k].length <= n <= Top(smallest, ranges, k)
  {
    if ranges != [] {
      var bottom := smallest - (ranges[0].gap + 2) - ranges[0].length;
      AckReadsBelow(ranges[1..], bottom, n);
      forall k | 0 < k < |ranges|
        ensures ranges[1..][k - 1] == ranges[k] && Top(smallest, ranges, k) == Top(bottom, ranges[1..], k - 1)
      {
        assert ranges[..k][1..] == ranges[1..][..k - 1];
      }
      assert Top(smallest, ranges, 0) == smallest - ranges[0].gap - 2;
      if k :| 0 <= k < |ranges[1..]| && Top(bottom, ranges[1..], k) - ranges[1..][k].length <= n <= Top(bottom, ranges[1..], k) {
        assert Top(smallest, ranges, k + 1) - ranges[k + 1].length <= n <= Top(smallest, ranges, k + 1);
      }
    }
  }

  /** Reading any well-formed frame: a number is acknowledged exactly when it lies in the first range
      or in one placed by the gaps and lengths above it. */
  lemma AckReads(ack: AckFrame, n: nat)
    requires AckValid(ack)
    ensures var smallest := ack.largest - ack.first;
            AckContains(ack, n) <==>
              || smallest <= n <= ack.largest
              || exists k :: 0 <= k < |ack.ranges| &&
                   Top(smallest, ack.ranges, k) - ack.ranges[k].length <= n <= Top(smallest, ack.ranges, k)
  {
    AckReadsBelow(ack.ranges, ack.largest - ack.first, n);
  }

  lemma HoldsSplit(rs: seq<Range>, k: nat, n: nat)
    requires k < |rs|
    ensures Holds(rs[k..], n) <==> rs[k].Has(n) || Holds(rs[k + 1..], n)
  {
    assert rs[k..] == [rs[k]] + rs[k + 1..];
    HoldsConcat([rs[k]], rs[k + 1..], n);
    HoldsOne(rs[k], n);
  }

  lemma {:induction false} AckTail(rs: seq<Range>, k: nat, n: nat)
    requires Ordered(rs) && k < |rs|
    ensures AckContainsBelow(AckRangesOf(rs)[k..], rs[k].smallest, n) <==> Holds(rs[k + 1..], n)
    ensures AckValidBelow(AckRangesOf(rs)[k..], rs[k].smallest)
    decreases |rs| - k
  {
    hide Holds, AckRangesOf;
    var acks := AckRangesOf(rs);
    if k + 1 < |rs| {
      AckRangeAt(rs, k);
      AckTail(rs, k + 1, n);
      assert acks[k..][0] == acks[k] && acks[k..][1..] == acks[k + 1..];
      HoldsSplit(rs, k + 1, n);
    } else {
      assert |acks| == k by { AckRangeCount(rs); }
      assert acks[k..] == [] && rs[k + 1..] == [];
      NothingHeld(n);
    }
  }

  /** Acknowledgement round trip: the frame is well formed, and the peer reads out of it exactly the
      retained packet numbers. */
  lemma AckRoundTrip(h: History, n: nat)
    requires Valid(h) && h.ranges != []
    ensures AckValid(AckFrameOf(h).value) && (AckContains(AckFrameOf(h).value, n) <==> Holds(h.ranges, n))
  {
    hide Holds, AckContainsBelow, AckValidBelow, AckRangesOf;
    AckTail(h.ranges, 0, n);
    assert AckRangesOf(h.ranges)[0..] == AckRangesOf(h.ranges) && h.ranges[0..] == h.ranges;
    HoldsSplit(h.ranges, 0, n);
  }

  // ---- queries ----

  /** The lookup as coded: it goes on to the next, lower range when the number lies above the
      present one, and decides at the first range the number does not lie above. */
  predicate Contains(ranges: seq<Range>, n: Number, i: nat)
    requires i <= |ranges|
    decreases |ranges| - i
  {
    if i == |ranges| then false
    else if n > ranges[i].largest then Contains(ranges, n, i + 1)
    else n >= ranges[i].smallest
  }

  /** Ranges descend, so the lookup decides at the newest range or not at all. */
  lemma {:induction false} ContainsSeesNewestOnly(ranges: seq<Range>, n: Number, i: nat)
    requires Ordered(ranges) && i <= |ranges|
    ensures Contains(ranges, n, i) <==> i < |ranges| && ranges[i].Has(n)
    decreases |ranges| - i
  {
    if i < |ranges| && n > ranges[i].largest {
      ContainsSeesNewestOnly(ranges, n, i + 1);
      assert i + 1 < |ranges| ==> ranges[i + 1].largest + 1 < ranges[i].smallest;
    }
  }

  /** A retained number the lookup denies: after packets 0 and 2, packet 0. */
  lemma ContainsMissesOlderRange()
    ensures var h := After(NEW_HISTORY, [0, 2]);
            Holds(h.ranges, 0) && !Contains(h.ranges, 0, 0)
  {
    assert [0, 2][..1] == [0] && [0][..0] == [];
    var h1 := Record(NEW_HISTORY, 0).0;
    assert h1.ranges == [Range(0, 0)];
    assert After(NEW_HISTORY, [0]) == h1;
    var h2 := Record(h1, 2).0;
    assert h2.ranges == [Range(2, 2), Range(0, 0)];
    assert h2.ranges[1].Has(0);
  }

  /** The lookup is right about every number exactly when at most one range is held. */
  lemma ContainsCorrectIff(h: History)
    requires Valid(h)
    ensures (forall n: Number :: Contains(h.ranges, n, 0) <==> Holds(h.ranges, n)) <==> |h.ranges| <= 1
  {
    var rs := h.ranges;
    if |rs| <= 1 {
      forall n: Number ensures Contains(rs, n, 0) <==> Holds(rs, n) { ContainsSeesNewestOnly(rs, n, 0); }
    } else {
      var n := rs[1].smallest;
      ContainsSeesNewestOnly(rs, n, 0);
      assert rs[1].Has(n);
      assert Holds(rs, n) && !Contains(rs, n, 0);
    }
  }

  /** The number expected next. */
  function NextExpected(h: History): Number
  {
    if h.ranges == [] then 0 else if h.ranges[0].largest == MAX_U64 then MAX_U64 else h.ranges[0].largest + 1
  }

  /** It is one above the largest retained number, unless the number space is used up. */
  lemma NextExpectedIsNew(h: History)
    requires Valid(h)
    ensures forall x: nat :: Holds(h.ranges, x) ==> x < NextExpected(h) || x == MAX_U64
    ensures h.ranges != [] && !Holds(h.ranges, MAX_U64) ==> NextExpected(h) > 0 && Holds(h.ranges, NextExpected(h) - 1)
  {
    if h.ranges != [] {
      assert h.ranges[0].Has(h.ranges[0].largest);
    }
    forall x: nat | Holds(h.ranges, x) ensures x < NextExpected(h) || x == MAX_U64 {
      var i :| 0 <= i < |h.ranges| && h.ranges[i].Has(x);
      assert i == 0 || h.ranges[i].largest + 1 < h.ranges[0].smallest;
    }
  }

  // ---- the table ----

  class ReceivedPacketRanges {
    const table: array<Range>
    var count: nat
    const ackRanges: array<AckRange>
    var forgotten: Option<Number>

    ghost predicate Shaped()
      reads this
    {
      table.Length == MAX_RANGES && ackRanges.Length == MAX_RANGES - 1 && count <= MAX_RANGES
    }

    ghost function View(): History
      requires Shaped()
      reads this, table
    {
      History(table[..count], forgotten)
    }

    constructor ()
      ensures Shaped() && View() == NEW_HISTORY && fresh(table) && fresh(ackRanges)
    {
      table := new Range[MAX_RANGES](i => Range(0, 0));
      ackRanges := new AckRange[MAX_RANGES - 1](i => AckRange(0, 0));
      count, forgotten := 0, None;
    }

    method Remove(index: nat)
      requires Shaped() && index < count
      modifies this`count, table
      ensures Shaped() && table[..count] == old(table[..count])[..index] + old(table[..count])[index + 1..]
    {
      forall i | index <= i < count - 1 {
        table[i] := table[i + 1];
      }
      count := count - 1;
    }

    method Place(index: nat, range: Range)
      requires Shaped() && index <= count < MAX_RANGES
      modifies this`count, table
      ensures Shaped() && table[..count] == old(table[..count])[..index] + [range] + old(table[..count])[index..]
    {
      forall i | index < i <= count {
        table[i] := table[i - 1];
      }
      table[index] := range;
      count := count + 1;
    }

    method InsertAt(index: nat, n: Number) returns (ok: bool)
      requires Shaped() && index <= count
      modifies this, table
      ensures Shaped() && (View(), ok) == Insert(old(View()), index, n)
    {
      if count == MAX_RANGES && index == count {
        return false;
      }
      ghost var rs := table[..count];
      if count == MAX_RANGES {
        var lost := table[count - 1].largest;
        forgotten := Some(if forgotten.Some? && forgotten.value > lost then forgotten.value else lost);
        count := count - 1;
        assert table[..count] == rs[..count] && rs[index..count] == rs[..count][index..] && rs[..index] == rs[..count][..index];
      }
      Place(index, Range(n, n));
      return true;
    }

    /** Whether a record would take effect. */
    method CanRecord(n: Number) returns (can: bool)
      requires Shaped()
      ensures can == Record(View(), n).1
    {
      if forgotten.Some? && n <= forgotten.value {
        return false;
      }
      var index := 0;
      while index < count
        invariant 0 <= index <= count
        invariant Find(table[..count], n, index) == Find(table[..count], n, 0)
      {
        var range := table[index];
        assert table[..count][index] == range;
        if n > range.largest {
          return true;
        }
        if n >= range.smallest {
          return false;
        }
        if Adjacent(n, range.smallest) {
          return true;
        }
        index := index + 1;
      }
      return count < MAX_RANGES;
    }

    method Raise(index: nat, n: Number)
      requires Shaped() && index < count
      modifies this`count, table
      ensures Shaped() && table[..count] == Raised(old(table[..count]), index, n)
    {
      var smallest := table[index].smallest;
      table[index] := Range(smallest, n);
      if index != 0 && Adjacent(n, table[index - 1].smallest) {
        table[index - 1] := Range(smallest, table[index - 1].largest);
        Remove(index);
      }
    }

    method Lower(index: nat, n: Number)
      requires Shaped() && index < count
      modifies this`count, table
      ensures Shaped() && table[..count] == Lowered(old(table[..count]), index, n)
    {
      var largest := table[index].largest;
      ghost var rs := table[..count];
      table[index] := Range(n, largest);
      if index + 1 < count && Adjacent(table[index + 1].largest, n) {
        var joined := Range(table[index + 1].smallest, largest);
        table[index] := joined;
        assert table[..count] == rs[index := joined];
        Remove(index + 1);
        assert rs[index := joined][..index + 1] == rs[..index] + [joined] && rs[index := joined][index + 2..] == rs[index + 2..];
      }
    }

    method RecordNumber(n: Number) returns (ok: bool)
      requires Shaped()
      modifies this, table
      ensures Shaped() && (View(), ok) == Record(old(View()), n)
    {
      hide Insert, Raised, Lowered;
      ok := CanRecord(n);
      if !ok {
        RefusedUnchanged(View(), n);
        return;
      }
      ghost var rs := table[..count];
      var index := 0;
      while index < count
        invariant 0 <= index <= count && Shaped() && table[..count] == rs && View() == old(View())
        invariant Find(rs, n, index) == Find(rs, n, 0)
      {
        var range := table[index];
        assert rs[index] == range;
        if n > range.largest {
          if Adjacent(range.largest, n) {
            Raise(index, n);
            return true;
          }
          ok := InsertAt(index, n);
          return;
        }
        if n >= range.smallest {
          return false;
        }
        if Adjacent(n, range.smallest) {
          Lower(index, n);
          return true;
        }
        index := index + 1;
      }
      ok := InsertAt(count, n);
    }

    method Acknowledge() returns (ack: Option<AckFrame>)
      requires Shaped() && Ordered(View().ranges)
      modifies ackRanges
      ensures Shaped() && View() == old(View()) && ack == AckFrameOf(View())
    {
      hide AckRangesOf, Ordered;
      if count == 0 {
        return None;
      }
      ghost var rs := table[..count];
      AckRangeCount(rs);
      var index := 0;
      while index < count - 1
        invariant 0 <= index <= count - 1 && table[..count] == rs
        invariant ackRanges[..index] == AckRangesOf(rs)[..index]
      {
        AckRangeAt(rs, index);
        assert table[index] == rs[index] && table[index + 1] == rs[index + 1];
        ackRanges[index] := AckRangeOf(table[index], table[index + 1]);
        index := index + 1;
      }
      FirstIsProper(rs);
      assert rs[0] == table[0] && ackRanges[..count - 1] == AckRangesOf(rs);
      ack := Some(AckFrame(table[0].largest, table[0].largest - table[0].smallest, ackRanges[..count - 1]));
    }
  }

  lemma FirstIsProper(rs: seq<Range>)
    requires Ordered(rs) && rs != []
    ensures rs[0].smallest <= rs[0].largest
  {
  }

  lemma RefusedUnchanged(h: History, n: Number)
    requires !Record(h, n).1
    ensures Record(h, n).0 == h
  {
  }
}
