/** Receive-side reassembly of a CRYPTO or STREAM byte stream: frames arrive in any order, may
    repeat and overlap, and must agree on every byte they share. */
module Reassembly {
  import opened Streams

  /** Offsets are QUIC variable-length integers. */
  const MAX_VARINT: nat := 0x3FFF_FFFF_FFFF_FFFF

  /** Bytes at a stream offset: a frame, or a stretch buffered out of order. */
  datatype Chunk = Chunk(offset: nat, bytes: seq<byte>)
  {
    function End(): nat { offset + |bytes| }
    predicate Covers(p: nat) { offset <= p < End() }
    function ByteAt(p: nat): byte requires Covers(p) { bytes[p - offset] }
  }

  /** The contiguous bytes from offset 0, and the stretches beyond them. */
  datatype Inbox = Inbox(data: seq<byte>, pending: seq<Chunk>)

  const EMPTY := Inbox([], [])

  /** The byte known at a position, if any. */
  ghost function Pending(pending: seq<Chunk>, p: nat): Option<byte>
  {
    if pending == [] then None
    else if pending[0].Covers(p) then Some(pending[0].ByteAt(p))
    else Pending(pending[1..], p)
  }

  ghost function Get(x: Inbox, p: nat): Option<byte>
  {
    if p < |x.data| then Some(x.data[p]) else Pending(x.pending, p)
  }

  ghost predicate Disjoint(a: Chunk, b: Chunk) { a.End() <= b.offset || b.End() <= a.offset }

  /** Stretches are nonempty, lie beyond the contiguous bytes, and do not overlap. */
  ghost predicate Valid(x: Inbox)
  {
    && (forall i :: 0 <= i < |x.pending| ==> x.pending[i].bytes != [] && |x.data| <= x.pending[i].offset)
    && (forall i, j :: 0 <= i < j < |x.pending| ==> Disjoint(x.pending[i], x.pending[j]))
  }

  /** The frame says nothing that contradicts a byte already known. */
  ghost predicate Agrees(x: Inbox, f: Chunk)
  {
    forall p :: f.Covers(p) && Get(x, p).Some? ==> Get(x, p).value == f.ByteAt(p)
  }

  /** `y` knows what `x` knew and what the frame says, and nothing else. */
  ghost predicate Absorbs(x: Inbox, f: Chunk, y: Inbox)
  {
    Valid(y) && forall p: nat :: Get(y, p) == if f.Covers(p) then Some(f.ByteAt(p)) else Get(x, p)
  }

  /** `y` knows what `x` knew, and its contiguous bytes reach as far as that allows. */
  ghost predicate Drains(x: Inbox, y: Inbox)
  {
    Valid(y) && (forall p: nat :: Get(y, p) == Get(x, p)) && Get(y, |y.data|).None?
  }

  /** Bytes held, which is what flow control charges for. */
  function Sum(chunks: seq<Chunk>): nat
  {
    if chunks == [] then 0 else |chunks[0].bytes| + Sum(chunks[1..])
  }

  function Size(x: Inbox): nat { |x.data| + Sum(x.pending) }

  lemma {:induction false} SumAppend(chunks: seq<Chunk>, c: Chunk)
    ensures Sum(chunks + [c]) == Sum(chunks) + |c.bytes|
    decreases |chunks|
  {
    if chunks == [] {
      assert chunks + [c] == [c] && [c][1..] == [];
    } else {
      assert (chunks + [c])[1..] == chunks[1..] + [c];
      SumAppend(chunks[1..], c);
    }
  }

  lemma {:induction false} SumRemove(chunks: seq<Chunk>, i: nat)
    requires i < |chunks|
    ensures Sum(chunks[..i] + chunks[i + 1..]) == Sum(chunks) - |chunks[i].bytes|
    decreases i
  {
    if i == 0 {
      assert chunks[..0] + chunks[1..] == chunks[1..];
    } else {
      var rest := chunks[..i] + chunks[i + 1..];
      assert rest[0] == chunks[0] && rest[1..] == chunks[1..][..i - 1] + chunks[1..][i..] && chunks[1..][i..] == chunks[i + 1..];
      SumRemove(chunks[1..], i - 1);
    }
  }

  // ---- lookups ----

  lemma {:induction false} PendingNone(pending: seq<Chunk>, p: nat)
    ensures Pending(pending, p).None? <==> forall i :: 0 <= i < |pending| ==> !pending[i].Covers(p)
    decreases |pending|
  {
    if pending != [] {
      PendingNone(pending[1..], p);
      assert forall i :: 0 < i < |pending| ==> pending[i] == pending[1..][i - 1];
    }
  }

  /** A covering stretch decides the byte, wherever it stands in the list. */
  lemma {:induction false} PendingAt(pending: seq<Chunk>, i: nat, p: nat)
    requires i < |pending| && pending[i].Covers(p)
    requires forall j, k :: 0 <= j < k < |pending| ==> Disjoint(pending[j], pending[k])
    ensures Pending(pending, p) == Some(pending[i].ByteAt(p))
    decreases i
  {
    if i > 0 {
      assert Disjoint(pending[0], pending[i]);
      assert pending[1..][i - 1] == pending[i];
      forall j, k | 0 <= j < k < |pending[1..]| ensures Disjoint(pending[1..][j], pending[1..][k]) {
        assert pending[1..][j] == pending[j + 1] && pending[1..][k] == pending[k + 1];
      }
      PendingAt(pending[1..], i - 1, p);
    }
  }

  lemma {:induction false} PendingAppend(pending: seq<Chunk>, c: Chunk, p: nat)
    ensures Pending(pending + [c], p) ==
            if Pending(pending, p).Some? then Pending(pending, p) else if c.Covers(p) then Some(c.ByteAt(p)) else None
    decreases |pending|
  {
    if pending == [] {
      assert pending + [c] == [c];
      assert [c][1..] == [];
    } else {
      assert (pending + [c])[1..] == pending[1..] + [c];
      PendingAppend(pending[1..], c, p);
    }
  }

  lemma {:induction false} PendingRemove(pending: seq<Chunk>, i: nat, p: nat)
    requires i < |pending| && !pending[i].Covers(p)
    ensures Pending(pending[..i] + pending[i + 1..], p) == Pending(pending, p)
    decreases i
  {
    if i == 0 {
      assert pending[..0] + pending[1..] == pending[1..];
    } else {
      var rest := pending[..i] + pending[i + 1..];
      assert rest[0] == pending[0];
      assert rest[1..] == pending[1..][..i - 1] + pending[1..][i..];
      assert pending[1..][i..] == pending[i + 1..];
      PendingRemove(pending[1..], i - 1, p);
    }
  }

  // ---- one frame ----

  /** Where the earliest stretch meets a range: its place in the list and the shared positions. */
  datatype Overlap = Overlap(index: nat, start: nat, end: nat)

  ghost predicate IsEarliest(pending: seq<Chunk>, start: nat, end: nat, o: Option<Overlap>)
  {
    match o
    case None => forall i, p :: 0 <= i < |pending| && start <= p < end ==> !pending[i].Covers(p)
    case Some(v) =>
      && v.index < |pending| && start <= v.start < v.end <= end
      && (forall p :: v.start <= p < v.end ==> pending[v.index].Covers(p))
      && (forall i, p :: 0 <= i < |pending| && start <= p < v.start ==> !pending[i].Covers(p))
  }

  method EarliestOverlap(pending: seq<Chunk>, start: nat, end: nat) returns (o: Option<Overlap>)
    requires start < end && forall i :: 0 <= i < |pending| ==> pending[i].bytes != []
    ensures IsEarliest(pending, start, end, o)
  {
    o := None;
    var i := 0;
    while i < |pending|
      invariant 0 <= i <= |pending|
      invariant IsEarliest(pending[..i], start, end, o)
    {
      var c := pending[i];
      var from, to := if start > c.offset then start else c.offset, if end < c.End() then end else c.End();
      ghost var seen := pending[..i];
      assert pending[..i + 1] == seen + [c];
      if from < to && (o.None? || from < o.value.start) {
        o := Some(Overlap(i, from, to));
      }
      i := i + 1;
    }
    assert pending[..i] == pending;
  }

  /** The segments collected up to `cursor`: together they say, at exactly the positions the inbox
      did not know, what the frame says. */
  ghost predicate Collected(x: Inbox, f: Chunk, cursor: nat, segs: seq<Chunk>)
  {
    && f.offset <= cursor <= f.End()
    && (forall p :: f.offset <= p < cursor && Get(x, p).Some? ==> Get(x, p).value == f.ByteAt(p))
    && (forall k :: 0 <= k < |segs| ==> segs[k].bytes != [] && |x.data| <= segs[k].offset && segs[k].End() <= cursor)
    && (forall j, k :: 0 <= j < k < |segs| ==> segs[j].End() <= segs[k].offset)
    && (forall p: nat :: Pending(segs, p) == if f.offset <= p < cursor && Get(x, p).None? then Some(f.ByteAt(p)) else None)
  }

  /** The part of a frame between two positions. */
  function Part(f: Chunk, from: nat, to: nat): (r: Chunk)
    requires f.offset <= from <= to <= f.End()
    ensures r.End() == to && |r.bytes| == to - from && forall p :: from <= p < to ==> r.Covers(p) && r.ByteAt(p) == f.ByteAt(p)
  {
    Chunk(from, f.bytes[from - f.offset..to - f.offset])
  }

  /** Unknown positions become a segment. */
  lemma CollectUnknown(x: Inbox, f: Chunk, cursor: nat, to: nat, segs: seq<Chunk>)
    requires Collected(x, f, cursor, segs) && |x.data| <= cursor < to <= f.End()
    requires forall p :: cursor <= p < to ==> Get(x, p).None?
    ensures Collected(x, f, to, segs + [Part(f, cursor, to)])
  {
    var part := Part(f, cursor, to);
    forall p: nat
      ensures Pending(segs + [part], p) == if f.offset <= p < to && Get(x, p).None? then Some(f.ByteAt(p)) else None
    {
      PendingAppend(segs, part, p);
    }
  }

  /** Known positions that agree are skipped. */
  lemma CollectKnown(x: Inbox, f: Chunk, cursor: nat, to: nat, segs: seq<Chunk>)
    requires Collected(x, f, cursor, segs) && cursor <= to <= f.End()
    requires forall p :: cursor <= p < to ==> Get(x, p) == Some(f.ByteAt(p))
    ensures Collected(x, f, to, segs)
  {
  }

  /** A stretch and the frame agree between two positions exactly when their slices are equal. */
  lemma SlicesAgree(a: Chunk, b: Chunk, from: nat, to: nat)
    requires a.offset <= from <= to <= a.End() && b.offset <= from <= to <= b.End()
    ensures Part(a, from, to).bytes == Part(b, from, to).bytes <==> forall p :: from <= p < to ==> a.ByteAt(p) == b.ByteAt(p)
  {
    if forall p :: from <= p < to ==> a.ByteAt(p) == b.ByteAt(p) {
      forall i | 0 <= i < to - from ensures Part(a, from, to).bytes[i] == Part(b, from, to).bytes[i] {
        assert a.ByteAt(from + i) == b.ByteAt(from + i);
      }
    } else {
      var p :| from <= p < to && a.ByteAt(p) != b.ByteAt(p);
      assert Part(a, from, to).bytes[p - from] != Part(b, from, to).bytes[p - from];
    }
  }

  lemma CollectStart(x: Inbox, f: Chunk)
    ensures Collected(x, f, f.offset, [])
  {
  }

  lemma CollectDone(x: Inbox, f: Chunk, segs: seq<Chunk>)
    requires Collected(x, f, f.End(), segs)
    ensures Agrees(x, f)
  {
  }

  /** Compares the frame with a known stretch between two positions: equal slices mean the
      positions are known and agree, different slices mean the frame contradicts one of them. */
  method Compare(x: Inbox, f: Chunk, known: Chunk, from: nat, to: nat) returns (same: bool)
    requires f.offset <= from <= to <= f.End() && known.offset <= from <= to <= known.End()
    requires forall p: nat :: from <= p < to ==> Get(x, p) == Some(known.ByteAt(p))
    ensures same ==> forall p: nat :: from <= p < to ==> Get(x, p) == Some(f.ByteAt(p))
    ensures !same ==> !Agrees(x, f)
  {
    SlicesAgree(known, f, from, to);
    same := Part(f, from, to).bytes == Part(known, from, to).bytes;
  }

  /** Whether a frame contradicts anything known, found without collecting what is new. */
  method ConflictingOverlap(x: Inbox, f: Chunk) returns (conflict: bool)
    requires Valid(x)
    ensures conflict <==> !Agrees(x, f)
  {
    hide Pending, Part;
    var to := if |x.data| < f.End() then |x.data| else f.End();
    if f.offset < to {
      var same := Compare(x, f, Chunk(0, x.data), f.offset, to);
      if !same {
        return true;
      }
    }
    var i := 0;
    while i < |x.pending|
      invariant 0 <= i <= |x.pending|
      invariant forall p: nat :: f.Covers(p) && p < |x.data| ==> Get(x, p) == Some(f.ByteAt(p))
      invariant forall j, p: nat :: 0 <= j < i && x.pending[j].Covers(p) && f.Covers(p) ==> Get(x, p) == Some(f.ByteAt(p))
    {
      var c := x.pending[i];
      var start, end := if f.offset > c.offset then f.offset else c.offset, if f.End() < c.End() then f.End() else c.End();
      if start < end {
        forall p: nat | start <= p < end ensures Get(x, p) == Some(c.ByteAt(p)) { PendingAt(x.pending, i, p); }
        var same := Compare(x, f, c, start, end);
        if !same {
          return true;
        }
      }
      i := i + 1;
    }
    forall p: nat | f.Covers(p) && Get(x, p).Some? ensures Get(x, p).value == f.ByteAt(p) { PendingNone(x.pending, p); }
    return false;
  }

  /** Finds what is new in a frame, and refuses the frame if it contradicts anything known. */
  method CollectNewSegments(x: Inbox, f: Chunk) returns (ok: bool, segs: seq<Chunk>, count: nat)
    requires Valid(x)
    ensures ok <==> Agrees(x, f)
    ensures ok ==> Collected(x, f, f.End(), segs) && count == Sum(segs)
  {
    hide Collected, Agrees, Pending, Part;
    segs, count := [], 0;
    var cursor := f.offset;
    CollectStart(x, f);
    if cursor < |x.data| && f.bytes != [] {
      var to := if |x.data| < f.End() then |x.data| else f.End();
      var same := Compare(x, f, Chunk(0, x.data), cursor, to);
      if !same {
        return false, [], 0;
      }
      CollectKnown(x, f, cursor, to, segs);
      cursor := to;
    }
    while cursor < f.End()
      invariant f.offset <= cursor <= f.End() && Collected(x, f, cursor, segs) && count == Sum(segs)
      invariant cursor < f.End() ==> |x.data| <= cursor
      decreases f.End() - cursor
    {
      ok, cursor, segs, count := CollectOne(x, f, cursor, segs, count);
      if !ok {
        return false, [], 0;
      }
    }
    CollectDone(x, f, segs);
    return true, segs, count;
  }

  /** One turn of the collecting loop: the unknown positions up to the next stretch, and that stretch. */
  method CollectOne(x: Inbox, f: Chunk, start: nat, before: seq<Chunk>, counted: nat)
    returns (ok: bool, cursor: nat, segs: seq<Chunk>, count: nat)
    requires Valid(x) && f.offset <= start < f.End() && |x.data| <= start
    requires Collected(x, f, start, before) && counted == Sum(before)
    ensures !ok ==> !Agrees(x, f)
    ensures ok ==> start < cursor <= f.End() && Collected(x, f, cursor, segs) && count == Sum(segs)
  {
    hide Collected, Agrees, Pending, Part;
    cursor, segs, count := start, before, counted;
    var o := EarliestOverlap(x.pending, cursor, f.End());
    var stop := if o.None? then f.End() else o.value.start;
    forall p: nat | cursor <= p < stop ensures Get(x, p).None? { PendingNone(x.pending, p); }
    if cursor < stop {
      CollectUnknown(x, f, cursor, stop, segs);
      SumAppend(segs, Part(f, cursor, stop));
      segs, count := segs + [Part(f, cursor, stop)], count + (stop - cursor);
      cursor := stop;
    }
    if o.Some? {
      var c, to := x.pending[o.value.index], o.value.end;
      assert c.Covers(cursor) && c.Covers(to - 1);
      forall p: nat | cursor <= p < to ensures Get(x, p) == Some(c.ByteAt(p)) { PendingAt(x.pending, o.value.index, p); }
      var same := Compare(x, f, c, cursor, to);
      if !same {
        return false, cursor, segs, count;
      }
      CollectKnown(x, f, cursor, to, segs);
      cursor := to;
    }
    return true, cursor, segs, count;
  }

  // ---- taking segments in ----

  function Add(y: Inbox, seg: Chunk): Inbox
  {
    if seg.offset == |y.data| then Inbox(y.data + seg.bytes, y.pending) else Inbox(y.data, y.pending + [seg])
  }

  lemma AddKeepsValid(y: Inbox, seg: Chunk)
    requires Valid(y) && seg.bytes != [] && |y.data| <= seg.offset
    requires forall p :: seg.Covers(p) ==> Get(y, p).None?
    ensures Valid(Add(y, seg))
    ensures forall p: nat :: Get(Add(y, seg), p) == if seg.Covers(p) then Some(seg.ByteAt(p)) else Get(y, p)
    ensures Size(Add(y, seg)) == Size(y) + |seg.bytes|
  {
    SumAppend(y.pending, seg);
    forall i | 0 <= i < |y.pending| ensures Disjoint(y.pending[i], seg) {
      var c := y.pending[i];
      if !Disjoint(c, seg) {
        var p := if c.offset < seg.offset then seg.offset else c.offset;
        assert c.Covers(p) && seg.Covers(p);
        PendingAt(y.pending, i, p);
        assert false;
      }
    }
    forall p: nat ensures Get(Add(y, seg), p) == if seg.Covers(p) then Some(seg.ByteAt(p)) else Get(y, p) {
      PendingAppend(y.pending, seg, p);
    }
  }

  /** The receive side of one stream. */
  class ReceiveBuffer {
    var data: seq<byte>
    var pending: seq<Chunk>

    function View(): Inbox
      reads this
    {
      Inbox(data, pending)
    }

    constructor ()
      ensures View() == EMPTY
    {
      data, pending := [], [];
    }

    /** Takes in one frame. It is refused, leaving everything as it was, exactly when it ends
        beyond the limit or contradicts a byte already known; otherwise the buffer knows what it
        knew and what the frame says, and nothing else. */
    method Receive(f: Chunk, limit: nat) returns (ok: bool)
      requires Valid(View())
      modifies this
      ensures ok <==> f.End() <= MAX_VARINT && f.End() <= limit && Agrees(old(View()), f)
      ensures if ok then Absorbs(old(View()), f, View()) else View() == old(View())
    {
      if f.End() > MAX_VARINT || f.End() > limit {
        return false;
      }
      var segs, count;
      ok, segs, count := CollectNewSegments(View(), f);
      if ok {
        TakeIn(f, segs);
      }
    }

    /** Takes in the segments collected from a frame. */
    method TakeIn(f: Chunk, segs: seq<Chunk>)
      requires Valid(View()) && Collected(View(), f, f.End(), segs)
      modifies this
      ensures Absorbs(old(View()), f, View())
      ensures Size(View()) == Size(old(View())) + Sum(segs)
    {
      ghost var x := View();
      var k := 0;
      while k < |segs|
        invariant 0 <= k <= |segs| && Valid(View())
        invariant forall p: nat :: Get(View(), p) == if Pending(segs[..k], p).Some? then Pending(segs[..k], p) else Get(x, p)
        invariant forall j :: k <= j < |segs| ==> |data| <= segs[j].offset
        invariant Size(View()) == Size(x) + Sum(segs[..k])
      {
        forall p: nat | segs[k].Covers(p) ensures Get(x, p).None? { PendingAt(segs, k, p); }
        TakeOne(segs, k, x);
        k := k + 1;
      }
      assert segs[..k] == segs;
    }

    method TakeOne(segs: seq<Chunk>, k: nat, ghost x: Inbox)
      requires k < |segs| && Valid(View())
      requires forall j :: 0 <= j < |segs| ==> segs[j].bytes != []
      requires forall i, j :: 0 <= i < j < |segs| ==> segs[i].End() <= segs[j].offset
      requires forall p :: segs[k].Covers(p) ==> Get(x, p).None?
      requires forall p: nat :: Get(View(), p) == if Pending(segs[..k], p).Some? then Pending(segs[..k], p) else Get(x, p)
      requires forall j :: k <= j < |segs| ==> |data| <= segs[j].offset
      modifies this
      ensures Valid(View())
      ensures forall p: nat :: Get(View(), p) == if Pending(segs[..k + 1], p).Some? then Pending(segs[..k + 1], p) else Get(x, p)
      ensures forall j :: k + 1 <= j < |segs| ==> |data| <= segs[j].offset
      ensures Size(View()) - Size(old(View())) == Sum(segs[..k + 1]) - Sum(segs[..k])
    {
      var seg := segs[k];
      forall p | seg.Covers(p) ensures Get(View(), p).None? {
        forall i | 0 <= i < k ensures !segs[..k][i].Covers(p) { assert segs[i].End() <= seg.offset; }
        PendingNone(segs[..k], p);
      }
      AddKeepsValid(View(), seg);
      if seg.offset == |data| {
        data := data + seg.bytes;
      } else {
        pending := pending + [seg];
      }
      assert segs[..k + 1] == segs[..k] + [seg];
      SumAppend(segs[..k], seg);
      forall p: nat
        ensures Get(View(), p) == if Pending(segs[..k + 1], p).Some? then Pending(segs[..k + 1], p) else Get(x, p)
      {
        PendingAppend(segs[..k], seg, p);
      }
    }

    /** Moves every stretch that has become contiguous to the data. */
    method Drain()
      requires Valid(View())
      modifies this
      ensures Drains(old(View()), View()) && old(data) <= data && Size(View()) == old(Size(View()))
    {
      var index: Option<nat> := IndexAt(pending, |data|);
      while index.Some?
        invariant Valid(View()) && old(data) <= data && Size(View()) == old(Size(View()))
        invariant forall p: nat :: Get(View(), p) == Get(old(View()), p)
        invariant index.Some? ==> index.value < |pending| && pending[index.value].offset == |data|
        invariant index.None? ==> forall i :: 0 <= i < |pending| ==> pending[i].offset != |data|
        decreases |pending|
      {
        var i := index.value;
        MoveUp(View(), i);
        data, pending := data + pending[i].bytes, pending[..i] + pending[i + 1..];
        index := IndexAt(pending, |data|);
      }
      PendingNone(pending, |data|);
    }
  }

  method IndexAt(pending: seq<Chunk>, offset: nat) returns (index: Option<nat>)
    ensures index.Some? ==> index.value < |pending| && pending[index.value].offset == offset
    ensures index.None? ==> forall i :: 0 <= i < |pending| ==> pending[i].offset != offset
  {
    var i := 0;
    while i < |pending|
      invariant 0 <= i <= |pending| && forall j :: 0 <= j < i ==> pending[j].offset != offset
    {
      if pending[i].offset == offset {
        return Some(i);
      }
      i := i + 1;
    }
    return None;
  }

  lemma MoveUp(y: Inbox, i: nat)
    requires Valid(y) && i < |y.pending| && y.pending[i].offset == |y.data|
    ensures var z := Inbox(y.data + y.pending[i].bytes, y.pending[..i] + y.pending[i + 1..]);
            Valid(z) && Size(z) == Size(y) && forall p: nat :: Get(z, p) == Get(y, p)
  {
    SumRemove(y.pending, i);
    var c, rest := y.pending[i], y.pending[..i] + y.pending[i + 1..];
    var z := Inbox(y.data + c.bytes, rest);
    forall j | 0 <= j < |rest| ensures rest[j].bytes != [] && |z.data| <= rest[j].offset {
      var k := if j < i then j else j + 1;
      assert rest[j] == y.pending[k];
      assert if k < i then Disjoint(y.pending[k], c) else Disjoint(c, y.pending[k]);
    }
    forall p: nat ensures Get(z, p) == Get(y, p) {
      if c.Covers(p) {
        PendingAt(y.pending, i, p);
      } else {
        PendingRemove(y.pending, i, p);
      }
    }
  }

  // ---- whole runs ----

  /** What a connection does to one stream's buffer: take a frame in, or drain. */
  datatype Step = Frame(f: Chunk) | Drain

  /** The effect of a step, as the buffer's methods promise it. */
  ghost predicate Moves(x: Inbox, step: Step, limit: nat, y: Inbox)
  {
    match step
    case Frame(f) => if f.End() <= MAX_VARINT && f.End() <= limit && Agrees(x, f) then Absorbs(x, f, y) else y == x
    case Drain => Drains(x, y)
  }

  ghost predicate Trace(states: seq<Inbox>, steps: seq<Step>, limit: nat)
  {
    && |states| == |steps| + 1 && states[0] == EMPTY
    && forall i :: 0 <= i < |steps| ==> Moves(states[i], steps[i], limit, states[i + 1])
  }

  predicate IsSlice(f: Chunk, stream: seq<byte>)
  {
    f.End() <= |stream| && f.bytes == stream[f.offset..f.End()]
  }

  /** Some frame among the steps covers the position. */
  predicate Covered(steps: seq<Step>, p: nat)
  {
    steps != [] &&
    ((var last := steps[|steps| - 1]; last.Frame? && last.f.Covers(p)) || Covered(steps[..|steps| - 1], p))
  }

  /** The buffer knows exactly the covered positions, each with the stream's own byte. */
  ghost predicate Mirrors(x: Inbox, stream: seq<byte>, steps: seq<Step>)
  {
    Valid(x) && forall p: nat :: Get(x, p) == if p < |stream| && Covered(steps, p) then Some(stream[p]) else None
  }

  lemma {:induction false} CoveredInStream(steps: seq<Step>, stream: seq<byte>, p: nat)
    requires forall i :: 0 <= i < |steps| && steps[i].Frame? ==> IsSlice(steps[i].f, stream)
    requires Covered(steps, p)
    ensures p < |stream|
    decreases |steps|
  {
    var last := steps[|steps| - 1];
    if !(last.Frame? && last.f.Covers(p)) {
      CoveredInStream(steps[..|steps| - 1], stream, p);
    }
  }

  lemma OnlyStreamCovered(steps: seq<Step>, stream: seq<byte>, p: nat)
    requires forall i :: 0 <= i < |steps| && steps[i].Frame? ==> IsSlice(steps[i].f, stream)
    ensures Covered(steps, p) ==> p < |stream|
  {
    if Covered(steps, p) {
      CoveredInStream(steps, stream, p);
    }
  }

  lemma FrameKeepsMirror(x: Inbox, f: Chunk, y: Inbox, stream: seq<byte>, before: seq<Step>)
    requires Mirrors(x, stream, before) && IsSlice(f, stream)
    ensures Agrees(x, f)
    ensures Absorbs(x, f, y) ==> Mirrors(y, stream, before + [Frame(f)])
  {
    assert forall p: nat :: f.Covers(p) ==> f.ByteAt(p) == stream[p];
    assert (before + [Frame(f)])[..|before|] == before;
  }

  /** Frames of one stream are never refused and the buffer mirrors the stream at exactly the
      positions that have arrived, whatever their order, overlaps and repetitions. */
  lemma {:induction false} RunMirrors(stream: seq<byte>, limit: nat, states: seq<Inbox>, steps: seq<Step>)
    requires |stream| <= limit && |stream| <= MAX_VARINT && Trace(states, steps, limit)
    requires forall i :: 0 <= i < |steps| && steps[i].Frame? ==> IsSlice(steps[i].f, stream)
    ensures Mirrors(states[|steps|], stream, steps)
    ensures forall i :: 0 <= i < |steps| && steps[i].Frame? ==> Agrees(states[i], steps[i].f)
    decreases |steps|
  {
    var n := |steps|;
    if n > 0 {
      var before := steps[..n - 1];
      assert Trace(states[..n], before, limit);
      RunMirrors(stream, limit, states[..n], before);
      assert Moves(states[n - 1], steps[n - 1], limit, states[n]);
      assert steps == before + [steps[n - 1]];
      if steps[n - 1].Frame? {
        FrameKeepsMirror(states[n - 1], steps[n - 1].f, states[n], stream, before);
      }
    }
  }

  /** The reassembly theorem: at every moment the contiguous bytes are a prefix of the stream; after
      a drain they reach exactly to the first position that has not arrived, so once everything has
      arrived they are the stream. */
  lemma Reassembles(stream: seq<byte>, limit: nat, states: seq<Inbox>, steps: seq<Step>)
    requires |stream| <= limit && |stream| <= MAX_VARINT && Trace(states, steps, limit)
    requires forall i :: 0 <= i < |steps| && steps[i].Frame? ==> IsSlice(steps[i].f, stream)
    ensures var data := states[|steps|].data;
            && data <= stream
            && (forall p :: 0 <= p < |data| ==> Covered(steps, p))
            && (steps != [] && steps[|steps| - 1].Drain? ==> !Covered(steps, |data|))
            && (steps != [] && steps[|steps| - 1].Drain? && (forall p :: 0 <= p < |stream| ==> Covered(steps, p)) ==> data == stream)
  {
    RunMirrors(stream, limit, states, steps);
    var x := states[|steps|];
    forall p | 0 <= p < |x.data| ensures p < |stream| && x.data[p] == stream[p] && Covered(steps, p) {
      assert Get(x, p) == Some(x.data[p]);
    }
    assert Get(x, |stream|).None?;
    if steps != [] && steps[|steps| - 1].Drain? {
      assert Moves(states[|steps| - 1], steps[|steps| - 1], limit, x);
      assert Get(x, |x.data|).None?;
      OnlyStreamCovered(steps, stream, |x.data|);
    }
  }

  /** Arrival order does not matter: two drained runs that covered the same positions hold the same bytes. */
  lemma OrderDoesNotMatter(stream: seq<byte>, limit: nat, s: seq<Inbox>, a: seq<Step>, t: seq<Inbox>, b: seq<Step>)
    requires |stream| <= limit && |stream| <= MAX_VARINT && Trace(s, a, limit) && Trace(t, b, limit)
    requires forall i :: 0 <= i < |a| && a[i].Frame? ==> IsSlice(a[i].f, stream)
    requires forall i :: 0 <= i < |b| && b[i].Frame? ==> IsSlice(b[i].f, stream)
    requires a != [] && a[|a| - 1].Drain? && b != [] && b[|b| - 1].Drain?
    requires forall p: nat :: Covered(a, p) <==> Covered(b, p)
    ensures s[|a|].data == t[|b|].data
  {
    Reassembles(stream, limit, s, a);
    Reassembles(stream, limit, t, b);
    var x, y := s[|a|].data, t[|b|].data;
    assert !Covered(a, |y|) && !Covered(b, |x|);
    assert |x| == |y|;
  }

  // ---- bytes are charged once ----

  /** The positions from `a` up to `b`. */
  ghost function Span(a: nat, b: nat): (r: set<nat>)
    ensures forall p: nat :: p in r <==> a <= p < b
    decreases b
  {
    if a >= b then {} else Span(a, b - 1) + {b - 1}
  }

  lemma {:induction false} SpanSize(a: nat, b: nat)
    requires a <= b
    ensures |Span(a, b)| == b - a
    decreases b
  {
    if a < b {
      SpanSize(a, b - 1);
    }
  }

  ghost function Union(chunks: seq<Chunk>): set<nat>
  {
    if chunks == [] then {} else Span(chunks[0].offset, chunks[0].End()) + Union(chunks[1..])
  }

  lemma {:induction false} InUnion(chunks: seq<Chunk>, p: nat)
    ensures p in Union(chunks) <==> Pending(chunks, p).Some?
    decreases |chunks|
  {
    if chunks != [] {
      InUnion(chunks[1..], p);
    }
  }

  lemma {:induction false} UnionSize(chunks: seq<Chunk>)
    requires forall i, j :: 0 <= i < j < |chunks| ==> Disjoint(chunks[i], chunks[j])
    ensures |Union(chunks)| == Sum(chunks)
    decreases |chunks|
  {
    if chunks != [] {
      var c, rest := chunks[0], chunks[1..];
      forall i, j | 0 <= i < j < |rest| ensures Disjoint(rest[i], rest[j]) {
        assert rest[i] == chunks[i + 1] && rest[j] == chunks[j + 1];
      }
      UnionSize(rest);
      SpanSize(c.offset, c.End());
      forall p | p in Span(c.offset, c.End()) ensures p !in Union(rest) {
        InUnion(rest, p);
        PendingNone(rest, p);
        assert forall i :: 0 <= i < |rest| ==> Disjoint(c, rest[i]);
      }
    }
  }

  /** The positions a buffer knows, and that it holds one byte for each of them. */
  lemma SizeCountsPositions(x: Inbox) returns (known: set<nat>)
    requires Valid(x)
    ensures forall p: nat :: p in known <==> Get(x, p).Some?
    ensures |known| == Size(x)
  {
    known := Span(0, |x.data|) + Union(x.pending);
    SpanSize(0, |x.data|);
    UnionSize(x.pending);
    forall p: nat ensures p in known <==> Get(x, p).Some? { InUnion(x.pending, p); }
    forall p | p in Span(0, |x.data|) ensures p !in Union(x.pending) {
      InUnion(x.pending, p);
      PendingNone(x.pending, p);
    }
  }

  /** Over any run, the bytes held are as many as the distinct stream positions that arrived: a
      retransmitted or overlapping byte is never charged again. */
  lemma ChargedOnce(stream: seq<byte>, limit: nat, states: seq<Inbox>, steps: seq<Step>) returns (arrived: set<nat>)
    requires |stream| <= limit && |stream| <= MAX_VARINT && Trace(states, steps, limit)
    requires forall i :: 0 <= i < |steps| && steps[i].Frame? ==> IsSlice(steps[i].f, stream)
    ensures forall p: nat :: p in arrived <==> p < |stream| && Covered(steps, p)
    ensures Size(states[|steps|]) == |arrived|
  {
    RunMirrors(stream, limit, states, steps);
    arrived := SizeCountsPositions(states[|steps|]);
  }
}
