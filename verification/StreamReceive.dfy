/** The receive side of a stream with its final size and its share of connection flow control. */
module StreamReceive {
  import opened Streams
  import opened Reassembly

  datatype Verdict = Accepted | Ignored | Rejected

  /** The connection-wide receive window. */
  class Window {
    var used: nat
    var limit: nat

    constructor (limit: nat)
      ensures used == 0 && this.limit == limit
    {
      used, this.limit := 0, limit;
    }
  }

  class RecvStream {
    const buffer: ReceiveBuffer
    const window: Window
    var maxData: nat
    var finalSize: Option<nat>
    var wasReset: bool

    ghost predicate KnownBelow(bound: nat)
      reads buffer
    {
      forall p: nat :: Get(buffer.View(), p).Some? ==> p < bound
    }

    /** What this stream is charged for: the bytes it holds, or its whole final size once reset. */
    function Charged(): nat
      reads this, buffer
      requires wasReset ==> finalSize.Some?
    {
      if wasReset then finalSize.value else Size(buffer.View())
    }

    /** No byte is known at or beyond the final size, nor beyond what the peer was allowed to send. */
    ghost predicate Valid()
      reads this, buffer, window
    {
      && Reassembly.Valid(buffer.View())
      && KnownBelow(maxData) && maxData <= MAX_VARINT
      && (finalSize.Some? ==> KnownBelow(finalSize.value))
      && (wasReset ==> finalSize.Some?)
      && Charged() <= window.used
    }

    constructor (window: Window, maxData: nat)
      requires maxData <= MAX_VARINT
      ensures Valid() && fresh(buffer) && this.window == window && this.maxData == maxData
      ensures buffer.View() == EMPTY && finalSize == None && !wasReset
    {
      buffer := new ReceiveBuffer();
      this.window, this.maxData, finalSize, wasReset := window, maxData, None, false;
      new;
      assert forall p: nat :: Get(EMPTY, p) == None;
    }

    /** One past the highest position known. */
    method HighestEnd() returns (highest: nat)
      requires Reassembly.Valid(buffer.View())
      ensures KnownBelow(highest) && (highest > 0 ==> Get(buffer.View(), highest - 1).Some?)
    {
      var pending := buffer.pending;
      highest := |buffer.data|;
      var i := 0;
      while i < |pending|
        invariant 0 <= i <= |pending| && |buffer.data| <= highest
        invariant forall j, p: nat :: 0 <= j < i && pending[j].Covers(p) ==> p < highest
        invariant highest > 0 ==> Get(buffer.View(), highest - 1).Some?
      {
        var c := pending[i];
        if c.End() > highest {
          highest := c.End();
          assert c.Covers(highest - 1);
          PendingAt(pending, i, highest - 1);
        }
        i := i + 1;
      }
      forall p: nat | Get(buffer.View(), p).Some? ensures p < highest { PendingNone(pending, p); }
    }

    /** The final-size and agreement rules a frame must obey. */
    ghost predicate Lawful(f: Chunk, fin: bool)
      reads this, buffer
    {
      && f.End() <= MAX_VARINT && f.End() <= maxData && Agrees(buffer.View(), f)
      && (finalSize.Some? ==> f.End() <= finalSize.value && (fin ==> f.End() == finalSize.value))
      && (finalSize.None? && fin ==> KnownBelow(f.End()))
    }

    ghost predicate Complete()
      reads this, buffer
    {
      finalSize.Some? && (|buffer.data| >= finalSize.value || wasReset)
    }

    /** The checks before a frame's bytes are looked at in earnest: settled when it breaks a rule or
        comes too late to matter, and otherwise lawful as soon as it agrees. */
    method Screen(f: Chunk, fin: bool) returns (settled: Option<Verdict>)
      requires Valid()
      ensures settled != Some(Accepted)
      ensures settled == Some(Rejected) ==> !Lawful(f, fin)
      ensures settled == Some(Ignored) <==> Lawful(f, fin) && Complete()
      ensures settled == None ==> !wasReset && !Complete() && (Lawful(f, fin) <==> Agrees(buffer.View(), f))
      ensures settled == None ==> f.End() <= maxData
      ensures settled == None && finalSize.Some? ==> f.End() <= finalSize.value && (fin ==> f.End() == finalSize.value)
      ensures settled == None && finalSize.None? && fin ==> KnownBelow(f.End())
    {
      hide Agrees, Pending;
      if f.End() > MAX_VARINT || f.End() > maxData {
        return Some(Rejected);
      }
      if finalSize.Some? {
        if f.End() > finalSize.value || (fin && f.End() != finalSize.value) {
          return Some(Rejected);
        }
        var conflict := ConflictingOverlap(buffer.View(), f);
        if conflict {
          return Some(Rejected);
        }
        if |buffer.data| >= finalSize.value || wasReset {
          return Some(Ignored);
        }
      } else if fin {
        var highest := HighestEnd();
        if f.End() < highest {
          assert Get(buffer.View(), highest - 1).Some?;
          return Some(Rejected);
        }
      }
      return None;
    }

    /** Takes in the new bytes of a frame that passed every check, and charges for them. */
    method Absorb(f: Chunk, fin: bool, segs: seq<Chunk>, count: nat)
      requires Valid() && !wasReset && f.End() <= maxData
      requires finalSize.Some? ==> f.End() <= finalSize.value && (fin ==> f.End() == finalSize.value)
      requires finalSize.None? && fin ==> KnownBelow(f.End())
      requires Collected(buffer.View(), f, f.End(), segs) && count == Sum(segs)
      modifies this`finalSize, buffer, window`used
      ensures Valid() && Absorbs(old(buffer.View()), f, buffer.View())
      ensures window.used == old(window.used) + count && Size(buffer.View()) == old(Size(buffer.View())) + count
      ensures finalSize == if fin then Some(f.End()) else old(finalSize)
    {
      hide Collected, Absorbs;
      ghost var x := buffer.View();
      buffer.TakeIn(f, segs);
      AbsorbedIsValid(x, f, buffer.View());
      AbsorbedBelow(x, f, buffer.View(), maxData);
      if finalSize.Some? {
        AbsorbedBelow(x, f, buffer.View(), finalSize.value);
      } else if fin {
        AbsorbedBelow(x, f, buffer.View(), f.End());
      }
      window.used := window.used + count;
      if fin {
        finalSize := Some(f.End());
      }
    }

    /** Takes in a frame. An unlawful frame changes nothing; a lawful one to a finished or reset
        stream is ignored; otherwise it is absorbed and its new bytes are charged, unless the
        connection window has no room for them. A final size, once known, never changes. */
    method ReceiveFrame(f: Chunk, fin: bool) returns (verdict: Verdict)
      requires Valid()
      modifies this`finalSize, buffer, window`used
      ensures Valid()
      ensures !old(Lawful(f, fin)) ==> verdict == Rejected
      ensures old(Lawful(f, fin)) && old(Complete()) ==> verdict == Ignored
      ensures verdict == Ignored ==> old(Complete())
      ensures verdict != Accepted ==>
                buffer.View() == old(buffer.View()) && finalSize == old(finalSize) && window.used == old(window.used)
      ensures verdict == Accepted ==>
                && Absorbs(old(buffer.View()), f, buffer.View())
                && window.used == old(window.used) + (Size(buffer.View()) - old(Size(buffer.View())))
                && window.used <= window.limit && window.used <= MAX_VARINT
                && finalSize == if fin then Some(f.End()) else old(finalSize)
      ensures verdict == Rejected && old(Lawful(f, fin)) ==>
                exists segs :: Collected(old(buffer.View()), f, f.End(), segs)
                               && (old(window.used) + Sum(segs) > window.limit || old(window.used) + Sum(segs) > MAX_VARINT)
      ensures old(finalSize).Some? ==> finalSize == old(finalSize)
      ensures window.used - Charged() == old(window.used - Charged())
    {
      hide Collected, Absorbs, Agrees, Pending, Lawful, Complete;
      var settled := Screen(f, fin);
      if settled.Some? {
        return settled.value;
      }
      var ok, segs, count := CollectNewSegments(buffer.View(), f);
      if !ok || window.used + count > MAX_VARINT || window.used + count > window.limit {
        return Rejected;
      }
      Absorb(f, fin, segs, count);
      return Accepted;
    }

    /** The peer abandons the stream at a final size. The rules are those of a frame's final size;
        an accepted reset charges the rest of the stream, so that from then on exactly the final
        size is charged, whatever was missing. */
    method ReceiveReset(size: nat) returns (verdict: Verdict)
      requires Valid()
      modifies this`finalSize, this`wasReset, window`used
      ensures Valid() && buffer.View() == old(buffer.View())
      ensures verdict != Accepted ==> finalSize == old(finalSize) && wasReset == old(wasReset) && window.used == old(window.used)
      ensures verdict == Accepted ==> wasReset && finalSize == Some(size) && Charged() == size && window.used <= window.limit
      ensures verdict == Rejected <==>
                || size > maxData || !KnownBelow(size) || (old(finalSize).Some? && old(finalSize) != Some(size))
                || (!old(Complete()) && old(window.used) + (size - Size(buffer.View())) > window.limit)
      ensures verdict == Accepted ==> !old(Complete())
      ensures verdict == Ignored ==> old(Complete())
      ensures old(finalSize).Some? ==> finalSize == old(finalSize)
      ensures window.used - Charged() == old(window.used - Charged())
    {
      if size > maxData {
        return Rejected;
      }
      var highest := HighestEnd();
      if size < highest {
        assert Get(buffer.View(), highest - 1).Some?;
        return Rejected;
      }
      if finalSize.Some? {
        if finalSize.value != size {
          return Rejected;
        }
        if wasReset || |buffer.data| >= finalSize.value {
          return Ignored;
        }
      }
      var received := Size(buffer.View());
      ReceivedFitsBelowHighest(buffer.View(), size);
      if size < received {
        return Rejected;
      }
      if window.used + (size - received) > window.limit {
        return Rejected;
      }
      window.used := window.used + (size - received);
      finalSize, wasReset := Some(size), true;
      return Accepted;
    }
  }

  lemma AbsorbedIsValid(x: Inbox, f: Chunk, y: Inbox)
    requires Absorbs(x, f, y)
    ensures Reassembly.Valid(y)
  {
  }

  lemma AbsorbedBelow(x: Inbox, f: Chunk, y: Inbox, bound: nat)
    requires Absorbs(x, f, y) && f.End() <= bound && forall p: nat :: Get(x, p).Some? ==> p < bound
    ensures forall p: nat :: Get(y, p).Some? ==> p < bound
  {
  }

  /** The check that a reset's final size is not below the bytes received can never fire after the
      check on the highest position: a stream cannot hold more bytes than positions. */
  lemma ReceivedFitsBelowHighest(x: Inbox, bound: nat)
    requires Reassembly.Valid(x) && forall p: nat :: Get(x, p).Some? ==> p < bound
    ensures Size(x) <= bound
  {
    var known := SizeCountsPositions(x);
    SpanSize(0, bound);
    assert known <= Span(0, bound);
    SubsetSize(known, Span(0, bound));
  }

  lemma {:induction false} SubsetSize(a: set<nat>, b: set<nat>)
    requires a <= b
    ensures |a| <= |b|
    decreases a
  {
    if a != {} {
      var p :| p in a;
      SubsetSize(a - {p}, b - {p});
    }
  }
}
