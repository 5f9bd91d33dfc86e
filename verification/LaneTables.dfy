/** The inbound side as both programs keep it: one row of bytes per level and two lengths per
    row, changed in place by the transport's append and the TLS stack's borrow and release. */
module LaneTables {
  import opened Streams
  import opened Lanes
  import opened Buffers

  /** A row's lengths: bytes held, and bytes out on loan. */
  datatype Fill = Fill(len: nat, read: nat)
  type Lengths = f: Fill | f.read <= f.len witness Fill(0, 0)

  class LaneTable {
    const capacity: nat
    const bytes: array2<byte>
    var fill: PerLevel<Lengths>
    ghost var accepted: PerLevel<seq<byte>>
    ghost var released: PerLevel<seq<byte>>
    ghost var discarded: PerLevel<seq<byte>>

    ghost predicate Valid()
      reads this
    {
      && bytes.Length0 == LEVELS && bytes.Length1 == capacity
      && forall l :: 0 <= l < LEVELS ==> fill.At(l).len <= capacity
    }

    ghost function LaneView(l: nat): Lane
      requires l < LEVELS && Valid()
      reads this, bytes
    {
      Lane(Row(bytes, l, fill.At(l).len), fill.At(l).read, accepted.At(l), released.At(l), discarded.At(l))
    }

    /** The live part of the rows: bytes beyond a length are garbage and not part of it. */
    ghost function View(): (r: PerLevel<Lane>)
      requires Valid()
      reads this, bytes
      ensures forall l :: 0 <= l < LEVELS ==> r.At(l) == LaneView(l)
    {
      PerLevel(LaneView(0), LaneView(1), LaneView(2), LaneView(3))
    }

    constructor (capacity: nat)
      ensures Valid() && View() == Everywhere(EMPTY_LANE) && this.capacity == capacity && fresh(bytes)
    {
      this.capacity := capacity;
      bytes := new byte[LEVELS, capacity];
      fill := Everywhere(Fill(0, 0));
      accepted, released, discarded := Everywhere([]), Everywhere([]), Everywhere([]);
      new;
      forall l | 0 <= l < LEVELS ensures LaneView(l) == EMPTY_LANE {}
      SameLevels(View(), Everywhere(EMPTY_LANE));
    }

    /** Bytes buffered at a level, and bytes of them on loan. */
    function Held(level: nat): (r: nat)
      requires Valid() && level < LEVELS
      reads this, bytes
      ensures r == |View().At(level).inbound|
    {
      fill.At(level).len
    }

    function OnLoan(level: nat): (r: nat)
      requires Valid() && level < LEVELS
      reads this, bytes
      ensures r == View().At(level).leased
    {
      fill.At(level).read
    }

    method Extend(level: nat, data: seq<byte>) returns (ok: bool)
      requires Valid() && level < LEVELS
      modifies this, bytes
      ensures Valid()
      ensures var (lane, fits) := Append(old(View()).At(level), data, capacity);
              View() == old(View()).With(level, lane) && ok == fits
    {
      ghost var lane := LaneView(level);
      if |data| > capacity - fill.At(level).len {
        SameLevels(View(), old(View()).With(level, lane));
        return false;
      }
      CopyIn(bytes, level, fill.At(level).len, data);
      fill := fill.With(level, Fill(fill.At(level).len + |data|, fill.At(level).read));
      accepted := accepted.With(level, accepted.At(level) + data);
      assert LaneView(level) == Append(lane, data, capacity).0;
      assert forall l :: 0 <= l < LEVELS && l != level ==> LaneView(l) == old(LaneView(l));
      SameLevels(View(), old(View()).With(level, LaneView(level)));
      return true;
    }

    /** Lends out a whole row, unless it is empty or already lent. The result is the bytes behind
        the address the C callback hands over: the front of this very row. */
    method Lend(level: nat) returns (lent: seq<byte>)
      requires Valid() && level < LEVELS
      modifies this
      ensures Valid()
      ensures var (lane, record) := Borrow(old(View()).At(level));
              View() == old(View()).With(level, lane) && lent == record
    {
      ghost var lane := LaneView(level);
      lent := [];
      if fill.At(level).read == 0 && fill.At(level).len != 0 {
        fill := fill.With(level, Fill(fill.At(level).len, fill.At(level).len));
        lent := Row(bytes, level, fill.At(level).len);
      }
      assert LaneView(level) == Borrow(lane).0;
      assert forall l :: 0 <= l < LEVELS && l != level ==> LaneView(l) == old(LaneView(l));
      SameLevels(View(), old(View()).With(level, LaneView(level)));
    }

    /** Drops a row's first `count` bytes and everything beyond the loan. */
    method Compact(level: nat, count: nat)
      requires Valid() && level < LEVELS && count <= fill.At(level).read
      modifies this`fill, bytes
      ensures Valid()
      ensures var lane := old(LaneView(level));
              LaneView(level) == lane.(inbound := lane.inbound[count..lane.leased], leased := 0)
      ensures forall l :: 0 <= l < LEVELS && l != level ==> LaneView(l) == old(LaneView(l))
    {
      var loan := fill.At(level).read;
      ghost var row := LaneView(level).inbound;
      assert Row(bytes, level, loan) == row[..loan];
      if count < loan {
        MoveDown(bytes, level, count, loan);
        fill := fill.With(level, Fill(loan - count, 0));
      } else {
        fill := fill.With(level, Fill(0, 0));
      }
      assert LaneView(level).inbound == row[count..loan];
    }

    /** Takes back a loan of which `count` bytes were consumed, compacting the rest of the loan. */
    method TakeBack(level: nat, count: nat) returns (ok: bool)
      requires Valid() && level < LEVELS
      modifies this, bytes
      ensures Valid()
      ensures var (lane, accepted) := Release(old(View()).At(level), count);
              View() == old(View()).With(level, lane) && ok == accepted
    {
      ghost var lane := LaneView(level);
      if count > fill.At(level).read {
        SameLevels(View(), old(View()).With(level, lane));
        return false;
      }
      Compact(level, count);
      released := released.With(level, released.At(level) + lane.inbound[..count]);
      discarded := discarded.With(level, discarded.At(level) + lane.inbound[lane.leased..]);
      SameLevels(View(), old(View()).With(level, Release(lane, count).0));
      return true;
    }
  }
}
