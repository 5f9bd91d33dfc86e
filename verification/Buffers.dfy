/** The C library's copies on a two-dimensional byte table, one row per encryption level. */
module Buffers {
  import opened Streams

  /** The first `n` bytes of a row. */
  function Row(a: array2<byte>, level: nat, n: nat): (r: seq<byte>)
    requires level < a.Length0 && n <= a.Length1
    reads a
    ensures |r| == n && forall i :: 0 <= i < n ==> r[i] == a[level, i]
  {
    seq(n, i requires 0 <= i < n reads a => a[level, i])
  }

  /** memcpy to offset `off` of a row: extends the row's prefix and leaves other rows alone. */
  method CopyIn(a: array2<byte>, level: nat, off: nat, data: seq<byte>)
    requires level < a.Length0 && off + |data| <= a.Length1
    modifies a
    ensures Row(a, level, off + |data|) == old(Row(a, level, off)) + data
    ensures forall l, n :: 0 <= l < a.Length0 && 0 <= n <= a.Length1 && l != level ==> Row(a, l, n) == old(Row(a, l, n))
  {
    forall i | 0 <= i < |data| {
      a[level, off + i] := data[i];
    }
  }

  /** memmove of the row's bytes `start..end` to its front. */
  method MoveDown(a: array2<byte>, level: nat, start: nat, end: nat)
    requires level < a.Length0 && start <= end <= a.Length1
    modifies a
    ensures Row(a, level, end - start) == old(Row(a, level, end))[start..]
    ensures forall l, n :: 0 <= l < a.Length0 && 0 <= n <= a.Length1 && l != level ==> Row(a, l, n) == old(Row(a, l, n))
  {
    forall i | 0 <= i < end - start {
      a[level, i] := a[level, start + i];
    }
  }
}
