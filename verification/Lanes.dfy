/** Encryption levels, and one level's inbound CRYPTO buffer: bytes are appended by the
    transport, lent out to the TLS stack as one contiguous record, and a prefix of the loan is
    given back. */
module Lanes {
  import opened Streams

  const LEVELS: nat := 4

  /** One value for each of OpenSSL's record protection levels, 0 to 3. */
  datatype PerLevel<T> = PerLevel(none: T, early: T, handshake: T, application: T)
  {
    function At(level: nat): T
      requires level < LEVELS
    {
      if level == 0 then none else if level == 1 then early else if level == 2 then handshake else application
    }

    function With(level: nat, value: T): (r: PerLevel<T>)
      requires level < LEVELS
      ensures forall l :: 0 <= l < LEVELS ==> r.At(l) == if l == level then value else At(l)
    {
      if level == 0 then this.(none := value)
      else if level == 1 then this.(early := value)
      else if level == 2 then this.(handshake := value)
      else this.(application := value)
    }
  }

  lemma SameLevels<T>(a: PerLevel<T>, b: PerLevel<T>)
    requires forall l :: 0 <= l < LEVELS ==> a.At(l) == b.At(l)
    ensures a == b
  {
    assert a.At(0) == b.At(0) && a.At(1) == b.At(1) && a.At(2) == b.At(2) && a.At(3) == b.At(3);
  }

  function Everywhere<T>(value: T): PerLevel<T> { PerLevel(value, value, value, value) }

  /** `inbound` and `leased` are the source's `in[level][..in_len]` and `in_read_len`.
      `accepted`, `released` and `discarded` are history variables: every byte ever appended,
      every byte the TLS stack consumed, and every byte a release threw away, oldest first. */
  datatype LaneState = Lane(inbound: seq<byte>, leased: nat,
                            accepted: seq<byte>, released: seq<byte>, discarded: seq<byte>)

  /** A loan never covers more than what is buffered. */
  type Lane = l: LaneState | l.leased <= |l.inbound| witness Lane([], 0, [], [], [])

  const EMPTY_LANE: Lane := Lane([], 0, [], [], [])

  /** Every accepted byte met exactly one fate, and arrival order survives: the accepted stream
      splits, in order, into (released then still buffered) and the discarded bytes. */
  ghost predicate Accounted(l: Lane)
  {
    exists lost :: Interleaves(l.accepted, l.released + l.inbound, lost) && multiset(lost) == multiset(l.discarded)
  }

  ghost predicate Valid(l: Lane, capacity: nat)
  {
    |l.inbound| <= capacity && Accounted(l)
  }

  /** The transport's append; refused whole when it does not fit. */
  function Append(l: Lane, data: seq<byte>, capacity: nat): (r: (Lane, bool))
    ensures r.1 <==> |l.inbound| + |data| <= capacity
    ensures !r.1 ==> r.0 == l
  {
    if |data| > capacity - |l.inbound| then (l, false)
    else (l.(inbound := l.inbound + data, accepted := l.accepted + data), true)
  }

  /** The TLS stack borrows everything buffered, unless a loan is already out. */
  function Borrow(l: Lane): (r: (Lane, seq<byte>))
    ensures r.0.(leased := l.leased) == l
    ensures r.1 != [] <==> l.leased == 0 && l.inbound != []
    ensures r.1 != [] ==> r.0.leased == |r.1| && r.1 == l.inbound
    ensures r.1 == [] ==> r.0 == l
  {
    if l.leased != 0 || l.inbound == [] then (l, [])
    else (l.(leased := |l.inbound|), l.inbound)
  }

  /** The TLS stack gives back `n` bytes of its loan. What survives is the rest of the loan:
      bytes appended after the loan was taken are thrown away. */
  function Release(l: Lane, n: nat): (r: (Lane, bool))
    ensures r.1 <==> n <= l.leased
    ensures !r.1 ==> r.0 == l
    ensures r.1 ==> |r.0.discarded| - |l.discarded| == |l.inbound| - l.leased
    ensures r.1 ==> |r.0.released| - |l.released| == n
  {
    if n > l.leased then (l, false)
    else (Lane(l.inbound[n..l.leased], 0, l.accepted,
               l.released + l.inbound[..n], l.discarded + l.inbound[l.leased..]), true)
  }

  lemma EmptyLaneValid(capacity: nat)
    ensures Valid(EMPTY_LANE, capacity)
  {
    assert Interleaves<byte>([], [] + [], []);
  }

  lemma AppendKeepsValid(l: Lane, data: seq<byte>, capacity: nat)
    requires Valid(l, capacity)
    ensures Valid(Append(l, data, capacity).0, capacity)
  {
    var lost :| Interleaves(l.accepted, l.released + l.inbound, lost) && multiset(lost) == multiset(l.discarded);
    KeepMore(l.accepted, l.released + l.inbound, lost, data);
    assert l.released + l.inbound + data == l.released + (l.inbound + data);
  }

  lemma ReleaseKeepsValid(l: Lane, n: nat, capacity: nat)
    requires Valid(l, capacity)
    ensures Valid(Release(l, n).0, capacity)
  {
    if n <= l.leased {
      var r := Release(l, n).0;
      var lost :| Interleaves(l.accepted, l.released + l.inbound, lost) && multiset(lost) == multiset(l.discarded);
      assert l.released + l.inbound == r.released + r.inbound + l.inbound[l.leased..];
      var lost' := LoseSuffix(l.accepted, r.released + r.inbound, l.inbound[l.leased..], lost);
      assert multiset(lost') == multiset(r.discarded);
    }
  }

  /** The books balance in bytes, and balance in content exactly when nothing was discarded. */
  lemma LossAccounting(l: Lane)
    requires Accounted(l)
    ensures |l.accepted| == |l.released| + |l.inbound| + |l.discarded|
    ensures l.released + l.inbound == l.accepted <==> l.discarded == []
  {
    var lost :| Interleaves(l.accepted, l.released + l.inbound, lost) && multiset(lost) == multiset(l.discarded);
    InterleavesLength(l.accepted, l.released + l.inbound, lost);
    assert |lost| == |multiset(lost)| == |multiset(l.discarded)| == |l.discarded|;
    if l.discarded == [] {
      assert lost == [];
      NothingLost(l.accepted, l.released + l.inbound);
    }
  }
}
