/** Byte streams and the one relation every loss claim in this project is made of:
    a stream split, in order, into what was kept and what was lost. */
module Streams {

  newtype byte = x: int | 0 <= x < 256

  datatype Option<+T> = None | Some(value: T)

  /** `whole` is an order-preserving interleaving of `kept` and `lost`. */
  ghost predicate Interleaves<T>(whole: seq<T>, kept: seq<T>, lost: seq<T>)
    decreases |whole|
  {
    if whole == [] then
      kept == [] && lost == []
    else
      var n := |whole| - 1;
      || (kept != [] && kept[|kept| - 1] == whole[n] && Interleaves(whole[..n], kept[..|kept| - 1], lost))
      || (lost != [] && lost[|lost| - 1] == whole[n] && Interleaves(whole[..n], kept, lost[..|lost| - 1]))
  }

  lemma {:induction false} InterleavesLength<T>(whole: seq<T>, kept: seq<T>, lost: seq<T>)
    requires Interleaves(whole, kept, lost)
    ensures |whole| == |kept| + |lost|
    decreases |whole|
  {
    if whole != [] {
      var n := |whole| - 1;
      if kept != [] && kept[|kept| - 1] == whole[n] && Interleaves(whole[..n], kept[..|kept| - 1], lost) {
        InterleavesLength(whole[..n], kept[..|kept| - 1], lost);
      } else {
        InterleavesLength(whole[..n], kept, lost[..|lost| - 1]);
      }
    }
  }

  /** When nothing is lost the kept stream is the whole stream, byte for byte. */
  lemma {:induction false} NothingLost<T>(whole: seq<T>, kept: seq<T>)
    ensures Interleaves(whole, kept, []) <==> whole == kept
    decreases |whole|
  {
    if whole != [] && kept != [] {
      var n, k := |whole| - 1, |kept| - 1;
      NothingLost(whole[..n], kept[..k]);
      assert whole == whole[..n] + [whole[n]];
      assert kept == kept[..k] + [kept[k]];
    }
  }

  lemma KeepOne<T>(whole: seq<T>, kept: seq<T>, lost: seq<T>, x: T)
    requires Interleaves(whole, kept, lost)
    ensures Interleaves(whole + [x], kept + [x], lost)
  {
    assert (whole + [x])[..|whole|] == whole;
    assert (kept + [x])[..|kept|] == kept;
  }

  lemma LoseOne<T>(whole: seq<T>, kept: seq<T>, lost: seq<T>, x: T)
    requires Interleaves(whole, kept, lost)
    ensures Interleaves(whole + [x], kept, lost + [x])
  {
    assert (whole + [x])[..|whole|] == whole;
    assert (lost + [x])[..|lost|] == lost;
  }

  lemma {:induction false} KeepMore<T>(whole: seq<T>, kept: seq<T>, lost: seq<T>, more: seq<T>)
    requires Interleaves(whole, kept, lost)
    ensures Interleaves(whole + more, kept + more, lost)
    decreases |more|
  {
    if more == [] {
      assert whole + more == whole && kept + more == kept;
    } else {
      var m := |more| - 1;
      KeepMore(whole, kept, lost, more[..m]);
      KeepOne(whole + more[..m], kept + more[..m], lost, more[m]);
      assert more == more[..m] + [more[m]];
      assert whole + more == whole + more[..m] + [more[m]];
      assert kept + more == kept + more[..m] + [more[m]];
    }
  }

  /** Moving a suffix of the kept stream to the lost side keeps the split a split; the lost
      bytes may have to be slotted in among older losses, so only their contents are fixed. */
  lemma {:induction false} LoseSuffix<T>(whole: seq<T>, kept: seq<T>, suffix: seq<T>, lost: seq<T>)
    returns (lost': seq<T>)
    requires Interleaves(whole, kept + suffix, lost)
    ensures Interleaves(whole, kept, lost')
    ensures multiset(lost') == multiset(lost) + multiset(suffix)
    decreases |whole|
  {
    if suffix == [] {
      assert kept + suffix == kept;
      lost' := lost;
    } else {
      var n, m := |whole| - 1, |suffix| - 1;
      var both := kept + suffix;
      assert both[..|both| - 1] == kept + suffix[..m];
      assert whole == whole[..n] + [whole[n]];
      if both[|both| - 1] == whole[n] && Interleaves(whole[..n], both[..|both| - 1], lost) {
        var l := LoseSuffix(whole[..n], kept, suffix[..m], lost);
        assert suffix == suffix[..m] + [suffix[m]];
        lost' := l + [whole[n]];
        LoseOne(whole[..n], kept, l, whole[n]);
      } else {
        var k := |lost| - 1;
        var l := LoseSuffix(whole[..n], kept, suffix, lost[..k]);
        assert lost == lost[..k] + [lost[k]];
        lost' := l + [whole[n]];
        LoseOne(whole[..n], kept, l, whole[n]);
      }
    }
  }
}
