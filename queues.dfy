/**
 * The shift compaction that both the dispatch queue and the scheduling
 * queues use: walk the used prefix of an array; on an entry to delete, shift
 * everything after it up by one, clear the last used slot and shrink the
 * count; otherwise move on.
 */
module Queues {

  /** The entries of s that are kept, in their original order. */
  function Filter<T>(s: seq<T>, drop: T -> bool): (r: seq<T>)
    ensures |r| <= |s|
    decreases |s|
  {
    if |s| == 0 then []
    else (if drop(s[0]) then [] else [s[0]]) + Filter(s[1..], drop)
  }

  /** How many entries of s are deleted. */
  function Count<T>(s: seq<T>, drop: T -> bool): (n: nat)
    ensures n <= |s|
    decreases |s|
  {
    if |s| == 0 then 0
    else (if drop(s[0]) then 1 else 0) + Count(s[1..], drop)
  }

  /** Every entry is either kept or counted as deleted. */
  lemma {:induction false} FilterLength<T>(s: seq<T>, drop: T -> bool)
    ensures |Filter(s, drop)| + Count(s, drop) == |s|
    decreases |s|
  {
    if |s| > 0 {
      FilterLength(s[1..], drop);
    }
  }

  /** An entry survives exactly when it was there and is not deleted. */
  lemma {:induction false} FilterMembers<T>(s: seq<T>, drop: T -> bool, x: T)
    ensures x in Filter(s, drop) <==> x in s && !drop(x)
    decreases |s|
  {
    if |s| > 0 {
      FilterMembers(s[1..], drop, x);
      assert x in s <==> x == s[0] || x in s[1..];
    }
  }

  /** A property every entry has survives filtering. */
  lemma FilterKeeps<T>(s: seq<T>, drop: T -> bool, p: T -> bool)
    requires forall k :: 0 <= k < |s| ==> p(s[k])
    ensures forall k :: 0 <= k < |Filter(s, drop)| ==> p(Filter(s, drop)[k])
  {
    forall k | 0 <= k < |Filter(s, drop)|
      ensures p(Filter(s, drop)[k])
    {
      FilterMembers(s, drop, Filter(s, drop)[k]);
    }
  }

  /** Filtering distributes over concatenation, so the survivors keep their order. */
  lemma {:induction false} FilterAppend<T>(s: seq<T>, t: seq<T>, drop: T -> bool)
    ensures Filter(s + t, drop) == Filter(s, drop) + Filter(t, drop)
    decreases |s|
  {
    if |s| == 0 {
      assert s + t == t;
    } else {
      assert (s + t)[1..] == s[1..] + t;
      FilterAppend(s[1..], t, drop);
    }
  }

  /** The same for counting. */
  lemma {:induction false} CountAppend<T>(s: seq<T>, t: seq<T>, drop: T -> bool)
    ensures Count(s + t, drop) == Count(s, drop) + Count(t, drop)
    decreases |s|
  {
    if |s| == 0 {
      assert s + t == t;
    } else {
      assert (s + t)[1..] == s[1..] + t;
      CountAppend(s[1..], t, drop);
    }
  }

  /** The inner loop of a deletion: move a[i+1..m] up to a[i..m-1]. */
  method ShiftUp<T>(a: array<T>, i: nat, m: nat)
    requires i < m <= a.Length
    modifies a
    ensures a[..i] == old(a[..i])
    ensures a[i..m - 1] == old(a[i + 1..m])
    ensures a[m - 1..] == old(a[m - 1..])
  {
    var j := i;
    while j < m - 1
      invariant i <= j <= m - 1
      invariant forall k :: 0 <= k < i ==> a[k] == old(a[k])
      invariant forall k :: i <= k < j ==> a[k] == old(a[k + 1])
      invariant forall k :: j <= k < a.Length ==> a[k] == old(a[k])
    {
      a[j] := a[j + 1];
      j := j + 1;
    }
  }

  /**
   * The state of a compaction over the first n entries of a, which held s:
   * a[..i] are the survivors already placed, a[i..m] is still to be walked and
   * the m..n slots are already cleared.
   */
  ghost predicate Compacting<T>(a: seq<T>, s: seq<T>, i: nat, m: nat, n: nat, drop: T -> bool, blank: T)
  {
    && i <= m <= n <= |a|
    && Filter(s, drop) == a[..i] + Filter(a[i..m], drop)
    && Count(s, drop) == Count(a[i..m], drop) + (n - m)
    && forall k :: m <= k < n ==> a[k] == blank
  }

  /** Passing over a kept entry places it. */
  lemma KeepStep<T>(a: seq<T>, s: seq<T>, i: nat, m: nat, n: nat, drop: T -> bool, blank: T)
    requires Compacting(a, s, i, m, n, drop, blank) && i < m && !drop(a[i])
    ensures Compacting(a, s, i + 1, m, n, drop, blank)
  {
    var t := a[i..m];
    assert Filter(t, drop) == [t[0]] + Filter(t[1..], drop);
    assert a[..i + 1] == a[..i] + [t[0]];
    assert a[i + 1..m] == t[1..];
  }

  /** Shifting the rest up over a deleted entry and clearing slot m - 1 drops it. */
  lemma DropStep<T>(a: seq<T>, b: seq<T>, s: seq<T>, i: nat, m: nat, n: nat, drop: T -> bool, blank: T)
    requires Compacting(a, s, i, m, n, drop, blank) && i < m && drop(a[i])
    requires |b| == |a| && b[..i] == a[..i] && b[i..m - 1] == a[i + 1..m] && b[m - 1] == blank && b[m..] == a[m..]
    ensures Compacting(b, s, i, m - 1, n, drop, blank)
  {
    var t := a[i..m];
    assert Filter(t, drop) == Filter(t[1..], drop);
    assert Count(t, drop) == 1 + Count(t[1..], drop);
    assert b[i..m - 1] == t[1..];
    forall k | m - 1 <= k < n
      ensures b[k] == blank
    {
      if k >= m {
        assert b[k] == b[m..][k - m];
      }
    }
  }

  /** One deletion: entry i goes, the entries after it up to m shift up, and slot m - 1 is cleared. */
  method DeleteAt<T>(a: array<T>, i: nat, m: nat, blank: T)
    requires i < m <= a.Length
    modifies a
    ensures a[..i] == old(a[..i])
    ensures a[i..m - 1] == old(a[i + 1..m])
    ensures a[m - 1] == blank
    ensures a[m..] == old(a[m..])
  {
    ShiftUp(a, i, m);
    a[m - 1] := blank;
  }

  /**
   * Delete, in place, the entries of a[..n] that drop selects. The survivors
   * end up at the front in their old order, the freed slots are cleared to
   * blank and nothing past n is touched.
   */
  method Compact<T>(a: array<T>, n: nat, drop: T -> bool, blank: T) returns (m: nat)
    requires n <= a.Length
    modifies a
    ensures m + Count(old(a[..n]), drop) == n
    ensures a[..m] == Filter(old(a[..n]), drop)
    ensures forall k :: m <= k < n ==> a[k] == blank
    ensures a[n..] == old(a[n..])
  {
    ghost var s := a[..n];
    var i := 0;
    m := n;
    while i < m
      invariant Compacting(a[..], s, i, m, n, drop, blank)
      invariant a[n..] == old(a[n..])
      decreases m - i
    {
      if drop(a[i]) {
        ghost var before := a[..];
        DeleteAt(a, i, m, blank);
        DropStep(before, a[..], s, i, m, n, drop, blank);
        m := m - 1;
      } else {
        KeepStep(a[..], s, i, m, n, drop, blank);
        i := i + 1;
      }
    }
    assert a[i..m] == [];
  }
}
