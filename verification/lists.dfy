/**
 * Sequence operations shared by the models of the browser-side registries:
 * the optional value, order-preserving filtering, the "last N, most recent
 * first" view of a stored list, and JavaScript's one-element `splice`.
 */
module Lists {

  /** A value that may be missing (a JSON field that is absent or null). */
  datatype Option<T> = None | Some(value: T) {

    /** The wrapped value, or `default` when there is none. */
    function GetOr(default: T): (r: T)
      ensures Some? ==> r == value
      ensures None? ==> r == default
    {
      match this
      case Some(v) => v
      case None => default
    }
  }

  /** `sub` is `s` with zero or more elements removed, order kept. */
  ghost predicate IsSubseq<T>(sub: seq<T>, s: seq<T>)
    decreases |s|
  {
    if |sub| == 0 then true
    else if |s| == 0 then false
    else if sub[0] == s[0] then IsSubseq(sub[1..], s[1..])
    else IsSubseq(sub, s[1..])
  }

  /** The elements of `s` satisfying `keep`, in their original order. */
  function Filter<T>(keep: T -> bool, s: seq<T>): (r: seq<T>)
    ensures |r| <= |s|
    ensures forall i :: 0 <= i < |r| ==> r[i] in s && keep(r[i])
    ensures forall i :: 0 <= i < |s| && keep(s[i]) ==> s[i] in r
    ensures IsSubseq(r, s)
    ensures (forall i :: 0 <= i < |s| ==> keep(s[i])) ==> r == s
  {
    if |s| == 0 then []
    else
      var rest := Filter(keep, s[1..]);
      if keep(s[0]) then [s[0]] + rest else rest
  }

  /** `Filter` keeps every occurrence of a kept element and none of the others. */
  lemma {:induction false} FilterCounts<T>(keep: T -> bool, s: seq<T>)
    ensures forall x :: x in s ==> multiset(Filter(keep, s))[x] == if keep(x) then multiset(s)[x] else 0
  {
    if |s| > 0 {
      FilterCounts(keep, s[1..]);
      assert s == [s[0]] + s[1..];
    }
  }

  /** One step of `Filter`. */
  lemma FilterStep<T>(keep: T -> bool, s: seq<T>)
    requires |s| > 0
    ensures Filter(keep, s) == if keep(s[0]) then [s[0]] + Filter(keep, s[1..]) else Filter(keep, s[1..])
  {
  }

  /** Elementwise image of a sequence. */
  function Map<T, U>(f: T -> U, s: seq<T>): (r: seq<U>)
    ensures |r| == |s|
    ensures forall i :: 0 <= i < |s| ==> r[i] == f(s[i])
  {
    seq(|s|, i requires 0 <= i < |s| => f(s[i]))
  }

  /** Mapping distributes over a leading element. */
  lemma MapCons<T, U>(f: T -> U, s: seq<T>)
    requires |s| > 0
    ensures Map(f, s) == [f(s[0])] + Map(f, s[1..])
  {
  }

  /** A subsequence keeps being one under an elementwise map. */
  lemma {:induction false} MapPreservesSubseq<T, U>(f: T -> U, sub: seq<T>, s: seq<T>)
    requires IsSubseq(sub, s)
    ensures IsSubseq(Map(f, sub), Map(f, s))
    decreases |s|
  {
    if |sub| > 0 && |s| > 0 {
      assert Map(f, s)[1..] == Map(f, s[1..]);
      if sub[0] == s[0] {
        assert Map(f, sub)[1..] == Map(f, sub[1..]);
        MapPreservesSubseq(f, sub[1..], s[1..]);
      } else {
        MapPreservesSubseq(f, sub, s[1..]);
        if Map(f, sub)[0] == Map(f, s)[0] {
          SubseqTail(Map(f, sub), Map(f, s[1..]));
        }
      }
    }
  }

  /** Dropping the head of a subsequence keeps it a subsequence. */
  lemma {:induction false} SubseqTail<T>(sub: seq<T>, s: seq<T>)
    requires |sub| > 0 && IsSubseq(sub, s)
    ensures IsSubseq(sub[1..], s)
    decreases |s|, 1
  {
    if sub[0] == s[0] {
      SubseqDropFront(sub[1..], s);
    } else {
      SubseqTail(sub, s[1..]);
      SubseqDropFront(sub[1..], s);
    }
  }

  /** A subsequence of the tail is a subsequence of the whole. */
  lemma {:induction false} SubseqDropFront<T>(sub: seq<T>, s: seq<T>)
    requires |s| > 0 && IsSubseq(sub, s[1..])
    ensures IsSubseq(sub, s)
    decreases |s|, 0
  {
    if |sub| > 0 && sub[0] == s[0] {
      SubseqTail(sub, s[1..]);
    }
  }

  /** The element at position `k` of a concatenation. */
  lemma ConcatIndex<T>(a: seq<T>, b: seq<T>, k: nat)
    requires k < |a| + |b|
    ensures (a + b)[k] == if k < |a| then a[k] else b[k - |a|]
  {
  }

  /** Python `xs[:n]`. */
  function Take<T>(s: seq<T>, n: nat): (r: seq<T>)
    ensures |r| == Min(n, |s|)
    ensures r == s[..|r|]
  {
    if |s| <= n then s else s[..n]
  }

  /** The sequence read back to front. */
  function Reverse<T>(s: seq<T>): (r: seq<T>)
    ensures |r| == |s|
    ensures forall i :: 0 <= i < |s| ==> r[i] == s[|s| - 1 - i]
  {
    if |s| == 0 then [] else Reverse(s[1..]) + [s[0]]
  }

  /** JavaScript `s.slice(-n)` for n > 0: the last `n` elements, or all of them. */
  function LastN<T>(s: seq<T>, n: nat): (r: seq<T>)
    ensures |r| == if |s| < n then |s| else n
    ensures forall i :: 0 <= i < |r| ==> r[i] == s[|s| - |r| + i]
  {
    if |s| <= n then s else s[|s| - n..]
  }

  function Min(a: int, b: int): int { if a <= b then a else b }

  /** One row of a "most recent first" table: the position shown and the
      index of the same entry in the stored list. */
  datatype Shown<T> = Shown(displayIndex: nat, actualIndex: nat, item: T)

  /**
   * `s.slice(-n).reverse()` enumerated with `actualIndex = |s| - displayIndex - 1`,
   * the index the delete buttons of the versions and interviews tables carry.
   */
  function RecentFirst<T>(s: seq<T>, n: nat): (r: seq<Shown<T>>)
    ensures |r| == Min(n, |s|)
  {
    var recent := Reverse(LastN(s, n));
    seq(|recent|, d requires 0 <= d < |recent| => Shown(d, |s| - d - 1, recent[d]))
  }

  /** The stored index computed for each shown row designates the very entry
      shown, rows run from the newest entry backwards, and no more than `n`
      rows are shown. */
  lemma RecentFirstIndexes<T>(s: seq<T>, n: nat)
    ensures forall d :: 0 <= d < |RecentFirst(s, n)| ==>
      var row := RecentFirst(s, n)[d];
      && row.displayIndex == d
      && row.actualIndex < |s|
      && s[row.actualIndex] == row.item
      && row.actualIndex == |s| - 1 - d
  {
    var last := LastN(s, n);
    var recent := Reverse(last);
    var r := RecentFirst(s, n);
    assert |r| == |recent|;
    forall d | 0 <= d < |r|
      ensures r[d].displayIndex == d && r[d].actualIndex == |s| - 1 - d
      ensures r[d].actualIndex < |s| && s[r[d].actualIndex] == r[d].item
    {
      assert r[d] == Shown(d, |s| - d - 1, recent[d]);
      var j := |last| - 1 - d;
      assert recent[d] == last[j];
      var i := |s| - |last| + j;
      assert last[j] == s[i];
      assert i == |s| - 1 - d;
    }
  }

  /** The position JavaScript's `splice` starts at: a negative start counts
      back from the end and is clamped at 0. */
  function SpliceIndex(len: nat, start: int): nat
  {
    if start >= 0 then start else if len + start < 0 then 0 else len + start
  }

  /**
   * JavaScript `a.splice(start, 1)`: removes the element at `SpliceIndex`,
   * or nothing when that index is at or past the end.
   */
  function SpliceOne<T>(s: seq<T>, start: int): (r: seq<T>)
    ensures var k := SpliceIndex(|s|, start);
      && (k < |s| ==> |r| == |s| - 1)
      && (k < |s| ==> forall j :: 0 <= j < k ==> r[j] == s[j])
      && (k < |s| ==> forall j :: k <= j < |r| ==> r[j] == s[j + 1])
      && (k >= |s| ==> r == s)
  {
    var k := SpliceIndex(|s|, start);
    if k < |s| then s[..k] + s[k + 1..] else s
  }

  /** Removing one entry by position keeps every other entry: the multiset
      of what remains plus what was removed is the original. */
  lemma SpliceOneRemovesExactly<T>(s: seq<T>, i: nat)
    requires i < |s|
    ensures multiset(SpliceOne(s, i)) + multiset{s[i]} == multiset(s)
  {
    assert s == s[..i] + [s[i]] + s[i + 1..];
    assert SpliceOne(s, i) == s[..i] + s[i + 1..];
  }
}
