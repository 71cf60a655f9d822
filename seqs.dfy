/** Generic facts about sequences, counting and sortedness used by the rest of the model. */
module Seqs {

  /** The image of `s` under `f`, element by element (Python's `map` / a list comprehension). */
  function MapSeq<A, B>(f: A -> B, s: seq<A>): (r: seq<B>)
    ensures |r| == |s|
    ensures forall i :: 0 <= i < |s| ==> r[i] == f(s[i])
  {
    seq(|s|, i requires 0 <= i < |s| => f(s[i]))
  }

  /** A Python index into a sequence of length `n`: a negative index counts from the end. */
  predicate InRange(j: int, n: nat)
  {
    -(n as int) <= j < n
  }

  /** The position a Python index in range refers to. */
  function Wrap(j: int, n: nat): (p: nat)
    requires InRange(j, n)
    ensures p < n && (p == j || p == j + n)
  {
    if j >= 0 then j else j + n
  }

  lemma MapSeqConcat<A, B>(f: A -> B, a: seq<A>, b: seq<A>)
    ensures MapSeq(f, a + b) == MapSeq(f, a) + MapSeq(f, b)
  {
  }

  /** Removing the element at `k` removes one occurrence of it from the multiset. */
  lemma MultisetRemove<T>(s: seq<T>, k: int)
    requires 0 <= k < |s|
    ensures multiset(s[..k] + s[k + 1..]) == multiset(s) - multiset{s[k]}
  {
    assert s == s[..k] + [s[k]] + s[k + 1..];
    assert multiset(s) == multiset(s[..k]) + multiset{s[k]} + multiset(s[k + 1..]);
  }

  /** The image of `s` with position `k` removed lacks exactly one `f(s[k])`. */
  lemma MapRemove<A, B>(f: A -> B, s: seq<A>, k: int)
    requires 0 <= k < |s|
    ensures multiset(MapSeq(f, s)) == multiset(MapSeq(f, s[..k] + s[k + 1..])) + multiset{f(s[k])}
  {
    var fs := MapSeq(f, s);
    assert MapSeq(f, s[..k] + s[k + 1..]) == fs[..k] + fs[k + 1..];
    MultisetRemove(fs, k);
  }

  /** The image of a non-empty `s` is `f(s[0])` and the image of its tail. */
  lemma MapHead<A, B>(f: A -> B, s: seq<A>)
    requires s != []
    ensures multiset(MapSeq(f, s)) == multiset(MapSeq(f, s[1..])) + multiset{f(s[0])}
  {
    assert MapSeq(f, s) == [f(s[0])] + MapSeq(f, s[1..]);
  }

  /** Two permutations of each other with the same head have tails that are permutations. */
  lemma SameHeadTails<T>(a: seq<T>, b: seq<T>)
    requires a != [] && b != [] && a[0] == b[0] && multiset(a) == multiset(b)
    ensures multiset(a[1..]) == multiset(b[1..])
  {
    assert a == [a[0]] + a[1..];
    assert b == [b[0]] + b[1..];
    assert multiset(a[1..]) == multiset(a) - multiset{a[0]};
    assert multiset(b[1..]) == multiset(b) - multiset{b[0]};
  }

  /** Removing one matching element from two permutations of each other leaves permutations. */
  lemma RemoveMatching<T>(a: seq<T>, b: seq<T>, k: int)
    requires a != [] && 0 <= k < |b| && b[k] == a[0] && multiset(a) == multiset(b)
    ensures multiset(a[1..]) == multiset(b[..k] + b[k + 1..])
  {
    var x := a[0];
    assert multiset(b[..k] + b[k + 1..]) == multiset(b) - multiset{x} by {
      MultisetRemove(b, k);
    }
    assert multiset(a[1..]) == multiset(a) - multiset{x} by {
      assert a == [x] + a[1..];
      assert multiset(a) == multiset{x} + multiset(a[1..]);
    }
  }

  /** The step of `MapMultiset`: matching `a[0]` with `b[k]` reduces the images to the rests. */
  lemma MapMultisetStep<A, B>(f: A -> B, a: seq<A>, b: seq<A>, k: int)
    requires a != [] && 0 <= k < |b| && b[k] == a[0]
    requires multiset(MapSeq(f, a[1..])) == multiset(MapSeq(f, b[..k] + b[k + 1..]))
    ensures multiset(MapSeq(f, a)) == multiset(MapSeq(f, b))
  {
    MapRemove(f, b, k);
    MapHead(f, a);
  }

  /** Mapping preserves "being a permutation": equal multisets have equal images. */
  lemma {:induction false} MapMultiset<A, B>(f: A -> B, a: seq<A>, b: seq<A>)
    requires multiset(a) == multiset(b)
    ensures multiset(MapSeq(f, a)) == multiset(MapSeq(f, b))
  {
    if a == [] {
      assert |b| == |multiset(b)| == 0;
    } else {
      assert a[0] in multiset(b);
      var k :| 0 <= k < |b| && b[k] == a[0];
      RemoveMatching(a, b, k);
      MapMultiset(f, a[1..], b[..k] + b[k + 1..]);
      MapMultisetStep(f, a, b, k);
    }
  }

  /** Number of elements of `s` that satisfy `p`. */
  function Count<T>(p: T -> bool, s: seq<T>): (n: nat)
    ensures n <= |s|
  {
    if s == [] then 0 else (if p(s[0]) then 1 else 0) + Count(p, s[1..])
  }

  lemma {:induction false} CountConcat<T>(p: T -> bool, a: seq<T>, b: seq<T>)
    ensures Count(p, a + b) == Count(p, a) + Count(p, b)
  {
    if a == [] {
      assert a + b == b;
    } else {
      assert (a + b)[1..] == a[1..] + b;
      CountConcat(p, a[1..], b);
    }
  }

  /** `Count` is the multiplicity of `true` in the image. */
  lemma {:induction false} CountIsMultiplicity<T>(p: T -> bool, s: seq<T>)
    ensures Count(p, s) == multiset(MapSeq(p, s))[true]
  {
    if s != [] {
      CountIsMultiplicity(p, s[1..]);
      assert MapSeq(p, s) == [p(s[0])] + MapSeq(p, s[1..]);
    }
  }

  /** Counting is insensitive to the order of the elements. */
  lemma CountMultiset<T>(p: T -> bool, a: seq<T>, b: seq<T>)
    requires multiset(a) == multiset(b)
    ensures Count(p, a) == Count(p, b)
  {
    CountIsMultiplicity(p, a);
    CountIsMultiplicity(p, b);
    MapMultiset(p, a, b);
  }

  lemma {:induction false} CountAll<T>(p: T -> bool, s: seq<T>)
    requires forall i :: 0 <= i < |s| ==> p(s[i])
    ensures Count(p, s) == |s|
  {
    if s != [] {
      CountAll(p, s[1..]);
    }
  }

  lemma {:induction false} CountNone<T>(p: T -> bool, s: seq<T>)
    requires forall i :: 0 <= i < |s| ==> !p(s[i])
    ensures Count(p, s) == 0
  {
    if s != [] {
      CountNone(p, s[1..]);
    }
  }

  /** An element found at two different positions occurs at least twice. */
  lemma TwoPositions<T>(s: seq<T>, i: int, j: int)
    requires 0 <= i < j < |s| && s[i] == s[j]
    ensures multiset(s)[s[i]] >= 2
  {
    assert s == s[..j] + s[j..];
    assert s[i] in multiset(s[..j]);
    assert s[j] in multiset(s[j..]);
  }

  /** A prefix one element longer is the shorter prefix followed by that element. */
  lemma TakeSnoc<T>(s: seq<T>, k: int)
    requires 0 <= k < |s|
    ensures s[..k + 1] == s[..k] + [s[k]]
    ensures s[..k + 1][..k] == s[..k] && s[..k + 1][k] == s[k]
  {
  }

  /** A longer prefix is a shorter prefix followed by the slice between them. */
  lemma TakeSplit<T>(s: seq<T>, i: int, j: int)
    requires 0 <= i <= j <= |s|
    ensures s[..j] == s[..i] + s[i..j]
  {
  }

  lemma TakeAll<T>(s: seq<T>)
    ensures s[..|s|] == s
  {
  }

  /** A slice is surrounded by the prefix before it and the suffix after it. */
  lemma SliceSplit<T>(s: seq<T>, i: int, j: int)
    requires 0 <= i <= j <= |s|
    ensures s == s[..i] + s[i..j] + s[j..]
  {
  }

  /** The 1s of an indicator list of `x` over `s` are as many as the occurrences of `x` in `s`. */
  lemma {:induction false} IndicatorOnes<T>(s: seq<T>, x: T, r: seq<int>)
    requires |r| == |s| && forall i :: 0 <= i < |s| ==> r[i] == (if s[i] == x then 1 else 0)
    ensures multiset(r)[1] == multiset(s)[x]
  {
    if s != [] {
      IndicatorOnes(s[1..], x, r[1..]);
      assert s == [s[0]] + s[1..];
      assert r == [r[0]] + r[1..];
    }
  }

  /** `le` ordered: every earlier element is `le` every later one. */
  ghost predicate SortedBy<T(!new)>(le: (T, T) -> bool, s: seq<T>)
  {
    forall i, j :: 0 <= i < j < |s| ==> le(s[i], s[j])
  }

  ghost predicate Antisymmetric<T(!new)>(le: (T, T) -> bool)
  {
    forall x, y :: le(x, y) && le(y, x) ==> x == y
  }

  lemma SortedTail<T(!new)>(le: (T, T) -> bool, s: seq<T>)
    requires SortedBy(le, s) && s != []
    ensures SortedBy(le, s[1..])
  {
    forall i, j | 0 <= i < j < |s| - 1 ensures le(s[1..][i], s[1..][j]) {
      assert le(s[i + 1], s[j + 1]);
    }
  }

  /** Two sorted permutations of each other start with the same element. */
  lemma SortedHeads<T(!new)>(le: (T, T) -> bool, a: seq<T>, b: seq<T>)
    requires Antisymmetric(le)
    requires SortedBy(le, a) && SortedBy(le, b)
    requires a != [] && multiset(a) == multiset(b)
    ensures b != [] && a[0] == b[0]
  {
    assert a[0] in multiset(b);
    var k :| 0 <= k < |b| && b[k] == a[0];
    assert b[0] in multiset(a);
    var h :| 0 <= h < |a| && a[h] == b[0];
    if k > 0 && h > 0 {
      assert le(b[0], b[k]) && le(a[0], a[h]);
    }
  }

  /** Two sorted permutations of each other agree on the head, and their tails are again sorted
      permutations of each other. */
  lemma SortedStep<T(!new)>(le: (T, T) -> bool, a: seq<T>, b: seq<T>)
    requires Antisymmetric(le)
    requires SortedBy(le, a) && SortedBy(le, b)
    requires a != [] && multiset(a) == multiset(b)
    ensures b != [] && a[0] == b[0]
    ensures SortedBy(le, a[1..]) && SortedBy(le, b[1..])
    ensures multiset(a[1..]) == multiset(b[1..])
  {
    SortedHeads(le, a, b);
    SortedTail(le, a);
    SortedTail(le, b);
    SameHeadTails(a, b);
  }

  /** Two sequences sorted by the same antisymmetric relation with equal multisets are equal:
      a sort's output depends only on the multiset of its input. */
  lemma {:induction false} SortedUnique<T(!new)>(le: (T, T) -> bool, a: seq<T>, b: seq<T>)
    requires Antisymmetric(le)
    requires SortedBy(le, a) && SortedBy(le, b)
    requires multiset(a) == multiset(b)
    ensures a == b
  {
    if a == [] {
      assert |b| == |multiset(b)| == 0;
    } else {
      SortedStep(le, a, b);
      SortedUnique(le, a[1..], b[1..]);
      assert a == [a[0]] + a[1..] && b == [b[0]] + b[1..];
    }
  }

  /** The indices 0, 1, ..., n - 1 in order (Python's `range(n)`). */
  function Range(n: nat): (r: seq<int>)
    ensures |r| == n && forall i :: 0 <= i < n ==> r[i] == i
  {
    seq(n, i => i)
  }

  lemma {:induction false} RangeMultiplicity(n: nat, x: int)
    ensures multiset(Range(n))[x] == if 0 <= x < n then 1 else 0
  {
    if n > 0 {
      assert Range(n) == Range(n - 1) + [n - 1];
      RangeMultiplicity(n - 1, x);
    }
  }
}
