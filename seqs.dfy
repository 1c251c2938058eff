/** Sequence operations the services and repositories are built from: a Java
    stream `filter`, `findFirst`, an `ORDER BY` on an integer key, and
    Spring Data's page arithmetic. */
module Seqs {
  import opened Common

  /** The elements of `s` that satisfy `p`, in their order in `s`. */
  function Filter<T(!new)>(s: seq<T>, p: T -> bool): (r: seq<T>)
    ensures |r| <= |s|
    ensures forall x :: x in r <==> x in s && p(x)
    ensures forall i :: 0 <= i < |r| ==> p(r[i])
    ensures multiset(r) <= multiset(s)
  {
    if s == [] then []
    else
      var init, last := s[..|s| - 1], s[|s| - 1];
      assert s == init + [last];
      Filter(init, p) + (if p(last) then [last] else [])
  }

  /** Filtering distributes over concatenation: a filter keeps the order of
      the elements it keeps. */
  lemma {:induction false} FilterAppend<T(!new)>(a: seq<T>, b: seq<T>, p: T -> bool)
    ensures Filter(a + b, p) == Filter(a, p) + Filter(b, p)
    decreases |b|
  {
    if b == [] {
      assert a + b == a;
    } else {
      var init, last := b[..|b| - 1], b[|b| - 1];
      var tail := if p(last) then [last] else [];
      assert b == init + [last];
      assert (a + b)[..|a + b| - 1] == a + init;
      assert (a + b)[|a + b| - 1] == last;
      calc {
        Filter(a + b, p);
        Filter(a + init, p) + tail;
        { FilterAppend(a, init, p); }
        Filter(a, p) + Filter(init, p) + tail;
        Filter(a, p) + (Filter(init, p) + tail);
        Filter(a, p) + Filter(b, p);
      }
    }
  }

  /** A filter keeps every occurrence of a qualifying value and none of
      the others. */
  lemma {:induction false} FilterCount<T(!new)>(s: seq<T>, p: T -> bool, x: T)
    ensures multiset(Filter(s, p))[x] == if p(x) then multiset(s)[x] else 0
    decreases |s|
  {
    if s != [] {
      var init, last := s[..|s| - 1], s[|s| - 1];
      assert s == init + [last];
      FilterCount(init, p, x);
      assert multiset(s) == multiset(init) + multiset{last};
    }
  }

  /** A filter keeps every element when all of them qualify. */
  lemma {:induction false} FilterAll<T(!new)>(s: seq<T>, p: T -> bool)
    requires forall i :: 0 <= i < |s| ==> p(s[i])
    ensures Filter(s, p) == s
    decreases |s|
  {
    if s != [] {
      var init := s[..|s| - 1];
      assert s == init + [s[|s| - 1]];
      FilterAll(init, p);
    }
  }

  /** A filter keeps nothing when no element qualifies. */
  lemma {:induction false} FilterNone<T(!new)>(s: seq<T>, p: T -> bool)
    requires forall i :: 0 <= i < |s| ==> !p(s[i])
    ensures Filter(s, p) == []
    decreases |s|
  {
    if s != [] {
      FilterNone(s[..|s| - 1], p);
    }
  }

  /** A filter and its complement together keep every element once: the
      two results are a split of `s`. */
  lemma FilterSplit<T(!new)>(s: seq<T>, p: T -> bool, q: T -> bool)
    requires forall x :: q(x) == !p(x)
    ensures multiset(Filter(s, p)) + multiset(Filter(s, q)) == multiset(s)
    ensures |Filter(s, p)| + |Filter(s, q)| == |s|
  {
    forall x ensures (multiset(Filter(s, p)) + multiset(Filter(s, q)))[x] == multiset(s)[x] {
      FilterCount(s, p, x);
      FilterCount(s, q, x);
    }
    assert multiset(Filter(s, p)) + multiset(Filter(s, q)) == multiset(s);
    assert |multiset(Filter(s, p)) + multiset(Filter(s, q))| == |Filter(s, p)| + |Filter(s, q)|;
  }

  /** `stream().map(f).collect(toList())`. */
  function Map<A, B>(s: seq<A>, f: A -> B): (r: seq<B>)
    ensures |r| == |s|
    ensures forall i :: 0 <= i < |s| ==> r[i] == f(s[i])
  {
    seq(|s|, i requires 0 <= i < |s| => f(s[i]))
  }

  /** Mapping distributes over concatenation. */
  lemma MapAppend<A, B>(a: seq<A>, b: seq<A>, f: A -> B)
    ensures Map(a + b, f) == Map(a, f) + Map(b, f)
  {
  }

  /** Mapping a rearrangement of a sequence gives a rearrangement of the
      mapped sequence. */
  lemma {:induction false} MapPermutes<A, B>(a: seq<A>, b: seq<A>, f: A -> B)
    requires multiset(a) == multiset(b)
    ensures multiset(Map(a, f)) == multiset(Map(b, f))
    decreases |a|
  {
    if a == [] {
      assert |b| == |multiset(b)| == 0;
    } else {
      var x := a[0];
      assert x in multiset(b);
      var k :| 0 <= k < |b| && b[k] == x;
      var rest := b[..k] + b[k + 1..];
      assert b == b[..k] + [x] + b[k + 1..];
      assert a == [x] + a[1..];
      assert multiset(b) == multiset(rest) + multiset{x};
      assert multiset(a) == multiset(a[1..]) + multiset{x};
      assert multiset(a[1..]) == multiset(a) - multiset{x};
      assert multiset(rest) == multiset(b) - multiset{x};
      MapPermutes(a[1..], rest, f);
      MapAppend([x], a[1..], f);
      MapAppend(b[..k] + [x], b[k + 1..], f);
      MapAppend(b[..k], [x], f);
      MapAppend(b[..k], b[k + 1..], f);
    }
  }

  /** The index of the first element of `s` that satisfies `p`, as
      `stream().filter(p).findFirst()` finds it. */
  function FirstIndex<T>(s: seq<T>, p: T -> bool): (r: Option<nat>)
    ensures r.Some? ==> r.value < |s| && p(s[r.value])
    ensures r.Some? ==> forall j :: 0 <= j < r.value ==> !p(s[j])
    ensures r.None? <==> forall j :: 0 <= j < |s| ==> !p(s[j])
  {
    if s == [] then None
    else if p(s[0]) then Some(0)
    else
      match FirstIndex(s[1..], p)
      case None => None
      case Some(k) => Some(k + 1)
  }

  /** `FirstIndex` is `k` when the element at `k` is the first that
      qualifies. */
  lemma FirstIndexAt<T>(s: seq<T>, p: T -> bool, k: nat)
    requires k < |s| && p(s[k])
    requires forall j :: 0 <= j < k ==> !p(s[j])
    ensures FirstIndex(s, p) == Some(k)
  {
  }

  /** `s` without its element at `k`, the others in order: `List.remove`
      at an index. */
  function RemoveAt<T>(s: seq<T>, k: nat): (r: seq<T>)
    requires k < |s|
    ensures |r| == |s| - 1
    ensures forall i :: 0 <= i < k ==> r[i] == s[i]
    ensures forall i :: k <= i < |r| ==> r[i] == s[i + 1]
    ensures multiset(r) + multiset{s[k]} == multiset(s)
  {
    assert s == s[..k] + [s[k]] + s[k + 1..];
    s[..k] + s[k + 1..]
  }

  /** The first element of `s` that satisfies `p`: `findFirst()` on a
      filtered stream, or `findById` on a table. */
  function Find<T(!new)>(s: seq<T>, p: T -> bool): (r: Option<T>)
    ensures r.None? <==> forall x :: x in s ==> !p(x)
    ensures r.Some? ==> r.value in s && p(r.value)
    ensures r.Some? ==> FirstIndex(s, p).Some? && r.value == s[FirstIndex(s, p).value]
  {
    match FirstIndex(s, p)
    case Some(i) => Some(s[i])
    case None => None
  }

  /** `a` comes no later than `b` in an ascending (`desc == false`) or a
      descending order. */
  predicate InOrder(a: int, b: int, desc: bool) {
    if desc then a >= b else a <= b
  }

  ghost predicate SortedBy<T>(s: seq<T>, key: T -> int, desc: bool) {
    forall i, j :: 0 <= i < j < |s| ==> InOrder(key(s[i]), key(s[j]), desc)
  }

  /** A sorted sequence stays sorted under a new head that may precede
      every element. */
  lemma SortedCons<T>(h: T, t: seq<T>, key: T -> int, desc: bool)
    requires SortedBy(t, key, desc)
    requires forall i :: 0 <= i < |t| ==> InOrder(key(h), key(t[i]), desc)
    ensures SortedBy([h] + t, key, desc)
  {
    var r := [h] + t;
    forall i, j | 0 <= i < j < |r| ensures InOrder(key(r[i]), key(r[j]), desc) {
      if i > 0 {
        assert r[i] == t[i - 1] && r[j] == t[j - 1];
      } else {
        assert r[j] == t[j - 1];
      }
    }
  }

  /** Inserts `x` into a sorted sequence, before the first element it may
      precede, so that equal keys keep their original order. */
  function Insert<T>(x: T, s: seq<T>, key: T -> int, desc: bool): (r: seq<T>)
    requires SortedBy(s, key, desc)
    ensures SortedBy(r, key, desc)
    ensures multiset(r) == multiset(s) + multiset{x}
    ensures |r| == |s| + 1
  {
    if s == [] then
      [x]
    else if InOrder(key(x), key(s[0]), desc) then
      SortedCons(x, s, key, desc);
      [x] + s
    else
      var rest := Insert(x, s[1..], key, desc);
      InsertHeadBound(x, s, rest, key, desc);
      SortedCons(s[0], rest, key, desc);
      assert s == [s[0]] + s[1..];
      [s[0]] + rest
  }

  /** The head of a sorted sequence may precede everything that inserting a
      later element into its tail produces. */
  lemma InsertHeadBound<T>(x: T, s: seq<T>, rest: seq<T>, key: T -> int, desc: bool)
    requires s != [] && SortedBy(s, key, desc)
    requires !InOrder(key(x), key(s[0]), desc)
    requires multiset(rest) == multiset(s[1..]) + multiset{x}
    ensures forall i :: 0 <= i < |rest| ==> InOrder(key(s[0]), key(rest[i]), desc)
  {
    forall i | 0 <= i < |rest| ensures InOrder(key(s[0]), key(rest[i]), desc) {
      var y := rest[i];
      assert y in multiset(rest);
      if y != x {
        assert y in multiset(s[1..]);
        assert y in s[1..];
        var k :| 0 <= k < |s[1..]| && s[1..][k] == y;
        assert s[k + 1] == y;
      }
    }
  }

  /** `ORDER BY key` (ascending) or `ORDER BY key DESC`: a stable insertion
      sort. The database leaves the order of equal keys unspecified; this
      model keeps them in storage order. */
  function SortBy<T>(s: seq<T>, key: T -> int, desc: bool): (r: seq<T>)
    ensures SortedBy(r, key, desc)
    ensures multiset(r) == multiset(s)
    ensures |r| == |s|
  {
    if s == [] then []
    else
      assert s == [s[0]] + s[1..];
      Insert(s[0], SortBy(s[1..], key, desc), key, desc)
  }

  function Abs(a: int): nat {
    if a < 0 then -a else a
  }

  /** Java's `int` division, which truncates towards zero. */
  function JavaDiv(a: int, b: int): (q: int)
    requires b != 0
  {
    if (a >= 0) == (b > 0) then Abs(a) / Abs(b) else -(Abs(a) / Abs(b))
  }

  function Min(a: int, b: int): int {
    if a <= b then a else b
  }

  function Max(a: int, b: int): int {
    if a >= b then a else b
  }

  /** Truncating division by a positive size: the quotient of a
      non-negative `from` is the floor quotient, that of a negative `from`
      above `-size` is 0, and that of a `from` at or below `-size` is
      negative. */
  lemma JavaDivBySize(from: int, size: int)
    requires size >= 1
    ensures from >= 0 ==> JavaDiv(from, size) == from / size
    ensures -size < from < 0 ==> JavaDiv(from, size) == 0
    ensures from <= -size ==> JavaDiv(from, size) < 0
    ensures from > -size ==> JavaDiv(from, size) >= 0
  {
    if from >= 0 {
      DivNonNegative(from, size);
    } else {
      var n := Abs(from);
      assert n == size * (n / size) + n % size;
      if n < size {
        assert n / size == 0;
      } else {
        assert n / size >= 1;
      }
    }
  }

  lemma DivNonNegative(x: int, d: int)
    requires x >= 0 && d >= 1
    ensures x / d >= 0
  {
  }

  /** The multiple of `size` at or below a non-negative `from`. */
  lemma FloorMultiple(from: int, size: int)
    requires size >= 1 && from >= 0
    ensures 0 <= from / size * size <= from < from / size * size + size
  {
    var q := from / size;
    assert from == q * size + from % size;
    assert 0 <= q;
  }

  /** Where page `from / size` starts: `from` rounded down to a multiple of
      `size`, and 0 for a negative `from` above `-size`, whose quotient
      truncates to page 0. */
  function PageOffset(from: int, size: int): (o: int)
    requires size >= 1 && from > -size
    ensures 0 <= o <= Max(from, 0) < o + size
  {
    if from < 0 then 0
    else
      FloorMultiple(from, size);
      from / size * size
  }

  /** The page number `PageRequest.of` receives is Java's truncating
      `from / size`: negative exactly when `from` is at most `-size`, and
      otherwise the page starting at `PageOffset`. */
  lemma PageNumber(from: int, size: int)
    requires size >= 1
    ensures JavaDiv(from, size) < 0 <==> from <= -size
    ensures from > -size ==> PageOffset(from, size) == JavaDiv(from, size) * size
  {
    JavaDivBySize(from, size);
  }

  /** `PageRequest.of(from / size, size)` applied to a query result: a zero
      size makes the division throw; `PageRequest.of` rejects a negative
      page and a size below one; otherwise the page numbered `from / size`
      of `size` elements, which may be short or empty. The page number is
      negative exactly when `from` is at most `-size` (`PageNumber`), which
      is how the guard is written here. */
  function Page<T>(s: seq<T>, from: int, size: int): (r: Result<seq<T>>)
    ensures r.Success? <==> size >= 1 && from > -size
    ensures r.Failure? ==> r.error == if size == 0 then DivisionByZero else InvalidArgument
  {
    if size == 0 then Failure(DivisionByZero)
    else if size < 1 then Failure(InvalidArgument)
    else if from <= -size then Failure(InvalidArgument)
    else
        var o := PageOffset(from, size);
        Success(s[Min(o, |s|)..Min(o + size, |s|)])
  }

  /** A page is a slice of its query result: no longer than `size`, and
      every element on it is one of the result's. */
  lemma PageWithin<T>(s: seq<T>, from: int, size: int)
    requires Page(s, from, size).Success?
    ensures |Page(s, from, size).value| <= size
    ensures forall x :: x in Page(s, from, size).value ==> x in s
  {
    var o := PageOffset(from, size);
    assert Page(s, from, size).value == s[Min(o, |s|)..Min(o + size, |s|)];
  }

  /** A page holds the elements of `s` from `PageOffset(from, size)` on, in
      order: `size` of them, or as many as remain. */
  lemma PageContents<T>(s: seq<T>, from: int, size: int)
    requires size >= 1 && from > -size
    ensures Page(s, from, size).Success?
    ensures var r, o := Page(s, from, size).value, PageOffset(from, size);
      && |r| == Min(size, Max(0, |s| - o))
      && (forall i :: 0 <= i < |r| ==> r[i] == s[o + i])
  {
    var o := PageOffset(from, size);
    assert Page(s, from, size) == Success(s[Min(o, |s|)..Min(o + size, |s|)]);
  }

  /** The element at position `from` is on the page `from / size`, at
      position `from % size`: `from` is an offset rounded down to a page
      boundary, not the first element returned. */
  lemma PageHoldsFrom<T>(s: seq<T>, from: int, size: int)
    requires size >= 1 && 0 <= from < |s|
    ensures Page(s, from, size).Success?
    ensures var r := Page(s, from, size).value;
      from % size < |r| && r[from % size] == s[from]
  {
    var q := from / size;
    assert JavaDiv(from, size) == q;
    assert from == q * size + from % size;
    assert 0 <= from % size < size;
    assert q * size <= from < q * size + size;
  }
}
