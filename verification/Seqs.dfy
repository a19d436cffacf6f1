/** Facts about filtering and sorting sequences that several modules need. */
module Seqs {
  function Filter<T>(p: T -> bool, s: seq<T>): seq<T> {
    if s == [] then []
    else
      var n := |s| - 1;
      if p(s[n]) then Filter(p, s[..n]) + [s[n]] else Filter(p, s[..n])
  }

  lemma {:induction false} FilterMembers<T>(p: T -> bool, s: seq<T>)
    ensures forall x :: x in Filter(p, s) <==> x in s && p(x)
  {
    if s != [] {
      var n := |s| - 1;
      FilterMembers(p, s[..n]);
      assert s == s[..n] + [s[n]];
    }
  }

  lemma Snoc<T>(a: seq<T>, b: seq<T>)
    requires b != []
    ensures a + b != [] && (a + b)[..|a + b| - 1] == a + b[..|b| - 1] && (a + b)[|a + b| - 1] == b[|b| - 1]
    ensures b == b[..|b| - 1] + [b[|b| - 1]]
  {
  }

  lemma {:induction false} FilterAppend<T(!new)>(p: T -> bool, a: seq<T>, b: seq<T>)
    ensures Filter(p, a + b) == Filter(p, a) + Filter(p, b)
  {
    if b == [] {
      assert a + b == a;
    } else {
      FilterAppend(p, a, b[..|b| - 1]);
      Snoc(a, b);
    }
  }

  lemma Assoc<T>(a: seq<T>, b: seq<T>, c: seq<T>)
    ensures a + (b + c) == a + b + c
  {
  }

  lemma FirstAndLast<T>(s: seq<T>)
    requires |s| > 1
    ensures var front := s[..|s| - 1];
      s == front + [s[|s| - 1]] && s[0] == front[0] && s[1..] == front[1..] + [s[|s| - 1]]
  {
  }

  lemma LastApart<T>(a: seq<T>, b: seq<T>)
    requires b != []
    ensures b == b[..|b| - 1] + [b[|b| - 1]] && a + b == a + b[..|b| - 1] + [b[|b| - 1]]
  {
  }

  lemma FilterOne<T(!new)>(p: T -> bool, x: T)
    ensures Filter(p, [x]) == if p(x) then [x] else []
  {
    assert [x][..0] == [];
  }

  lemma FilterFirst<T(!new)>(p: T -> bool, x: T, s: seq<T>)
    ensures Filter(p, [x] + s) == if p(x) then [x] + Filter(p, s) else Filter(p, s)
  {
    FilterAppend(p, [x], s);
    FilterOne(p, x);
    assert [] + Filter(p, s) == Filter(p, s);
  }

  lemma {:induction false} FilterMultiset<T(!new)>(p: T -> bool, s: seq<T>, x: T)
    ensures multiset(Filter(p, s))[x] == if p(x) then multiset(s)[x] else 0
  {
    if s != [] {
      var n := |s| - 1;
      FilterMultiset(p, s[..n], x);
      assert s == s[..n] + [s[n]];
    }
  }

  lemma {:induction false} FilterAll<T(!new)>(p: T -> bool, s: seq<T>)
    requires forall x :: x in s ==> p(x)
    ensures Filter(p, s) == s
  {
    if s != [] {
      var n := |s| - 1;
      assert s == s[..n] + [s[n]];
      FilterAll(p, s[..n]);
    }
  }


  lemma FilterBehind<T(!new)>(p: T -> bool, s: seq<T>)
    requires s != [] && forall i :: 0 < i < |s| ==> p(s[i])
    ensures Filter(p, s) == if p(s[0]) then s else s[1..]
  {
    var rest := s[1..];
    forall x | x in rest ensures p(x) {
      var i: nat :| i < |rest| && rest[i] == x;
      assert s[i + 1] == x;
    }
    FilterAll(p, rest);
    FilterFirst(p, s[0], rest);
    assert s == [s[0]] + rest;
  }
  lemma FilterOut<T(!new)>(p: T -> bool, a: seq<T>, x: T, b: seq<T>)
    requires Filter(p, a) == a && Filter(p, b) == b && !p(x)
    ensures Filter(p, a + ([x] + b)) == a + b
  {
    FilterFirst(p, x, b);
    FilterAppend(p, a, [x] + b);
  }

  lemma {:induction false} FilterNone<T(!new)>(p: T -> bool, s: seq<T>)
    requires forall x :: x in s ==> !p(x)
    ensures Filter(p, s) == []
  {
    if s != [] {
      var n := |s| - 1;
      assert s == s[..n] + [s[n]];
      FilterNone(p, s[..n]);
    }
  }

  lemma FilterPrefix<T(!new)>(p: T -> bool, s: seq<T>, k: nat)
    requires k <= |s| && (forall i :: 0 <= i < k ==> p(s[i])) && forall i :: k <= i < |s| ==> !p(s[i])
    ensures Filter(p, s) == s[..k]
  {
    assert s == s[..k] + s[k..];
    FilterAppend(p, s[..k], s[k..]);
    FilterAll(p, s[..k]);
    FilterNone(p, s[k..]);
  }

  /** Every element is related to every later one. */
  ghost predicate Ordered<T(!new)>(rel: (T, T) -> bool, s: seq<T>) {
    forall i, j :: 0 <= i < j < |s| ==> rel(s[i], s[j])
  }

  lemma Related<T(!new)>(rel: (T, T) -> bool, s: seq<T>, i: nat, j: nat)
    requires Ordered(rel, s) && i < |s| && j < |s|
    ensures (i < j ==> rel(s[i], s[j])) && (j < i ==> rel(s[j], s[i]))
  {
  }

  lemma {:induction false} FilterOrdered<T(!new)>(p: T -> bool, rel: (T, T) -> bool, s: seq<T>)
    requires Ordered(rel, s)
    ensures Ordered(rel, Filter(p, s))
  {
    if s != [] {
      var n := |s| - 1;
      FilterOrdered(p, rel, s[..n]);
      var f := Filter(p, s[..n]);
      FilterMembers(p, s[..n]);
      forall i | 0 <= i < |f| ensures rel(f[i], s[n]) {
        assert f[i] in f;
        assert f[i] in s[..n];
      }
    }
  }

  /** `weak` never holds against `strict`. */
  ghost predicate Opposed<T(!new)>(strict: (T, T) -> bool, weak: (T, T) -> bool) {
    forall x, y :: weak(x, y) ==> !strict(y, x)
  }

  lemma SameFirst<T(!new)>(strict: (T, T) -> bool, weak: (T, T) -> bool, a: seq<T>, b: seq<T>)
    requires Opposed(strict, weak) && Ordered(strict, a) && Ordered(weak, b)
    requires a != [] && b != [] && a[0] in b && b[0] in a
    ensures a[0] == b[0]
  {
    var i :| 0 <= i < |b| && b[i] == a[0];
    var j :| 0 <= j < |a| && a[j] == b[0];
    Related(weak, b, 0, i);
    Related(strict, a, 0, j);
  }

  lemma MultisetTail<T(!new)>(a: seq<T>)
    requires a != []
    ensures multiset(a[1..]) == multiset(a) - multiset{a[0]}
  {
    assert a == [a[0]] + a[1..];
  }

  lemma SameParts<T>(a: seq<T>, b: seq<T>)
    requires a != [] && b != [] && a[0] == b[0] && a[1..] == b[1..]
    ensures a == b
  {
    assert a == [a[0]] + a[1..] && b == [b[0]] + b[1..];
  }

  /** A strictly ordered sequence is the only ordered arrangement of its elements. */
  lemma {:induction false} OrderedUnique<T(!new)>(strict: (T, T) -> bool, weak: (T, T) -> bool, a: seq<T>, b: seq<T>)
    requires Opposed(strict, weak) && Ordered(strict, a) && Ordered(weak, b)
    requires multiset(a) == multiset(b)
    ensures a == b
  {
    if a == [] {
      assert |multiset(b)| == 0;
    } else {
      assert a[0] in multiset(a) && a[0] in b;
      assert b[0] in multiset(b) && b[0] in a;
      SameFirst(strict, weak, a, b);
      MultisetTail(a);
      MultisetTail(b);
      OrderedUnique(strict, weak, a[1..], b[1..]);
      SameParts(a, b);
    }
  }

  lemma {:induction false} NoRepeats<T(!new)>(rel: (T, T) -> bool, s: seq<T>, x: T)
    requires Ordered(rel, s) && !rel(x, x)
    ensures multiset(s)[x] <= 1
  {
    if s != [] {
      var n := |s| - 1;
      NoRepeats(rel, s[..n], x);
      assert s == s[..n] + [s[n]];
      if x in s[..n] {
        var i :| 0 <= i < n && s[i] == x;
        assert rel(s[i], s[n]);
      }
    }
  }

  lemma Repeats<T>(s: seq<T>, i: nat, j: nat)
    requires i < j < |s| && s[i] == s[j]
    ensures multiset(s)[s[i]] >= 2
  {
    assert s == s[..j] + [s[j]] + s[j + 1..];
    assert s[i] in s[..j];
  }

  /******* Stable sorting *******/

  function HasKey<T(!new)>(key: T -> int, k: int): T -> bool {
    (x: T) => key(x) == k
  }

  function ByKey<T(!new)>(key: T -> int): (T, T) -> bool {
    (x: T, y: T) => key(x) <= key(y)
  }

  /** `s` is `a` in ascending order of keys, elements with the same key in their old order. */
  ghost predicate StableSorted<T(!new)>(key: T -> int, a: seq<T>, s: seq<T>) {
    && Ordered(ByKey(key), s)
    && forall k: int :: Filter(HasKey(key, k), s) == Filter(HasKey(key, k), a)
  }

  lemma StableKeeps<T(!new)>(key: T -> int, a: seq<T>, s: seq<T>)
    requires StableSorted(key, a, s)
    ensures multiset(s) == multiset(a)
    ensures forall x :: x in s <==> x in a
  {
    forall x ensures multiset(s)[x] == multiset(a)[x] {
      FilterMultiset(HasKey(key, key(x)), s, x);
      FilterMultiset(HasKey(key, key(x)), a, x);
    }
    forall x ensures x in s <==> x in a {
      assert x in multiset(s) <==> x in multiset(a);
    }
  }

  /** An order that holds within a filtered sequence holds between its members in the whole one. */
  lemma {:induction false} FilterReflects<T(!new)>(p: T -> bool, rel: (T, T) -> bool, s: seq<T>, i: nat, j: nat)
    requires Ordered(rel, Filter(p, s)) && i < j < |s| && p(s[i]) && p(s[j])
    ensures rel(s[i], s[j])
  {
    var n := |s| - 1;
    var f := Filter(p, s[..n]);
    if j < n {
      assert Filter(p, s)[..|f|] == f;
      FilterReflects(p, rel, s[..n], i, j);
    } else {
      FilterMembers(p, s[..n]);
      assert s[i] in s[..n] && s[i] in f;
      var k :| 0 <= k < |f| && f[k] == s[i];
      assert Filter(p, s) == f + [s[n]];
      assert rel(Filter(p, s)[k], Filter(p, s)[|f|]);
    }
  }

  /** A symmetric relation between all elements of a sequence survives rearranging it. */
  lemma SymmetricSurvives<T(!new)>(rel: (T, T) -> bool, a: seq<T>, s: seq<T>)
    requires Ordered(rel, a) && multiset(s) == multiset(a)
    requires forall x, y :: rel(x, y) ==> rel(y, x)
    requires forall x :: x in a ==> !rel(x, x)
    ensures Ordered(rel, s)
  {
    forall i, j | 0 <= i < j < |s| ensures rel(s[i], s[j]) {
      assert s[i] in multiset(s) && s[j] in multiset(s);
      var k :| 0 <= k < |a| && a[k] == s[i];
      var l :| 0 <= l < |a| && a[l] == s[j];
      if k == l {
        Repeats(s, i, j);
        NoRepeats(rel, a, s[i]);
      }
      assert k < l ==> rel(a[k], a[l]);
      assert l < k ==> rel(a[l], a[k]);
    }
  }
}
