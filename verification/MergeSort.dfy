/** `HASH_SRT`: bottom-up merge sort of the insertion-ordered list of a hash table, by relinking its items. */
module MergeSort {
  import opened Seqs
  import opened Links

  /******* What a pass computes *******/

  function Merge(key: int -> int, p: seq<int>, q: seq<int>): seq<int>
    decreases |p| + |q|
  {
    if p == [] then q
    else if q == [] then p
    else if key(p[0]) <= key(q[0]) then [p[0]] + Merge(key, p[1..], q)
    else [q[0]] + Merge(key, p, q[1..])
  }

  function Take(s: seq<int>, n: nat): seq<int> {
    if n <= |s| then s[..n] else s
  }

  function Drop(s: seq<int>, n: nat): seq<int> {
    if n <= |s| then s[n..] else []
  }

  /** Merge every two neighbouring runs of length `size`. */
  function Pass(key: int -> int, s: seq<int>, size: nat): seq<int>
    requires size > 0
    decreases |s|
  {
    if s == [] then []
    else Merge(key, Take(s, size), Take(Drop(s, size), size)) + Pass(key, Drop(s, 2 * size), size)
  }

  /** Runs of length `size` are sorted. */
  ghost predicate RunsSorted(key: int -> int, s: seq<int>, size: nat)
    requires size > 0
    decreases |s|
  {
    s == [] || (Ordered(ByKey(key), Take(s, size)) && RunsSorted(key, Drop(s, size), size))
  }

  lemma {:induction false} MergeKeeps(key: int -> int, p: seq<int>, q: seq<int>)
    ensures multiset(Merge(key, p, q)) == multiset(p) + multiset(q)
    decreases |p| + |q|
  {
    if p != [] && q != [] {
      if key(p[0]) <= key(q[0]) {
        MergeKeeps(key, p[1..], q);
        MultisetTail(p);
        MultisetTail(Merge(key, p, q));
      } else {
        MergeKeeps(key, p, q[1..]);
        MultisetTail(q);
        MultisetTail(Merge(key, p, q));
      }
    }
  }

  lemma ConsSorted(key: int -> int, x: int, s: seq<int>)
    requires Ordered(ByKey(key), s) && forall y :: y in s ==> key(x) <= key(y)
    ensures Ordered(ByKey(key), [x] + s)
  {
    var t := [x] + s;
    forall i, j | 0 <= i < j < |t| ensures ByKey(key)(t[i], t[j]) {
      assert t[j] == s[j - 1] && s[j - 1] in s;
      if i > 0 {
        assert ByKey(key)(s[i - 1], s[j - 1]);
      }
    }
  }

  lemma MergeMembers(key: int -> int, p: seq<int>, q: seq<int>, x: int)
    requires x in Merge(key, p, q)
    ensures x in p || x in q
  {
    MergeKeeps(key, p, q);
    assert x in multiset(Merge(key, p, q));
  }

  /** What comes out of a merge after `x` has been taken from a sorted run is not below `x`. */
  lemma RestAbove(key: int -> int, p: seq<int>, q: seq<int>, x: int)
    requires Ordered(ByKey(key), p) && Ordered(ByKey(key), q)
    requires (p != [] ==> key(x) <= key(p[0])) && (q != [] ==> key(x) <= key(q[0]))
    ensures forall y :: y in Merge(key, p, q) ==> key(x) <= key(y)
  {
    forall y | y in Merge(key, p, q) ensures key(x) <= key(y) {
      MergeMembers(key, p, q, y);
      if y in p {
        FirstIsLeast(key, p, y);
      } else {
        FirstIsLeast(key, q, y);
      }
    }
  }

  lemma TailSorted(key: int -> int, s: seq<int>)
    requires s != [] && Ordered(ByKey(key), s)
    ensures Ordered(ByKey(key), s[1..])
    ensures |s| > 1 ==> key(s[0]) <= key(s[1])
  {
    assert |s| > 1 ==> ByKey(key)(s[0], s[1]);
  }

  lemma {:induction false} MergeSorts(key: int -> int, p: seq<int>, q: seq<int>)
    requires Ordered(ByKey(key), p) && Ordered(ByKey(key), q)
    ensures Ordered(ByKey(key), Merge(key, p, q))
    decreases |p| + |q|
  {
    if p != [] && q != [] {
      if key(p[0]) <= key(q[0]) {
        TailSorted(key, p);
        MergeSorts(key, p[1..], q);
        RestAbove(key, p[1..], q, p[0]);
        ConsSorted(key, p[0], Merge(key, p[1..], q));
      } else {
        TailSorted(key, q);
        MergeSorts(key, p, q[1..]);
        RestAbove(key, p, q[1..], q[0]);
        ConsSorted(key, q[0], Merge(key, p, q[1..]));
      }
    }
  }

  lemma FirstIsLeast(key: int -> int, s: seq<int>, x: int)
    requires Ordered(ByKey(key), s) && x in s
    ensures key(s[0]) <= key(x)
  {
    var i :| 0 <= i < |s| && s[i] == x;
    assert i > 0 ==> ByKey(key)(s[0], s[i]);
  }

  /** If the head of the second run comes first, the first run has nothing with its key. */
  lemma NoneEqual(key: int -> int, p: seq<int>, x: int)
    requires p != [] && Ordered(ByKey(key), p) && key(x) < key(p[0])
    ensures Filter(HasKey(key, key(x)), p) == []
  {
    forall y | y in p ensures !HasKey(key, key(x))(y) {
      FirstIsLeast(key, p, y);
    }
    FilterNone(HasKey(key, key(x)), p);
  }

  lemma FilterHead(f: int -> bool, s: seq<int>)
    requires s != []
    ensures Filter(f, s) == (if f(s[0]) then [s[0]] else []) + Filter(f, s[1..])
  {
    FilterFirst(f, s[0], s[1..]);
    assert [] + Filter(f, s[1..]) == Filter(f, s[1..]);
    assert s == [s[0]] + s[1..];
  }

  lemma HeadAfter(f: int -> bool, p: seq<int>, q: seq<int>, m: seq<int>)
    requires q != [] && Filter(f, m) == Filter(f, p) + Filter(f, q[1..])
    requires Filter(f, q) == (if f(q[0]) then [q[0]] else []) + Filter(f, q[1..])
    requires f(q[0]) ==> Filter(f, p) == []
    ensures (if f(q[0]) then [q[0]] else []) + Filter(f, m) == Filter(f, p) + Filter(f, q)
  {
    if f(q[0]) {
      assert Filter(f, p) + Filter(f, q) == Filter(f, q);
    }
  }

  /** Elements with one key come out in the order they went in, those of the first run before the others. */
  lemma {:induction false} MergeStable(key: int -> int, p: seq<int>, q: seq<int>, k: int)
    requires Ordered(ByKey(key), p) && Ordered(ByKey(key), q)
    ensures Filter(HasKey(key, k), Merge(key, p, q)) == Filter(HasKey(key, k), p) + Filter(HasKey(key, k), q)
    decreases |p| + |q|
  {
    var f := HasKey(key, k);
    if p != [] && q != [] {
      FilterHead(f, Merge(key, p, q));
      if key(p[0]) <= key(q[0]) {
        TailSorted(key, p);
        FilterHead(f, p);
        MergeStable(key, p[1..], q, k);
      } else {
        TailSorted(key, q);
        FilterHead(f, q);
        MergeStable(key, p, q[1..], k);
        if key(q[0]) == k {
          NoneEqual(key, p, q[0]);
        }
        HeadAfter(f, p, q, Merge(key, p, q[1..]));
      }
    }
  }

  lemma TakeDrop(s: seq<int>, n: nat)
    ensures s == Take(s, n) + Drop(s, n)
  {
  }

  lemma DropTwice(s: seq<int>, n: nat)
    ensures Drop(Drop(s, n), n) == Drop(s, 2 * n)
  {
  }

  /** The two runs merged first, and what is behind them. */
  lemma Parts(key: int -> int, s: seq<int>, size: nat)
    requires size > 0
    ensures s == Take(s, size) + (Take(Drop(s, size), size) + Drop(s, 2 * size))
    ensures RunsSorted(key, s, size) ==>
              Ordered(ByKey(key), Take(s, size)) && Ordered(ByKey(key), Take(Drop(s, size), size)) &&
              RunsSorted(key, Drop(s, 2 * size), size)
  {
    TakeDrop(s, size);
    TakeDrop(Drop(s, size), size);
    DropTwice(s, size);
    assert RunsSorted(key, s, size) ==> RunsSorted(key, Drop(s, size), size);
  }

  lemma FilterParts(f: int -> bool, p: seq<int>, q: seq<int>, rest: seq<int>)
    ensures Filter(f, p + (q + rest)) == Filter(f, p) + Filter(f, q) + Filter(f, rest)
  {
    FilterAppend(f, q, rest);
    FilterAppend(f, p, q + rest);
  }

  lemma {:induction false} PassStable(key: int -> int, s: seq<int>, size: nat, k: int)
    requires size > 0 && RunsSorted(key, s, size)
    ensures Filter(HasKey(key, k), Pass(key, s, size)) == Filter(HasKey(key, k), s)
    decreases |s|
  {
    if s != [] {
      var p, q, rest := Take(s, size), Take(Drop(s, size), size), Drop(s, 2 * size);
      Parts(key, s, size);
      PassStable(key, rest, size, k);
      MergeStable(key, p, q, k);
      FilterAppend(HasKey(key, k), Merge(key, p, q), Pass(key, rest, size));
      FilterParts(HasKey(key, k), p, q, rest);
    }
  }

  lemma {:induction false} PassKeeps(key: int -> int, s: seq<int>, size: nat)
    requires size > 0
    ensures multiset(Pass(key, s, size)) == multiset(s)
    ensures |Pass(key, s, size)| == |s|
    decreases |s|
  {
    if s != [] {
      var p, q, rest := Take(s, size), Take(Drop(s, size), size), Drop(s, 2 * size);
      TakeDrop(s, size);
      TakeDrop(Drop(s, size), size);
      DropTwice(s, size);
      PassKeeps(key, rest, size);
      MergeKeeps(key, p, q);
      assert s == p + (q + rest);
      assert |multiset(Pass(key, s, size))| == |multiset(s)|;
    }
  }

  lemma {:induction false} PassSorts(key: int -> int, s: seq<int>, size: nat)
    requires size > 0 && RunsSorted(key, s, size)
    ensures RunsSorted(key, Pass(key, s, size), 2 * size)
    decreases |s|
  {
    if s != [] {
      var p, q, rest := Take(s, size), Take(Drop(s, size), size), Drop(s, 2 * size);
      DropTwice(s, size);
      PassSorts(key, rest, size);
      MergeSorts(key, p, q);
      MergeKeeps(key, p, q);
      var m, more := Merge(key, p, q), Pass(key, rest, size);
      PassKeeps(key, rest, size);
      assert |multiset(m)| == |multiset(p)| + |multiset(q)|;
      if |s| <= 2 * size {
        assert m + [] == m;
        assert Take(m, 2 * size) == m && Drop(m, 2 * size) == [];
      } else {
        assert |m| == 2 * size;
        assert Take(m + more, 2 * size) == m && Drop(m + more, 2 * size) == more;
      }
    }
  }

  lemma {:induction false} SingletonsSorted(key: int -> int, s: seq<int>)
    ensures RunsSorted(key, s, 1)
    decreases |s|
  {
    if s != [] {
      SingletonsSorted(key, Drop(s, 1));
    }
  }

  /******* Relinking *******/

  lemma Apart(done: seq<int>, e: int, p: seq<int>, r: seq<int>, n: nat)
    requires Items(done + [e] + p + r, n)
    ensures Items(done + [e], n) && Items(p, n) && Items(r, n)
    ensures done == [] <==> Last(done) == NULL
    ensures 0 <= e < n && forall i :: 0 <= i < |done| ==> done[i] != e && (i < |done| - 1 ==> done[i] != Last(done))
    ensures forall i :: 0 <= i < |p| ==> p[i] != Last(done) && p[i] != e
    ensures forall i :: 0 <= i < |r| ==> r[i] != Last(done) && r[i] != e
  {
    var s := done + [e] + p + r;
    assert forall i :: 0 <= i < |done| ==> s[i] == done[i];
    assert s[|done|] == e;
    assert Items(done + [e], n) by {
      assert forall i :: 0 <= i <= |done| ==> s[i] == (done + [e])[i];
    }
    assert forall i :: 0 <= i < |p| ==> s[|done| + 1 + i] == p[i];
    assert forall i :: 0 <= i < |r| ==> s[|done| + 1 + |p| + i] == r[i];
  }

  /** The state inside a merge: `done` is linked already; the rest of the first run `p` and everything from the
      second run on, `r`, are still linked as before. */
  ghost predicate MergeState(next: seq<int>, prev: seq<int>, n: nat, done: seq<int>, p: seq<int>, r: seq<int>) {
    && |next| == |prev| == n && Items(done + p + r, n)
    && Forward(next, done) && Backward(prev, done)
    && Forward(next, p) && Forward(next, r) && Ends(next, r)
  }

  lemma LinkForward(next: seq<int>, done: seq<int>, e: int, p: seq<int>, r: seq<int>)
    requires Items(done + [e] + p + r, |next|)
    requires Forward(next, done) && Forward(next, p) && Forward(next, r) && Ends(next, r)
    requires done != [] ==> 0 <= Last(done) < |next|
    ensures var next' := if done == [] then next else next[Last(done) := e];
            Forward(next', done + [e]) && Forward(next', p) && Forward(next', r) && Ends(next', r)
  {
    Apart(done, e, p, r, |next|);
  }

  lemma LinkBackward(prev: seq<int>, done: seq<int>, e: int)
    requires Items(done + [e], |prev|) && Backward(prev, done)
    ensures Backward(prev[(done + [e])[|done|] := Last(done)], done + [e])
  {
    var s := done + [e];
    assert forall i :: 0 <= i < |done| ==> s[i] == done[i] && s[i] != s[|done|];
  }

  lemma LinkStep(next: seq<int>, prev: seq<int>, n: nat, done: seq<int>, e: int, p: seq<int>, r: seq<int>)
    requires |next| == |prev| == n && Items(done + [e] + p + r, n)
    requires Forward(next, done) && Backward(prev, done) && Forward(next, p) && Forward(next, r) && Ends(next, r)
    ensures 0 <= e < n && (done != [] ==> 0 <= Last(done) < n) && (done == [] <==> Last(done) == NULL)
    ensures MergeState(if done == [] then next else next[Last(done) := e], prev[e := Last(done)], n, done + [e], p, r)
  {
    Apart(done, e, p, r, n);
    assert done != [] ==> (done + [e])[|done| - 1] == Last(done);
    LinkForward(next, done, e, p, r);
    LinkBackward(prev, done, e);
  }

  /** The second run is what is left of `qsize` items, `q` pointing to what is left of the list. */
  predicate SecondRun(q: seq<int>, rest: seq<int>, qsize: nat) {
    |q| <= qsize && (|q| < qsize ==> rest == [])
  }

  lemma ItemsPermuted(a: seq<int>, b: seq<int>, n: nat)
    requires Items(a, n) && multiset(a) == multiset(b)
    ensures Items(b, n)
  {
    var differ := (x: int, y: int) => x != y;
    assert Ordered(differ, a);
    SymmetricSurvives(differ, a, b);
    assert forall i, j :: 0 <= i < j < |b| ==> differ(b[i], b[j]);
    forall i | 0 <= i < |b| ensures 0 <= b[i] < n {
      assert b[i] in multiset(b) && b[i] in a;
    }
  }

  lemma TakenFromFirst(done: seq<int>, p: seq<int>, r: seq<int>, n: nat)
    requires Items(done + p + r, n) && p != []
    ensures Items(done + [p[0]] + p[1..] + r, n)
  {
    assert done + [p[0]] + p[1..] + r == done + p + r;
  }

  lemma TakenFromSecond(done: seq<int>, p: seq<int>, r: seq<int>, n: nat)
    requires Items(done + p + r, n) && r != []
    ensures Items(done + [r[0]] + p + r[1..], n)
  {
    MultisetTail(r);
    ItemsPermuted(done + p + r, done + [r[0]] + p + r[1..], n);
  }

  lemma ForwardTail(next: seq<int>, s: seq<int>)
    requires s != [] && Forward(next, s)
    ensures Forward(next, s[1..])
      && (Ends(next, s) ==> Ends(next, s[1..]) && 0 <= s[0] < |next| && next[s[0]] == First(s[1..]))
  {
  }

  /** The insertion-ordered list of a table: for each item the one behind and the one in front of it. */
  class ItemList {
    const cmp: seq<int>
    var next: seq<int>
    var prev: seq<int>
    var head: int
    var tail: int

    ghost predicate Valid(s: seq<int>)
      reads this
    {
      Linked(next, prev, |cmp|, s) && head == First(s) && tail == Last(s)
    }

    /** `sortByOrder` compares this. */
    function Key(): int -> int
    {
      (i: int) => if 0 <= i < |cmp| then cmp[i] else 0
    }

    /** A list of all items in the order of their numbers. */
    constructor (cmp: seq<int>)
      ensures this.cmp == cmp && Valid(seq(|cmp|, i => i))
    {
      this.cmp := cmp;
      next := seq(|cmp|, i => if i + 1 < |cmp| then i + 1 else NULL);
      prev := seq(|cmp|, i => i - 1);
      head := if |cmp| == 0 then NULL else 0;
      tail := |cmp| - 1;
    }

    /** Step over a run: count up to `insize` items from `p`, and find what follows them. */
    method SplitRun(p: int, insize: nat, ghost s: seq<int>) returns (psize: nat, q: int)
      requires |next| == |cmp| && Items(s, |cmp|) && Forward(next, s) && Ends(next, s) && s != [] && p == s[0]
        && insize > 0
      ensures psize == |Take(s, insize)| && q == First(Drop(s, insize))
    {
      psize, q := 0, p;
      var i := 0;
      while i < insize
        invariant psize == i <= insize && i < |s| && q == s[i]
        decreases insize - i
      {
        psize := psize + 1;
        i := i + 1;
        q := next[q];
        assert i < |s| ==> q == s[i];
        if q == NULL {
          return;
        }
      }
    }

    ghost predicate Merging(done: seq<int>, p: seq<int>, r: seq<int>)
      reads this
    {
      MergeState(next, prev, |cmp|, done, p, r)
    }

    /** Put `e` behind the finished part. */
    method Link(e: int, list: int, t: int, ghost done: seq<int>, ghost p: seq<int>, ghost r: seq<int>)
      returns (list': int)
      requires |next| == |prev| == |cmp| && Items(done + [e] + p + r, |cmp|)
      requires Forward(next, done) && Backward(prev, done) && Forward(next, p) && Forward(next, r) && Ends(next, r)
      requires list == First(done) && t == Last(done)
      modifies this`next, this`prev
      ensures Merging(done + [e], p, r) && list' == First(done + [e])
    {
      LinkStep(next, prev, |cmp|, done, e, p, r);
      list' := list;
      if t != NULL {
        next := next[t := e];
      } else {
        list' := e;
      }
      prev := prev[e := t];
    }

    /** The variables of the merge loop: `a` and `b` are what is left of the two runs, `rest` lies behind. */
    ghost predicate Cursor(p: int, psize: nat, q: int, qsize: nat, list: int, tail: int,
                           d: seq<int>, a: seq<int>, b: seq<int>, rest: seq<int>)
      reads this
    {
      && Merging(d, a, b + rest) && list == First(d) && tail == Last(d)
      && psize == |a| && (a != [] ==> p == a[0]) && q == First(b + rest) && SecondRun(b, rest, qsize)
    }

    /** Link the next item of the first run. */
    method MergeFirst(p: int, psize: nat, q: int, qsize: nat, list: int, tail: int,
                      ghost d: seq<int>, ghost a: seq<int>, ghost b: seq<int>, ghost rest: seq<int>)
      returns (p': int, list': int)
      requires Cursor(p, psize, q, qsize, list, tail, d, a, b, rest) && psize > 0
      modifies this`next, this`prev
      ensures Cursor(p', psize - 1, q, qsize, list', p, d + [p], a[1..], b, rest)
    {
      TakenFromFirst(d, a, b + rest, |cmp|);
      InRange(d, a, b + rest, |cmp|);
      ForwardTail(next, a);
      p' := next[p];
      list' := Link(p, list, tail, d, a[1..], b + rest);
    }

    /** Link the next item of the second run. */
    method MergeSecond(p: int, psize: nat, q: int, qsize: nat, list: int, tail: int,
                       ghost d: seq<int>, ghost a: seq<int>, ghost b: seq<int>, ghost rest: seq<int>)
      returns (q': int, list': int)
      requires Cursor(p, psize, q, qsize, list, tail, d, a, b, rest) && qsize > 0 && q != NULL
      modifies this`next, this`prev
      ensures Cursor(p, psize, q', qsize - 1, list', q, d + [q], a, b[1..], rest)
    {
      InRange(d, a, b + rest, |cmp|);
      TakenFromSecond(d, a, b + rest, |cmp|);
      SecondTail(b, rest);
      ForwardTail(next, b + rest);
      q' := next[q];
      list' := Link(q, list, tail, d, a, b[1..] + rest);
    }

    /** One round of the merge loop: the item that comes first, from the first run if they compare equal. */
    method MergeOne(p: int, psize: nat, q: int, qsize: nat, list: int, tail: int,
                    ghost d: seq<int>, ghost a: seq<int>, ghost b: seq<int>, ghost rest: seq<int>)
      returns (p': int, psize': nat, q': int, qsize': nat, list': int, tail': int,
               ghost d': seq<int>, ghost a': seq<int>, ghost b': seq<int>)
      requires Cursor(p, psize, q, qsize, list, tail, d, a, b, rest)
      requires psize > 0 || (qsize > 0 && q != NULL)
      modifies this`next, this`prev
      ensures Cursor(p', psize', q', qsize', list', tail', d', a', b', rest) && psize' + qsize' < psize + qsize
      ensures d' + Merge(Key(), a', b') == d + Merge(Key(), a, b)
    {
      p', psize', q', qsize', tail' := p, psize, q, qsize, tail;
      d', a', b' := d, a, b;
      NextOfSecond(b, rest, qsize);
      InRange(d, a, b + rest, |cmp|);
      if psize > 0 && (qsize == 0 || q == NULL || cmp[p] <= cmp[q]) {
        FromFirst(Key(), a, b);
        Shift(d, p, Merge(Key(), a[1..], b));
        p', list' := MergeFirst(p, psize, q, qsize, list, tail, d, a, b, rest);
        psize', tail', d', a' := psize - 1, p, d + [p], a[1..];
      } else {
        FromSecond(Key(), a, b);
        Shift(d, q, Merge(Key(), a, b[1..]));
        q', list' := MergeSecond(p, psize, q, qsize, list, tail, d, a, b, rest);
        qsize', tail', d', b' := qsize - 1, q, d + [q], b[1..];
      }
    }

    /** Merge the run of `psize` items at `p` and up to `insize` items at `q` behind the finished part. */
    method MergeRuns(p: int, psize: nat, q: int, insize: nat, list: int, tail: int,
                     ghost done: seq<int>, ghost ps: seq<int>, ghost r: seq<int>, ghost all: seq<int>)
      returns (list': int, tail': int, q': int)
      requires Merging(done, ps, r) && list == First(done) && tail == Last(done)
      requires psize == |ps| && p == First(ps) && q == First(r)
      requires all == done + Merge(Key(), ps, Take(r, insize))
      modifies this`next, this`prev
      ensures Merging(all, [], Drop(r, insize)) && list' == First(all) && tail' == Last(all)
      ensures q' == First(Drop(r, insize))
    {
      ghost var rest := Drop(r, insize);
      ghost var d, a, b := done, ps, Take(r, insize);
      TakeDrop(r, insize);
      var p', psize', qsize := p, psize, insize;
      list', tail', q' := list, tail, q;
      while psize' > 0 || (qsize > 0 && q' != NULL)
        invariant Cursor(p', psize', q', qsize, list', tail', d, a, b, rest)
        invariant all == d + Merge(Key(), a, b)
        decreases psize' + qsize
      {
        p', psize', q', qsize, list', tail', d, a, b :=
          MergeOne(p', psize', q', qsize, list', tail', d, a, b, rest);
      }
      RunsMerged(p', psize', q', qsize, list', tail', d, a, b, rest);
    }

    lemma RunsMerged(p: int, psize: nat, q: int, qsize: nat, list: int, tail: int,
                     d: seq<int>, a: seq<int>, b: seq<int>, rest: seq<int>)
      requires Cursor(p, psize, q, qsize, list, tail, d, a, b, rest) && psize == 0 && (qsize == 0 || q == NULL)
      ensures Merging(d, [], rest) && d + Merge(Key(), a, b) == d && list == First(d) && tail == Last(d)
        && q == First(rest)
    {
      NextOfSecond(b, rest, qsize);
      Finished(d, rest);
    }

    /** Merge the first two runs of `r`, which begins at `p`, behind the finished part. */
    method MergePair(p: int, insize: nat, list: int, tail: int, ghost done: seq<int>, ghost r: seq<int>,
                     ghost all: seq<int>)
      returns (list': int, tail': int, p': int)
      requires Merging(done, [], r) && list == First(done) && tail == Last(done)
      requires r != [] && p == First(r) && insize > 0
      requires all == done + Merge(Key(), Take(r, insize), Take(Drop(r, insize), insize))
      modifies this`next, this`prev
      ensures Merging(all, [], Drop(r, 2 * insize)) && list' == First(all) && tail' == Last(all)
      ensures p' == First(Drop(r, 2 * insize))
    {
      RunsOf(next, |cmp|, done, r, insize);
      DropTwice(r, insize);
      var psize, q := SplitRun(p, insize, r);
      list', tail', p' := MergeRuns(p, psize, q, insize, list, tail, done, Take(r, insize), Drop(r, insize), all);
    }

    /** A pass that has still to do `r`, which begins at `p`, and will make `t` of the list. */
    ghost predicate Passing(p: int, insize: nat, list: int, tail: int, done: seq<int>, r: seq<int>, t: seq<int>)
      requires insize > 0
      reads this
    {
      && Merging(done, [], r) && p == First(r) && list == First(done) && tail == Last(done)
      && t == done + Pass(Key(), r, insize)
    }

    /** One round of a pass: what is still to be done gets shorter by two runs. */
    method PassRound(p: int, insize: nat, list: int, tail: int, ghost done: seq<int>, ghost r: seq<int>,
                     ghost t: seq<int>)
      returns (list': int, tail': int, p': int, ghost done': seq<int>)
      requires insize > 0 && Passing(p, insize, list, tail, done, r, t) && p != NULL
      modifies this`next, this`prev
      ensures r != [] && Passing(p', insize, list', tail', done', Drop(r, 2 * insize), t)
    {
      ghost var m := Merge(Key(), Take(r, insize), Take(Drop(r, insize), insize));
      done' := done + m;
      Assoc(done, m, Pass(Key(), Drop(r, 2 * insize), insize));
      list', tail', p' := MergePair(p, insize, list, tail, done, r, done');
    }

    lemma PassStarts(p: int, insize: nat, s: seq<int>, t: seq<int>)
      requires Merging([], [], s) && s != [] && p == First(s) && insize > 0 && t == Pass(Key(), s, insize)
      ensures Passing(p, insize, NULL, NULL, [], s, t) && t != []
    {
      Finished([], t);
      PassKeeps(Key(), s, insize);
    }

    lemma PassEnds(insize: nat, list: int, tail: int, done: seq<int>, r: seq<int>, t: seq<int>)
      requires insize > 0 && Passing(NULL, insize, list, tail, done, r, t)
      ensures r == [] && Merging(t, [], []) && list == First(t) && tail == Last(t)
    {
      EmptyRest(next, prev, |cmp|, done, r);
      Finished(done, []);
    }

    /** One pass over the whole list from `p`, merging neighbouring runs. */
    method MergePass(p: int, insize: nat, ghost s: seq<int>, ghost t: seq<int>)
      returns (list: int, tail': int, nmerges: nat)
      requires Merging([], [], s) && s != [] && p == First(s) && insize > 0 && t == Pass(Key(), s, insize)
      modifies this`next, this`prev
      ensures Merging(t, [], []) && Ends(next, t) && list == First(t) && tail' == Last(t)
      ensures nmerges <= 1 ==> |s| <= 2 * insize
      ensures nmerges > 1 ==> |s| > 2 * insize
    {
      var p' := p;
      ghost var done, r := [], s;
      PassStarts(p, insize, s, t);
      list, tail', nmerges := NULL, NULL, 0;
      while p' != NULL
        invariant Passing(p', insize, list, tail', done, r, t)
        invariant nmerges == 0 ==> |r| == |s|
        invariant nmerges == 1 ==> |s| - |r| <= 2 * insize && (r != [] ==> |s| - |r| == 2 * insize)
        invariant nmerges > 1 ==> |s| > 2 * insize
        decreases |r|
      {
        nmerges := nmerges + 1;
        list, tail', p', done := PassRound(p', insize, list, tail', done, r, t);
        r := Drop(r, 2 * insize);
      }
      PassEnds(insize, list, tail', done, r, t);
      Close(tail', t);
    }

    method Close(tail: int, ghost t: seq<int>)
      requires Merging(t, [], []) && t != [] && tail == Last(t)
      modifies this`next
      ensures Merging(t, [], []) && Ends(next, t)
    {
      Terminate(next, prev, |cmp|, t);
      next := next[tail := NULL];
    }

    /** Before a pass: the list `t` from `p` consists of ascending runs, and items of the same key stand as in `s`. */
    ghost predicate Sorting(p: int, insize: nat, s: seq<int>, t: seq<int>)
      reads this
    {
      && Merging([], [], t) && |t| == |s| && t != [] && p == First(t)
      && 0 < insize && RunsSorted(Key(), t, insize) && SameOrder(Key(), s, t)
    }

    /** A pass, and what it means for the order of the list. */
    method SortPass(p: int, insize: nat, ghost s: seq<int>, ghost t: seq<int>)
      returns (list: int, tail': int, nmerges: nat, ghost u: seq<int>)
      requires Sorting(p, insize, s, t)
      modifies this`next, this`prev
      ensures Sorting(list, 2 * insize, s, u) && Linked(next, prev, |cmp|, u) && tail' == Last(u)
      ensures if nmerges <= 1 then |s| <= 2 * insize else |s| > 2 * insize
    {
      PassResult(Key(), t, insize, s);
      u := Pass(Key(), t, insize);
      list, tail', nmerges := MergePass(p, insize, t, u);
      Settle(next, prev, |cmp|, u);
    }

    lemma SortStarts(s: seq<int>)
      requires Valid(s) && s != []
      ensures Sorting(head, 1, s, s)
    {
      SingletonsSorted(Key(), s);
      Settle0(next, prev, |cmp|, s);
    }

    lemma SortEnds(insize: nat, s: seq<int>, t: seq<int>)
      requires Sorting(head, insize, s, t) && |s| <= insize
      ensures StableSorted(Key(), s, t)
    {
      OneRun(Key(), t, insize);
    }

    /** `HASH_SRT`. The list stays a proper list, ascends, and keeps the order of items that compare equal. */
    method Sort(ghost s: seq<int>) returns (ghost t: seq<int>)
      requires Valid(s)
      modifies this
      ensures Valid(t) && StableSorted(Key(), s, t)
    {
      t := s;
      if head == NULL {
        return;
      }
      var insize: nat := 1;
      var looping := true;
      var list := head;
      SortStarts(s);
      while looping
        invariant Sorting(list, insize, s, t)
        invariant looping ==> insize <= |s|
        invariant !looping ==> head == list && Linked(next, prev, |cmp|, t) && tail == Last(t) && |s| <= insize
        decreases looping, |s| - insize
      {
        var nmerges, tail';
        list, tail', nmerges, t := SortPass(list, insize, s, t);
        if nmerges <= 1 {
          looping := false;
          tail := tail';
          head := list;
        }
        insize := 2 * insize;
      }
      SortEnds(insize, s, t);
    }
  }

  /** Items with the same key stand in the same order. */
  ghost predicate SameOrder(key: int -> int, s: seq<int>, t: seq<int>) {
    forall k: int :: Filter(HasKey(key, k), t) == Filter(HasKey(key, k), s)
  }

  lemma PassResult(key: int -> int, t: seq<int>, size: nat, s: seq<int>)
    requires size > 0 && RunsSorted(key, t, size) && SameOrder(key, s, t)
    ensures var u := Pass(key, t, size);
            |u| == |t| && RunsSorted(key, u, 2 * size) && SameOrder(key, s, u)
  {
    PassKeeps(key, t, size);
    PassSorts(key, t, size);
    forall k: int ensures Filter(HasKey(key, k), Pass(key, t, size)) == Filter(HasKey(key, k), s) {
      PassStable(key, t, size, k);
    }
  }

  lemma OneRun(key: int -> int, s: seq<int>, size: nat)
    requires size > 0 && |s| <= size && RunsSorted(key, s, size)
    ensures Ordered(ByKey(key), s)
  {
  }

  lemma EmptyRest(next: seq<int>, prev: seq<int>, n: nat, done: seq<int>, r: seq<int>)
    requires MergeState(next, prev, n, done, [], r) && First(r) == NULL
    ensures r == [] && done + r == done
  {
    SubItems(done + [], r, n);
  }

  lemma Settle0(next: seq<int>, prev: seq<int>, n: nat, s: seq<int>)
    requires |next| == |prev| == n && Items(s, n) && Forward(next, s) && Ends(next, s)
    ensures MergeState(next, prev, n, [], [], s)
  {
    assert [] + [] + s == s;
  }

  lemma Settle(next: seq<int>, prev: seq<int>, n: nat, t: seq<int>)
    requires MergeState(next, prev, n, t, [], []) && Ends(next, t)
    ensures MergeState(next, prev, n, [], [], t) && Items(t, n) && Forward(next, t) && Backward(prev, t)
  {
    assert t + [] + [] == t && [] + [] + t == t;
  }

  lemma Terminate(next: seq<int>, prev: seq<int>, n: nat, t: seq<int>)
    requires MergeState(next, prev, n, t, [], []) && t != []
    ensures 0 <= Last(t) < n
    ensures MergeState(next[Last(t) := NULL], prev, n, t, [], []) && Ends(next[Last(t) := NULL], t)
  {
    assert t + [] + [] == t;
  }

  lemma SubItems(a: seq<int>, b: seq<int>, n: nat)
    requires Items(a + b, n)
    ensures Items(b, n)
  {
    assert forall i :: 0 <= i < |b| ==> (a + b)[|a| + i] == b[i];
  }

  lemma ForwardParts(next: seq<int>, r: seq<int>, k: nat)
    requires Forward(next, r) && Ends(next, r)
    ensures Forward(next, Take(r, k)) && Forward(next, Drop(r, k)) && Ends(next, Drop(r, k))
  {
    var a, b := Take(r, k), Drop(r, k);
    assert forall i :: 0 <= i < |a| ==> a[i] == r[i];
    assert forall i :: 0 <= i < |b| ==> b[i] == r[k + i];
  }

  lemma RunsOf(next: seq<int>, n: nat, done: seq<int>, r: seq<int>, insize: nat)
    requires |next| == n && Items(done + [] + r, n) && Forward(next, r) && Ends(next, r) && r != [] && insize > 0
    ensures Items(done + Take(r, insize) + Drop(r, insize), n) && Items(r, n)
    ensures Forward(next, Take(r, insize)) && Forward(next, Drop(r, insize)) && Ends(next, Drop(r, insize))
    ensures Take(r, insize) != [] && First(Take(r, insize)) == First(r)
  {
    var a, c := Take(r, insize), Drop(r, insize);
    TakeDrop(r, insize);
    assert done + [] == done;
    assert done + a + c == done + (a + c);
    SubItems(done, r, n);
    ForwardParts(next, r, insize);
  }

  lemma InRange(d: seq<int>, a: seq<int>, c: seq<int>, n: nat)
    requires Items(d + a + c, n)
    ensures (a != [] ==> 0 <= a[0] < n) && (c != [] ==> 0 <= c[0] < n)
  {
    assert a != [] ==> (d + a + c)[|d|] == a[0];
    assert c != [] ==> (d + a + c)[|d| + |a|] == c[0];
  }

  lemma Finished(d: seq<int>, rest: seq<int>)
    ensures [] + rest == rest && d + [] == d
  {
  }

  /** Nothing is left of the second run exactly when its count or the list is used up. */
  lemma NextOfSecond(b: seq<int>, rest: seq<int>, qsize: nat)
    requires SecondRun(b, rest, qsize) && forall i :: 0 <= i < |b + rest| ==> (b + rest)[i] >= 0
    ensures b == [] <==> qsize == 0 || First(b + rest) == NULL
    ensures b != [] ==> First(b + rest) == b[0]
  {
    assert b != [] ==> (b + rest)[0] == b[0];
  }

  lemma SecondTail(b: seq<int>, rest: seq<int>)
    requires b != []
    ensures (b + rest)[1..] == b[1..] + rest && (b + rest)[0] == b[0]
  {
  }

  lemma FromFirst(key: int -> int, a: seq<int>, b: seq<int>)
    requires a != [] && (b == [] || key(a[0]) <= key(b[0]))
    ensures Merge(key, a, b) == [a[0]] + Merge(key, a[1..], b)
  {
    if b == [] {
      assert Merge(key, a[1..], b) == a[1..];
    }
  }

  lemma FromSecond(key: int -> int, a: seq<int>, b: seq<int>)
    requires b != [] && (a == [] || key(b[0]) < key(a[0]))
    ensures Merge(key, a, b) == [b[0]] + Merge(key, a, b[1..])
  {
    if a == [] {
      assert Merge(key, a, b[1..]) == b[1..];
    }
  }

  lemma Shift(d: seq<int>, x: int, m: seq<int>)
    ensures d + ([x] + m) == d + [x] + m
  {
  }
}
