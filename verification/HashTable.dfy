/** `uthash`: an insertion-ordered list of items threaded through hash chains that are redistributed as they grow. */
module HashTable {
  import opened Links

  const HASH_INITIAL_NUM_BUCKETS := 32
  const HASH_INITIAL_NUM_BUCKETS_LOG2 := 5
  const HASH_BKT_CAPACITY_THRESH := 10

  type Key = string

  datatype Bucket = Bucket(head: int, count: nat, expandMult: nat)

  const EMPTY_BUCKET := Bucket(NULL, 0, 0)

  function Pow2(k: nat): (r: nat)
    ensures r > 0
  {
    if k == 0 then 1 else 2 * Pow2(k - 1)
  }

  /** How long the longest chain is when `n` items are spread evenly over `Pow2(log2)` buckets. A shift by `log2` is
      division by that number, and masking with one less the remainder. */
  function Ideal(n: nat, log2: nat): nat {
    n / Pow2(log2) + if n % Pow2(log2) != 0 then 1 else 0
  }

  /** It is the exact ceiling, and not zero as long as there are items, which the redistribution divides by. */
  lemma IdealIsCeiling(n: nat, log2: nat)
    ensures n <= Ideal(n, log2) * Pow2(log2) < n + Pow2(log2)
    ensures n > 0 ==> Ideal(n, log2) > 0
  {
    var m := Pow2(log2);
    assert n == n / m * m + n % m;
    assert (n / m + 1) * m == n / m * m + m;
  }

  lemma IdealIsPositive(n: nat, log2: nat)
    requires n > 0
    ensures Ideal(n, log2) > 0
  {
    IdealIsCeiling(n, log2);
  }

  /******* Chains *******/

  ghost predicate Chain(hhNext: seq<int>, hhPrev: seq<int>, n: nat, bucket: Bucket, chain: seq<int>) {
    Linked(hhNext, hhPrev, n, chain) && bucket.head == First(chain) && bucket.count == |chain|
  }

  /** Bucket `b` holds the chain `chains[b]`. */
  ghost predicate Chained(hhNext: seq<int>, hhPrev: seq<int>, n: nat, buckets: seq<Bucket>, chains: seq<seq<int>>) {
    |buckets| == |chains| && forall b :: 0 <= b < |chains| ==> Chain(hhNext, hhPrev, n, buckets[b], chains[b])
  }

  /** The chains hold exactly the `members`, each one the members its bucket is for. */
  ghost predicate Placed(hashv: seq<nat>, members: set<int>, chains: seq<seq<int>>) {
    && |chains| > 0 && (forall x :: x in members ==> 0 <= x < |hashv|)
    && forall b, x :: 0 <= b < |chains| ==> (x in chains[b] <==> x in members && hashv[x] % |chains| == b)
  }

  /** A change in one bucket that touches only items of this bucket, and perhaps a new one, leaves the other
      buckets as they are. */
  lemma OtherChains(hhNext: seq<int>, hhPrev: seq<int>, n: nat, buckets: seq<Bucket>, chains: seq<seq<int>>,
                    hhNext': seq<int>, hhPrev': seq<int>, b: nat, bucket: Bucket, chain: seq<int>)
    requires Chained(hhNext, hhPrev, n, buckets, chains) && b < |chains| && Chain(hhNext', hhPrev', n, bucket, chain)
    requires |hhNext| == |hhPrev| == n
    requires forall c, i :: 0 <= c < |chains| && c != b && 0 <= i < |chains[c]| ==>
               0 <= chains[c][i] < n && hhNext'[chains[c][i]] == hhNext[chains[c][i]]
                 && hhPrev'[chains[c][i]] == hhPrev[chains[c][i]]
    ensures Chained(hhNext', hhPrev', n, buckets[b := bucket], chains[b := chain])
  {
    forall c | 0 <= c < |chains| && c != b ensures Chain(hhNext', hhPrev', n, buckets[c], chains[c]) {
      LinkedFrame(hhNext, hhPrev, n, chains[c], hhNext', hhPrev');
    }
  }

  lemma Apart(hashv: seq<nat>, members: set<int>, chains: seq<seq<int>>, b: nat, c: nat, i: nat)
    requires Placed(hashv, members, chains) && b < |chains| && c < |chains| && b != c && i < |chains[c]|
    ensures chains[c][i] in members && chains[c][i] !in chains[b]
  {
    var x := chains[c][i];
    assert x in chains[c];
    assert x in members && hashv[x] % |chains| == c;
  }

  lemma PlacedPush(hashv: seq<nat>, members: set<int>, chains: seq<seq<int>>, x: int, b: nat)
    requires Placed(hashv, members, chains) && 0 <= x < |hashv| && b == hashv[x] % |chains|
    ensures Placed(hashv, members + {x}, chains[b := [x] + chains[b]])
  {
  }

  lemma PlacedTake(hashv: seq<nat>, members: set<int>, chains: seq<seq<int>>, n: nat, b: nat, i: nat)
    requires Placed(hashv, members, chains) && b < |chains| && i < |chains[b]| && Items(chains[b], n)
    ensures Placed(hashv, members - {chains[b][i]}, chains[b := chains[b][..i] + chains[b][i + 1..]])
  {
    var after := chains[b := chains[b][..i] + chains[b][i + 1..]];
    var x := chains[b][i];
    RemovedMembers(chains[b], i, n);
    assert x in chains[b];
    forall c, y | 0 <= c < |chains|
      ensures y in after[c] <==> y in members - {x} && hashv[y] % |chains| == c
    {
      assert y in chains[b] <==> y in members && hashv[y] % |chains| == b;
    }
  }

  lemma PlacedStill(hashv: seq<nat>, members: set<int>, chains: seq<seq<int>>, x: int, h: nat)
    requires Placed(hashv, members, chains) && 0 <= x < |hashv| && x !in members
    ensures Placed(hashv[x := h], members, chains)
  {
    forall b, y | 0 <= b < |chains|
      ensures y in chains[b] <==> y in members && hashv[x := h][y] % |chains| == b
    {
      assert y in members ==> hashv[x := h][y] == hashv[y];
    }
  }

  lemma PushedToChain(hhNext: seq<int>, hhPrev: seq<int>, n: nat, buckets: seq<Bucket>, chains: seq<seq<int>>,
                      hashv: seq<nat>, members: set<int>, x: int, b: nat, mult: nat)
    requires Chained(hhNext, hhPrev, n, buckets, chains) && Placed(hashv, members, chains)
    requires |hashv| == |hhNext| == |hhPrev| == n && 0 <= x < n && x !in members && b == hashv[x] % |chains|
    ensures -1 <= buckets[b].head < n
    ensures var h := buckets[b].head;
      Chained(hhNext[x := h], if h == NULL then hhPrev[x := NULL] else hhPrev[x := NULL][h := x], n,
              buckets[b := Bucket(x, buckets[b].count + 1, mult)], chains[b := [x] + chains[b]])
    ensures Placed(hashv, members + {x}, chains[b := [x] + chains[b]])
  {
    assert Chain(hhNext, hhPrev, n, buckets[b], chains[b]);
    var h := buckets[b].head;
    var hhNext', hhPrev' := hhNext[x := h], if h == NULL then hhPrev[x := NULL] else hhPrev[x := NULL][h := x];
    PushedFront(hhNext, hhPrev, n, chains[b], x);
    forall c, i | 0 <= c < |chains| && c != b && 0 <= i < |chains[c]|
      ensures 0 <= chains[c][i] < n && chains[c][i] != x && chains[c][i] != h
    {
      Apart(hashv, members, chains, b, c, i);
    }
    OtherChains(hhNext, hhPrev, n, buckets, chains, hhNext', hhPrev', b,
                Bucket(x, buckets[b].count + 1, mult), [x] + chains[b]);
    PlacedPush(hashv, members, chains, x, b);
  }

  lemma TakenFromChain(hhNext: seq<int>, hhPrev: seq<int>, n: nat, buckets: seq<Bucket>, chains: seq<seq<int>>,
                       hashv: seq<nat>, members: set<int>, x: int, b: nat, i: nat)
    requires Chained(hhNext, hhPrev, n, buckets, chains) && Placed(hashv, members, chains)
    requires |hhNext| == |hhPrev| == n && b < |chains| && i < |chains[b]| && x == chains[b][i]
    ensures 0 <= x < n && -1 <= hhNext[x] < n && -1 <= hhPrev[x] < n && buckets[b].count == |chains[b]|
    ensures var head := if buckets[b].head == x then hhNext[x] else buckets[b].head;
      var bucket := Bucket(head, |chains[b]| - 1, buckets[b].expandMult);
      var chain := chains[b][..i] + chains[b][i + 1..];
      && Chained(if hhPrev[x] == NULL then hhNext else hhNext[hhPrev[x] := hhNext[x]],
                 if hhNext[x] == NULL then hhPrev else hhPrev[hhNext[x] := hhPrev[x]], n,
                 buckets[b := bucket], chains[b := chain])
      && Placed(hashv, members - {x}, chains[b := chain])
  {
    var s := chains[b];
    var chain := s[..i] + s[i + 1..];
    assert Chain(hhNext, hhPrev, n, buckets[b], s);
    Removed(hhNext, hhPrev, n, s, i);
    var hhNext' := if hhPrev[x] == NULL then hhNext else hhNext[hhPrev[x] := hhNext[x]];
    var hhPrev' := if hhNext[x] == NULL then hhPrev else hhPrev[hhNext[x] := hhPrev[x]];
    var bucket := Bucket(if buckets[b].head == x then hhNext[x] else buckets[b].head, |s| - 1, buckets[b].expandMult);
    assert Chain(hhNext', hhPrev', n, bucket, chain);
    forall c, k | 0 <= c < |chains| && c != b && 0 <= k < |chains[c]|
      ensures 0 <= chains[c][k] < n && hhNext'[chains[c][k]] == hhNext[chains[c][k]]
        && hhPrev'[chains[c][k]] == hhPrev[chains[c][k]]
    {
      assert Chain(hhNext, hhPrev, n, buckets[c], chains[c]);
      Apart(hashv, members, chains, b, c, k);
    }
    OtherChains(hhNext, hhPrev, n, buckets, chains, hhNext', hhPrev', b, bucket, chain);
    PlacedTake(hashv, members, chains, n, b, i);
  }

  /******* Redistribution *******/

  /** Items beyond the ideal length of their chains. */
  function Excess(buckets: seq<Bucket>, ideal: nat): nat {
    if buckets == [] then 0
    else
      var n := |buckets| - 1;
      Excess(buckets[..n], ideal) + if buckets[n].count > ideal then buckets[n].count - ideal else 0
  }

  predicate MultOk(buckets: seq<Bucket>, ideal: nat) {
    forall b :: 0 <= b < |buckets| ==>
      buckets[b].expandMult == if buckets[b].count > ideal > 0 then buckets[b].count / ideal else 0
  }

  lemma MultMeans(buckets: seq<Bucket>, ideal: nat, b: nat)
    requires MultOk(buckets, ideal) && ideal > 0 && b < |buckets|
    ensures var count, mult := buckets[b].count, buckets[b].expandMult;
      && (count <= ideal ==> mult == 0)
      && (count > ideal ==> mult * ideal <= count < (mult + 1) * ideal)
  {
    var count := buckets[b].count;
    assert count == count / ideal * ideal + count % ideal;
  }

  predicate Below(bucket: Bucket) {
    bucket.count < (bucket.expandMult + 1) * 10
  }

  predicate AllBelow(buckets: seq<Bucket>) {
    forall b :: 0 <= b < |buckets| ==> Below(buckets[b])
  }

  lemma OneChanged(buckets: seq<Bucket>, b: nat, bucket: Bucket)
    requires b < |buckets| && (AllBelow(buckets) ==> Below(bucket))
    ensures AllBelow(buckets) ==> AllBelow(buckets[b := bucket])
  {
  }

  /** Right after an expansion each chain is below its threshold, as long as the ideal length is below ten. */
  lemma SpreadIsRoomy(buckets: seq<Bucket>, ideal: nat)
    requires MultOk(buckets, ideal) && ideal > 0
    ensures ideal >= 10 || AllBelow(buckets)
  {
    if ideal < 10 {
      forall b | 0 <= b < |buckets| ensures Below(buckets[b]) {
        BelowNext(buckets[b].count, ideal);
      }
    }
  }

  lemma BelowNext(count: nat, ideal: nat)
    requires 0 < ideal < 10
    ensures count < ((if count > ideal then count / ideal else 0) + 1) * 10
  {
    var m := count / ideal;
    assert count == m * ideal + count % ideal;
    assert m * ideal <= m * 9;
  }

  lemma {:induction false} ExcessGrows(buckets: seq<Bucket>, b: nat, bucket: Bucket, ideal: nat)
    requires b < |buckets| && bucket.count == buckets[b].count + 1
    ensures Excess(buckets[b := bucket], ideal) == Excess(buckets, ideal) + if bucket.count > ideal then 1 else 0
  {
    var n := |buckets| - 1;
    if b < n {
      ExcessGrows(buckets[..n], b, bucket, ideal);
      assert buckets[b := bucket][..n] == buckets[..n][b := bucket];
    } else {
      assert buckets[b := bucket][..n] == buckets[..n];
    }
  }

  /** Bucket and position of the items beyond the ideal length of their chains. */
  function Surplus(buckets: seq<Bucket>, ideal: nat): set<(int, int)> {
    set b: int, i: int | 0 <= b < |buckets| && ideal <= i < buckets[b].count :: (b, i)
  }

  function Positions(b: int, from: nat, to: nat): set<(int, int)> {
    set i: int | from <= i < to :: (b, i)
  }

  lemma {:induction false} PositionsSize(b: int, from: nat, to: nat)
    ensures |Positions(b, from, to)| == if from < to then to - from else 0
  {
    if from < to {
      PositionsSize(b, from, to - 1);
      assert Positions(b, from, to) == Positions(b, from, to - 1) + {(b, to - 1)};
    } else {
      assert Positions(b, from, to) == {};
    }
  }

  /** Their number is what the redistribution counts. */
  lemma {:induction false} ExcessCounts(buckets: seq<Bucket>, ideal: nat)
    ensures Excess(buckets, ideal) == |Surplus(buckets, ideal)|
  {
    if buckets != [] {
      var n := |buckets| - 1;
      ExcessCounts(buckets[..n], ideal);
      PositionsSize(n, ideal, buckets[n].count);
      assert Surplus(buckets, ideal) == Surplus(buckets[..n], ideal) + Positions(n, ideal, buckets[n].count);
      assert Surplus(buckets[..n], ideal) !! Positions(n, ideal, buckets[n].count);
    }
  }

  lemma {:induction false} NoExcess(n: nat, ideal: nat)
    ensures Excess(seq(n, i => EMPTY_BUCKET), ideal) == 0
  {
    if n > 0 {
      NoExcess(n - 1, ideal);
      assert seq(n, i => EMPTY_BUCKET)[..n - 1] == seq(n - 1, i => EMPTY_BUCKET);
    }
  }

  /** The members that are in new buckets already when `rest` is left of the old chain `b`. */
  ghost function Moved(hashv: seq<nat>, members: set<int>, m: nat, b: int, rest: seq<int>): set<int>
    requires m > 0
  {
    set x | x in members && 0 <= x < |hashv| && x !in rest && hashv[x] % m <= b
  }

  /** What the walk along an old chain needs of it. */
  ghost predicate Walkable(hhNext: seq<int>, n: nat, s: seq<int>) {
    Items(s, n) && Forward(hhNext, s) && Ends(hhNext, s)
  }

  ghost predicate Moving(hashv: seq<nat>, hhNext: seq<int>, hhPrev: seq<int>, n: nat, members: set<int>,
                         chains: seq<seq<int>>, newBuckets: seq<Bucket>, newChains: seq<seq<int>>, b: int,
                         rest: seq<int>)
  {
    && |hashv| == |hhNext| == |hhPrev| == n && Placed(hashv, members, chains) && |newChains| == 2 * |chains|
    && Chained(hhNext, hhPrev, n, newBuckets, newChains)
    && Placed(hashv, Moved(hashv, members, |chains|, b, rest), newChains)
    && Walkable(hhNext, n, rest) && (forall x :: x in rest ==> x in members && hashv[x] % |chains| == b)
    && forall c :: b < c < |chains| ==> 0 <= c && Walkable(hhNext, n, chains[c])
  }

  /** The next item of the old chain gets to the front of its new one. */
  lemma MoveItem(hashv: seq<nat>, hhNext: seq<int>, hhPrev: seq<int>, n: nat, members: set<int>,
                 chains: seq<seq<int>>, newBuckets: seq<Bucket>, newChains: seq<seq<int>>, b: int, rest: seq<int>,
                 mult: nat)
    requires Moving(hashv, hhNext, hhPrev, n, members, chains, newBuckets, newChains, b, rest) && rest != []
    ensures var x, nb := rest[0], hashv[rest[0]] % |newChains|;
      var h := newBuckets[nb].head;
      && -1 <= h < n && hhNext[x] == First(rest[1..])
      && Moving(hashv, hhNext[x := h], if h == NULL then hhPrev[x := NULL] else hhPrev[x := NULL][h := x], n, members,
                chains, newBuckets[nb := Bucket(x, newBuckets[nb].count + 1, mult)],
                newChains[nb := [x] + newChains[nb]], b, rest[1..])
  {
    var x, nb := rest[0], hashv[rest[0]] % |newChains|;
    var moved := Moved(hashv, members, |chains|, b, rest);
    assert x in rest;
    PushedToChain(hhNext, hhPrev, n, newBuckets, newChains, hashv, moved, x, nb, mult);
    assert rest == [x] + rest[1..];
    assert x !in rest[1..];
    assert Moved(hashv, members, |chains|, b, rest[1..]) == moved + {x};
    var hhNext' := hhNext[x := newBuckets[nb].head];
    forall c | b < c < |chains| ensures 0 <= c && Walkable(hhNext', n, chains[c]) {
      forall i | 0 <= i < |chains[c]| ensures chains[c][i] != x {
        assert chains[c][i] in chains[c];
      }
    }
  }

  /** At the beginning of an old chain all of it is still to be moved. */
  lemma NextChain(hashv: seq<nat>, hhNext: seq<int>, hhPrev: seq<int>, n: nat, members: set<int>,
                  chains: seq<seq<int>>, newBuckets: seq<Bucket>, newChains: seq<seq<int>>, b: nat)
    requires Moving(hashv, hhNext, hhPrev, n, members, chains, newBuckets, newChains, b - 1, []) && b < |chains|
    ensures Moving(hashv, hhNext, hhPrev, n, members, chains, newBuckets, newChains, b, chains[b])
  {
    assert Moved(hashv, members, |chains|, b, chains[b]) == Moved(hashv, members, |chains|, b - 1, []);
  }

  lemma AllToMove(hashv: seq<nat>, hhNext: seq<int>, hhPrev: seq<int>, n: nat, members: set<int>,
                  buckets: seq<Bucket>, chains: seq<seq<int>>)
    requires |hashv| == |hhNext| == |hhPrev| == n && Placed(hashv, members, chains)
      && Chained(hhNext, hhPrev, n, buckets, chains)
    ensures Moving(hashv, hhNext, hhPrev, n, members, chains, seq(2 * |chains|, i => EMPTY_BUCKET),
                   seq(2 * |chains|, i => []), -1, [])
  {
    assert Moved(hashv, members, |chains|, -1, []) == {};
    forall c | 0 <= c < |chains| ensures Walkable(hhNext, n, chains[c]) {
      assert Chain(hhNext, hhPrev, n, buckets[c], chains[c]);
    }
  }

  lemma AllMoved(hashv: seq<nat>, hhNext: seq<int>, hhPrev: seq<int>, n: nat, members: set<int>,
                 chains: seq<seq<int>>, newBuckets: seq<Bucket>, newChains: seq<seq<int>>)
    requires Moving(hashv, hhNext, hhPrev, n, members, chains, newBuckets, newChains, |chains| - 1, [])
    ensures Placed(hashv, members, newChains) && Chained(hhNext, hhPrev, n, newBuckets, newChains)
  {
    assert Moved(hashv, members, |chains|, |chains| - 1, []) == members;
  }

  /******* The table *******/

  ghost function Members(items: seq<int>): set<int> {
    set x | x in items
  }

  ghost predicate Unique(keys: seq<Key>, items: seq<int>) {
    && (forall i :: 0 <= i < |items| ==> 0 <= items[i] < |keys|)
    && forall i, j :: 0 <= i < j < |items| ==> keys[items[i]] != keys[items[j]]
  }

  lemma OneMore(keys: seq<Key>, items: seq<int>, x: int)
    requires Unique(keys, items) && 0 <= x < |keys|
    requires forall y :: y in items ==> 0 <= y < |keys| && keys[y] != keys[x]
    ensures Unique(keys, items + [x]) && Members(items + [x]) == Members(items) + {x}
  {
    assert forall i :: 0 <= i < |items| ==> items[i] in items;
  }

  lemma OneLess(keys: seq<Key>, items: seq<int>, i: nat)
    requires Unique(keys, items) && Items(items, |keys|) && i < |items|
    ensures Unique(keys, items[..i] + items[i + 1..])
    ensures Members(items[..i] + items[i + 1..]) == Members(items) - {items[i]}
  {
    RemovedMembers(items, i, |keys|);
  }

  /******* Counting *******/

  function Lengths(chains: seq<seq<int>>): nat {
    if chains == [] then 0 else Lengths(chains[..|chains| - 1]) + |chains[|chains| - 1]|
  }

  lemma MembersMore(s: seq<int>, x: int)
    ensures Members(s + [x]) == Members(s) + {x}
  {
  }

  lemma {:induction false} Different(s: seq<int>, n: nat)
    requires Items(s, n)
    ensures |Members(s)| == |s|
  {
    if s != [] {
      var k := |s| - 1;
      Different(s[..k], n);
      MembersMore(s[..k], s[k]);
      assert s == s[..k] + [s[k]];
      assert forall i :: 0 <= i < k ==> s[i] != s[k];
    }
  }

  ghost function Upto(hashv: seq<nat>, members: set<int>, m: nat, b: nat): set<int>
    requires m > 0
  {
    set x | x in members && 0 <= x < |hashv| && hashv[x] % m < b
  }

  /** The chains of the first `b` buckets hold as many items as belong there. */
  lemma {:induction false} LengthsCount(hashv: seq<nat>, members: set<int>, chains: seq<seq<int>>, n: nat, b: nat)
    requires Placed(hashv, members, chains) && b <= |chains|
    requires forall c :: 0 <= c < |chains| ==> Items(chains[c], n)
    ensures Lengths(chains[..b]) == |Upto(hashv, members, |chains|, b)|
  {
    if b == 0 {
      assert Upto(hashv, members, |chains|, 0) == {};
    } else {
      LengthsCount(hashv, members, chains, n, b - 1);
      assert chains[..b][..b - 1] == chains[..b - 1];
      Different(chains[b - 1], n);
      var before, here := Upto(hashv, members, |chains|, b - 1), Members(chains[b - 1]);
      assert Upto(hashv, members, |chains|, b) == before + here;
      assert before !! here;
    }
  }

  /** All chains together are as long as the list. */
  lemma LengthsTotal(hashv: seq<nat>, items: seq<int>, chains: seq<seq<int>>, n: nat)
    requires Placed(hashv, Members(items), chains) && Items(items, n)
    requires forall c :: 0 <= c < |chains| ==> Items(chains[c], n)
    ensures Lengths(chains) == |items|
  {
    LengthsCount(hashv, Members(items), chains, n, |chains|);
    assert chains[..|chains|] == chains;
    assert Upto(hashv, Members(items), |chains|, |chains|) == Members(items);
    Different(items, n);
  }

  lemma NewBuckets(hhNext: seq<int>, hhPrev: seq<int>, n: nat, hashv: seq<nat>)
    requires |hhNext| == |hhPrev| == n
    ensures var buckets, chains := seq(HASH_INITIAL_NUM_BUCKETS, i => EMPTY_BUCKET),
                                seq(HASH_INITIAL_NUM_BUCKETS, i => []);
      |buckets| == Pow2(HASH_INITIAL_NUM_BUCKETS_LOG2) && Chained(hhNext, hhPrev, n, buckets, chains)
        && Placed(hashv, {}, chains)
  {
    assert Pow2(2) == 4 && Pow2(4) == 16;
  }

  /** `head` is the user's variable; everything else but the items themselves exists only while it is not NULL. */
  class Table {
    const keys: seq<Key>
    const hash: Key -> nat

    var next: seq<int>
    var prev: seq<int>
    var hhNext: seq<int>
    var hhPrev: seq<int>
    var hashv: seq<nat>

    var head: int
    var tail: int
    var numItems: nat
    var buckets: seq<Bucket>
    var log2NumBuckets: nat
    var idealChainMaxlen: nat
    var nonidealItems: nat
    var ineffExpands: nat
    var noexpand: bool

    /** The items in the order in which they were added, and the chains. */
    ghost var items: seq<int>
    ghost var chains: seq<seq<int>>

    ghost predicate Sizes()
      reads this`hhNext, this`hhPrev, this`hashv
    {
      |hhNext| == |hhPrev| == |hashv| == |keys|
    }

    ghost predicate ListOk()
      reads this`next, this`prev, this`head, this`tail, this`numItems, this`items
    {
      && Linked(next, prev, |keys|, items) && head == First(items)
      && (items != [] ==> tail == Last(items) && numItems == |items|)
    }

    ghost predicate BucketsOk(members: set<int>)
      reads this`hhNext, this`hhPrev, this`hashv
      reads this`buckets, this`log2NumBuckets, this`chains
    {
      && Sizes() && |buckets| == Pow2(log2NumBuckets)
      && Chained(hhNext, hhPrev, |keys|, buckets, chains) && Placed(hashv, members, chains)
      && (forall x :: x in members ==> 0 <= x < |keys| && hashv[x] == hash(keys[x]))
    }

    /** No chain has reached the length at which the table grows, unless growing has been given up, or items crowd so
        much that even evenly spread they would reach it. */
    predicate Roomy()
      reads this`buckets, this`noexpand, this`idealChainMaxlen
    {
      noexpand || idealChainMaxlen >= 10 || AllBelow(buckets)
    }

    ghost predicate Valid()
      reads this
    {
      ListOk() && Unique(keys, items) && Sizes() && (items != [] ==> BucketsOk(Members(items)) && Roomy())
    }

    /** No items; those that can be added have these keys. */
    constructor (keys: seq<Key>, hash: Key -> nat)
      ensures Valid() && items == [] && this.keys == keys && this.hash == hash
    {
      this.keys, this.hash := keys, hash;
      next, prev := seq(|keys|, i => NULL), seq(|keys|, i => NULL);
      hhNext, hhPrev := seq(|keys|, i => NULL), seq(|keys|, i => NULL);
      hashv := seq(|keys|, i => 0);
      head, tail, numItems, buckets := NULL, NULL, 0, [];
      log2NumBuckets, idealChainMaxlen, nonidealItems, ineffExpands, noexpand := 0, 0, 0, 0, false;
      items, chains := [], [];
    }

    /** The bucket's chain from its head to the item with the key. */
    method FindInBucket(b: nat, k: Key) returns (out: int)
      requires BucketsOk(Members(items)) && b < |buckets|
      ensures out != NULL ==> out in chains[b] && 0 <= out < |keys| && keys[out] == k
      ensures out == NULL ==> forall x :: x in chains[b] ==> 0 <= x < |keys| && keys[x] != k
    {
      ghost var chain := chains[b];
      assert Chain(hhNext, hhPrev, |keys|, buckets[b], chain);
      out := buckets[b].head;
      ghost var i := 0;
      while out != NULL
        invariant i <= |chain| && out == if i < |chain| then chain[i] else NULL
        invariant forall j :: 0 <= j < i ==> keys[chain[j]] != k
        decreases |chain| - i
      {
        if keys[out] == k {
          assert out in chain;
          return;
        }
        out := hhNext[out];
        i := i + 1;
      }
    }

    lemma KeyInBucket(x: int)
      requires BucketsOk(Members(items))
      requires x in items || exists b :: 0 <= b < |chains| && x in chains[b]
      ensures x in items && 0 <= x < |keys| && x in chains[hash(keys[x]) % |buckets|]
    {
      assert x in Members(items);
    }

    /** `HASH_FIND`: the item with the key, or NULL if there is none. */
    method Find(k: Key) returns (out: int)
      requires Valid()
      ensures out != NULL ==> out in items && keys[out] == k
      ensures out == NULL ==> forall x :: x in items ==> keys[x] != k
    {
      if head == NULL {
        return NULL;
      }
      var b := hash(k) % |buckets|;
      out := FindInBucket(b, k);
      if out == NULL {
        forall x | x in items ensures keys[x] != k {
          KeyInBucket(x);
        }
      } else {
        KeyInBucket(out);
      }
    }

    /** One item into its new bucket; beyond the ideal length the bucket's threshold is raised. */
    method MoveToBucket(x: int, newBuckets: seq<Bucket>, nb: nat) returns (newBuckets': seq<Bucket>)
      requires Sizes() && 0 <= x < |keys| && nb < |newBuckets| && -1 <= newBuckets[nb].head < |keys|
        && idealChainMaxlen > 0
      requires MultOk(newBuckets, idealChainMaxlen) && nonidealItems == Excess(newBuckets, idealChainMaxlen)
      modifies this`hhNext, this`hhPrev, this`nonidealItems
      ensures |newBuckets'| == |newBuckets|
      ensures var h, mult := newBuckets[nb].head, newBuckets'[nb].expandMult;
        && hhNext == old(hhNext)[x := h]
        && hhPrev == (if h == NULL then old(hhPrev)[x := NULL] else old(hhPrev)[x := NULL][h := x])
        && newBuckets' == newBuckets[nb := Bucket(x, newBuckets[nb].count + 1, mult)]
      ensures MultOk(newBuckets', idealChainMaxlen) && nonidealItems == Excess(newBuckets', idealChainMaxlen)
    {
      var h, count, mult := newBuckets[nb].head, newBuckets[nb].count + 1, newBuckets[nb].expandMult;
      if count > idealChainMaxlen {
        nonidealItems := nonidealItems + 1;
        mult := count / idealChainMaxlen;
      }
      hhPrev := hhPrev[x := NULL];
      hhNext := hhNext[x := h];
      if h != NULL {
        hhPrev := hhPrev[h := x];
      }
      newBuckets' := newBuckets[nb := Bucket(x, count, mult)];
      ExcessGrows(newBuckets, nb, Bucket(x, count, mult), idealChainMaxlen);
    }

    ghost predicate Redistributing(members: set<int>, newBuckets: seq<Bucket>, newChains: seq<seq<int>>, b: int,
                                   rest: seq<int>)
      reads this`hhNext, this`hhPrev, this`hashv
      reads this`buckets, this`chains, this`idealChainMaxlen, this`nonidealItems
    {
      && Sizes() && |buckets| == |chains| && (forall c :: 0 <= c < |chains| ==> buckets[c].head == First(chains[c]))
      && Moving(hashv, hhNext, hhPrev, |keys|, members, chains, newBuckets, newChains, b, rest)
      && idealChainMaxlen > 0 && MultOk(newBuckets, idealChainMaxlen)
        && nonidealItems == Excess(newBuckets, idealChainMaxlen)
    }

    /** The items of one old chain, from its head on. */
    method MoveChain(b: nat, newBuckets: seq<Bucket>, ghost newChains: seq<seq<int>>, ghost members: set<int>)
      returns (newBuckets': seq<Bucket>, ghost newChains': seq<seq<int>>)
      requires b < |buckets| && |buckets| == |chains| && Redistributing(members, newBuckets, newChains, b, chains[b])
      modifies this`hhNext, this`hhPrev, this`nonidealItems
      ensures Redistributing(members, newBuckets', newChains', b, [])
    {
      newBuckets', newChains' := newBuckets, newChains;
      ghost var rest := chains[b];
      var thh := buckets[b].head;
      while thh != NULL
        invariant Redistributing(members, newBuckets', newChains', b, rest) && thh == First(rest)
        decreases |rest|
      {
        var hhNxt := hhNext[thh];
        var nb := hashv[thh] % (2 * |buckets|);
        assert Chain(hhNext, hhPrev, |keys|, newBuckets'[nb], newChains'[nb]);
        ghost var hhNext0, hhPrev0, newBuckets0 := hhNext, hhPrev, newBuckets';
        newBuckets' := MoveToBucket(thh, newBuckets', nb);
        MoveItem(hashv, hhNext0, hhPrev0, |keys|, members, chains, newBuckets0, newChains', b, rest,
                 newBuckets'[nb].expandMult);
        newChains' := newChains'[nb := [thh] + newChains'[nb]];
        rest := rest[1..];
        thh := hhNxt;
      }
    }

    lemma StartRedistributing(members: set<int>)
      requires BucketsOk(members) && idealChainMaxlen > 0 && nonidealItems == 0
      ensures Redistributing(members, seq(2 * |buckets|, i => EMPTY_BUCKET), seq(2 * |buckets|, i => []), -1, [])
    {
      NoExcess(2 * |buckets|, idealChainMaxlen);
      AllToMove(hashv, hhNext, hhPrev, |keys|, members, buckets, chains);
      forall c | 0 <= c < |chains| ensures buckets[c].head == First(chains[c]) {
        assert Chain(hhNext, hhPrev, |keys|, buckets[c], chains[c]);
      }
    }

    lemma NextRedistributing(members: set<int>, newBuckets: seq<Bucket>, newChains: seq<seq<int>>, b: nat)
      requires Redistributing(members, newBuckets, newChains, b - 1, []) && b < |buckets|
      ensures Redistributing(members, newBuckets, newChains, b, chains[b])
    {
      NextChain(hashv, hhNext, hhPrev, |keys|, members, chains, newBuckets, newChains, b);
    }

    /** All old chains, one after the other. */
    method Redistribute(ghost members: set<int>) returns (newBuckets: seq<Bucket>, ghost newChains: seq<seq<int>>)
      requires BucketsOk(members) && idealChainMaxlen > 0 && nonidealItems == 0
      modifies this`hhNext, this`hhPrev, this`nonidealItems
      ensures Redistributing(members, newBuckets, newChains, |buckets| - 1, [])
    {
      newBuckets := seq(2 * |buckets|, i => EMPTY_BUCKET);
      newChains := seq(2 * |buckets|, i => []);
      StartRedistributing(members);
      for i := 0 to |buckets|
        invariant Redistributing(members, newBuckets, newChains, i - 1, [])
      {
        NextRedistributing(members, newBuckets, newChains, i);
        newBuckets, newChains := MoveChain(i, newBuckets, newChains, members);
      }
    }

    /** The new buckets take the place of the old ones. */
    method ReplaceBuckets(newBuckets: seq<Bucket>, ghost newChains: seq<seq<int>>, ghost members: set<int>)
      requires |buckets| == Pow2(log2NumBuckets) && Redistributing(members, newBuckets, newChains, |buckets| - 1, [])
      requires forall x :: x in members ==> 0 <= x < |keys| && hashv[x] == hash(keys[x])
      modifies this`buckets, this`chains, this`log2NumBuckets
      ensures BucketsOk(members) && log2NumBuckets == old(log2NumBuckets) + 1 && |buckets| == 2 * old(|buckets|)
      ensures Roomy() && MultOk(buckets, idealChainMaxlen) && nonidealItems == Excess(buckets, idealChainMaxlen)
    {
      SpreadIsRoomy(newBuckets, idealChainMaxlen);
      AllMoved(hashv, hhNext, hhPrev, |keys|, members, chains, newBuckets, newChains);
      log2NumBuckets := log2NumBuckets + 1;
      buckets, chains := newBuckets, newChains;
    }

    method SetIdeal(log2: nat)
      requires numItems > 0
      modifies this`idealChainMaxlen, this`nonidealItems
      ensures idealChainMaxlen == Ideal(numItems, log2) > 0 && nonidealItems == 0
    {
      IdealIsPositive(numItems, log2);
      idealChainMaxlen := Ideal(numItems, log2);
      nonidealItems := 0;
    }

    method JudgeExpansion()
      modifies this`ineffExpands, this`noexpand
      ensures ineffExpands == if nonidealItems > numItems / 2 then old(ineffExpands) + 1 else 0
      ensures noexpand == (old(noexpand) || ineffExpands > 1)
    {
      ineffExpands := if nonidealItems > numItems / 2 then ineffExpands + 1 else 0;
      if ineffExpands > 1 {
        noexpand := true;
      }
    }

    /** `HASH_EXPAND_BUCKETS`: twice as many buckets, the same items. Two expansions in a row that leave more than
        half of the items beyond the ideal length are the last ones. */
    method ExpandBuckets(ghost members: set<int>)
      requires BucketsOk(members) && numItems > 0
      modifies this`hhNext, this`hhPrev, this`buckets, this`chains, this`log2NumBuckets
      modifies this`idealChainMaxlen, this`nonidealItems, this`ineffExpands, this`noexpand
      ensures BucketsOk(members) && log2NumBuckets == old(log2NumBuckets) + 1
      ensures idealChainMaxlen == Ideal(numItems, log2NumBuckets)
      ensures |buckets| == 2 * old(|buckets|) && Roomy()
      ensures MultOk(buckets, idealChainMaxlen) && nonidealItems == Excess(buckets, idealChainMaxlen)
      ensures ineffExpands == if nonidealItems > numItems / 2 then old(ineffExpands) + 1 else 0
      ensures noexpand == (old(noexpand) || ineffExpands > 1)
    {
      SpreadItems(members);
      JudgeExpansion();
    }

    /** The items in twice as many buckets, and how many of them lie beyond the ideal length. */
    method SpreadItems(ghost members: set<int>)
      requires BucketsOk(members) && numItems > 0
      modifies this`hhNext, this`hhPrev, this`buckets, this`chains, this`log2NumBuckets
      modifies this`idealChainMaxlen, this`nonidealItems
      ensures BucketsOk(members) && log2NumBuckets == old(log2NumBuckets) + 1 && |buckets| == 2 * old(|buckets|)
      ensures idealChainMaxlen == Ideal(numItems, log2NumBuckets) && Roomy()
      ensures MultOk(buckets, idealChainMaxlen) && nonidealItems == Excess(buckets, idealChainMaxlen)
    {
      SetIdeal(log2NumBuckets + 1);
      var newBuckets;
      ghost var newChains;
      newBuckets, newChains := Redistribute(members);
      ReplaceBuckets(newBuckets, newChains, members);
    }

    /** `HASH_ADD_TO_BKT`: to the front of its chain; a chain that has got too long makes the table grow. */
    method AddToBucket(x: int, ghost members: set<int>)
      requires BucketsOk(members) && numItems > 0 && 0 <= x < |keys| && x !in members && hashv[x] == hash(keys[x])
      modifies this`hhNext, this`hhPrev, this`buckets, this`chains, this`log2NumBuckets
      modifies this`idealChainMaxlen, this`nonidealItems, this`ineffExpands, this`noexpand
      ensures BucketsOk(members + {x}) && (old(Roomy()) ==> Roomy())
      ensures var b := hashv[x] % old(|buckets|);
        if !old(noexpand) && old(buckets)[b].count + 1 >= (old(buckets)[b].expandMult + 1) * 10 then
          && |buckets| == 2 * old(|buckets|)
          && idealChainMaxlen == Ideal(numItems, log2NumBuckets)
          && MultOk(buckets, idealChainMaxlen) && nonidealItems == Excess(buckets, idealChainMaxlen)
        else
          && chains == old(chains)[b := [x] + old(chains)[b]]
          && buckets == old(buckets)[b := Bucket(x, old(buckets)[b].count + 1, old(buckets)[b].expandMult)]
          && noexpand == old(noexpand) && ineffExpands == old(ineffExpands)
    {
      var b := hashv[x] % |buckets|;
      var h, count, mult := buckets[b].head, buckets[b].count + 1, buckets[b].expandMult;
      PushedToChain(hhNext, hhPrev, |keys|, buckets, chains, hashv, members, x, b, mult);
      hhNext := hhNext[x := h];
      hhPrev := hhPrev[x := NULL];
      if h != NULL {
        hhPrev := hhPrev[h := x];
      }
      OneChanged(buckets, b, Bucket(x, if count < (mult + 1) * 10 then count else 0, mult));
      buckets := buckets[b := Bucket(x, count, mult)];
      chains := chains[b := [x] + chains[b]];
      if count >= (mult + 1) * HASH_BKT_CAPACITY_THRESH && !noexpand {
        ExpandBuckets(members + {x});
      }
    }

    predicate NewTable()
      reads this`buckets, this`noexpand, this`ineffExpands
    {
      |buckets| == 32 && !noexpand && ineffExpands == 0 && forall b :: 0 <= b < 32 ==> buckets[b] == Bucket(NULL, 0, 0)
    }

    /** `HASH_MAKE_TABLE`. */
    method MakeTable()
      requires Sizes()
      modifies this`numItems, this`buckets, this`chains, this`log2NumBuckets
      modifies this`idealChainMaxlen, this`nonidealItems, this`ineffExpands, this`noexpand
      ensures BucketsOk({}) && numItems == 0
      ensures NewTable()
    {
      numItems, log2NumBuckets := 0, HASH_INITIAL_NUM_BUCKETS_LOG2;
      idealChainMaxlen, nonidealItems, ineffExpands, noexpand := 0, 0, 0, false;
      buckets := seq(HASH_INITIAL_NUM_BUCKETS, i => EMPTY_BUCKET);
      chains := seq(HASH_INITIAL_NUM_BUCKETS, i => []);
      NewBuckets(hhNext, hhPrev, |keys|, hashv);
    }

    /** The first item, and a new table with it. */
    method StartList(x: int)
      requires ListOk() && Sizes() && 0 <= x < |keys| && items == []
      modifies this`next, this`prev, this`head, this`tail, this`items, this`numItems, this`buckets, this`chains
      modifies this`log2NumBuckets, this`idealChainMaxlen, this`nonidealItems, this`ineffExpands, this`noexpand
      ensures ListOk() && items == [x] && BucketsOk({}) && NewTable()
    {
      OneItem(next, prev, |keys|, x);
      next := next[x := NULL];
      head := x;
      prev := prev[x := NULL];
      tail := x;
      items := [x];
      MakeTable();
      numItems := numItems + 1;
    }

    method ExtendList(x: int)
      requires ListOk() && 0 <= x < |keys| && x !in items && items != []
      modifies this`next, this`prev, this`tail, this`items, this`numItems
      ensures ListOk() && items == old(items) + [x]
    {
      Appended(next, prev, |keys|, items, x);
      next := next[x := NULL];
      next := next[tail := x];
      prev := prev[x := tail];
      tail := x;
      items := items + [x];
      numItems := numItems + 1;
    }

    /** `HASH_ADD_KEYPTR`. As the macro demands, no item of the table has the key already. */
    method Add(x: int)
      requires Valid() && 0 <= x < |keys| && forall y :: y in items ==> 0 <= y < |keys| && keys[y] != keys[x]
      modifies this
      ensures Valid() && items == old(items) + [x]
      ensures old(items) == [] ==> |buckets| == 32
      ensures old(items) != [] ==>
        var b := hash(keys[x]) % old(|buckets|);
        |buckets| ==
        if !old(noexpand) && old(buckets)[b].count + 1 >= (old(buckets)[b].expandMult + 1) * 10 then 2 * old(|buckets|)
        else old(|buckets|)
    {
      if head == NULL {
        AddFirst(x);
      } else {
        AddBehind(x);
      }
    }

    method AddFirst(x: int)
      requires Valid() && 0 <= x < |keys| && items == []
      modifies this
      ensures Valid() && items == [x] && |buckets| == 32
    {
      FirstItem(x);
      StartList(x);
      AddHashed(x, {});
    }

    lemma FirstItem(x: int)
      requires 0 <= x < |keys|
      ensures Unique(keys, [x]) && Members([x]) == {} + {x}
    {
      OneMore(keys, [], x);
      assert [] + [x] == [x] && Members([]) == {};
    }

    method AddBehind(x: int)
      requires Valid() && 0 <= x < |keys| && forall y :: y in items ==> 0 <= y < |keys| && keys[y] != keys[x]
      requires items != []
      modifies this
      ensures Valid() && items == old(items) + [x]
      ensures var b := hash(keys[x]) % old(|buckets|);
        |buckets| ==
        if !old(noexpand) && old(buckets)[b].count + 1 >= (old(buckets)[b].expandMult + 1) * 10 then 2 * old(|buckets|)
        else old(|buckets|)
    {
      ghost var members := Members(items);
      OneMore(keys, items, x);
      ExtendList(x);
      AddHashed(x, members);
    }

    method AddHashed(x: int, ghost members: set<int>)
      requires BucketsOk(members) && numItems > 0 && 0 <= x < |keys| && x !in members
      modifies this`hashv, this`hhNext, this`hhPrev, this`buckets, this`chains, this`log2NumBuckets
      modifies this`idealChainMaxlen, this`nonidealItems, this`ineffExpands, this`noexpand
      ensures BucketsOk(members + {x}) && (old(Roomy()) ==> Roomy())
      ensures var b := hash(keys[x]) % old(|buckets|);
        |buckets| ==
        if !old(noexpand) && old(buckets)[b].count + 1 >= (old(buckets)[b].expandMult + 1) * 10 then 2 * old(|buckets|)
        else old(|buckets|)
    {
      PlacedStill(hashv, members, chains, x, hash(keys[x]));
      hashv := hashv[x := hash(keys[x])];
      AddToBucket(x, members);
    }

    lemma IndexInBucket(x: int, members: set<int>) returns (i: nat)
      requires BucketsOk(members) && x in members
      ensures i < |chains[hashv[x] % |buckets|]| && chains[hashv[x] % |buckets|][i] == x
      ensures buckets[hashv[x] % |buckets|].count > 0
    {
      assert Chain(hhNext, hhPrev, |keys|, buckets[hashv[x] % |buckets|], chains[hashv[x] % |buckets|]);
      assert x in chains[hashv[x] % |buckets|];
      i :| 0 <= i < |chains[hashv[x] % |buckets|]| && chains[hashv[x] % |buckets|][i] == x;
    }

    /** `HASH_DEL_IN_BKT`. */
    method DelInBucket(x: int, ghost members: set<int>)
      requires BucketsOk(members) && x in members
      modifies this`hhNext, this`hhPrev, this`buckets, this`chains
      ensures BucketsOk(members - {x}) && |buckets| == old(|buckets|)
      ensures var b := hashv[x] % |buckets|;
        var was := old(buckets)[b];
        was.count > 0 && buckets == old(buckets)[b := Bucket(buckets[b].head, was.count - 1, was.expandMult)]
    {
      var b := hashv[x] % |buckets|;
      ghost var i := IndexInBucket(x, members);
      TakenFromChain(hhNext, hhPrev, |keys|, buckets, chains, hashv, members, x, b, i);
      var head := if buckets[b].head == x then hhNext[x] else buckets[b].head;
      buckets := buckets[b := Bucket(head, buckets[b].count - 1, buckets[b].expandMult)];
      if hhPrev[x] != NULL {
        hhNext := hhNext[hhPrev[x] := hhNext[x]];
      }
      if hhNext[x] != NULL {
        hhPrev := hhPrev[hhNext[x] := hhPrev[x]];
      }
      chains := chains[b := chains[b][..i] + chains[b][i + 1..]];
    }

    /** A shorter chain is below its threshold if the longer one was. */
    method TakeOut(x: int, ghost members: set<int>)
      requires BucketsOk(members) && x in members && Roomy()
      modifies this`hhNext, this`hhPrev, this`buckets, this`chains
      ensures BucketsOk(members - {x}) && Roomy() && |buckets| == old(|buckets|)
    {
      ghost var b, was := hashv[x] % |buckets|, buckets;
      DelInBucket(x, members);
      OneChanged(was, b, buckets[b]);
    }

    /** The list without one of its items, of which it has another one. */
    method UnlinkItem(x: int, ghost i: nat)
      requires ListOk() && i < |items| && items[i] == x && |items| > 1
      modifies this`next, this`prev, this`head, this`tail, this`items, this`numItems
      ensures ListOk() && items == old(items)[..i] + old(items)[i + 1..]
    {
      Removed(next, prev, |keys|, items, i);
      if x == tail {
        tail := prev[x];
      }
      if prev[x] != NULL {
        next := next[prev[x] := next[x]];
      } else {
        head := next[x];
      }
      if next[x] != NULL {
        prev := prev[next[x] := prev[x]];
      }
      numItems := numItems - 1;
      items := items[..i] + items[i + 1..];
    }

    /** The only item goes, and the table with it. */
    method FreeTable(x: int)
      requires Valid() && items == [x]
      modifies this`head, this`items, this`buckets, this`chains
      ensures Valid() && items == []
    {
      buckets, head := [], NULL;
      items, chains := [], [];
    }

    /** The item is taken out of the list and out of its chain. */
    method DeleteItem(x: int, ghost i: nat)
      requires Valid() && i < |items| && items[i] == x && |items| > 1
      modifies this
      ensures Valid() && items == old(items)[..i] + old(items)[i + 1..]
      ensures |buckets| == old(|buckets|) && noexpand == old(noexpand)
    {
      ghost var members, before := Members(items), items;
      UnlinkItem(x, i);
      TakeOut(x, members);
      OneLess(keys, before, i);
    }

    /** `HASH_DELETE`: the item is gone from the list and its chain, the others stay in their order. With the last
        item the table itself goes. */
    method Delete(x: int) returns (ghost i: nat)
      requires Valid() && x in items
      modifies this
      ensures i < |old(items)| && old(items)[i] == x
      ensures Valid() && items == old(items)[..i] + old(items)[i + 1..]
      ensures items != [] ==> |buckets| == old(|buckets|) && noexpand == old(noexpand)
    {
      i :| 0 <= i < |items| && items[i] == x;
      Removed(next, prev, |keys|, items, i);
      if prev[x] == NULL && next[x] == NULL {
        FreeTable(x);
      } else {
        DeleteItem(x, i);
      }
    }

    /** The inner loop of `HASH_FSCK`: how many items the bucket's chain has, and whether each points back to the one
        in front of it. */
    method CheckBucket(b: nat) returns (ok: bool, count: nat)
      requires BucketsOk(Members(items)) && b < |buckets|
      ensures ok && count == |chains[b]| == buckets[b].count
    {
      ghost var chain := chains[b];
      assert Chain(hhNext, hhPrev, |keys|, buckets[b], chain);
      ok, count := true, 0;
      var prv, thh := NULL, buckets[b].head;
      while thh != NULL
        invariant count <= |chain| && ok
        invariant thh == if count < |chain| then chain[count] else NULL
        invariant prv == if count > 0 then chain[count - 1] else NULL
        decreases |chain| - count
      {
        ok := ok && prv == hhPrev[thh];
        count := count + 1;
        prv, thh := thh, hhNext[thh];
      }
    }

    /** The loop of `HASH_FSCK` along the list. */
    method CheckList() returns (ok: bool, count: nat)
      requires ListOk()
      ensures ok && count == |items|
    {
      ok, count := true, 0;
      var prv, thh := NULL, head;
      while thh != NULL
        invariant count <= |items| && ok
        invariant thh == if count < |items| then items[count] else NULL
        invariant prv == if count > 0 then items[count - 1] else NULL
        decreases |items| - count
      {
        ok := ok && prv == prev[thh];
        count := count + 1;
        prv, thh := thh, next[thh];
      }
    }

    /** `HASH_FSCK` finds nothing wrong with a valid table: the links in the buckets and in the list point back and
        forth between the same items, and all counts are right. */
    method Fsck() returns (ok: bool)
      requires Valid()
      ensures ok
    {
      ok := true;
      if head == NULL {
        return;
      }
      var total := 0;
      for b := 0 to |buckets|
        invariant ok && total == Lengths(chains[..b])
      {
        var good, count := CheckBucket(b);
        assert chains[..b + 1][..b] == chains[..b];
        total := total + count;
        ok := ok && good && buckets[b].count == count;
      }
      assert chains[..|chains|] == chains;
      forall c | 0 <= c < |chains| ensures Items(chains[c], |keys|) {
        assert Chain(hhNext, hhPrev, |keys|, buckets[c], chains[c]);
      }
      LengthsTotal(hashv, items, chains, |keys|);
      ok := ok && total == numItems;
      var good, count := CheckList();
      ok := ok && good && count == numItems;
    }
  }
}
