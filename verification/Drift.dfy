/** A server whose directories have other modes or owners than the client's: nothing else ever differs. */
module Drift {
  import opened Wrappers
  import opened Operations
  import opened Seqs
  import opened Posix
  import opened Optimizer
  import opened Reducer
  import opened ReducerLaws
  import opened History
  import opened TreeSync

  /** The same node, or two directories. */
  predicate LikeNode(m: Option<Node>, n: Option<Node>) {
    m == n || (IsDir(m) && IsDir(n))
  }

  /** The same paths with the same kinds of nodes, contents, targets, and attributes; only directories may have other
      modes and owners. */
  ghost predicate Like(a: Tree, b: Tree) {
    forall p {:trigger Lookup(a, p)} {:trigger Lookup(b, p)} :: LikeNode(Lookup(a, p), Lookup(b, p))
  }

  lemma LikeItself(t: Tree)
    ensures Like(t, t)
  {
  }

  lemma LikeThrough(a: Tree, b: Tree, c: Tree)
    requires Like(a, b) && Like(b, c)
    ensures Like(a, c)
  {
    forall p ensures LikeNode(Lookup(a, p), Lookup(c, p)) {
      assert LikeNode(Lookup(a, p), Lookup(b, p)) && LikeNode(Lookup(b, p), Lookup(c, p));
    }
  }

  lemma LikePaths(a: Tree, b: Tree)
    requires Like(a, b)
    ensures forall p :: p in a <==> p in b
  {
    forall p ensures p in a <==> p in b {
      assert LikeNode(Lookup(a, p), Lookup(b, p));
    }
  }

  /******* Operations see no difference *******/

  lemma LikePermitted(a: Tree, b: Tree, p: Path, op: Op)
    requires Like(a, b)
    ensures Permitted(a, p, op) <==> Permitted(b, p, op)
  {
    LikePaths(a, b);
    if p != [] {
      assert LikeNode(Lookup(a, Parent(p)), Lookup(b, Parent(p)));
    }
  }

  lemma LikeApply(m: Option<Node>, n: Option<Node>, l: Loaded)
    requires LikeNode(m, n)
    ensures LikeNode(Apply(m, l), Apply(n, l))
  {
  }

  lemma LikeTreeApply(a: Tree, b: Tree, p: Path, l: Loaded)
    requires Like(a, b)
    ensures Like(TreeApply(a, p, l), TreeApply(b, p, l))
  {
    LikePermitted(a, b, p, l.op);
    var m, n := Apply(Lookup(a, p), l), Apply(Lookup(b, p), l);
    LikeApply(Lookup(a, p), Lookup(b, p), l);
    forall q ensures LikeNode(Lookup(Put(a, p, m), q), Lookup(Put(b, p, n), q)) {
      PutLookup(a, p, m, q);
      PutLookup(b, p, n, q);
      assert LikeNode(Lookup(a, q), Lookup(b, q));
    }
  }

  lemma LikePossible(a: Tree, b: Tree, r: Record, data: bytes)
    requires Like(a, b) && Possible(a, r, data)
    ensures Possible(b, r, data)
  {
    LikePermitted(a, b, r.path, r.op);
    assert LikeNode(Lookup(a, r.path), Lookup(b, r.path));
  }

  lemma LikeWellFormed(a: Tree, b: Tree)
    requires Like(a, b) && WellFormed(a)
    ensures WellFormed(b)
  {
    assert LikeNode(Lookup(a, []), Lookup(b, []));
    forall p | p in b && p != [] ensures IsDir(Lookup(b, Parent(p))) {
      LikePaths(a, b);
      assert LikeNode(Lookup(a, Parent(p)), Lookup(b, Parent(p)));
    }
  }

  lemma {:induction false} LikeTreeAt(a: Tree, b: Tree, log: seq<Record>, d: seq<bytes>, k: nat)
    requires Like(a, b) && k <= |log| == |d|
    ensures Like(TreeAt(a, log, d, k), TreeAt(b, log, d, k))
  {
    if k > 0 {
      LikeTreeAt(a, b, log, d, k - 1);
      LikeTreeApply(TreeAt(a, log, d, k - 1), TreeAt(b, log, d, k - 1), log[k - 1].path,
                    Loaded(log[k - 1].op, Some(d[k - 1])));
    }
  }

  /** What the client has done could have been done on the other tree as well. */
  lemma LikeValidLog(a: Tree, b: Tree, log: seq<Record>, d: seq<bytes>)
    requires Like(a, b) && ValidLog(a, log, d)
    ensures ValidLog(b, log, d)
  {
    LikeWellFormed(a, b);
    forall k: nat | k < |log| ensures Possible(TreeAt(b, log, d, k), log[k], d[k]) {
      LikeTreeAt(a, b, log, d, k);
      LikePossible(TreeAt(a, log, d, k), TreeAt(b, log, d, k), log[k], d[k]);
    }
  }

  /** Both snapshots give the same data to send. */
  lemma LikeShipment(a: Tree, b: Tree, e: Entry, out: seq<GenOp>)
    requires Like(a, b)
    ensures Shipment(a, e, out) == Shipment(b, e, out)
  {
    assert LikeNode(Lookup(a, e.path), Lookup(b, e.path));
  }

  lemma {:induction false} LikeServerAt(t: Tree, a: Tree, b: Tree, s: seq<Entry>, outs: seq<seq<GenOp>>, j: nat)
    requires Like(a, b) && j <= |s| == |outs|
    ensures ServerAt(t, a, s, outs, j) == ServerAt(t, b, s, outs, j)
  {
    if j > 0 {
      LikeServerAt(t, a, b, s, outs, j - 1);
      LikeShipment(a, b, s[j - 1], outs[j - 1]);
    }
  }

  /******* An epoch *******/

  /** The exception in which an epoch does not arrive unchanged concerns attributes of directories only. */
  lemma EpochArrives(t0: Tree, t1: Tree, d: seq<bytes>, s: seq<Entry>, outs: seq<seq<GenOp>>)
    requires Sent(t0, t1, d, s, outs)
    ensures Like(ServerAt(t0, t1, s, outs, |s|), t1)
  {
    var w := ServerAt(t0, t1, s, outs, |s|);
    EntriesSync(t0, t1, d, s, outs);
    forall q ensures LikeNode(Lookup(w, q), Lookup(t1, q)) {
      assert Lookup(w, q) == Target(t0, t1, s, q);
      var f := FindPath(s, q);
      if f.Some? {
        ExpectedKind(t0, t1, f.value);
        ExpectedLike(t0, t1, f.value);
      }
    }
  }

  lemma ExpectedLike(t0: Tree, t1: Tree, e: Entry)
    requires WellFormed(t1)
    ensures LikeNode(Expected(t0, t1, e), Lookup(t1, e.path))
  {
    ExpectedKind(t0, t1, e);
  }

  /** A whole epoch, sent from the client's tree to a server whose tree is like the client's: the trees end alike, and
      sending it again changes nothing. */
  lemma EpochFrom(u: Tree, t0: Tree, log: seq<Record>, d: seq<bytes>, s: seq<Entry>, outs: seq<seq<GenOp>>)
    requires ValidLog(t0, log, d) && Like(t0, u)
    requires StableSorted(ORDER, TableAt(log, |log|).files, s)
    requires |outs| == |s| && forall i :: 0 <= i < |s| ==> IsOptimized(s[i].ops, outs[i])
    ensures var t1 := TreeAt(t0, log, d, |log|);
      var w := ServerAt(u, t1, s, outs, |s|);
      Like(t1, w) && ServerAt(w, t1, s, outs, |s|) == w
  {
    var t1, u1 := TreeAt(t0, log, d, |log|), TreeAt(u, log, d, |log|);
    LikeValidLog(t0, u, log, d);
    LikeTreeAt(t0, u, log, d, |log|);
    ListsFollowTree(u, log, d, |log|);
    SortedTableIsSent(u, u1, d, TableAt(log, |log|), s, outs);
    EpochArrives(u, u1, d, s, outs);
    EpochAgain(u, u1, d, s, outs, |s|);
    LikeServerAt(u, t1, u1, s, outs, |s|);
    var w := ServerAt(u, t1, s, outs, |s|);
    LikeServerAt(w, t1, u1, s, outs, |s|);
    LikeBack(w, u1);
    LikeThrough(t1, u1, w);
  }

  lemma LikeBack(a: Tree, b: Tree)
    requires Like(a, b)
    ensures Like(b, a)
  {
    forall p ensures LikeNode(Lookup(b, p), Lookup(a, p)) {
      assert LikeNode(Lookup(a, p), Lookup(b, p));
    }
  }
}
