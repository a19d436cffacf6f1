/** End to end: the server's tree after an epoch against the client's. */
module TreeSync {
  import opened Wrappers
  import opened Operations
  import opened Seqs
  import opened Posix
  import opened Optimizer
  import opened OptimizerLaws
  import opened FileReplay
  import opened NodeReplay
  import opened Reducer
  import opened ReducerLaws
  import opened History

  const ORDER: Entry -> int := (e: Entry) => e.order

  /** What is sent in one epoch: the entries in transfer order, each with its optimized list. */
  ghost predicate Sent(t0: Tree, t1: Tree, d: seq<bytes>, s: seq<Entry>, outs: seq<seq<GenOp>>) {
    && WellFormed(t0) && WellFormed(t1)
    && Tracks(t0, t1, d, s)
    && Ordered(Distinct, s) && Ordered(ByKey(ORDER), s) && Ordered(ChildFirst, s)
    && ParentsFirst(s) && Emptied(t0, s) && RootStays(s)
    && (forall e :: e in s ==> e.order >= -1 && (e.order == -1 <==> Pure(e)))
    && |outs| == |s| && forall i :: 0 <= i < |s| ==> IsOptimized(s[i].ops, outs[i])
  }

  /** The operations of one entry with their data, read from the client's snapshot `t1`. */
  function Shipment(t1: Tree, e: Entry, out: seq<GenOp>): seq<Loaded> {
    LoadAll(out, FinalContent(Lookup(t1, e.path)))
  }

  /** The server's tree after the first `j` entries. */
  function ServerAt(t: Tree, t1: Tree, s: seq<Entry>, outs: seq<seq<GenOp>>, j: nat): Tree
    requires j <= |s| == |outs|
  {
    if j == 0 then t
    else TreeReplay(ServerAt(t, t1, s, outs, j - 1), s[j - 1].path, Shipment(t1, s[j - 1], outs[j - 1]))
  }

  /******* Sorting the table *******/

  lemma DistinctIsSymmetric(a: seq<Entry>, s: seq<Entry>)
    requires Ordered(Distinct, a) && multiset(s) == multiset(a)
    ensures Ordered(Distinct, s)
  {
    SymmetricSurvives(Distinct, a, s);
  }

  lemma SortedChildFirst(tb: Table, s: seq<Entry>)
    requires TableOk(tb) && Ordered(ChildFirst, tb.files) && StableSorted(ORDER, tb.files, s)
    ensures Ordered(ChildFirst, s)
  {
    StableKeeps(ORDER, tb.files, s);
    var p := HasKey(ORDER, -1);
    FilterOrdered(p, ChildFirst, tb.files);
    forall i, j | 0 <= i < j < |s| ensures ChildFirst(s[i], s[j]) {
      if Pure(s[i]) && Pure(s[j]) {
        assert EntryOk(s[i], tb.fileorder, tb.nextId) && EntryOk(s[j], tb.fileorder, tb.nextId);
        FilterReflects(p, ChildFirst, s, i, j);
      }
    }
  }

  lemma SortedFound(tb: Table, s: seq<Entry>, p: Path)
    requires TableOk(tb) && StableSorted(ORDER, tb.files, s)
    ensures FindPath(s, p) == FindPath(tb.files, p)
  {
    StableKeeps(ORDER, tb.files, s);
    DistinctIsSymmetric(tb.files, s);
    var f := FindPath(tb.files, p);
    if f.Some? {
      FindIt(s, f.value);
    } else {
      assert forall e :: e in s ==> e.path != p;
    }
  }

  ghost predicate SameTable(files: seq<Entry>, s: seq<Entry>) {
    (forall e :: e in s <==> e in files) && forall p :: FindPath(s, p) == FindPath(files, p)
  }

  lemma SameTracks(t0: Tree, t1: Tree, d: seq<bytes>, files: seq<Entry>, s: seq<Entry>)
    requires SameTable(files, s) && Tracks(t0, t1, d, files)
    ensures Tracks(t0, t1, d, s)
  {
  }

  lemma SameOrders(t0: Tree, files: seq<Entry>, s: seq<Entry>)
    requires SameTable(files, s) && ParentsFirst(files) && Emptied(t0, files) && RootStays(files)
    ensures ParentsFirst(s) && Emptied(t0, s) && RootStays(s)
  {
    assert forall c :: ListedDeleted(files, c) ==> ListedDeleted(s, c);
  }

  lemma SortedSameTable(tb: Table, s: seq<Entry>)
    requires TableOk(tb) && StableSorted(ORDER, tb.files, s)
    ensures SameTable(tb.files, s)
    ensures forall e :: e in s ==> e.order >= -1 && (e.order == -1 <==> Pure(e))
  {
    StableKeeps(ORDER, tb.files, s);
    forall p ensures FindPath(s, p) == FindPath(tb.files, p) {
      SortedFound(tb, s, p);
    }
    forall e | e in s ensures e.order >= -1 && (e.order == -1 <==> Pure(e)) {
      assert EntryOk(e, tb.fileorder, tb.nextId);
    }
  }

  /** The table of a valid log, stably sorted by order, is fit to be sent. */
  lemma SortedTableIsSent(t0: Tree, t1: Tree, d: seq<bytes>, tb: Table, s: seq<Entry>, outs: seq<seq<GenOp>>)
    requires Synchronized(t0, t1, d, tb) && StableSorted(ORDER, tb.files, s)
    requires |outs| == |s| && forall i :: 0 <= i < |s| ==> IsOptimized(s[i].ops, outs[i])
    ensures Sent(t0, t1, d, s, outs)
  {
    SortedSameTable(tb, s);
    StableKeeps(ORDER, tb.files, s);
    DistinctIsSymmetric(tb.files, s);
    SortedChildFirst(tb, s);
    SameTracks(t0, t1, d, tb.files, s);
    SameOrders(t0, tb.files, s);
  }

  /******* A list on the tree *******/

  /** Permission at `p` depends on what is around `p`, not on `p` itself. */
  lemma PermittedAround(t: Tree, p: Path, n: Option<Node>, op: Op)
    ensures Permitted(Put(t, p, n), p, op) <==> Permitted(t, p, op)
  {
    if p != [] {
      PutLookup(t, p, n, Parent(p));
    }
    forall c | IsChild(c, p) ensures c in Put(t, p, n) <==> c in t {
    }
  }

  lemma PutSame(t: Tree, p: Path)
    ensures Put(t, p, Lookup(t, p)) == t
  {
  }

  lemma ApplyAt(t: Tree, p: Path, n: Option<Node>, l: Loaded)
    ensures TreeApply(Put(t, p, n), p, l) == Put(t, p, if Permitted(t, p, l.op) then Apply(n, l) else n)
  {
    PermittedAround(t, p, n, l.op);
    PutLookup(t, p, n, p);
    var n' := Apply(n, l);
    assert Put(Put(t, p, n), p, n') == Put(t, p, n');
  }

  function IsPermitted(t: Tree, p: Path): Loaded -> bool {
    (l: Loaded) => Permitted(t, p, l.op)
  }

  /** A list changes its own path only, by those of its operations that are permitted around it. */
  lemma {:induction false} ReplayPermitted(t: Tree, p: Path, ls: seq<Loaded>)
    ensures TreeReplay(t, p, ls) == Put(t, p, Replay(Lookup(t, p), Filter(IsPermitted(t, p), ls)))
  {
    if ls == [] {
      PutSame(t, p);
    } else {
      var n := |ls| - 1;
      ReplayPermitted(t, p, ls[..n]);
      var f := Filter(IsPermitted(t, p), ls[..n]);
      ApplyAt(t, p, Replay(Lookup(t, p), f), ls[n]);
      if Permitted(t, p, ls[n].op) {
        assert (f + [ls[n]])[..|f|] == f;
        assert Filter(IsPermitted(t, p), ls) == f + [ls[n]];
      } else {
        assert Filter(IsPermitted(t, p), ls) == f;
      }
    }
  }

  /******* Where the server must end *******/

  /** A directory of old that was removed and made again while an old entry of it was deleted and made again
      too: that entry is still in it when the server tries to remove it. */
  predicate Blocked(t0: Tree, t1: Tree, e: Entry) {
    && e.ops != [] && e.ops[0].op.Rmdir? && IsDir(Lookup(t0, e.path))
    && exists c :: c in t0 && c in t1 && IsChild(c, e.path)
  }

  function Expected(t0: Tree, t1: Tree, e: Entry): Option<Node> {
    if Blocked(t0, t1, e) then Some(Refused(Lookup(t0, e.path).value, e.ops)) else Lookup(t1, e.path)
  }

  /** The node at `q` once the entries of `done` have been handled. */
  function Target(t0: Tree, t1: Tree, done: seq<Entry>, q: Path): Option<Node> {
    var e := FindPath(done, q);
    if e.Some? then Expected(t0, t1, e.value) else Lookup(t0, q)
  }

  ghost predicate Reached(t0: Tree, t1: Tree, done: seq<Entry>, u: Tree) {
    forall q :: Lookup(u, q) == Target(t0, t1, done, q)
  }

  lemma EntryFacts(t0: Tree, t1: Tree, d: seq<bytes>, s: seq<Entry>, outs: seq<seq<GenOp>>, e: Entry)
    requires Sent(t0, t1, d, s, outs) && e in s
    ensures Follows(Lookup(t0, e.path), Lookup(t1, e.path), e, d)
    ensures Created(e) || (e.ops != [] && e.ops[0].op.Rmdir?) ==> e.path != []
    ensures Lookup(t1, e.path).None? <==> Pure(e)
    ensures Created(e) ==> e.path in t1
    ensures e.path in t1 && !Created(e) ==> e.path in t0 && (t1[e.path].Dir? <==> t0[e.path].Dir?)
    ensures e.path in t1 && e.path !in t0 ==> Created(e)
  {
    FollowsMeans(Lookup(t0, e.path), Lookup(t1, e.path), e, d);
    if Created(e) || (e.ops != [] && e.ops[0].op.Rmdir?) {
      assert !e.ops[0].op.Modifies();
    }
  }

  lemma EarlierOrLater(s: seq<Entry>, j: nat, q: Path)
    requires j < |s| && Ordered(Distinct, s) && q != s[j].path
    ensures FindPath(s[..j], q).Some? ==> FindPath(s, q) == FindPath(s[..j], q)
    ensures FindPath(s[..j], q).None? && FindPath(s, q).Some? ==>
      exists i :: j < i < |s| && s[i] == FindPath(s, q).value
  {
    var f := FindPath(s[..j], q);
    assert forall i :: 0 <= i < j ==> s[i] in s[..j];
    if f.Some? {
      FindIt(s, f.value);
    } else if FindPath(s, q).Some? {
      var i :| 0 <= i < |s| && s[i] == FindPath(s, q).value;
    }
  }

  /** What stands at `q` before entry `j`: the outcome of an earlier entry, or what stood there to begin with,
      because the path has a later entry or none. */
  lemma Before(t0: Tree, t1: Tree, d: seq<bytes>, s: seq<Entry>, outs: seq<seq<GenOp>>, j: nat, u: Tree, q: Path)
    requires Sent(t0, t1, d, s, outs) && j < |s| && Reached(t0, t1, s[..j], u) && q != s[j].path
    ensures (exists i :: 0 <= i < j && s[i].path == q && Lookup(u, q) == Expected(t0, t1, s[i])) ||
            (exists i :: j < i < |s| && s[i].path == q && Lookup(u, q) == Lookup(t0, q)) ||
            (FindPath(s, q).None? && Lookup(u, q) == Lookup(t0, q) == Lookup(t1, q))
  {
    EarlierOrLater(s, j, q);
    assert Lookup(u, q) == Target(t0, t1, s[..j], q);
    var f := FindPath(s[..j], q);
    if f.Some? {
      var i :| 0 <= i < j && s[i] == f.value;
    }
  }

  lemma ExpectedKind(t0: Tree, t1: Tree, e: Entry)
    requires WellFormed(t1)
    ensures IsDir(Expected(t0, t1, e)) <==> IsDir(Lookup(t1, e.path))
    ensures Expected(t0, t1, e).Some? <==> e.path in t1
  {
    if Blocked(t0, t1, e) {
      var c :| c in t0 && c in t1 && IsChild(c, e.path);
      ParentExists(t1, c, e.path);
    }
  }

  /** The parent of a node to be created is a directory by then. */
  lemma ParentReady(t0: Tree, t1: Tree, d: seq<bytes>, s: seq<Entry>, outs: seq<seq<GenOp>>, j: nat, u: Tree)
    requires Sent(t0, t1, d, s, outs) && j < |s| && Reached(t0, t1, s[..j], u) && Created(s[j])
    ensures s[j].path != [] && IsDir(Lookup(u, Parent(s[j].path)))
  {
    var e := s[j];
    EntryFacts(t0, t1, d, s, outs, e);
    var q := Parent(e.path);
    assert IsChild(e.path, q);
    ParentExists(t1, e.path, q);
    Before(t0, t1, d, s, outs, j, u, q);
    if i :| 0 <= i < j && s[i].path == q && Lookup(u, q) == Expected(t0, t1, s[i]) {
      ExpectedKind(t0, t1, s[i]);
    } else if i :| j < i < |s| && s[i].path == q && Lookup(u, q) == Lookup(t0, q) {
      assert ByKey(ORDER)(s[j], s[i]);
      EntryFacts(t0, t1, d, s, outs, s[i]);
    }
  }

  lemma PureFirst(s: seq<Entry>, i: nat, j: nat)
    requires i < |s| && j < |s| && Pure(s[i]) && IsChild(s[i].path, s[j].path) && s[j].ops != []
      && s[j].ops[0].op.Deletes()
    requires Ordered(ByKey(ORDER), s) && Ordered(ChildFirst, s)
    requires forall e :: e in s ==> e.order >= -1 && (e.order == -1 <==> Pure(e))
    ensures i < j
  {
    assert s[i] in s && s[j] in s;
    assert |s[i].path| != |s[j].path|;
    assert j < i ==> ByKey(ORDER)(s[j], s[i]) && ChildFirst(s[j], s[i]);
  }

  /** An old entry that is gone for good is deleted before its directory is removed. */
  lemma GoneChildEarlier(t0: Tree, t1: Tree, d: seq<bytes>, s: seq<Entry>, outs: seq<seq<GenOp>>, i: nat, j: nat)
    requires Sent(t0, t1, d, s, outs) && i < |s| && j < |s|
    requires s[j].ops != [] && s[j].ops[0].op.Rmdir? && IsChild(s[i].path, s[j].path)
    requires s[i].path in t0 && s[i].path !in t1
    ensures i < j
  {
    EntryFacts(t0, t1, d, s, outs, s[i]);
    PureFirst(s, i, j);
  }

  /** A directory that is removed for good, or made again with no old entry in it, is empty by then. */
  lemma NoChildLeft(t0: Tree, t1: Tree, d: seq<bytes>, s: seq<Entry>, outs: seq<seq<GenOp>>, j: nat, u: Tree, c: Path)
    requires Sent(t0, t1, d, s, outs) && j < |s| && Reached(t0, t1, s[..j], u)
    requires s[j].ops != [] && s[j].ops[0].op.Rmdir? && IsChild(c, s[j].path) && !(c in t0 && c in t1)
    ensures c !in u
  {
    var e := s[j];
    EntryFacts(t0, t1, d, s, outs, e);
    assert c in t0 ==> ListedDeleted(s, c);
    Before(t0, t1, d, s, outs, j, u, c);
    if i :| 0 <= i < j && s[i].path == c && Lookup(u, c) == Expected(t0, t1, s[i]) {
      ExpectedKind(t0, t1, s[i]);
      EntryFacts(t0, t1, d, s, outs, s[i]);
      assert ByKey(ORDER)(s[i], s[j]);
      if c in t1 {
        ParentExists(t1, c, e.path);
      }
    } else if i :| j < i < |s| && s[i].path == c && Lookup(u, c) == Lookup(t0, c) {
      if c in t0 {
        GoneChildEarlier(t0, t1, d, s, outs, i, j);
      }
    }
  }

  /** An old entry that was deleted and made again is still there. */
  lemma ChildLeft(t0: Tree, t1: Tree, d: seq<bytes>, s: seq<Entry>, outs: seq<seq<GenOp>>, j: nat, u: Tree, c: Path)
    requires Sent(t0, t1, d, s, outs) && j < |s| && Reached(t0, t1, s[..j], u)
    requires s[j].ops != [] && s[j].ops[0].op.Rmdir? && IsChild(c, s[j].path) && c in t0 && c in t1
    ensures c in u
  {
    var e := s[j];
    EntryFacts(t0, t1, d, s, outs, e);
    Before(t0, t1, d, s, outs, j, u, c);
    if i :| 0 <= i < j && s[i].path == c && Lookup(u, c) == Expected(t0, t1, s[i]) {
      ExpectedKind(t0, t1, s[i]);
    }
  }

  /******* One entry *******/

  lemma OneRemoval(n0: Option<Node>, ops: seq<GenOp>)
    requires Shape(n0, ops)
    ensures forall i :: 0 < i < |ops| ==> !ops[i].op.Rmdir?
  {
  }

  lemma SameHeadOps(n0: Option<Node>, ops: seq<GenOp>, out: seq<GenOp>)
    requires Shape(n0, ops) && IdsIncrease(ops) && WritesPositive(ops) && IsOptimized(ops, out)
    ensures out != [] && (out[0].op.Rmdir? <==> ops[0].op.Rmdir?)
    ensures forall i :: 0 < i < |out| ==> !out[i].op.Rmdir?
    ensures forall i :: 0 <= i < |out| ==> out[i] in ops || out[i].op.Modifies()
  {
    NeverEmpties(ops, out);
    SameHead(n0, ops, out);
    SamePrefix(n0, ops, out, HeadLength(ops));
    OneRemoval(n0, ops);
  }

  lemma PermittedOp(u: Tree, p: Path, ops: seq<GenOp>, g: GenOp)
    requires (exists h :: h in ops && h.op.Creates()) ==> p != [] && IsDir(Lookup(u, Parent(p)))
    requires (g in ops || g.op.Modifies()) && !g.op.Rmdir?
    ensures Permitted(u, p, g.op)
  {
  }

  /** In a list made of one deletion, one creation and modifications, only the head needs permission. */
  lemma OnlyHeadsNeedPermission(u: Tree, n0: Option<Node>, p: Path, ops: seq<GenOp>, out: seq<GenOp>, f: bytes)
    requires Shape(n0, ops) && IdsIncrease(ops) && WritesPositive(ops) && IsOptimized(ops, out)
    requires (exists g :: g in ops && g.op.Creates()) ==> p != [] && IsDir(Lookup(u, Parent(p)))
    ensures out != [] && forall i :: 0 <= i < |out| && !out[i].op.Rmdir? ==> Permitted(u, p, LoadAll(out, f)[i].op)
    ensures forall i :: 0 < i < |out| ==> !out[i].op.Rmdir?
    ensures out[0].op.Rmdir? <==> ops[0].op.Rmdir?
  {
    SameHeadOps(n0, ops, out);
    LoadAllEach(out, f);
    forall i | 0 <= i < |out| && !out[i].op.Rmdir? ensures Permitted(u, p, LoadAll(out, f)[i].op) {
      assert LoadAll(out, f)[i] == Load(out[i], f);
      PermittedOp(u, p, ops, out[i]);
    }
  }

  /** The permitted operations of a shipment: all of them, or all but a refused `rmdir` in front. */
  lemma PermittedPart(u: Tree, p: Path, ls: seq<Loaded>)
    requires ls != [] && forall i :: 0 < i < |ls| ==> Permitted(u, p, ls[i].op)
    ensures Filter(IsPermitted(u, p), ls) == if Permitted(u, p, ls[0].op) then ls else ls[1..]
  {
    FilterBehind(IsPermitted(u, p), ls);
  }

  lemma DirMadeByMkdir(n0: Option<Node>, n: Option<Node>, e: Entry, d: seq<bytes>)
    requires Follows(n0, n, e, d) && Created(e) && IsDir(n)
    ensures e.ops[HeadLength(e.ops) - 1].op.Mkdir?
  {
    StartMeans(n0, e);
    ExecutedNode(n0, e.ops, d);
    UpdatedKind(Start(n0, e.ops).value, e.ops, Executed(e.ops, d));
  }

  lemma BlockedShape(t0: Tree, t1: Tree, d: seq<bytes>, s: seq<Entry>, outs: seq<seq<GenOp>>, e: Entry)
    requires Sent(t0, t1, d, s, outs) && e in s && Blocked(t0, t1, e)
    ensures Created(e) && |e.ops| > 1 && e.ops[1].op.Mkdir?
  {
    EntryFacts(t0, t1, d, s, outs, e);
    var c :| c in t0 && c in t1 && IsChild(c, e.path);
    ParentExists(t1, c, e.path);
    StartMeans(Lookup(t0, e.path), e);
    DirMadeByMkdir(Lookup(t0, e.path), Lookup(t1, e.path), e, d);
  }

  lemma CreatesMeansCreated(n0: Option<Node>, e: Entry, g: GenOp)
    requires Shape(n0, e.ops) && g in e.ops && g.op.Creates()
    ensures Created(e)
  {
    var i :| 0 <= i < |e.ops| && e.ops[i] == g;
  }

  /** The effect of a whole shipment on a tree where its creation, if any, is permitted: it is replayed on the
      node, without its first operation if that is a `rmdir` of a directory with entries. */
  lemma ShipmentEffect(t0: Tree, t1: Tree, d: seq<bytes>, s: seq<Entry>, outs: seq<seq<GenOp>>, j: nat, u: Tree)
    requires Sent(t0, t1, d, s, outs) && j < |s|
    requires Created(s[j]) ==> s[j].path != [] && IsDir(Lookup(u, Parent(s[j].path)))
    ensures var p, ls := s[j].path, Shipment(t1, s[j], outs[j]);
            var refused := s[j].ops != [] && s[j].ops[0].op.Rmdir? && HasChild(u, p);
            (refused ==> ls != []) &&
            TreeReplay(u, p, ls) == Put(u, p, Replay(Lookup(u, p), if refused then ls[1..] else ls))
  {
    var e := s[j];
    var ls := Shipment(t1, e, outs[j]);
    EntryFacts(t0, t1, d, s, outs, e);
    PositiveData(e.ops, d);
    if g :| g in e.ops && g.op.Creates() {
      CreatesMeansCreated(Lookup(t0, e.path), e, g);
    }
    OnlyHeadsNeedPermission(u, Lookup(t0, e.path), e.path, e.ops, outs[j], FinalContent(Lookup(t1, e.path)));
    LoadAllCarries(outs[j], FinalContent(Lookup(t1, e.path)));
    PermittedPart(u, e.path, ls);
    ReplayPermitted(u, e.path, ls);
  }

  /** When the turn of an entry comes, its directory still has entries exactly if it is blocked. */
  lemma RefusedIffBlocked(t0: Tree, t1: Tree, d: seq<bytes>, s: seq<Entry>, outs: seq<seq<GenOp>>, j: nat, u: Tree)
    requires Sent(t0, t1, d, s, outs) && j < |s| && Reached(t0, t1, s[..j], u)
    requires s[j].ops != [] && s[j].ops[0].op.Rmdir?
    ensures HasChild(u, s[j].path) <==> Blocked(t0, t1, s[j])
  {
    var e := s[j];
    EntryFacts(t0, t1, d, s, outs, e);
    if c :| c in t0 && c in t1 && IsChild(c, e.path) {
      ChildLeft(t0, t1, d, s, outs, j, u, c);
    } else {
      forall c | IsChild(c, e.path) ensures c !in u {
        NoChildLeft(t0, t1, d, s, outs, j, u, c);
      }
    }
  }

  lemma EntryOutcome(t0: Tree, t1: Tree, d: seq<bytes>, s: seq<Entry>, outs: seq<seq<GenOp>>, j: nat)
    requires Sent(t0, t1, d, s, outs) && j < |s|
    ensures var n0, ls := Lookup(t0, s[j].path), Shipment(t1, s[j], outs[j]);
            if Blocked(t0, t1, s[j]) then ls != [] && Replay(n0, ls[1..]) == Expected(t0, t1, s[j])
            else Replay(n0, ls) == Expected(t0, t1, s[j])
  {
    var e := s[j];
    EntryFacts(t0, t1, d, s, outs, e);
    PositiveData(e.ops, d);
    NodeSync(Lookup(t0, e.path), e.ops, outs[j], d);
    if Blocked(t0, t1, e) {
      BlockedShape(t0, t1, d, s, outs, e);
      NodeRefused(Lookup(t0, e.path), e.ops, outs[j], FinalContent(Lookup(t1, e.path)));
    }
  }

  lemma NotYet(s: seq<Entry>, j: nat)
    requires j < |s| && Ordered(Distinct, s)
    ensures FindPath(s[..j], s[j].path).None?
  {
    assert forall i :: 0 <= i < j ==> Distinct(s[i], s[j]);
  }

  /** Handling one entry takes the server's node from where it was to where it must end. */
  lemma HandleEntry(t0: Tree, t1: Tree, d: seq<bytes>, s: seq<Entry>, outs: seq<seq<GenOp>>, j: nat, u: Tree)
    requires Sent(t0, t1, d, s, outs) && j < |s| && Reached(t0, t1, s[..j], u)
    ensures TreeReplay(u, s[j].path, Shipment(t1, s[j], outs[j])) == Put(u, s[j].path, Expected(t0, t1, s[j]))
  {
    NotYet(s, j);
    assert Lookup(u, s[j].path) == Target(t0, t1, s[..j], s[j].path);
    if Created(s[j]) {
      ParentReady(t0, t1, d, s, outs, j, u);
    }
    ShipmentEffect(t0, t1, d, s, outs, j, u);
    if s[j].ops != [] && s[j].ops[0].op.Rmdir? {
      RefusedIffBlocked(t0, t1, d, s, outs, j, u);
    }
    EntryOutcome(t0, t1, d, s, outs, j);
  }

  /******* The epoch *******/

  lemma ReachedNext(t0: Tree, t1: Tree, done: seq<Entry>, e: Entry, u: Tree)
    requires Reached(t0, t1, done, u)
    ensures Reached(t0, t1, done + [e], Put(u, e.path, Expected(t0, t1, e)))
  {
    assert (done + [e])[..|done|] == done;
    forall q ensures Lookup(Put(u, e.path, Expected(t0, t1, e)), q) == Target(t0, t1, done + [e], q) {
      PutLookup(u, e.path, Expected(t0, t1, e), q);
      assert Lookup(u, q) == Target(t0, t1, done, q);
    }
  }

  lemma ReachedNothing(t0: Tree, t1: Tree)
    ensures Reached(t0, t1, [], t0)
  {
  }

  lemma Prefixes(s: seq<Entry>, j: nat)
    requires j < |s|
    ensures s[..0] == []
    ensures s[..j + 1] == s[..j] + [s[j]]
  {
  }

  lemma ReachStep(t0: Tree, t1: Tree, d: seq<bytes>, s: seq<Entry>, outs: seq<seq<GenOp>>, j: nat, u: Tree, v: Tree,
                  done: seq<Entry>)
    requires Sent(t0, t1, d, s, outs) && j < |s| && done == s[..j] && Reached(t0, t1, done, u)
    requires v == TreeReplay(u, s[j].path, Shipment(t1, s[j], outs[j]))
    ensures Reached(t0, t1, done + [s[j]], v)
  {
    HandleEntry(t0, t1, d, s, outs, j, u);
    ReachedNext(t0, t1, done, s[j], u);
  }

  lemma {:induction false} ServerReaches(t0: Tree, t1: Tree, d: seq<bytes>, s: seq<Entry>, outs: seq<seq<GenOp>>,
                                         j: nat, done: seq<Entry>)
    requires Sent(t0, t1, d, s, outs) && j <= |s| && done == s[..j]
    ensures Reached(t0, t1, done, ServerAt(t0, t1, s, outs, j))
  {
    if j == 0 {
      ReachedNothing(t0, t1);
    } else {
      Prefixes(s, j - 1);
      ServerReaches(t0, t1, d, s, outs, j - 1, s[..j - 1]);
      ReachStep(t0, t1, d, s, outs, j - 1, ServerAt(t0, t1, s, outs, j - 1), ServerAt(t0, t1, s, outs, j), s[..j - 1]);
    }
  }

  /** The list sets mode and owner itself, or the old directory has those of a new one anyway. */
  predicate AttributesKept(n0: Node, ops: seq<GenOp>)
    requires n0.Dir? && |ops| > 1 && ops[1].op.Mkdir?
  {
    && (LastMode(ops).Some? || n0.mode == Perm(ops[1].op.mode))
    && (LastOwner(ops).Some? || n0.owner == NEW_OWNER)
  }

  /** A directory removed and made again has on the client what `mkdir` and the list gave it. */
  lemma RemadeDirectory(n0: Option<Node>, n: Option<Node>, e: Entry, d: seq<bytes>)
    requires Follows(n0, n, e, d) && |e.ops| > 1 && e.ops[0].op.Rmdir? && e.ops[1].op.Mkdir?
    ensures n == Some(Refused(Dir(Perm(e.ops[1].op.mode), NEW_OWNER), e.ops))
  {
    ExecutedNode(n0, e.ops, d);
  }

  lemma RefusedIsRight(t0: Tree, t1: Tree, d: seq<bytes>, s: seq<Entry>, outs: seq<seq<GenOp>>, e: Entry)
    requires Sent(t0, t1, d, s, outs) && e in s && Blocked(t0, t1, e)
    ensures |e.ops| > 1 && e.ops[1].op.Mkdir?
    ensures Expected(t0, t1, e) == Lookup(t1, e.path) <==> AttributesKept(t0[e.path], e.ops)
  {
    BlockedShape(t0, t1, d, s, outs, e);
    EntryFacts(t0, t1, d, s, outs, e);
    RemadeDirectory(Lookup(t0, e.path), Lookup(t1, e.path), e, d);
  }

  /** No directory loses its attributes: the condition under which an epoch arrives unchanged. */
  ghost predicate NothingLost(t0: Tree, t1: Tree, s: seq<Entry>) {
    forall e :: e in s && Blocked(t0, t1, e) ==>
      |e.ops| > 1 && e.ops[1].op.Mkdir? && AttributesKept(t0[e.path], e.ops)
  }

  lemma SameTrees(a: Tree, b: Tree)
    requires forall q :: Lookup(a, q) == Lookup(b, q)
    ensures a == b
  {
    forall q ensures q in a <==> q in b
      ensures q in a ==> a[q] == b[q]
    {
      assert Lookup(a, q) == Lookup(b, q);
    }
  }

  /** The server's final tree, path by path, and exactly when it is the client's tree. */
  lemma EntriesSync(t0: Tree, t1: Tree, d: seq<bytes>, s: seq<Entry>, outs: seq<seq<GenOp>>)
    requires Sent(t0, t1, d, s, outs)
    ensures var w := ServerAt(t0, t1, s, outs, |s|);
            Reached(t0, t1, s, w) && (w == t1 <==> NothingLost(t0, t1, s))
  {
    ServerReaches(t0, t1, d, s, outs, |s|, s);
    var w := ServerAt(t0, t1, s, outs, |s|);
    forall e | e in s && Blocked(t0, t1, e)
      ensures |e.ops| > 1 && e.ops[1].op.Mkdir?
      ensures Lookup(w, e.path) == Lookup(t1, e.path) <==> AttributesKept(t0[e.path], e.ops)
    {
      RefusedIsRight(t0, t1, d, s, outs, e);
      FindIt(s, e);
      assert Lookup(w, e.path) == Target(t0, t1, s, e.path);
    }
    if NothingLost(t0, t1, s) {
      forall q ensures Lookup(w, q) == Lookup(t1, q) {
        assert Lookup(w, q) == Target(t0, t1, s, q);
        var f := FindPath(s, q);
        if f.Some? && Blocked(t0, t1, f.value) {
          assert f.value in s;
        }
      }
      SameTrees(w, t1);
    }
  }

  /** Log, reduce, sort, optimize, load, replay: for every valid log the server ends with the client's tree if
      and only if no directory that was removed and made again around a surviving old entry loses its mode or
      owner. Whichever sort and whichever tie-breaking in the optimizer were used plays no part. */
  lemma EpochSync(t0: Tree, log: seq<Record>, d: seq<bytes>, s: seq<Entry>, outs: seq<seq<GenOp>>)
    requires ValidLog(t0, log, d) && StableSorted(ORDER, TableAt(log, |log|).files, s)
    requires |outs| == |s| && forall i :: 0 <= i < |s| ==> IsOptimized(s[i].ops, outs[i])
    ensures var t1 := TreeAt(t0, log, d, |log|);
            ServerAt(t0, t1, s, outs, |s|) == t1 <==> NothingLost(t0, t1, s)
  {
    ListsFollowTree(t0, log, d, |log|);
    var t1 := TreeAt(t0, log, d, |log|);
    SortedTableIsSent(t0, t1, d, TableAt(log, |log|), s, outs);
    EntriesSync(t0, t1, d, s, outs);
  }

  /** In what order the lists of a valid log are sent: a directory before what is made in it, and what was deleted
      in a directory before the directory that was deleted itself. */
  lemma TransferOrder(t0: Tree, log: seq<Record>, d: seq<bytes>, s: seq<Entry>, i: nat, j: nat)
    requires ValidLog(t0, log, d) && StableSorted(ORDER, TableAt(log, |log|).files, s)
    requires i < |s| && j < |s| && IsChild(s[j].path, s[i].path)
    ensures Created(s[i]) && Created(s[j]) ==> i < j
    ensures Pure(s[i]) && Pure(s[j]) ==> j < i
  {
    var tb := TableAt(log, |log|);
    ListsFollowTree(t0, log, d, |log|);
    SortedSameTable(tb, s);
    SameOrders(t0, tb.files, s);
    SortedChildFirst(tb, s);
    ParentThenChild(s, i, j);
    ChildThenParent(s, i, j);
  }

  lemma ParentThenChild(s: seq<Entry>, i: nat, j: nat)
    requires i < |s| && j < |s| && IsChild(s[j].path, s[i].path) && Ordered(ByKey(ORDER), s) && ParentsFirst(s)
    ensures Created(s[i]) && Created(s[j]) ==> i < j
  {
    assert s[i] in s && s[j] in s;
    Related(ByKey(ORDER), s, j, i);
  }

  lemma ChildThenParent(s: seq<Entry>, i: nat, j: nat)
    requires i < |s| && j < |s| && IsChild(s[j].path, s[i].path) && Ordered(ChildFirst, s)
    ensures Pure(s[i]) && Pure(s[j]) ==> j < i
  {
    Related(ChildFirst, s, i, j);
    assert |s[i].path| != |s[j].path|;
  }

  /******* The epoch once more *******/

  /** Creations are permitted the second time, too. */
  lemma CreationAgain(t0: Tree, t1: Tree, d: seq<bytes>, s: seq<Entry>, outs: seq<seq<GenOp>>, e: Entry, w: Tree)
    requires Sent(t0, t1, d, s, outs) && e in s && Reached(t0, t1, s, w) && Created(e)
    ensures e.path != [] && IsDir(Lookup(w, Parent(e.path)))
  {
    EntryFacts(t0, t1, d, s, outs, e);
    assert IsChild(e.path, Parent(e.path));
    ParentExists(t1, e.path, Parent(e.path));
    ReachedKind(t0, t1, d, s, outs, w, Parent(e.path));
  }

  lemma ExpectedAgain(t0: Tree, t1: Tree, d: seq<bytes>, s: seq<Entry>, outs: seq<seq<GenOp>>, j: nat)
    requires Sent(t0, t1, d, s, outs) && j < |s|
    ensures var e, ls, x := s[j], Shipment(t1, s[j], outs[j]), Expected(t0, t1, s[j]);
            && e.ops != []
            && (!Blocked(t0, t1, e) ==> Replay(x, ls) == x)
            && (e.ops[0].op.Rmdir? ==> ls != [] && Replay(x, ls[1..]) == x)
  {
    var e := s[j];
    var n0 := Lookup(t0, e.path);
    EntryFacts(t0, t1, d, s, outs, e);
    PositiveData(e.ops, d);
    NodeAgain(n0, e.ops, outs[j], d);
    if Blocked(t0, t1, e) {
      BlockedShape(t0, t1, d, s, outs, e);
      NodeRefused(n0, e.ops, outs[j], FinalContent(Lookup(t1, e.path)));
    }
  }

  lemma BlockedAgain(t0: Tree, t1: Tree, d: seq<bytes>, s: seq<Entry>, outs: seq<seq<GenOp>>, e: Entry, w: Tree)
    requires Sent(t0, t1, d, s, outs) && e in s && Reached(t0, t1, s, w) && Blocked(t0, t1, e)
    ensures HasChild(w, e.path)
  {
    var c :| c in t0 && c in t1 && IsChild(c, e.path);
    ReachedKind(t0, t1, d, s, outs, w, c);
  }

  /** Handling an entry again on the tree the epoch ended with changes nothing. */
  lemma HandleAgain(t0: Tree, t1: Tree, d: seq<bytes>, s: seq<Entry>, outs: seq<seq<GenOp>>, j: nat, w: Tree)
    requires Sent(t0, t1, d, s, outs) && j < |s| && Reached(t0, t1, s, w)
    ensures TreeReplay(w, s[j].path, Shipment(t1, s[j], outs[j])) == w
  {
    var e := s[j];
    FindIt(s, e);
    assert Lookup(w, e.path) == Target(t0, t1, s, e.path);
    if Created(e) {
      CreationAgain(t0, t1, d, s, outs, e, w);
    }
    ShipmentEffect(t0, t1, d, s, outs, j, w);
    ExpectedAgain(t0, t1, d, s, outs, j);
    if Blocked(t0, t1, e) {
      BlockedAgain(t0, t1, d, s, outs, e, w);
    }
    PutSame(w, e.path);
  }

  lemma ReachedKind(t0: Tree, t1: Tree, d: seq<bytes>, s: seq<Entry>, outs: seq<seq<GenOp>>, w: Tree, q: Path)
    requires Sent(t0, t1, d, s, outs) && Reached(t0, t1, s, w)
    ensures q in w <==> q in t1
    ensures IsDir(Lookup(w, q)) <==> IsDir(Lookup(t1, q))
  {
    assert Lookup(w, q) == Target(t0, t1, s, q);
    var f := FindPath(s, q);
    if f.Some? {
      ExpectedKind(t0, t1, f.value);
    }
  }

  /** Sending the same epoch again to a server that has already finished it changes nothing, however much of it
      gets through. */
  lemma {:induction false} EpochAgain(t0: Tree, t1: Tree, d: seq<bytes>, s: seq<Entry>, outs: seq<seq<GenOp>>, j: nat)
    requires Sent(t0, t1, d, s, outs) && j <= |s|
    ensures var w := ServerAt(t0, t1, s, outs, |s|); ServerAt(w, t1, s, outs, j) == w
  {
    var w := ServerAt(t0, t1, s, outs, |s|);
    EntriesSync(t0, t1, d, s, outs);
    if j > 0 {
      EpochAgain(t0, t1, d, s, outs, j - 1);
      HandleAgain(t0, t1, d, s, outs, j - 1, w);
    }
  }
}
