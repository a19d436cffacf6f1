/** The client's tree and the reducer's lists move together over every valid log. */
module History {
  import opened Wrappers
  import opened Operations
  import opened Seqs
  import opened Posix
  import opened OptimizerLaws
  import opened FileReplay
  import opened NodeReplay
  import opened Reducer
  import opened ReducerLaws

  /******* The client's file system *******/

  /** What succeeded on the client and was logged: no hard links, no renames, creations only of absent paths,
      and no operation through a symbolic link. Only for a symbolic link other names can be reported when it is
      unlinked, because those of the file it points to are counted. */
  ghost predicate Possible(t: Tree, r: Record, data: bytes) {
    var n := Lookup(t, r.path);
    && Permitted(t, r.path, r.op)
    && match r.op
       case Unlink(last, _) => n.Some? && !n.value.Dir? && (last || n.value.Sym?)
       case Rmdir => n.Some? && n.value.Dir?
       case Create(_) => n.None?
       case Mknod(_, _) => n.None?
       case Mkdir(_) => n.None?
       case Symlink(_) => n.None?
       case Chmod(_) => n.Some? && !n.value.Sym?
       case Chown(_, _) => n.Some? && !n.value.Sym?
       case Truncate(_) => n.Some? && n.value.File?
       case Write(_, size) => n.Some? && n.value.File? && |data| == size > 0
       case Link(_, _) => false
       case Rename(_, _) => false
  }

  /** The client's tree after the first `k` records; `d` is the data its writes carried. */
  function TreeAt(t0: Tree, log: seq<Record>, d: seq<bytes>, k: nat): Tree
    requires k <= |log| == |d|
  {
    if k == 0 then t0
    else TreeApply(TreeAt(t0, log, d, k - 1), log[k - 1].path, Loaded(log[k - 1].op, Some(d[k - 1])))
  }

  ghost predicate ValidLog(t0: Tree, log: seq<Record>, d: seq<bytes>) {
    && WellFormed(t0) && |d| == |log|
    && forall k: nat :: k < |log| ==> Possible(TreeAt(t0, log, d, k), log[k], d[k])
  }

  /******* The tree stays a tree *******/

  lemma PutLookup(t: Tree, p: Path, n: Option<Node>, q: Path)
    ensures Lookup(Put(t, p, n), q) == if q == p then n else Lookup(t, q)
  {
  }

  lemma PossibleKind(t: Tree, r: Record, data: bytes)
    requires Possible(t, r, data)
    ensures var l := Loaded(r.op, Some(data));
            var n := Lookup(t, r.path);
            && (r.op.Deletes() ==> n.Some? && Apply(n, l) == None && (r.op.Rmdir? <==> n.value.Dir?))
            && (r.op.Creates() ==> n.None? && Apply(n, l) == NewNode(r.op) && NewNode(r.op).Some?)
            && (r.op.Modifies() ==> n.Some? && Apply(n, l).Some? && (Apply(n, l).value.Dir? <==> n.value.Dir?))
    ensures r.op.Deletes() || r.op.Creates() || r.op.Modifies()
  {
  }

  lemma StepWellFormed(t: Tree, r: Record, data: bytes)
    requires WellFormed(t) && Possible(t, r, data)
    ensures WellFormed(TreeApply(t, r.path, Loaded(r.op, Some(data))))
  {
    var n' := Apply(Lookup(t, r.path), Loaded(r.op, Some(data)));
    var t' := TreeApply(t, r.path, Loaded(r.op, Some(data)));
    PossibleKind(t, r, data);
    assert t' == Put(t, r.path, n');
    assert IsDir(Lookup(t', []));
    forall p | p in t' && p != [] ensures IsDir(Lookup(t', Parent(p))) {
      PutLookup(t, r.path, n', p);
      PutLookup(t, r.path, n', Parent(p));
      if p in t && Parent(p) == r.path {
        assert IsChild(p, r.path);
      }
    }
  }

  /******* What the lists mean *******/

  /** The list of the path contains a creation: the path is a node made in this epoch. */
  predicate Created(e: Entry) {
    e.ops != [] && HeadLength(e.ops) > 0 && e.ops[HeadLength(e.ops) - 1].op.Creates()
  }

  ghost predicate Follows(n0: Option<Node>, n: Option<Node>, e: Entry, d: seq<bytes>) {
    Shape(n0, e.ops) && DataFits(e.ops, d) && IdsIncrease(e.ops) && Replay(n0, Executed(e.ops, d)) == n
  }

  /** An earlier entry is not the purely deleted parent of a later, purely deleted one. */
  predicate ChildFirst(x: Entry, y: Entry) {
    !(Pure(x) && Pure(y) && IsChild(y.path, x.path))
  }

  ghost predicate Tracks(t0: Tree, t: Tree, d: seq<bytes>, files: seq<Entry>) {
    && (forall e :: e in files ==> Follows(Lookup(t0, e.path), Lookup(t, e.path), e, d))
    && (forall p {:trigger FindPath(files, p)} :: FindPath(files, p).None? ==> Lookup(t, p) == Lookup(t0, p))
  }

  /** A directory made in this epoch is sent before anything made inside it. */
  ghost predicate ParentsFirst(files: seq<Entry>) {
    forall x, y {:trigger IsChild(y.path, x.path)} ::
      x in files && y in files && IsChild(y.path, x.path) && Created(x) && Created(y) ==> x.order < y.order
  }

  predicate ListedDeleted(files: seq<Entry>, c: Path) {
    var f := FindPath(files, c);
    f.Some? && f.value.ops != [] && f.value.ops[0].op.Deletes()
  }

  /** Whatever lay in a removed directory has been removed from it first. */
  ghost predicate Emptied(t0: Tree, files: seq<Entry>) {
    forall e, c {:trigger IsChild(c, e.path)} ::
      e in files && e.ops != [] && e.ops[0].op.Rmdir? && c in t0 && IsChild(c, e.path) ==>
      ListedDeleted(files, c)
  }

  /** The replicated root itself is neither made nor removed. */
  ghost predicate RootStays(files: seq<Entry>) {
    forall e :: e in files && e.path == [] ==> e.ops != [] && e.ops[0].op.Modifies()
  }

  ghost predicate Synchronized(t0: Tree, t: Tree, d: seq<bytes>, tb: Table) {
    && WellFormed(t0) && WellFormed(t)
    && TableOk(tb)
    && Tracks(t0, t, d, tb.files)
    && Ordered(ChildFirst, tb.files)
    && ParentsFirst(tb.files)
    && Emptied(t0, tb.files)
    && RootStays(tb.files)
  }

  /******* One entry *******/

  lemma StartMeans(n0: Option<Node>, e: Entry)
    requires Shape(n0, e.ops)
    ensures Start(n0, e.ops).None? <==> Pure(e)
    ensures Created(e) ==> Start(n0, e.ops) == NewNode(e.ops[HeadLength(e.ops) - 1].op) && Start(n0, e.ops).Some?
    ensures !Created(e) && !Pure(e) ==> Start(n0, e.ops) == n0
    ensures !Pure(e) ==> HeadLength(e.ops) == 0 || Created(e)
  {
  }

  lemma UpdatedKind(m: Node, ops: seq<GenOp>, ls: seq<Loaded>)
    ensures Updated(m, ops, ls).Dir? <==> m.Dir?
  {
  }

  lemma FollowsMeans(n0: Option<Node>, n: Option<Node>, e: Entry, d: seq<bytes>)
    requires Follows(n0, n, e, d)
    ensures n.None? <==> Pure(e)
    ensures Created(e) ==> n.Some? && NewNode(e.ops[HeadLength(e.ops) - 1].op).Some?
    ensures n.Some? && !Created(e) ==> n0.Some? && (n.value.Dir? <==> n0.value.Dir?)
  {
    ExecutedNode(n0, e.ops, d);
    StartMeans(n0, e);
    if n.Some? {
      UpdatedKind(Start(n0, e.ops).value, e.ops, Executed(e.ops, d));
    }
  }

  lemma FollowsSingle(n0: Option<Node>, n: Option<Node>, e: Entry, d: seq<bytes>)
    requires |e.ops| == 1 && Shape(n0, e.ops) && DataFits(e.ops, d)
    requires Apply(n0, Loaded(e.ops[0].op, Some(DataOf(d, e.ops[0])))) == n
    ensures Follows(n0, n, e, d)
  {
    ExecutedCarries(e.ops, d);
    ReplayOne(n0, Executed(e.ops, d));
  }

  lemma FollowsAppend(n0: Option<Node>, n: Option<Node>, e: Entry, d: seq<bytes>, g: GenOp, e': Entry)
    requires Follows(n0, n, e, d) && e'.ops == e.ops + [g]
    requires forall i :: 0 <= i < |e.ops| ==> e.ops[i].id < g.id
    requires if Pure(e) then NewNode(g.op).Some? else g.op.Modifies()
    requires g.op.Write? ==> |DataOf(d, g)| == g.op.size > 0
    ensures Follows(n0, Apply(n, Loaded(g.op, Some(DataOf(d, g)))), e', d)
  {
    assert e'.ops[0] == e.ops[0];
    assert e'.ops[..|e.ops|] == e.ops;
    assert Executed(e'.ops, d)[..|e.ops|] == Executed(e.ops, d);
  }

  /******* The lists of the other paths *******/

  ghost predicate OthersSame(files: seq<Entry>, files': seq<Entry>, p: Path) {
    forall e: Entry :: e.path != p ==> (e in files <==> e in files')
  }

  lemma OthersFound(files: seq<Entry>, files': seq<Entry>, p: Path, q: Path)
    requires OthersSame(files, files', p) && q != p
    requires Ordered(Distinct, files) && Ordered(Distinct, files')
    ensures FindPath(files', q) == FindPath(files, q)
  {
    var f, f' := FindPath(files, q), FindPath(files', q);
    if f.Some? {
      FindIt(files', f.value);
    } else {
      assert forall e :: e in files' ==> e.path != q;
    }
  }

  lemma DeletionOthers(files: seq<Entry>, p: Path, g: GenOp)
    requires Ordered(Distinct, files)
    ensures OthersSame(files, FilesAfterDeletion(files, p, g), p)
    ensures FindPath(FilesAfterDeletion(files, p, g), p) ==
            var kept := Remainder(FindPath(files, p), g);
            if kept.Some? then Some(NewEntry(p).(ops := [kept.value])) else None
  {
    var rest := Filter(PathIsNot(p), files);
    FilterMembers(PathIsNot(p), files);
    var kept := Remainder(FindPath(files, p), g);
    if kept.None? {
      assert forall e :: e in rest ==> e.path != p;
    } else {
      var e := NewEntry(p).(ops := [kept.value]);
      assert FilesAfterDeletion(files, p, g)[|rest|] == e;
    }
  }

  lemma OtherOthers(files: seq<Entry>, fileorder: nat, p: Path, g: GenOp)
    requires Ordered(Distinct, files)
    ensures var files' := FilesAfterOther(files, fileorder, p, g).0;
            var f := FindPath(files, p);
            && OthersSame(files, files', p)
            && var e := Append(if f.Some? then f.value else NewEntry(p).(created := g.op.Creates()), g, fileorder);
               e in files' && forall x :: x in files' && x.path == p ==> x == e
  {
    var f := FindPath(files, p);
    var files' := FilesAfterOther(files, fileorder, p, g).0;
    if f.Some? {
      var e := Append(f.value, g, fileorder);
      var i :| 0 <= i < |files| && files[i] == f.value;
      assert files'[i] == e;
      forall x: Entry | x.path != p ensures x in files <==> x in files' {
        if x in files {
          var j :| 0 <= j < |files| && files[j] == x;
          assert files'[j] == x;
        }
      }
    }
  }

  /******* One step *******/

  /** Tracking needs to be shown only for the path of the operation. */
  lemma TracksFromPath(t0: Tree, t: Tree, d: seq<bytes>, files: seq<Entry>, p: Path, n: Option<Node>,
                       files': seq<Entry>)
    requires Tracks(t0, t, d, files) && OthersSame(files, files', p)
    requires Ordered(Distinct, files) && Ordered(Distinct, files')
    requires forall e :: e in files' && e.path == p ==> Follows(Lookup(t0, p), n, e, d)
    requires FindPath(files', p).None? ==> n == Lookup(t0, p)
    ensures Tracks(t0, Put(t, p, n), d, files')
  {
    var t' := Put(t, p, n);
    forall e | e in files' ensures Follows(Lookup(t0, e.path), Lookup(t', e.path), e, d) {
      PutLookup(t, p, n, e.path);
    }
    forall q | FindPath(files', q).None? ensures Lookup(t', q) == Lookup(t0, q) {
      PutLookup(t, p, n, q);
      if q != p {
        OthersFound(files, files', p, q);
      }
    }
  }

  lemma Listed(t0: Tree, t: Tree, d: seq<bytes>, tb: Table, p: Path)
    requires Tracks(t0, t, d, tb.files) && TableOk(tb)
    ensures var f := FindPath(tb.files, p);
      if f.Some? then
        Follows(Lookup(t0, p), Lookup(t, p), f.value, d) && EntryOk(f.value, tb.fileorder, tb.nextId)
      else
        Lookup(t, p) == Lookup(t0, p)
  {
  }

  lemma RemainderMeans(n0: Option<Node>, n: Option<Node>, f: Option<Entry>, d: seq<bytes>, g: GenOp, fileorder: nat)
    requires n.Some? && g.op.Deletes() && (g.op.Rmdir? <==> n.value.Dir?)
    requires if f.Some? then Follows(n0, n, f.value, d) && EntryOk(f.value, fileorder, g.id) else n == n0
    ensures var kept := Remainder(f, g);
      if kept.Some? then Shape(n0, [kept.value]) && kept.value.op.Deletes() else n0.None?
  {
    if f.Some? {
      FollowsMeans(n0, n, f.value, d);
    }
  }

  /** What a deletion leaves of a list means that there is nothing at the path. */
  lemma RemainderFollows(t0: Tree, t: Tree, d: seq<bytes>, tb: Table, r: Record, data: bytes)
    requires Tracks(t0, t, d, tb.files) && TableOk(tb) && Possible(t, r, data) && r.op.Deletes()
    ensures var p := r.path;
      var kept := Remainder(FindPath(tb.files, p), GenOp(tb.nextId, r.op));
      if kept.Some? then Follows(Lookup(t0, p), None, NewEntry(p).(ops := [kept.value]), d) else Lookup(t0, p).None?
  {
    var p, g := r.path, GenOp(tb.nextId, r.op);
    var kept := Remainder(FindPath(tb.files, p), g);
    PossibleKind(t, r, data);
    Listed(t0, t, d, tb, p);
    RemainderMeans(Lookup(t0, p), Lookup(t, p), FindPath(tb.files, p), d, g, tb.fileorder);
    if kept.Some? {
      FollowsSingle(Lookup(t0, p), None, NewEntry(p).(ops := [kept.value]), d);
    }
  }

  lemma DeletionTracks(t0: Tree, t: Tree, d: seq<bytes>, tb: Table, r: Record, data: bytes)
    requires Tracks(t0, t, d, tb.files) && TableOk(tb) && Possible(t, r, data) && r.op.Deletes()
    ensures var g := GenOp(tb.nextId, r.op);
            Tracks(t0, TreeApply(t, r.path, Loaded(r.op, Some(data))), d, FilesAfterDeletion(tb.files, r.path, g))
  {
    var p, g := r.path, GenOp(tb.nextId, r.op);
    var files' := FilesAfterDeletion(tb.files, p, g);
    PossibleKind(t, r, data);
    FilesAfterDeletionOk(tb, p, g);
    DeletionOthers(tb.files, p, g);
    var f := FindPath(files', p);
    RemainderFollows(t0, t, d, tb, r, data);
    forall x | x in files' && x.path == p ensures f == Some(x) {
      FindIt(files', x);
    }
    TracksFromPath(t0, t, d, tb.files, p, None, files');
  }

  lemma ExtendedMeans(n0: Option<Node>, n: Option<Node>, e: Entry, d: seq<bytes>, g: GenOp, fileorder: nat)
    requires Follows(n0, n, e, d) && EntryOk(e, fileorder, g.id)
    requires if n.None? then NewNode(g.op).Some? else g.op.Modifies()
    requires g.op.Write? ==> |DataOf(d, g)| == g.op.size > 0
    ensures Follows(n0, Apply(n, Loaded(g.op, Some(DataOf(d, g)))), Append(e, g, fileorder), d)
  {
    FollowsMeans(n0, n, e, d);
    FollowsAppend(n0, n, e, d, g, Append(e, g, fileorder));
  }

  /** The list extended by an operation means the node changed by it. */
  lemma ExtendedFollows(t0: Tree, t: Tree, d: seq<bytes>, tb: Table, r: Record, data: bytes)
    requires Tracks(t0, t, d, tb.files) && TableOk(tb) && Possible(t, r, data) && !r.op.Deletes()
    requires tb.nextId < |d| && d[tb.nextId] == data
    ensures var p, g := r.path, GenOp(tb.nextId, r.op);
      var f := FindPath(tb.files, p);
      var e := Append(if f.Some? then f.value else NewEntry(p).(created := g.op.Creates()), g, tb.fileorder);
      Follows(Lookup(t0, p), Apply(Lookup(t, p), Loaded(r.op, Some(data))), e, d)
  {
    var p, g := r.path, GenOp(tb.nextId, r.op);
    var f := FindPath(tb.files, p);
    PossibleKind(t, r, data);
    Listed(t0, t, d, tb, p);
    if f.Some? {
      ExtendedMeans(Lookup(t0, p), Lookup(t, p), f.value, d, g, tb.fileorder);
    } else {
      var e := Append(NewEntry(p).(created := r.op.Creates()), g, tb.fileorder);
      assert e.ops == [g];
      FollowsSingle(Lookup(t0, p), Apply(Lookup(t, p), Loaded(r.op, Some(data))), e, d);
    }
  }

  lemma ExtendedDistinct(tb: Table, p: Path, g: GenOp)
    requires TableOk(tb) && g.id == tb.nextId && !g.op.Deletes()
    ensures var files' := FilesAfterOther(tb.files, tb.fileorder, p, g).0;
      Ordered(Distinct, files') && FindPath(files', p).Some?
  {
    if FindPath(tb.files, p).Some? {
      ExtendedEntryOk(tb.files, tb.fileorder, tb.nextId, p, g);
    } else {
      NewEntryOk(tb.files, tb.fileorder, tb.nextId, p, g);
    }
    OtherOthers(tb.files, tb.fileorder, p, g);
  }

  lemma OtherTracks(t0: Tree, t: Tree, d: seq<bytes>, tb: Table, r: Record, data: bytes)
    requires Tracks(t0, t, d, tb.files) && TableOk(tb) && Possible(t, r, data) && !r.op.Deletes()
    requires tb.nextId < |d| && d[tb.nextId] == data
    ensures var g := GenOp(tb.nextId, r.op);
            Tracks(t0, TreeApply(t, r.path, Loaded(r.op, Some(data))), d,
                   FilesAfterOther(tb.files, tb.fileorder, r.path, g).0)
  {
    var p, g := r.path, GenOp(tb.nextId, r.op);
    var files' := FilesAfterOther(tb.files, tb.fileorder, p, g).0;
    var n := Apply(Lookup(t, p), Loaded(r.op, Some(data)));
    PossibleKind(t, r, data);
    OtherOthers(tb.files, tb.fileorder, p, g);
    ExtendedFollows(t0, t, d, tb, r, data);
    ExtendedDistinct(tb, p, g);
    TracksFromPath(t0, t, d, tb.files, p, n, files');
  }

  /** A path that exists has an existing parent directory. */
  lemma ParentExists(t: Tree, c: Path, p: Path)
    requires WellFormed(t) && IsChild(c, p) && c in t
    ensures IsDir(Lookup(t, p))
  {
  }

  lemma ParentNotGone(t0: Tree, t: Tree, d: seq<bytes>, tb: Table, p: Path, x: Entry)
    requires WellFormed(t) && Tracks(t0, t, d, tb.files) && p in t && x in tb.files
    ensures !(Pure(x) && IsChild(p, x.path))
  {
    FollowsMeans(Lookup(t0, x.path), Lookup(t, x.path), x, d);
    if IsChild(p, x.path) {
      ParentExists(t, p, x.path);
    }
  }

  lemma DeletionChildFirst(t0: Tree, t: Tree, d: seq<bytes>, tb: Table, p: Path, g: GenOp)
    requires WellFormed(t) && Tracks(t0, t, d, tb.files) && Ordered(ChildFirst, tb.files) && p in t
    ensures Ordered(ChildFirst, FilesAfterDeletion(tb.files, p, g))
  {
    var rest := Filter(PathIsNot(p), tb.files);
    FilterMembers(PathIsNot(p), tb.files);
    FilterOrdered(PathIsNot(p), ChildFirst, tb.files);
    forall i, y: Entry | 0 <= i < |rest| && y.path == p ensures ChildFirst(rest[i], y) {
      assert rest[i] in rest;
      ParentNotGone(t0, t, d, tb, p, rest[i]);
    }
  }

  lemma OtherChildFirst(tb: Table, p: Path, g: GenOp)
    requires TableOk(tb) && Ordered(ChildFirst, tb.files) && !g.op.Deletes()
    ensures Ordered(ChildFirst, FilesAfterOther(tb.files, tb.fileorder, p, g).0)
  {
    var files' := FilesAfterOther(tb.files, tb.fileorder, p, g).0;
    forall i, j | 0 <= i < j < |files'| ensures ChildFirst(files'[i], files'[j]) {
      if j < |tb.files| {
        assert ChildFirst(tb.files[i], tb.files[j]);
        assert EntryOk(tb.files[i], tb.fileorder, tb.nextId) && EntryOk(tb.files[j], tb.fileorder, tb.nextId);
      }
    }
  }

  /** What a deletion leaves of its path is no creation. */
  lemma CreatedStays(files: seq<Entry>, p: Path, g: GenOp, x: Entry)
    requires g.op.Deletes() && x in FilesAfterDeletion(files, p, g) && Created(x)
    ensures x in files
  {
    FilterMembers(PathIsNot(p), files);
  }

  lemma DeletionParentsFirst(files: seq<Entry>, p: Path, g: GenOp)
    requires ParentsFirst(files) && g.op.Deletes()
    ensures ParentsFirst(FilesAfterDeletion(files, p, g))
  {
    var files' := FilesAfterDeletion(files, p, g);
    forall x | x in files' && Created(x) ensures x in files {
      CreatedStays(files, p, g, x);
    }
  }

  /** An operation other than a deletion gives its path a new, highest order, or leaves the order alone. */
  lemma OtherOrder(t0: Tree, t: Tree, d: seq<bytes>, tb: Table, r: Record, data: bytes, e: Entry)
    requires Synchronized(t0, t, d, tb) && Possible(t, r, data) && !r.op.Deletes()
    requires e in FilesAfterOther(tb.files, tb.fileorder, r.path, GenOp(tb.nextId, r.op)).0 && e.path == r.path
      && Created(e)
    ensures if r.op.Creates() then e.order == tb.fileorder
            else exists x :: x in tb.files && x.path == r.path && Created(x) && x.order == e.order
  {
    var p, g := r.path, GenOp(tb.nextId, r.op);
    var f := FindPath(tb.files, p);
    PossibleKind(t, r, data);
    OtherOthers(tb.files, tb.fileorder, p, g);
    if f.Some? {
      FollowsMeans(Lookup(t0, p), Lookup(t, p), f.value, d);
      assert EntryOk(f.value, tb.fileorder, tb.nextId);
      assert e == Append(f.value, g, tb.fileorder);
      if r.op.Modifies() {
        assert f.value in tb.files && Created(f.value);
      }
    }
  }

  /** A path that is being created has nothing below it yet, so nothing created there has an order. */
  lemma OtherParentsFirst(t0: Tree, t: Tree, d: seq<bytes>, tb: Table, r: Record, data: bytes)
    requires Synchronized(t0, t, d, tb) && Possible(t, r, data) && !r.op.Deletes()
    ensures ParentsFirst(FilesAfterOther(tb.files, tb.fileorder, r.path, GenOp(tb.nextId, r.op)).0)
  {
    var p, g := r.path, GenOp(tb.nextId, r.op);
    var files' := FilesAfterOther(tb.files, tb.fileorder, p, g).0;
    PossibleKind(t, r, data);
    OtherOthers(tb.files, tb.fileorder, p, g);
    forall x, y | x in files' && y in files' && IsChild(y.path, x.path) && Created(x) && Created(y)
      ensures x.order < y.order
    {
      if x.path == p {
        OtherOrder(t0, t, d, tb, r, data, x);
        FollowsMeans(Lookup(t0, y.path), Lookup(t, y.path), y, d);
        ParentExists(t, y.path, p);
      } else {
        assert EntryOk(x, tb.fileorder, tb.nextId);
        if y.path == p {
          OtherOrder(t0, t, d, tb, r, data, y);
        }
      }
    }
  }

  /** A list that starts with a deletion goes on doing so. */
  lemma StillDeleted(t0: Tree, t: Tree, d: seq<bytes>, tb: Table, r: Record, data: bytes, c: Path)
    requires Synchronized(t0, t, d, tb) && Possible(t, r, data)
    requires ListedDeleted(tb.files, c)
    ensures ListedDeleted(AddOp(tb, r.path, r.op).files, c)
  {
    var p, g := r.path, GenOp(tb.nextId, r.op);
    AddOpOk(tb, p, r.op);
    var files' := AddOp(tb, p, r.op).files;
    if r.op.Deletes() {
      DeletionOthers(tb.files, p, g);
    } else {
      OtherOthers(tb.files, tb.fileorder, p, g);
      if c == p {
        FindIt(files', Append(FindPath(tb.files, p).value, g, tb.fileorder));
      }
    }
    if c != p {
      OthersFound(tb.files, files', p, c);
    }
  }

  lemma StepEmptied(t0: Tree, t: Tree, d: seq<bytes>, tb: Table, r: Record, data: bytes)
    requires Synchronized(t0, t, d, tb) && Possible(t, r, data)
    ensures Emptied(t0, AddOp(tb, r.path, r.op).files)
  {
    var p, g := r.path, GenOp(tb.nextId, r.op);
    var files' := AddOp(tb, p, r.op).files;
    forall e, c | e in files' && e.ops != [] && e.ops[0].op.Rmdir? && c in t0 && IsChild(c, e.path)
      ensures ListedDeleted(files', c)
    {
      RemovedBefore(t0, t, d, tb, r, data, e, c);
      StillDeleted(t0, t, d, tb, r, data, c);
    }
  }

  /** The first removal of a directory finds each of its old entries listed as deleted. */
  lemma FirstRemoval(t0: Tree, t: Tree, d: seq<bytes>, tb: Table, r: Record, data: bytes, c: Path)
    requires Synchronized(t0, t, d, tb) && Possible(t, r, data) && r.op.Rmdir?
    requires c in t0 && IsChild(c, r.path)
    ensures ListedDeleted(tb.files, c)
  {
    assert c !in t;
    var k := FindPath(tb.files, c);
    assert k.Some?;
    FollowsMeans(Lookup(t0, c), Lookup(t, c), k.value, d);
  }

  /** A list that starts with a removal did so before, unless this very operation is the first removal. */
  lemma RemovalOrigin(tb: Table, r: Record, e: Entry)
    requires TableOk(tb) && e in AddOp(tb, r.path, r.op).files && e.ops != [] && e.ops[0].op.Rmdir? && !r.op.Link?
    ensures (e.path == r.path && r.op.Rmdir?) ||
            exists x :: x in tb.files && x.path == e.path && x.ops != [] && x.ops[0].op.Rmdir?
  {
    var p, g := r.path, GenOp(tb.nextId, r.op);
    var f := FindPath(tb.files, p);
    if f.Some? {
      assert EntryOk(f.value, tb.fileorder, tb.nextId);
    }
    if r.op.Deletes() {
      DeletionOthers(tb.files, p, g);
      FilterMembers(PathIsNot(p), tb.files);
      if e.path == p && !r.op.Rmdir? {
        assert e == NewEntry(p).(ops := [Remainder(f, g).value]);
        assert f.value in tb.files;
      }
    } else {
      OtherOthers(tb.files, tb.fileorder, p, g);
      if e.path == p {
        assert f.Some? && e.ops[0] == f.value.ops[0];
      }
    }
  }

  /** Before a directory is listed as removed, each of its old entries is. */
  lemma RemovedBefore(t0: Tree, t: Tree, d: seq<bytes>, tb: Table, r: Record, data: bytes, e: Entry, c: Path)
    requires Synchronized(t0, t, d, tb) && Possible(t, r, data)
    requires e in AddOp(tb, r.path, r.op).files && e.ops != [] && e.ops[0].op.Rmdir? && c in t0 && IsChild(c, e.path)
    ensures ListedDeleted(tb.files, c)
  {
    RemovalOrigin(tb, r, e);
    if e.path == r.path && r.op.Rmdir? {
      FirstRemoval(t0, t, d, tb, r, data, c);
    } else {
      var x :| x in tb.files && x.path == e.path && x.ops != [] && x.ops[0].op.Rmdir?;
    }
  }

  lemma StepRoot(t0: Tree, t: Tree, d: seq<bytes>, tb: Table, r: Record, data: bytes)
    requires Synchronized(t0, t, d, tb) && Possible(t, r, data)
    ensures RootStays(AddOp(tb, r.path, r.op).files)
  {
    var g := GenOp(tb.nextId, r.op);
    PossibleKind(t, r, data);
    assert r.path == [] ==> r.op.Modifies();
    if r.op.Deletes() {
      DeletionOthers(tb.files, r.path, g);
    } else {
      OtherOthers(tb.files, tb.fileorder, r.path, g);
    }
  }

  /******* The whole log *******/

  lemma Step(t0: Tree, t: Tree, d: seq<bytes>, tb: Table, r: Record, data: bytes)
    requires Synchronized(t0, t, d, tb) && Possible(t, r, data)
    requires tb.nextId < |d| && d[tb.nextId] == data
    ensures Synchronized(t0, TreeApply(t, r.path, Loaded(r.op, Some(data))), d, AddOp(tb, r.path, r.op))
  {
    var g := GenOp(tb.nextId, r.op);
    StepWellFormed(t, r, data);
    AddOpOk(tb, r.path, r.op);
    StepEmptied(t0, t, d, tb, r, data);
    StepRoot(t0, t, d, tb, r, data);
    if r.op.Deletes() {
      DeletionTracks(t0, t, d, tb, r, data);
      PossibleKind(t, r, data);
      DeletionChildFirst(t0, t, d, tb, r.path, g);
      DeletionParentsFirst(tb.files, r.path, g);
    } else {
      OtherTracks(t0, t, d, tb, r, data);
      OtherChildFirst(tb, r.path, g);
      OtherParentsFirst(t0, t, d, tb, r, data);
    }
  }

  lemma NothingLogged(t0: Tree, d: seq<bytes>)
    requires WellFormed(t0)
    ensures Synchronized(t0, t0, d, EMPTY_TABLE)
  {
  }

  lemma NextPosition(t0: Tree, log: seq<Record>, d: seq<bytes>, k: nat)
    requires ValidLog(t0, log, d) && k < |log|
    ensures var t, tb, r := TreeAt(t0, log, d, k), TableAt(log, k), log[k];
      && TreeAt(t0, log, d, k + 1) == TreeApply(t, r.path, Loaded(r.op, Some(d[k])))
      && TableAt(log, k + 1) == AddOp(tb, r.path, r.op)
      && Possible(t, r, d[k]) && tb.nextId == k
  {
  }

  /** After every prefix of a valid log the list of each path, replayed on what the path was before the epoch,
      gives what it is on the client; paths without a list are unchanged; and the orders put parents and
      children in the sequence the server will need. */
  lemma ListsFollowTree(t0: Tree, log: seq<Record>, d: seq<bytes>, k: nat)
    requires ValidLog(t0, log, d) && k <= |log|
    ensures Synchronized(t0, TreeAt(t0, log, d, k), d, TableAt(log, k))
  {
    NothingLogged(t0, d);
    for i := 0 to k
      invariant Synchronized(t0, TreeAt(t0, log, d, i), d, TableAt(log, i))
    {
      NextPosition(t0, log, d, i);
      Step(t0, TreeAt(t0, log, d, i), d, TableAt(log, i), log[i], d[i]);
    }
  }
}
