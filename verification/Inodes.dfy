/** Operations that outlived their path are handed to another link of the same file. */
module Inodes {
  import opened Wrappers
  import opened Operations
  import opened Seqs
  import opened Reducer
  import opened ReducerLaws

  /** A node the tree walk comes by; None: its `lstat` failed. */
  datatype Visit = Visit(path: Path, inode: Option<int>)

  /** The inode of a path in the snapshot as `stat` reports it; None: it failed. */
  function Stat(snapshot: map<Path, int>, p: Path): Option<int> {
    if p in snapshot then Some(snapshot[p]) else None
  }

  /** The listed files one after the other, as `stat` finds them. */
  function FileVisits(snapshot: map<Path, int>, files: seq<Entry>): (r: seq<Visit>)
    ensures |r| == |files|
    ensures forall k :: 0 <= k < |files| ==> r[k] == Visit(files[k].path, Stat(snapshot, files[k].path))
  {
    seq(|files|, k requires 0 <= k < |files| => Visit(files[k].path, Stat(snapshot, files[k].path)))
  }

  predicate Has(v: Visit, inode: int) {
    v.inode.Some? && SameKey(v.inode.value, inode)
  }

  predicate Sees(visits: seq<Visit>, inode: int) {
    exists k :: 0 <= k < |visits| && Has(visits[k], inode)
  }

  /******* What must come out *******/

  /** The entries left when those the first `k` inodes belong to have been handed over. */
  function Left(entries: seq<Entry>, visits: seq<Visit>, k: nat): seq<Entry>
    requires k <= |visits|
  {
    if k == 0 then entries
    else
      var left := Left(entries, visits, k - 1);
      if visits[k - 1].inode.Some? then Filter(InodeIsNot(visits[k - 1].inode.value), left) else left
  }

  /** The entry the `k`-th inode belongs to, if there is one left. */
  function Claim(entries: seq<Entry>, visits: seq<Visit>, k: nat): Option<Entry>
    requires k < |visits|
  {
    if visits[k].inode.Some? then FindInode(Left(entries, visits, k), visits[k].inode.value) else None
  }

  /** Each of the first `k` files with the entry it claims behind its own operations. */
  function Merged(files: seq<Entry>, entries: seq<Entry>, visits: seq<Visit>, k: nat): (r: seq<Entry>)
    requires k <= |files| == |visits|
    ensures |r| == |files|
  {
    if k == 0 then files
    else
      var m := Merged(files, entries, visits, k - 1);
      var c := Claim(entries, visits, k - 1);
      if c.Some? then m[k - 1 := Merge(m[k - 1], c.value)] else m
  }

  /** The new entries for the first `k` visited paths. */
  function Moved(entries: seq<Entry>, visits: seq<Visit>, k: nat): seq<Entry>
    requires k <= |visits|
  {
    if k == 0 then []
    else
      var c := Claim(entries, visits, k - 1);
      var m := Moved(entries, visits, k - 1);
      if c.Some? then m + [Merge(NewEntry(visits[k - 1].path), c.value)] else m
  }

  /** An inode no entry is left for leaves the entries as they are. */
  lemma NothingClaimed(entries: seq<Entry>, visits: seq<Visit>, k: nat)
    requires k < |visits| && Claim(entries, visits, k).None?
    ensures Left(entries, visits, k + 1) == Left(entries, visits, k)
  {
    if visits[k].inode.Some? {
      FilterAll(InodeIsNot(visits[k].inode.value), Left(entries, visits, k));
    }
  }

  lemma {:induction false} NoneLeft(entries: seq<Entry>, visits: seq<Visit>, k: nat, j: nat)
    requires k <= j <= |visits| && Left(entries, visits, k) == []
    ensures Left(entries, visits, j) == []
    decreases j
  {
    if j > k {
      NoneLeft(entries, visits, k, j - 1);
    }
  }

  lemma {:induction false} NoneMoved(entries: seq<Entry>, visits: seq<Visit>, k: nat, j: nat)
    requires k <= j <= |visits| && Left(entries, visits, k) == []
    ensures Moved(entries, visits, j) == Moved(entries, visits, k)
    decreases j
  {
    if j > k {
      NoneLeft(entries, visits, k, j - 1);
      NoneMoved(entries, visits, k, j - 1);
    }
  }

  lemma {:induction false} NoneMerged(files: seq<Entry>, entries: seq<Entry>, visits: seq<Visit>, k: nat, j: nat)
    requires k <= j <= |files| == |visits| && Left(entries, visits, k) == []
    ensures Merged(files, entries, visits, j) == Merged(files, entries, visits, k)
    decreases j
  {
    if j > k {
      NoneLeft(entries, visits, k, j - 1);
      NoneMerged(files, entries, visits, k, j - 1);
    }
  }

  /** A file keeps its path and its own operations in front, and gets the entry its inode claims. */
  lemma {:induction false} MergedEach(files: seq<Entry>, entries: seq<Entry>, visits: seq<Visit>, k: nat, j: nat)
    requires k <= |files| == |visits| && j < |files|
    ensures Merged(files, entries, visits, k)[j] ==
            if j < k && Claim(entries, visits, j).Some? then
              files[j].(ops := files[j].ops + Claim(entries, visits, j).value.ops,
                        capacity := |files[j].ops| + |Claim(entries, visits, j).value.ops|)
            else
              files[j]
  {
    if k > 0 {
      MergedEach(files, entries, visits, k - 1, j);
    }
  }

  /** The tables afterwards: files take over first, in the order of the table, then new paths as they are visited. */
  function Matched(t: Table, snapshot: map<Path, int>, visits: seq<Visit>): Table {
    var looks := FileVisits(snapshot, t.files);
    var left := Left(t.inodefiles, looks, |looks|);
    var moved := Moved(left, visits, |visits|);
    t.(files := Merged(t.files, t.inodefiles, looks, |looks|) + moved,
       inodefiles := Left(left, visits, |visits|),
       fileorder := t.fileorder + |moved|)
  }

  /******* How the client does it *******/

  /** Entries whose inode one of the listed files has. */
  method MatchFiles(client: Client, snapshot: map<Path, int>)
    modifies client
    ensures var looks := FileVisits(snapshot, old(client.files));
      && client.files == Merged(old(client.files), old(client.inodefiles), looks, |looks|)
      && client.inodefiles == Left(old(client.inodefiles), looks, |looks|)
    ensures client.fileorder == old(client.fileorder) && client.id == old(client.id)
  {
    ghost var files, entries := client.files, client.inodefiles;
    ghost var looks := FileVisits(snapshot, files);
    var k := 0;
    while k < |client.files|
      invariant k <= |client.files| == |files|
      invariant client.files == Merged(files, entries, looks, k)
      invariant client.inodefiles == Left(entries, looks, k)
      invariant client.fileorder == old(client.fileorder) && client.id == old(client.id)
    {
      MergedEach(files, entries, looks, k, k);
      var f := client.files[k];
      var inode := Stat(snapshot, f.path);
      if inode.Some? {
        var finode := FindInode(client.inodefiles, inode.value);
        if finode.None? {
          NothingClaimed(entries, looks, k);
        } else {
          client.files := client.files[k := Merge(f, finode.value)];
          client.inodefiles := Filter(InodeIsNot(inode.value), client.inodefiles);
        }
      }
      k := k + 1;
      if client.inodefiles == [] {
        NoneLeft(entries, looks, k, |looks|);
        NoneMerged(files, entries, looks, k, |looks|);
        return;
      }
    }
  }

  /** The tree walk makes a new entry for the first path with the inode; it stops when nothing is left. The new
      entry itself gets no order: the next one goes to the entry that is given up. */
  method MatchTree(client: Client, visits: seq<Visit>)
    modifies client
    ensures client.files == old(client.files) + Moved(old(client.inodefiles), visits, |visits|)
    ensures client.inodefiles == Left(old(client.inodefiles), visits, |visits|)
    ensures client.fileorder == old(client.fileorder) + |Moved(old(client.inodefiles), visits, |visits|)|
    ensures client.id == old(client.id)
  {
    ghost var files, entries := client.files, client.inodefiles;
    for k := 0 to |visits|
      invariant client.files == files + Moved(entries, visits, k)
      invariant client.inodefiles == Left(entries, visits, k)
      invariant client.fileorder == old(client.fileorder) + |Moved(entries, visits, k)|
      invariant client.id == old(client.id)
    {
      var inode := visits[k].inode;
      if inode.Some? {
        var finode := FindInode(client.inodefiles, inode.value);
        if finode.None? {
          NothingClaimed(entries, visits, k);
        } else {
          var f := Merge(NewEntry(visits[k].path), finode.value);
          client.fileorder := client.fileorder + 1;
          client.files := client.files + [f];
          client.inodefiles := Filter(InodeIsNot(inode.value), client.inodefiles);
        }
        if client.inodefiles == [] {
          NoneMoved(entries, visits, k + 1, |visits|);
          NoneLeft(entries, visits, k + 1, |visits|);
          return;
        }
      }
    }
  }

  method MatchInodefiles(client: Client, snapshot: map<Path, int>, visits: seq<Visit>) returns (ok: bool)
    modifies client
    ensures client.View() == Matched(old(client.View()), snapshot, visits)
    ensures ok <==> client.inodefiles == []
  {
    var n := |client.files|;
    MatchFiles(client, snapshot);
    if n > 0 && client.inodefiles == [] {
      NoneMoved([], visits, 0, |visits|);
      NoneLeft([], visits, 0, |visits|);
      return true;
    }
    MatchTree(client, visits);
    return client.inodefiles == [];
  }

  /******* Nothing is lost *******/

  function OpsIn(es: seq<Entry>): multiset<GenOp> {
    if es == [] then multiset{} else OpsIn(es[..|es| - 1]) + multiset(es[|es| - 1].ops)
  }

  lemma {:induction false} OpsAppend(a: seq<Entry>, b: seq<Entry>)
    ensures OpsIn(a + b) == OpsIn(a) + OpsIn(b)
  {
    if b == [] {
      assert a + b == a;
    } else {
      OpsAppend(a, b[..|b| - 1]);
      Snoc(a, b);
    }
  }

  lemma OpsOne(e: Entry)
    ensures OpsIn([e]) == multiset(e.ops)
  {
    OpsAppend([], [e]);
    assert [e][..0] == [];
  }

  /** No other entry has the inode of the last one. */
  lemma NoneBefore(es: seq<Entry>, inode: int)
    requires Ordered(OtherInode, es) && es != [] && SameKey(es[|es| - 1].inode, inode)
    ensures Filter(InodeIsNot(inode), es) == es[..|es| - 1]
  {
    var n := |es| - 1;
    forall e | e in es[..n] ensures !SameKey(e.inode, inode) {
      var i :| 0 <= i < n && es[i] == e;
      Related(OtherInode, es, i, n);
    }
    FilterAll(InodeIsNot(inode), es[..n]);
  }

  lemma {:induction false} OpsRemoved(es: seq<Entry>, inode: int)
    requires Ordered(OtherInode, es)
    ensures OpsIn(es) == OpsIn(Filter(InodeIsNot(inode), es)) +
            (if FindInode(es, inode).Some? then multiset(FindInode(es, inode).value.ops) else multiset{})
  {
    if es != [] {
      var n := |es| - 1;
      if SameKey(es[n].inode, inode) {
        NoneBefore(es, inode);
      } else {
        var rest := Filter(InodeIsNot(inode), es[..n]);
        OpsRemoved(es[..n], inode);
        OpsMore(rest, es[n]);
        var found := FindInode(es[..n], inode);
        MovesOver(OpsIn(rest), multiset(es[n].ops), if found.Some? then multiset(found.value.ops) else multiset{});
      }
    }
  }

  lemma {:induction false} LeftOrdered(entries: seq<Entry>, visits: seq<Visit>, k: nat)
    requires Ordered(OtherInode, entries) && k <= |visits|
    ensures Ordered(OtherInode, Left(entries, visits, k))
  {
    if k > 0 {
      LeftOrdered(entries, visits, k - 1);
      if visits[k - 1].inode.Some? {
        FilterOrdered(InodeIsNot(visits[k - 1].inode.value), OtherInode, Left(entries, visits, k - 1));
      }
    }
  }

  lemma {:induction false} OpsReplaced(es: seq<Entry>, e: Entry, added: seq<GenOp>)
    requires Ordered(OtherInode, es) && FindInode(es, e.inode).Some?
    requires e.ops == FindInode(es, e.inode).value.ops + added
    ensures OpsIn(ReplaceInode(es, e)) == OpsIn(es) + multiset(added)
  {
    var n := |es| - 1;
    if SameKey(es[n].inode, e.inode) {
      assert forall i :: 0 <= i < n ==> OtherInode(es[i], es[n]);
      assert ReplaceInode(es[..n], e) == es[..n];
      OpsLonger(OpsIn(es[..n]), es[n].ops, added);
    } else {
      OpsReplaced(es[..n], e, added);
      MovesOver(OpsIn(es[..n]), multiset(es[n].ops), multiset(added));
    }
    OpsMore(es[..n], es[n]);
    OpsMore(ReplaceInode(es[..n], e), if SameKey(es[n].inode, e.inode) then e else es[n]);
    LastApart([], es);
  }

  lemma OpsMore(es: seq<Entry>, e: Entry)
    ensures OpsIn(es + [e]) == OpsIn(es) + multiset(e.ops)
  {
    assert (es + [e])[..|es|] == es;
  }

  lemma OpsLonger(m: multiset<GenOp>, a: seq<GenOp>, b: seq<GenOp>)
    ensures m + multiset(a + b) == m + multiset(a) + multiset(b)
  {
    assert multiset(a + b) == multiset(a) + multiset(b);
  }

  /** An unlink that leaves other links moves the operations of the path to the inode table, behind those that are
      there already for the same file; the unlink of the last one drops what was kept for the file. Other files
      lose nothing. */
  lemma UnlinkMovesOps(t: Table, p: Path, lastLink: bool, inode: int)
    requires TableOk(t)
    ensures var f, finode := FindPath(t.files, p), FindInode(t.inodefiles, inode);
      var after := OpsIn(AddOp(t, p, Unlink(lastLink, inode)).inodefiles);
      if !lastLink then after == OpsIn(t.inodefiles) + (if f.Some? then multiset(f.value.ops) else multiset{})
      else after + (if finode.Some? then multiset(finode.value.ops) else multiset{}) == OpsIn(t.inodefiles)
  {
    var f, finode := FindPath(t.files, p), FindInode(t.inodefiles, inode);
    if lastLink {
      OpsRemoved(t.inodefiles, inode);
    } else if f.Some? {
      if finode.Some? {
        var merged := Merge(finode.value, f.value).(order := Min(f.value.order, finode.value.order));
        OpsReplaced(t.inodefiles, merged, f.value.ops);
      } else {
        var e := Merge(NewEntry(f.value.path), f.value).(order := f.value.order, inode := inode);
        OpsAppend(t.inodefiles, [e]);
        OpsOne(e);
        assert [] + f.value.ops == f.value.ops;
      }
    }
  }

  lemma OpsClaimed(entries: seq<Entry>, visits: seq<Visit>, k: nat)
    requires Ordered(OtherInode, entries) && k < |visits|
    ensures var c := Claim(entries, visits, k);
      OpsIn(Left(entries, visits, k)) ==
      OpsIn(Left(entries, visits, k + 1)) + if c.Some? then multiset(c.value.ops) else multiset{}
  {
    LeftOrdered(entries, visits, k);
    if visits[k].inode.Some? {
      OpsRemoved(Left(entries, visits, k), visits[k].inode.value);
    }
  }

  lemma OpsMerged(files: seq<Entry>, k: nat, e: Entry)
    requires k < |files|
    ensures OpsIn(files[k := Merge(files[k], e)]) == OpsIn(files) + multiset(e.ops)
  {
    var m := Merge(files[k], e);
    assert files == files[..k] + [files[k]] + files[k + 1..];
    assert files[k := m] == files[..k] + [m] + files[k + 1..];
    OpsAppend(files[..k] + [files[k]], files[k + 1..]);
    OpsAppend(files[..k] + [m], files[k + 1..]);
    OpsAppend(files[..k], [files[k]]);
    OpsAppend(files[..k], [m]);
    OpsOne(files[k]);
    OpsOne(m);
    assert multiset(files[k].ops + e.ops) == multiset(files[k].ops) + multiset(e.ops);
  }

  lemma MovesOver(there: multiset<GenOp>, here: multiset<GenOp>, moved: multiset<GenOp>)
    ensures (there + moved) + here == there + (here + moved)
  {
  }

  lemma MergedStep(files: seq<Entry>, entries: seq<Entry>, visits: seq<Visit>, k: nat)
    requires Ordered(OtherInode, entries) && k < |files| == |visits|
    ensures OpsIn(Merged(files, entries, visits, k + 1)) + OpsIn(Left(entries, visits, k + 1)) ==
            OpsIn(Merged(files, entries, visits, k)) + OpsIn(Left(entries, visits, k))
  {
    OpsClaimed(entries, visits, k);
    var c := Claim(entries, visits, k);
    if c.Some? {
      OpsMerged(Merged(files, entries, visits, k), k, c.value);
      MovesOver(OpsIn(Merged(files, entries, visits, k)), OpsIn(Left(entries, visits, k + 1)), multiset(c.value.ops));
    }
  }

  lemma MergedConserves(files: seq<Entry>, entries: seq<Entry>, visits: seq<Visit>, n: nat)
    requires Ordered(OtherInode, entries) && n <= |files| == |visits|
    ensures OpsIn(Merged(files, entries, visits, n)) + OpsIn(Left(entries, visits, n)) == OpsIn(files) + OpsIn(entries)
  {
    for k := 0 to n
      invariant OpsIn(Merged(files, entries, visits, k)) + OpsIn(Left(entries, visits, k)) ==
                OpsIn(files) + OpsIn(entries)
    {
      MergedStep(files, entries, visits, k);
    }
  }

  lemma MovedStep(entries: seq<Entry>, visits: seq<Visit>, k: nat)
    requires Ordered(OtherInode, entries) && k < |visits|
    ensures OpsIn(Moved(entries, visits, k + 1)) + OpsIn(Left(entries, visits, k + 1)) ==
            OpsIn(Moved(entries, visits, k)) + OpsIn(Left(entries, visits, k))
  {
    OpsClaimed(entries, visits, k);
    var c := Claim(entries, visits, k);
    if c.Some? {
      OpsMoved(Moved(entries, visits, k), visits[k].path, c.value);
      MovesOver(OpsIn(Moved(entries, visits, k)), OpsIn(Left(entries, visits, k + 1)), multiset(c.value.ops));
    }
  }

  lemma MovedConserves(entries: seq<Entry>, visits: seq<Visit>, n: nat)
    requires Ordered(OtherInode, entries) && n <= |visits|
    ensures OpsIn(Moved(entries, visits, n)) + OpsIn(Left(entries, visits, n)) == OpsIn(entries)
  {
    for k := 0 to n
      invariant OpsIn(Moved(entries, visits, k)) + OpsIn(Left(entries, visits, k)) == OpsIn(entries)
    {
      MovedStep(entries, visits, k);
    }
  }

  lemma OpsMoved(before: seq<Entry>, p: Path, e: Entry)
    ensures OpsIn(before + [Merge(NewEntry(p), e)]) == OpsIn(before) + multiset(e.ops)
  {
    var m := Merge(NewEntry(p), e);
    OpsAppend(before, [m]);
    OpsOne(m);
    assert [] + e.ops == e.ops;
  }

  /** Both tables together hold the same operations before and after, each as often. */
  lemma MatchConserves(t: Table, snapshot: map<Path, int>, visits: seq<Visit>)
    requires TableOk(t)
    ensures var t' := Matched(t, snapshot, visits);
      OpsIn(t'.files) + OpsIn(t'.inodefiles) == OpsIn(t.files) + OpsIn(t.inodefiles)
  {
    var looks := FileVisits(snapshot, t.files);
    var left := Left(t.inodefiles, looks, |looks|);
    LeftOrdered(t.inodefiles, looks, |looks|);
    MergedConserves(t.files, t.inodefiles, looks, |looks|);
    MovedConserves(left, visits, |visits|);
    OpsAppend(Merged(t.files, t.inodefiles, looks, |looks|), Moved(left, visits, |visits|));
  }

  /******* Each entry goes to one path *******/

  lemma SameInode(es: seq<Entry>, e: Entry)
    requires Ordered(OtherInode, es) && e in es
    ensures FindInode(es, e.inode) == Some(e)
  {
    var f := FindInode(es, e.inode);
    var i :| 0 <= i < |es| && es[i] == e;
    var j :| 0 <= j < |es| && es[j] == f.value;
    Related(OtherInode, es, i, j);
  }

  lemma SeesNext(visits: seq<Visit>, k: nat, inode: int)
    requires k < |visits|
    ensures Sees(visits[..k + 1], inode) <==> Sees(visits[..k], inode) || Has(visits[k], inode)
  {
    var next, now := visits[..k + 1], visits[..k];
    assert next[k] == visits[k] && forall i :: 0 <= i < k ==> next[i] == now[i];
  }

  lemma {:induction false} LeftMeans(entries: seq<Entry>, visits: seq<Visit>, k: nat, e: Entry)
    requires k <= |visits|
    ensures e in Left(entries, visits, k) <==> e in entries && !Sees(visits[..k], e.inode)
  {
    if k > 0 {
      LeftMeans(entries, visits, k - 1, e);
      if visits[k - 1].inode.Some? {
        FilterMembers(InodeIsNot(visits[k - 1].inode.value), Left(entries, visits, k - 1));
      }
      SeesNext(visits, k - 1, e.inode);
    }
  }

  /** An entry goes to the first inode it belongs to and to no other. */
  lemma ClaimedByFirst(entries: seq<Entry>, visits: seq<Visit>, e: Entry, k: nat)
    requires Ordered(OtherInode, entries) && e in entries && k < |visits|
    ensures Claim(entries, visits, k) == Some(e) <==> Has(visits[k], e.inode) && !Sees(visits[..k], e.inode)
  {
    var left := Left(entries, visits, k);
    LeftOrdered(entries, visits, k);
    LeftMeans(entries, visits, k, e);
    if e in left {
      SameInode(left, e);
    }
  }

  lemma ClaimedOnce(entries: seq<Entry>, visits: seq<Visit>, e: Entry, j: nat, k: nat)
    requires Ordered(OtherInode, entries) && e in entries && j < k < |visits|
    ensures !(Claim(entries, visits, j) == Some(e) == Claim(entries, visits, k))
  {
    ClaimedByFirst(entries, visits, e, j);
    ClaimedByFirst(entries, visits, e, k);
    assert visits[..k][j] == visits[j];
  }

  /** `stat` finds the inode at the path, as far as an `int` holds it. */
  predicate Found(snapshot: map<Path, int>, p: Path, inode: int) {
    p in snapshot && snapshot[p] % 0x1_0000_0000 == inode % 0x1_0000_0000
  }

  /** The `j`-th file is the first with the inode. */
  predicate FirstFound(snapshot: map<Path, int>, files: seq<Entry>, j: nat, inode: int)
    requires j < |files|
  {
    Found(snapshot, files[j].path, inode) && forall i :: 0 <= i < j ==> !Found(snapshot, files[i].path, inode)
  }

  lemma FoundMeans(t: Table, snapshot: map<Path, int>, j: nat, inode: int)
    requires j < |t.files|
    ensures var looks := FileVisits(snapshot, t.files);
      && (Has(looks[j], inode) <==> Found(snapshot, t.files[j].path, inode))
      && (Sees(looks[..j], inode) <==> exists i :: 0 <= i < j && Found(snapshot, t.files[i].path, inode))
  {
    var looks := FileVisits(snapshot, t.files);
    assert forall i :: 0 <= i < j ==> (Has(looks[..j][i], inode) <==> Found(snapshot, t.files[i].path, inode));
  }

  /** In terms of what goes in: a listed file that is the first one with the inode of a kept entry gets its operations
      behind its own, and stays otherwise what and where it is; a file that is the first with no such inode stays as
      it is. Every new entry costs an order. */
  lemma MatchedFile(t: Table, snapshot: map<Path, int>, visits: seq<Visit>, j: nat)
    requires TableOk(t) && j < |t.files|
    ensures var f, t' := t.files[j], Matched(t, snapshot, visits);
      && |t.files| <= |t'.files| && t'.fileorder - t.fileorder == |t'.files| - |t.files| && t'.nextId == t.nextId
      && (forall e :: e in t.inodefiles && FirstFound(snapshot, t.files, j, e.inode) ==>
            t'.files[j] == f.(ops := f.ops + e.ops, capacity := |f.ops| + |e.ops|))
      && ((forall e :: e in t.inodefiles ==> !FirstFound(snapshot, t.files, j, e.inode)) ==> t'.files[j] == f)
  {
    var looks := FileVisits(snapshot, t.files);
    MergedEach(t.files, t.inodefiles, looks, |looks|, j);
    var c := Claim(t.inodefiles, looks, j);
    forall e | e in t.inodefiles && FirstFound(snapshot, t.files, j, e.inode) ensures c == Some(e) {
      FoundMeans(t, snapshot, j, e.inode);
      ClaimedByFirst(t.inodefiles, looks, e, j);
    }
    if c.Some? {
      FoundMeans(t, snapshot, j, c.value.inode);
      LeftMeans(t.inodefiles, looks, j, c.value);
    }
  }

  /** An entry whose inode no listed file has becomes a new one for the first visited path that has it, with no order,
      behind the listed files... */
  lemma MatchedNew(t: Table, snapshot: map<Path, int>, visits: seq<Visit>, e: Entry, k: nat) returns (i: nat)
    requires TableOk(t) && e in t.inodefiles && k < |visits|
    requires !Sees(FileVisits(snapshot, t.files), e.inode) && Has(visits[k], e.inode) && !Sees(visits[..k], e.inode)
    ensures var t' := Matched(t, snapshot, visits);
      && |t.files| <= i < |t'.files|
      && t'.files[i] == Entry(visits[k].path, -1, e.ops, |e.ops|, 0, false)
    ensures i == |t.files| + |Moved(Left(t.inodefiles, FileVisits(snapshot, t.files), |t.files|), visits, k)|
  {
    var looks := FileVisits(snapshot, t.files);
    var left := Left(t.inodefiles, looks, |looks|);
    assert looks[..|looks|] == looks;
    LeftMeans(t.inodefiles, looks, |looks|, e);
    LeftOrdered(t.inodefiles, looks, |looks|);
    ClaimedByFirst(left, visits, e, k);
    i := MovedAt(left, visits, |visits|, k);
    i := |t.files| + i;
  }

  /** ...and in the order of the visits. */
  lemma MatchedInOrder(t: Table, snapshot: map<Path, int>, visits: seq<Visit>, d: Entry, j: nat, e: Entry, k: nat)
    returns (i: nat, h: nat)
    requires TableOk(t) && d in t.inodefiles && e in t.inodefiles && j < k < |visits|
    requires !Sees(FileVisits(snapshot, t.files), d.inode) && Has(visits[j], d.inode) && !Sees(visits[..j], d.inode)
    requires !Sees(FileVisits(snapshot, t.files), e.inode) && Has(visits[k], e.inode) && !Sees(visits[..k], e.inode)
    ensures var t' := Matched(t, snapshot, visits);
      && i < h < |t'.files|
      && t'.files[i] == Entry(visits[j].path, -1, d.ops, |d.ops|, 0, false)
      && t'.files[h] == Entry(visits[k].path, -1, e.ops, |e.ops|, 0, false)
  {
    var looks := FileVisits(snapshot, t.files);
    var left := Left(t.inodefiles, looks, |looks|);
    i := MatchedNew(t, snapshot, visits, d, j);
    h := MatchedNew(t, snapshot, visits, e, k);
    assert looks[..|looks|] == looks;
    LeftMeans(t.inodefiles, looks, |looks|, d);
    LeftOrdered(t.inodefiles, looks, |looks|);
    ClaimedByFirst(left, visits, d, j);
    var g := MovedAt(left, visits, k, j);
  }

  lemma {:induction false} MovedAt(entries: seq<Entry>, visits: seq<Visit>, n: nat, k: nat) returns (i: nat)
    requires k < n <= |visits| && Claim(entries, visits, k).Some?
    ensures var e := Claim(entries, visits, k).value;
      i < |Moved(entries, visits, n)| &&
      Moved(entries, visits, n)[i] == Entry(visits[k].path, -1, e.ops, |e.ops|, 0, false)
    ensures i == |Moved(entries, visits, k)|
  {
    if k == n - 1 {
      i := |Moved(entries, visits, n - 1)|;
      assert [] + Claim(entries, visits, k).value.ops == Claim(entries, visits, k).value.ops;
    } else {
      i := MovedAt(entries, visits, n - 1, k);
    }
  }

  /** `matchInodefiles` succeeds exactly when every entry's inode belongs to a listed file or a visited node. */
  lemma SucceedsIff(t: Table, snapshot: map<Path, int>, visits: seq<Visit>)
    ensures Matched(t, snapshot, visits).inodefiles == [] <==>
            forall e :: e in t.inodefiles ==> Sees(FileVisits(snapshot, t.files), e.inode) || Sees(visits, e.inode)
  {
    var looks := FileVisits(snapshot, t.files);
    var left := Left(t.inodefiles, looks, |looks|);
    var rest := Left(left, visits, |visits|);
    assert looks[..|looks|] == looks && visits[..|visits|] == visits;
    forall e ensures e in rest <==> e in t.inodefiles && !Sees(looks, e.inode) && !Sees(visits, e.inode) {
      LeftMeans(t.inodefiles, looks, |looks|, e);
      LeftMeans(left, visits, |visits|, e);
    }
    assert rest != [] ==> rest[0] in rest;
  }

  /******* No path gets a second entry... *******/

  predicate OtherPath(x: Entry, y: Entry) {
    x.path != y.path
  }

  predicate OtherPlace(x: Visit, y: Visit) {
    x.path != y.path
  }

  /** A listed path and the first visited path with the inode of a kept entry are the same, and no listed path has
      that inode for `stat`. */
  ghost predicate Collides(t: Table, snapshot: map<Path, int>, visits: seq<Visit>) {
    exists e, k {:trigger Has(visits[k], e.inode)} ::
      && e in t.inodefiles && 0 <= k < |visits| && Has(visits[k], e.inode) && FindPath(t.files, visits[k].path).Some?
      && !Sees(FileVisits(snapshot, t.files), e.inode) && !Sees(visits[..k], e.inode)
  }

  /** A visit gets an entry exactly if one with its inode is kept that neither a listed path nor an earlier visit
      has. */
  lemma ClaimMeans(t: Table, snapshot: map<Path, int>, visits: seq<Visit>, k: nat)
    requires k < |visits|
    ensures var looks := FileVisits(snapshot, t.files);
      Claim(Left(t.inodefiles, looks, |looks|), visits, k).Some? <==>
      exists e {:trigger Has(visits[k], e.inode)} ::
        e in t.inodefiles && Has(visits[k], e.inode) && !Sees(looks, e.inode) && !Sees(visits[..k], e.inode)
  {
    var looks := FileVisits(snapshot, t.files);
    var left := Left(t.inodefiles, looks, |looks|);
    assert looks[..|looks|] == looks;
    forall e ensures e in Left(left, visits, k) <==>
                     e in t.inodefiles && !Sees(looks, e.inode) && !Sees(visits[..k], e.inode)
    {
      LeftMeans(t.inodefiles, looks, |looks|, e);
      LeftMeans(left, visits, k, e);
    }
    var c := Claim(left, visits, k);
    assert c.Some? ==> Has(visits[k], c.value.inode);
  }

  lemma {:induction false} MovedFrom(entries: seq<Entry>, visits: seq<Visit>, n: nat, i: nat) returns (k: nat)
    requires n <= |visits| && i < |Moved(entries, visits, n)|
    ensures k < n && Claim(entries, visits, k).Some? && Moved(entries, visits, n)[i].path == visits[k].path
  {
    k := n - 1;
    if i < |Moved(entries, visits, n - 1)| {
      k := MovedFrom(entries, visits, n - 1, i);
    }
  }

  lemma {:induction false} MovedTo(entries: seq<Entry>, visits: seq<Visit>, n: nat, k: nat) returns (i: nat)
    requires k < n <= |visits| && Claim(entries, visits, k).Some?
    ensures i < |Moved(entries, visits, n)| && Moved(entries, visits, n)[i].path == visits[k].path
  {
    if k == n - 1 {
      i := |Moved(entries, visits, n - 1)|;
    } else {
      i := MovedTo(entries, visits, n - 1, k);
    }
  }

  lemma {:induction false} MovedOrdered(entries: seq<Entry>, visits: seq<Visit>, n: nat)
    requires Ordered(OtherPlace, visits) && n <= |visits|
    ensures Ordered(OtherPath, Moved(entries, visits, n))
  {
    if n > 0 {
      MovedOrdered(entries, visits, n - 1);
      var before := Moved(entries, visits, n - 1);
      forall i | 0 <= i < |before| ensures before[i].path != visits[n - 1].path {
        var k := MovedFrom(entries, visits, n - 1, i);
        assert OtherPlace(visits[k], visits[n - 1]);
      }
    }
  }

  lemma Joined(a: seq<Entry>, b: seq<Entry>)
    requires Ordered(OtherPath, a) && Ordered(OtherPath, b)
    ensures Ordered(OtherPath, a + b) <==> forall i, j :: 0 <= i < |a| && 0 <= j < |b| ==> OtherPath(a[i], b[j])
  {
    if Ordered(OtherPath, a + b) {
      forall i, j | 0 <= i < |a| && 0 <= j < |b| ensures OtherPath(a[i], b[j]) {
        assert OtherPath((a + b)[i], (a + b)[|a| + j]);
      }
    }
  }

  lemma MergedOrdered(files: seq<Entry>, entries: seq<Entry>, visits: seq<Visit>)
    requires Ordered(OtherPath, files) && |files| == |visits|
    ensures var m := Merged(files, entries, visits, |files|);
      Ordered(OtherPath, m) && forall j :: 0 <= j < |m| ==> m[j].path == files[j].path
  {
    var m := Merged(files, entries, visits, |files|);
    forall j | 0 <= j < |m| ensures m[j].path == files[j].path {
      MergedEach(files, entries, visits, |files|, j);
    }
    forall i, j | 0 <= i < j < |m| ensures OtherPath(m[i], m[j]) {
      assert OtherPath(files[i], files[j]);
    }
  }

  /** ...as long as the walk does not hand one to a path that has one, and only then. */
  lemma OneEntryEach(t: Table, snapshot: map<Path, int>, visits: seq<Visit>)
    requires Ordered(OtherPath, t.files) && Ordered(OtherPlace, visits)
    ensures Ordered(OtherPath, Matched(t, snapshot, visits).files) <==> !Collides(t, snapshot, visits)
  {
    var looks := FileVisits(snapshot, t.files);
    var left := Left(t.inodefiles, looks, |looks|);
    var merged, moved := Merged(t.files, t.inodefiles, looks, |looks|), Moved(left, visits, |visits|);
    MergedOrdered(t.files, t.inodefiles, looks);
    MovedOrdered(left, visits, |visits|);
    Joined(merged, moved);
    if Collides(t, snapshot, visits) {
      var k := CollidingVisit(t, snapshot, visits);
      var j := MovedTo(left, visits, |visits|, k);
      var i :| 0 <= i < |t.files| && t.files[i] == FindPath(t.files, visits[k].path).value;
      assert !OtherPath(merged[i], moved[j]);
    } else {
      forall i, j | 0 <= i < |merged| && 0 <= j < |moved| ensures OtherPath(merged[i], moved[j]) {
        var k := MovedFrom(left, visits, |visits|, j);
        ClaimMeans(t, snapshot, visits, k);
        assert FindPath(t.files, visits[k].path).None? && t.files[i] in t.files;
      }
    }
  }

  lemma CollidingVisit(t: Table, snapshot: map<Path, int>, visits: seq<Visit>) returns (k: nat)
    requires Collides(t, snapshot, visits)
    ensures k < |visits| && FindPath(t.files, visits[k].path).Some?
    ensures Claim(Left(t.inodefiles, FileVisits(snapshot, t.files), |t.files|), visits, k).Some?
  {
    var e, i :| && e in t.inodefiles && 0 <= i < |visits| && Has(visits[i], e.inode)
                && FindPath(t.files, visits[i].path).Some?
                && !Sees(FileVisits(snapshot, t.files), e.inode) && !Sees(visits[..i], e.inode);
    k := i;
    ClaimMeans(t, snapshot, visits, k);
  }

  /** It cannot happen where `stat` finds the inode of a kept entry wherever the walk finds it on a listed path: that
      entry has been handed over before the walk starts. */
  lemma NoCollision(t: Table, snapshot: map<Path, int>, visits: seq<Visit>)
    requires forall e, k {:trigger Has(visits[k], e.inode)} ::
               e in t.inodefiles && 0 <= k < |visits| && Has(visits[k], e.inode)
                 && FindPath(t.files, visits[k].path).Some? ==>
               Has(Visit(visits[k].path, Stat(snapshot, visits[k].path)), e.inode)
    ensures !Collides(t, snapshot, visits)
  {
    var looks := FileVisits(snapshot, t.files);
    forall e, k | e in t.inodefiles && 0 <= k < |visits| && Has(visits[k], e.inode)
      && FindPath(t.files, visits[k].path).Some?
      ensures Sees(looks, e.inode)
    {
      var i :| 0 <= i < |t.files| && t.files[i] == FindPath(t.files, visits[k].path).value;
      assert Has(looks[i], e.inode);
    }
  }
}
