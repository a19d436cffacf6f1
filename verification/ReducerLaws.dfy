/** What every sequence of logged operations keeps true of the reducer's tables. */
module ReducerLaws {
  import opened Wrappers
  import opened Operations
  import opened Seqs
  import opened Reducer

  /** The list of the path is one deletion and nothing else. */
  predicate Pure(e: Entry) {
    |e.ops| == 1 && e.ops[0].op.Deletes()
  }

  ghost predicate EntryOk(e: Entry, fileorder: nat, nextId: nat) {
    && 0 < |e.ops| <= e.capacity
    && (forall i :: 0 < i < |e.ops| ==> !e.ops[i].op.Deletes())
    && -1 <= e.order < fileorder
    && (e.order == -1 <==> Pure(e))
    && (e.created <==> e.ops[0].op.Creates())
    && (forall i, j :: 0 <= i < j < |e.ops| ==> e.ops[i].id < e.ops[j].id)
    && (forall i :: 0 <= i < |e.ops| ==> e.ops[i].id < nextId)
  }

  /** Two entries have different paths, and different orders unless both have none. */
  predicate Distinct(x: Entry, y: Entry) {
    x.path != y.path && (x.order == y.order ==> x.order == -1)
  }

  predicate OtherInode(x: Entry, y: Entry) {
    !SameKey(x.inode, y.inode)
  }

  ghost predicate TableOk(t: Table) {
    && (forall e :: e in t.files ==> EntryOk(e, t.fileorder, t.nextId))
    && Ordered(Distinct, t.files)
    && (forall e :: e in t.inodefiles ==> 0 < |e.ops| <= e.capacity)
    && Ordered(OtherInode, t.inodefiles)
  }

  lemma FindIt(es: seq<Entry>, e: Entry)
    requires Ordered(Distinct, es) && e in es
    ensures FindPath(es, e.path) == Some(e)
  {
    var f := FindPath(es, e.path);
    var i :| 0 <= i < |es| && es[i] == e;
    var j :| 0 <= j < |es| && es[j] == f.value;
    Related(Distinct, es, i, j);
  }

  lemma AppendOk(e: Entry, g: GenOp, fileorder: nat, nextId: nat)
    requires EntryOk(e, fileorder, nextId) && g.id == nextId && !g.op.Deletes()
    ensures EntryOk(Append(e, g, fileorder), fileorder + 1, nextId + 1)
    ensures e.order != -1 ==> EntryOk(Append(e, g, fileorder), fileorder, nextId + 1)
  {
    var e' := Append(e, g, fileorder);
    assert e'.ops[0] == e.ops[0];
    assert forall i :: 0 <= i < |e.ops| ==> e'.ops[i] == e.ops[i];
  }

  lemma LaterOk(e: Entry, fileorder: nat, nextId: nat, fileorder': nat)
    requires EntryOk(e, fileorder, nextId) && fileorder <= fileorder'
    ensures EntryOk(e, fileorder', nextId + 1)
  {
  }

  lemma FilesAfterDeletionOk(t: Table, p: Path, g: GenOp)
    requires TableOk(t) && g.id == t.nextId && g.op.Deletes()
    ensures var files := FilesAfterDeletion(t.files, p, g);
            Ordered(Distinct, files) && forall e :: e in files ==> EntryOk(e, t.fileorder, t.nextId + 1)
  {
    FilterOrdered(PathIsNot(p), Distinct, t.files);
    var f := FindPath(t.files, p);
    assert f.Some? ==> EntryOk(f.value, t.fileorder, t.nextId);
    forall e | e in t.files ensures EntryOk(e, t.fileorder, t.nextId + 1) {
      LaterOk(e, t.fileorder, t.nextId, t.fileorder);
    }
    var rest := Filter(PathIsNot(p), t.files);
    FilterMembers(PathIsNot(p), t.files);
    forall i | 0 <= i < |rest| ensures rest[i].path != p && EntryOk(rest[i], t.fileorder, t.nextId + 1) {
      assert rest[i] in rest;
    }
  }

  lemma ReplacedDistinct(es: seq<Entry>, e: Entry, fileorder: nat)
    requires Ordered(Distinct, es)
    requires forall x :: x in es ==> x.order < fileorder
    requires e.order == fileorder || exists x :: x in es && x.path == e.path && x.order == e.order
    ensures Ordered(Distinct, Replace(es, e))
  {
    var r := Replace(es, e);
    forall i, j | 0 <= i < j < |r| ensures Distinct(r[i], r[j]) {
      assert Distinct(es[i], es[j]);
      assert es[i] in es && es[j] in es;
      if e.order != fileorder {
        var x :| x in es && x.path == e.path && x.order == e.order;
        FindIt(es, x);
        FindIt(es, es[i]);
        FindIt(es, es[j]);
      }
    }
  }

  lemma InodefilesOk(t: Table, f: Option<Entry>, op: Op)
    requires TableOk(t) && (f.Some? ==> f.value in t.files)
    ensures var inodefiles := InodefilesAfter(t.inodefiles, f, op);
            Ordered(OtherInode, inodefiles) && forall e :: e in inodefiles ==> 0 < |e.ops| <= e.capacity
  {
    if op.Unlink? && op.lastLink {
      FilterOrdered(InodeIsNot(op.inode), OtherInode, t.inodefiles);
      FilterMembers(InodeIsNot(op.inode), t.inodefiles);
    }
    if f.Some? {
      assert EntryOk(f.value, t.fileorder, t.nextId);
    }
  }

  lemma NewEntryOk(files: seq<Entry>, fileorder: nat, nextId: nat, p: Path, g: GenOp)
    requires Ordered(Distinct, files) && forall e :: e in files ==> EntryOk(e, fileorder, nextId)
    requires FindPath(files, p).None? && g.id == nextId && !g.op.Deletes()
    ensures var (files', fileorder') := FilesAfterOther(files, fileorder, p, g);
            Ordered(Distinct, files') && forall e :: e in files' ==> EntryOk(e, fileorder', nextId + 1)
  {
    forall e | e in files ensures EntryOk(e, fileorder + 1, nextId + 1) && e.order < fileorder {
      LaterOk(e, fileorder, nextId, fileorder + 1);
    }
  }

  lemma ExtendedEntryOk(files: seq<Entry>, fileorder: nat, nextId: nat, p: Path, g: GenOp)
    requires Ordered(Distinct, files) && forall e :: e in files ==> EntryOk(e, fileorder, nextId)
    requires FindPath(files, p).Some? && g.id == nextId && !g.op.Deletes()
    ensures var (files', fileorder') := FilesAfterOther(files, fileorder, p, g);
            Ordered(Distinct, files') && forall e :: e in files' ==> EntryOk(e, fileorder', nextId + 1)
  {
    var f := FindPath(files, p).value;
    var e' := Append(f, g, fileorder);
    AppendOk(f, g, fileorder, nextId);
    var (files', fileorder') := FilesAfterOther(files, fileorder, p, g);
    forall i | 0 <= i < |files| ensures EntryOk(files'[i], fileorder', nextId + 1) {
      LaterOk(files[i], fileorder, nextId, fileorder');
    }
    ReplacedDistinct(files, e', fileorder);
  }

  /** One logged operation, of any kind, keeps the tables in order. */
  lemma AddOpOk(t: Table, relpath: Path, op: Op)
    requires TableOk(t)
    ensures TableOk(AddOp(t, relpath, op))
  {
    var g := GenOp(t.nextId, op);
    if op.Deletes() {
      FilesAfterDeletionOk(t, relpath, g);
      InodefilesOk(t, FindPath(t.files, relpath), op);
    } else {
      var p := if op.Link? then op.newpath else relpath;
      if FindPath(t.files, p).Some? {
        ExtendedEntryOk(t.files, t.fileorder, t.nextId, p, g);
      } else {
        NewEntryOk(t.files, t.fileorder, t.nextId, p, g);
      }
    }
  }

  /** A log record: the operation and the path it was logged for, without write data. */
  datatype Record = Record(path: Path, op: Op)

  /** The tables after the first `k` records. */
  function TableAt(log: seq<Record>, k: nat): (t: Table)
    requires k <= |log|
    ensures t.nextId == k
  {
    if k == 0 then EMPTY_TABLE else AddOp(TableAt(log, k - 1), log[k - 1].path, log[k - 1].op)
  }

  /** After any sequence of logged operations: vectors are not empty and fit their capacity, deletions stand
      only at the front, exactly the paths that are only deleted have no order, orders and paths are distinct,
      `created` tells whether the list starts with a creation, and ids ascend. */
  lemma {:induction false} TablesStayOk(log: seq<Record>, k: nat)
    requires k <= |log|
    ensures TableOk(TableAt(log, k))
  {
    if k > 0 {
      TablesStayOk(log, k - 1);
      AddOpOk(TableAt(log, k - 1), log[k - 1].path, log[k - 1].op);
    }
  }
}
