/** What one logged operation does to the tables, spelled out for each path and each inode. */
module TableSteps {
  import opened Wrappers
  import opened Operations
  import opened Seqs
  import opened Reducer
  import opened ReducerLaws

  /******* The low half of an inode number *******/

  lemma LowHalf(a: nat, b: nat, k: int, m: int)
    requires a < 0x1_0000_0000 && b < 0x1_0000_0000
    ensures SameKey(k * 0x1_0000_0000 + a, m * 0x1_0000_0000 + b) <==> a == b
  {
    assert (k * 0x1_0000_0000 + a) % 0x1_0000_0000 == a;
    assert (m * 0x1_0000_0000 + b) % 0x1_0000_0000 == b;
  }

  /******* Look-ups *******/

  lemma FindPathAppend(es: seq<Entry>, e: Entry, q: Path)
    ensures FindPath(es + [e], q) == if e.path == q then Some(e) else FindPath(es, q)
  {
    assert (es + [e])[..|es|] == es;
  }

  lemma FindInodeAppend(es: seq<Entry>, e: Entry, i: int)
    ensures FindInode(es + [e], i) == if SameKey(e.inode, i) then Some(e) else FindInode(es, i)
  {
    assert (es + [e])[..|es|] == es;
  }

  lemma {:induction false} FindPathReplaced(es: seq<Entry>, e: Entry, q: Path)
    ensures FindPath(Replace(es, e), q) ==
            if e.path != q then FindPath(es, q) else if FindPath(es, q).Some? then Some(e) else None
  {
    if es != [] {
      var n := |es| - 1;
      FindPathReplaced(es[..n], e, q);
      FindPathAppend(Replace(es[..n], e), if es[n].path == e.path then e else es[n], q);
    }
  }

  lemma {:induction false} FindInodeReplaced(es: seq<Entry>, e: Entry, i: int)
    ensures FindInode(ReplaceInode(es, e), i) ==
            if !SameKey(e.inode, i) then FindInode(es, i) else if FindInode(es, i).Some? then Some(e) else None
  {
    if es != [] {
      var n := |es| - 1;
      FindInodeReplaced(es[..n], e, i);
      FindInodeAppend(ReplaceInode(es[..n], e), if SameKey(es[n].inode, e.inode) then e else es[n], i);
    }
  }

  lemma {:induction false} FindInodeRest(es: seq<Entry>, inode: int, i: int)
    ensures FindInode(Filter(InodeIsNot(inode), es), i) == if SameKey(inode, i) then None else FindInode(es, i)
  {
    if es != [] {
      var n := |es| - 1;
      FindInodeRest(es[..n], inode, i);
      FindInodeAppend(Filter(InodeIsNot(inode), es[..n]), es[n], i);
    }
  }

  /** No other entry has the path of the `i`-th one. */
  lemma NoOther(es: seq<Entry>, i: nat, j: nat)
    requires Ordered(Distinct, es) && i < |es| && j < |es| && i != j
    ensures es[j].path != es[i].path
  {
    Related(Distinct, es, i, j);
  }

  lemma OthersKept(es: seq<Entry>, i: nat, s: seq<Entry>, from: nat)
    requires Ordered(Distinct, es) && i < |es| && from + |s| <= |es| && (from + |s| <= i || i < from)
    requires forall k :: 0 <= k < |s| ==> s[k] == es[from + k]
    ensures Filter(PathIsNot(es[i].path), s) == s
  {
    forall e | e in s ensures e.path != es[i].path {
      var k :| 0 <= k < |s| && s[k] == e;
      NoOther(es, i, from + k);
    }
    FilterAll(PathIsNot(es[i].path), s);
  }

  lemma FrontKept(es: seq<Entry>, i: nat)
    requires Ordered(Distinct, es) && i < |es|
    ensures Filter(PathIsNot(es[i].path), es[..i]) == es[..i]
  {
    OthersKept(es, i, es[..i], 0);
  }

  lemma BackKept(es: seq<Entry>, i: nat)
    requires Ordered(Distinct, es) && i < |es|
    ensures Filter(PathIsNot(es[i].path), es[i + 1..]) == es[i + 1..]
  {
    OthersKept(es, i, es[i + 1..], i + 1);
  }

  lemma WithoutOne(es: seq<Entry>, i: nat, p: Path)
    requires Ordered(Distinct, es) && i < |es| && es[i].path == p
    ensures Filter(PathIsNot(p), es) == es[..i] + es[i + 1..]
  {
    FrontKept(es, i);
    BackKept(es, i);
    FilterOut(PathIsNot(p), es[..i], es[i], es[i + 1..]);
    Around(es, i);
  }

  lemma Around<T>(s: seq<T>, i: nat)
    requires i < |s|
    ensures s == s[..i] + ([s[i]] + s[i + 1..])
  {
  }

  /** The entries without the one of `p`, which is the `i`-th if there is one. */
  lemma RestWithout(es: seq<Entry>, p: Path) returns (i: nat)
    requires Ordered(Distinct, es)
    ensures FindPath(es, p).None? ==> Filter(PathIsNot(p), es) == es
    ensures FindPath(es, p).Some? ==>
      i < |es| && es[i] == FindPath(es, p).value && Filter(PathIsNot(p), es) == es[..i] + es[i + 1..]
  {
    i := 0;
    if FindPath(es, p).None? {
      FilterAll(PathIsNot(p), es);
    } else {
      i :| 0 <= i < |es| && es[i] == FindPath(es, p).value;
      WithoutOne(es, i, p);
    }
  }

  /******* Operations that are no deletions *******/

  /** `f'` is what becomes of the entry `f` of the path `q` when the operation is appended. */
  predicate Extended(t: Table, f: Option<Entry>, q: Path, op: Op, f': Entry) {
    match f
    case None =>
      f' == Entry(q, t.fileorder, [GenOp(t.nextId, op)], 8, 0,
                  op.Create? || op.Mknod? || op.Mkdir? || op.Symlink? || op.Link?)
    case Some(e) =>
      f' == Entry(q, if e.order == -1 then t.fileorder else e.order, e.ops + [GenOp(t.nextId, op)],
                  if |e.ops| == e.capacity then 2 * e.capacity else e.capacity, e.inode, e.created)
  }

  /** A hard link is added to the list of its new path, everything else to that of the path it was logged for: behind
      what that path had, in its place in the table, or in a new entry at the end. Nothing happens to other paths. */
  lemma AddedToPath(t: Table, p: Path, op: Op, q: Path)
    requires !op.Unlink? && !op.Rmdir?
    requires if op.Link? then q == op.newpath else q == p
    ensures var t', f := AddOp(t, p, op), FindPath(t.files, q);
      && FindPath(t'.files, q).Some? && Extended(t, f, q, op, FindPath(t'.files, q).value)
      && (forall r :: r != q ==> FindPath(t'.files, r) == FindPath(t.files, r))
      && |t'.files| == |t.files| + (if f.Some? then 0 else 1)
      && (forall i :: 0 <= i < |t.files| && t.files[i].path != q ==> t'.files[i] == t.files[i])
      && t'.inodefiles == t.inodefiles && t'.nextId == t.nextId + 1
      && t'.fileorder == if f.Some? && f.value.order != -1 then t.fileorder else t.fileorder + 1
  {
    var g, f := GenOp(t.nextId, op), FindPath(t.files, q);
    var e := Append(if f.Some? then f.value else NewEntry(q).(created := op.Creates()), g, t.fileorder);
    assert [] + [g] == [g];
    forall r ensures FindPath(AddOp(t, p, op).files, r) == if r == q then Some(e) else FindPath(t.files, r) {
      if f.Some? {
        FindPathReplaced(t.files, e, r);
      } else {
        FindPathAppend(t.files, e, r);
      }
    }
  }

  /******* Deletions *******/

  /** What a deletion leaves of a path: a deletion that came first in the epoch, nothing of what was made in it, and
      otherwise this deletion; it stands alone, in an entry at the end. Nothing happens to other paths. */
  lemma DeletedPath(t: Table, p: Path, op: Op) returns (i: nat)
    requires TableOk(t) && (op.Unlink? || op.Rmdir?)
    ensures var t', f := AddOp(t, p, op), FindPath(t.files, p);
      && (f.Some? ==> i < |t.files| && t.files[i] == f.value)
      && (var rest := if f.Some? then t.files[..i] + t.files[i + 1..] else t.files;
          if f.None? then t'.files == rest + [Entry(p, -1, [GenOp(t.nextId, op)], 8, 0, false)]
          else
            match f.value.ops[0].op
            case Unlink(_, _) => t'.files == rest + [Entry(p, -1, [f.value.ops[0]], 8, 0, false)]
            case Rmdir => t'.files == rest + [Entry(p, -1, [f.value.ops[0]], 8, 0, false)]
            case Create(_) => t'.files == rest
            case Mknod(_, _) => t'.files == rest
            case Mkdir(_) => t'.files == rest
            case Symlink(_) => t'.files == rest
            case Link(_, _) => t'.files == rest
            case _ => t'.files == rest + [Entry(p, -1, [GenOp(t.nextId, op)], 8, 0, false)])
      && t'.nextId == t.nextId + 1 && t'.fileorder == t.fileorder
      && (op.Rmdir? ==> t'.inodefiles == t.inodefiles)
  {
    i := RestWithout(t.files, p);
    var f := FindPath(t.files, p);
    if f.Some? {
      assert EntryOk(f.value, t.fileorder, t.nextId);
    }
  }

  /** The unlink of a name that is not the last: its operations stand behind those kept for the same file before, if
      there are any, and the lower order counts. Nothing happens to what is kept for other files. */
  lemma UnlinkKeepsOrder(t: Table, p: Path, inode: int)
    ensures var t', f := AddOp(t, p, Unlink(false, inode)), FindPath(t.files, p);
      var kept, kept' := FindInode(t.inodefiles, inode), FindInode(t'.inodefiles, inode);
      && (f.None? ==> t'.inodefiles == t.inodefiles)
      && (f.Some? ==> kept'.Some?)
      && (f.Some? && kept.None? ==>
            kept'.value == Entry(p, f.value.order, f.value.ops, |f.value.ops|, inode, false) &&
            t'.inodefiles == t.inodefiles + [kept'.value])
      && (f.Some? && kept.Some? ==>
            && kept'.value.path == kept.value.path && kept'.value.inode == kept.value.inode
            && kept'.value.ops == kept.value.ops + f.value.ops && kept'.value.created == kept.value.created
            && kept'.value.capacity == |kept.value.ops| + |f.value.ops|
            && (if f.value.order < kept.value.order then kept'.value.order == f.value.order
                else kept'.value.order == kept.value.order))
      && (forall j :: !SameKey(inode, j) ==> FindInode(t'.inodefiles, j) == FindInode(t.inodefiles, j))
  {
    var f, kept := FindPath(t.files, p), FindInode(t.inodefiles, inode);
    if f.Some? {
      var e := Merge(if kept.Some? then kept.value else NewEntry(p), f.value);
      assert [] + f.value.ops == f.value.ops;
      forall j ensures FindInode(AddOp(t, p, Unlink(false, inode)).inodefiles, j) ==
                       if SameKey(inode, j) then
                         Some(if kept.Some? then e.(order := Min(f.value.order, kept.value.order))
                              else e.(order := f.value.order, inode := inode))
                       else
                         FindInode(t.inodefiles, j)
      {
        if kept.Some? {
          SameFound(t.inodefiles, inode, j);
          FindInodeReplaced(t.inodefiles, e.(order := Min(f.value.order, kept.value.order)), j);
        } else {
          FindInodeAppend(t.inodefiles, e.(order := f.value.order, inode := inode), j);
        }
      }
    }
  }

  lemma {:induction false} SameFound(es: seq<Entry>, i: int, j: int)
    ensures SameKey(i, j) ==> FindInode(es, i) == FindInode(es, j)
  {
    if es != [] {
      SameFound(es[..|es| - 1], i, j);
    }
  }

  /** The unlink of the last name drops what was kept for the file, and nothing else. */
  lemma LastUnlinkDrops(t: Table, p: Path, inode: int, j: int)
    ensures var t' := AddOp(t, p, Unlink(true, inode));
      FindInode(t'.inodefiles, j) == if SameKey(inode, j) then None else FindInode(t.inodefiles, j)
  {
    FindInodeRest(t.inodefiles, inode, j);
  }
}
