/** The log reducer: one operation list per path, emptied when the path is deleted. */
module Reducer {
  import opened Wrappers
  import opened Operations
  import opened Seqs

  const VECTOR_INIT_CAPACITY := 8

  /** `fileop_t`. */
  datatype Entry = Entry(path: Path, order: int, ops: seq<GenOp>, capacity: nat, inode: int, created: bool)

  /** The two hash tables, each in insertion order, and the two counters. */
  datatype Table = Table(files: seq<Entry>, inodefiles: seq<Entry>, fileorder: nat, nextId: nat)

  const EMPTY_TABLE := Table([], [], 0, 0)

  /******* The tables *******/

  function FindPath(es: seq<Entry>, p: Path): (r: Option<Entry>)
    ensures r.Some? ==> r.value in es && r.value.path == p
    ensures r.None? ==> forall e :: e in es ==> e.path != p
  {
    if es == [] then None
    else
      var n := |es| - 1;
      if es[n].path == p then Some(es[n])
      else
        assert es == es[..n] + [es[n]];
        FindPath(es[..n], p)
  }

  /** `HASH_FIND_INT` compares as many bytes as an `int` has, the low half of an inode number. */
  predicate SameKey(x: int, y: int) {
    x % 0x1_0000_0000 == y % 0x1_0000_0000
  }

  function FindInode(es: seq<Entry>, inode: int): (r: Option<Entry>)
    ensures r.Some? ==> r.value in es && SameKey(r.value.inode, inode)
    ensures r.None? ==> forall e :: e in es ==> !SameKey(e.inode, inode)
  {
    if es == [] then None
    else
      var n := |es| - 1;
      if SameKey(es[n].inode, inode) then Some(es[n])
      else
        assert es == es[..n] + [es[n]];
        FindInode(es[..n], inode)
  }

  function PathIsNot(p: Path): Entry -> bool {
    (e: Entry) => e.path != p
  }

  function InodeIsNot(inode: int): Entry -> bool {
    (e: Entry) => !SameKey(e.inode, inode)
  }

  /** Entries of `es` with `e` in the place of the one for the same path. */
  function Replace(es: seq<Entry>, e: Entry): (r: seq<Entry>)
    ensures |r| == |es|
    ensures forall i :: 0 <= i < |es| ==> r[i] == if es[i].path == e.path then e else es[i]
  {
    if es == [] then []
    else
      var n := |es| - 1;
      Replace(es[..n], e) + [if es[n].path == e.path then e else es[n]]
  }

  function ReplaceInode(es: seq<Entry>, e: Entry): (r: seq<Entry>)
    ensures |r| == |es|
    ensures forall i :: 0 <= i < |es| ==> r[i] == if SameKey(es[i].inode, e.inode) then e else es[i]
  {
    if es == [] then []
    else
      var n := |es| - 1;
      ReplaceInode(es[..n], e) + [if SameKey(es[n].inode, e.inode) then e else es[n]]
  }

  function NewEntry(p: Path): Entry {
    Entry(p, -1, [], VECTOR_INIT_CAPACITY, 0, false)
  }

  /** The operations of `src` behind those of `dest`; the vector is reallocated to fit exactly. */
  function Merge(dest: Entry, src: Entry): Entry {
    dest.(ops := dest.ops + src.ops, capacity := |dest.ops| + |src.ops|)
  }

  function Min(a: int, b: int): int {
    if a < b then a else b
  }

  /******* One operation *******/

  /** What an unlink does to the operations kept for other links of the same file. */
  function InodefilesAfter(inodefiles: seq<Entry>, f: Option<Entry>, op: Op): seq<Entry> {
    if !op.Unlink? then inodefiles
    else
      var finode := FindInode(inodefiles, op.inode);
      if op.lastLink then Filter(InodeIsNot(op.inode), inodefiles)
      else if f.None? then inodefiles
      else if finode.Some? then
        ReplaceInode(inodefiles, Merge(finode.value, f.value).(order := Min(f.value.order, finode.value.order)))
      else
        inodefiles + [Merge(NewEntry(f.value.path), f.value).(order := f.value.order, inode := op.inode)]
  }

  /** The list a deletion leaves: the deletion of what existed before the epoch, if there was something. */
  function Remainder(f: Option<Entry>, g: GenOp): Option<GenOp> {
    if f.None? then Some(g)
    else if f.value.ops != [] && f.value.ops[0].op.Deletes() then Some(f.value.ops[0])
    else if f.value.created then None
    else Some(g)
  }

  function FilesAfterDeletion(files: seq<Entry>, p: Path, g: GenOp): seq<Entry> {
    var rest := Filter(PathIsNot(p), files);
    var kept := Remainder(FindPath(files, p), g);
    if kept.Some? then rest + [NewEntry(p).(ops := [kept.value])] else rest
  }

  /** An operation appended to the list of its path; a path that has no order yet gets the next one. */
  function Append(e: Entry, g: GenOp, fileorder: nat): Entry {
    e.(ops := e.ops + [g],
       capacity := if |e.ops| == e.capacity then e.capacity * 2 else e.capacity,
       order := if e.order == -1 then fileorder else e.order)
  }

  /** Any operation but a deletion: the files and the next order. */
  function FilesAfterOther(files: seq<Entry>, fileorder: nat, p: Path, g: GenOp): (seq<Entry>, nat) {
    var f := FindPath(files, p);
    if f.None? then
      (files + [Append(NewEntry(p).(created := g.op.Creates()), g, fileorder)], fileorder + 1)
    else
      (Replace(files, Append(f.value, g, fileorder)), if f.value.order == -1 then fileorder + 1 else fileorder)
  }

  function AddOp(t: Table, relpath: Path, op: Op): Table {
    var g := GenOp(t.nextId, op);
    if op.Deletes() then
      Table(FilesAfterDeletion(t.files, relpath, g),
            InodefilesAfter(t.inodefiles, FindPath(t.files, relpath), op),
            t.fileorder,
            t.nextId + 1)
    else
      var (files, fileorder) := FilesAfterOther(t.files, t.fileorder, if op.Link? then op.newpath else relpath, g);
      Table(files, t.inodefiles, fileorder, t.nextId + 1)
  }

  /******* The same, as the client does it *******/

  class Client {
    var files: seq<Entry>
    var inodefiles: seq<Entry>
    var fileorder: nat
    var id: nat

    ghost function View(): Table
      reads this
    {
      Table(files, inodefiles, fileorder, id)
    }

    constructor ()
      ensures View() == EMPTY_TABLE
    {
      files, inodefiles, fileorder, id := [], [], 0, 0;
    }

    /** The operations of a path outlive it while the file has other links. */
    method HandleLinks(f: Option<Entry>, op: Op)
      modifies this`inodefiles
      ensures inodefiles == InodefilesAfter(old(inodefiles), f, op)
    {
      if op.Unlink? {
        var finode := FindInode(inodefiles, op.inode);
        if op.lastLink {
          if finode.Some? {
            inodefiles := Filter(InodeIsNot(op.inode), inodefiles);
          } else {
            FilterAll(InodeIsNot(op.inode), inodefiles);
          }
        } else if finode.Some? {
          if f.Some? {
            var merged := Merge(finode.value, f.value);
            inodefiles := ReplaceInode(inodefiles, merged.(order := Min(f.value.order, finode.value.order)));
          }
        } else if f.Some? {
          var merged := Merge(NewEntry(f.value.path), f.value);
          inodefiles := inodefiles + [merged.(order := f.value.order, inode := op.inode)];
        }
      }
    }

    /** Get rid of all operations of a path, keeping one deletion if the path existed before the epoch. */
    method HandleDeletion(relpath: Path, genop: GenOp, f: Option<Entry>)
      requires f == FindPath(files, relpath)
      modifies this`files
      ensures files == FilesAfterDeletion(old(files), relpath, genop)
    {
      var existed := true;
      if f.Some? {
        existed := !f.value.created;
        files := Filter(PathIsNot(relpath), files);
        if f.value.ops != [] && f.value.ops[0].op.Deletes() {
          files := files + [NewEntry(relpath).(ops := [f.value.ops[0]])];
          return;
        }
      } else {
        FilterAll(PathIsNot(relpath), files);
      }
      if existed {
        files := files + [NewEntry(relpath).(ops := [genop])];
      }
    }

    /** Add the operation to the vector, doubling it when it is full; a path deleted before gets a new order. */
    method ExtendVector(f: Entry, genop: GenOp) returns (e: Entry)
      modifies this`fileorder
      ensures e == Append(f, genop, old(fileorder))
      ensures fileorder == if f.order == -1 then old(fileorder) + 1 else old(fileorder)
    {
      e := f;
      if |e.ops| == e.capacity {
        e := e.(capacity := e.capacity * 2);
      }
      e := e.(ops := e.ops + [genop]);
      if e.order == -1 {
        e := e.(order := fileorder);
        fileorder := fileorder + 1;
      }
    }

    method HandleOther(relpath: Path, genop: GenOp)
      modifies this`files, this`fileorder
      ensures (files, fileorder) == FilesAfterOther(old(files), old(fileorder), relpath, genop)
    {
      var f := FindPath(files, relpath);
      if f.None? {
        var e := ExtendVector(NewEntry(relpath).(created := genop.op.Creates()), genop);
        files := files + [e];
      } else {
        var e := ExtendVector(f.value, genop);
        files := Replace(files, e);
      }
    }

    method AddOperation(path: Path, op: Op)
      modifies this
      ensures View() == AddOp(old(View()), path, op)
    {
      var relpath := path;
      var genop := GenOp(id, op);
      id := id + 1;
      if op.Link? {
        relpath := op.newpath;
      }
      if op.Deletes() {
        var f := FindPath(files, relpath);
        HandleLinks(f, op);
        HandleDeletion(relpath, genop, f);
      } else {
        HandleOther(relpath, genop);
      }
    }
  }
}
