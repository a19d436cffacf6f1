/** What the replayed operations do, spelled out: the tree after each of them, whether it succeeds or not. */
module Effects {
  import opened Wrappers
  import opened Operations
  import opened Posix
  import opened FileReplay

  /** The directory a path is in exists; the replicated root is in none. */
  predicate HasParent(t: Tree, p: Path) {
    p != [] && p[..|p| - 1] in t && t[p[..|p| - 1]].Dir?
  }

  lemma ParentIsThere(t: Tree, p: Path, op: Op)
    requires op.Create? || op.Mknod? || op.Mkdir? || op.Symlink? || op.Link?
    ensures Permitted(t, p, op) <==> HasParent(t, p)
  {
  }

  /** The mode is the lower twelve bits of the mode word. */
  lemma PermissionBits(k: nat, m: nat)
    requires m < 0x1000
    ensures Perm(k * 0x1000 + m) == m && Kind(k * 0x1000 + m) == k % 16
  {
    assert (k * 0x1000 + m) / 0x1000 == k;
  }

  lemma PutBack(t: Tree, p: Path)
    ensures Put(t, p, Lookup(t, p)) == t
  {
  }

  /******* Creations *******/

  /** `creat` makes an empty file with the mode, or empties the one that is there, whose attributes stay. */
  lemma CreateEffect(t: Tree, p: Path, k: nat, m: nat, data: Option<bytes>)
    requires m < 0x1000
    ensures TreeApply(t, p, Loaded(Create(k * 0x1000 + m), data)) ==
            if !HasParent(t, p) then t
            else if p !in t then t[p := File([], m, Owner(0, 0))]
            else if t[p].File? then t[p := File([], t[p].mode, t[p].owner)]
            else t
  {
    PermissionBits(k, m);
    ParentIsThere(t, p, Create(k * 0x1000 + m));
    PutBack(t, p);
  }

  lemma MkdirEffect(t: Tree, p: Path, k: nat, m: nat, data: Option<bytes>)
    requires m < 0x1000
    ensures TreeApply(t, p, Loaded(Mkdir(k * 0x1000 + m), data)) ==
            if HasParent(t, p) && p !in t then t[p := Dir(m, Owner(0, 0))] else t
  {
    PermissionBits(k, m);
    ParentIsThere(t, p, Mkdir(k * 0x1000 + m));
    PutBack(t, p);
  }

  /** A mode word with type bits 8 asks for a regular file. */
  lemma MknodEffect(t: Tree, p: Path, kind: nat, m: nat, dev: int, data: Option<bytes>)
    requires m < 0x1000 && kind < 16
    ensures TreeApply(t, p, Loaded(Mknod(kind * 0x1000 + m, dev), data)) ==
            if !HasParent(t, p) || p in t then t
            else if kind == 8 then t[p := File([], m, Owner(0, 0))]
            else t[p := Special(kind, dev, m, Owner(0, 0))]
  {
    PermissionBits(kind, m);
    ParentIsThere(t, p, Mknod(kind * 0x1000 + m, dev));
    PutBack(t, p);
  }

  lemma SymlinkEffect(t: Tree, p: Path, target: string, data: Option<bytes>)
    ensures TreeApply(t, p, Loaded(Symlink(target), data)) ==
            if HasParent(t, p) && p !in t then t[p := Sym(target)] else t
  {
    ParentIsThere(t, p, Symlink(target));
    PutBack(t, p);
  }

  /******* Deletions *******/

  /** `unlink` refuses directories... */
  lemma UnlinkEffect(t: Tree, p: Path, last: bool, inode: int, data: Option<bytes>)
    ensures TreeApply(t, p, Loaded(Unlink(last, inode), data)) == if p in t && !t[p].Dir? then t - {p} else t
  {
    PutBack(t, p);
  }

  /** ...and `rmdir` everything else, the replicated root, and a directory with entries. */
  lemma RmdirEffect(t: Tree, p: Path, data: Option<bytes>)
    ensures TreeApply(t, p, Loaded(Rmdir, data)) ==
            if p in t && t[p].Dir? && p != [] && (forall c :: c in t && c != [] ==> c[..|c| - 1] != p) then t - {p}
            else t
  {
    PutBack(t, p);
    assert HasChild(t, p) <==> exists c :: c in t && IsChild(c, p);
    if c :| c in t && c != [] && c[..|c| - 1] == p {
      assert IsChild(c, p);
    }
  }

  /******* Changes *******/

  /** `n` with the mode `m`, and everything else as it is. */
  predicate OnlyMode(n: Node, m: nat, n': Node) {
    match n
    case File(content, _, owner) => n' == File(content, m, owner)
    case Dir(_, owner) => n' == Dir(m, owner)
    case Special(kind, dev, _, owner) => n' == Special(kind, dev, m, owner)
    case Sym(_) => n' == n
  }

  lemma ChmodEffect(t: Tree, p: Path, k: nat, m: nat, data: Option<bytes>)
    requires m < 0x1000
    ensures var t' := TreeApply(t, p, Loaded(Chmod(k * 0x1000 + m), data));
      t'.Keys == t.Keys && forall q :: q in t ==> if q == p then OnlyMode(t[q], m, t'[q]) else t'[q] == t[q]
  {
    PermissionBits(k, m);
    PutBack(t, p);
  }

  predicate OnlyOwner(n: Node, uid: int, gid: int, n': Node) {
    match n
    case File(content, mode, _) => n' == File(content, mode, Owner(uid, gid))
    case Dir(mode, _) => n' == Dir(mode, Owner(uid, gid))
    case Special(kind, dev, mode, _) => n' == Special(kind, dev, mode, Owner(uid, gid))
    case Sym(_) => n' == n
  }

  lemma ChownEffect(t: Tree, p: Path, uid: int, gid: int, data: Option<bytes>)
    ensures var t' := TreeApply(t, p, Loaded(Chown(uid, gid), data));
      t'.Keys == t.Keys && forall q :: q in t ==> if q == p then OnlyOwner(t[q], uid, gid, t'[q]) else t'[q] == t[q]
  {
    PutBack(t, p);
  }

  /** `n` with the content `c`; only files have one. */
  predicate OnlyContent(n: Node, c: bytes, n': Node) {
    n' == if n.File? then File(c, n.mode, n.owner) else n
  }

  /** `truncate` leaves `size` bytes: the first of the file, and zeros if there were not as many. */
  lemma TruncateEffect(t: Tree, p: Path, size: nat, data: Option<bytes>) returns (c: bytes)
    ensures |c| == size
    ensures p in t && t[p].File? ==>
      forall i :: 0 <= i < size ==> c[i] == if i < |t[p].content| then t[p].content[i] else 0
    ensures var t' := TreeApply(t, p, Loaded(Truncate(size), data));
      t'.Keys == t.Keys && forall q :: q in t ==> if q == p then OnlyContent(t[q], c, t'[q]) else t'[q] == t[q]
  {
    PutBack(t, p);
    c := if p in t && t[p].File? then Trunc(t[p].content, size) else Zeros(size);
  }

  /** `pwrite` puts the bytes at the offset, with zeros in a gap, and changes no other byte; without its data, or for
      anything but a file, nothing happens. */
  lemma WriteEffect(t: Tree, p: Path, off: nat, size: nat, data: bytes) returns (c: bytes)
    requires p in t && t[p].File? && data != []
    ensures var was := t[p].content;
      && |c| == (if off + |data| <= |was| then |was| else off + |data|)
      && (forall i :: 0 <= i < |data| ==> c[off + i] == data[i])
      && forall i :: 0 <= i < |c| && !(off <= i < off + |data|) ==> c[i] == if i < |was| then was[i] else 0
    ensures TreeApply(t, p, Loaded(Write(off, size), Some(data))) == t[p := File(c, t[p].mode, t[p].owner)]
  {
    var was := t[p].content;
    c := Pwrite(was, off, data);
    forall i | 0 <= i < |c| ensures c[i] == if off <= i < off + |data| then data[i - off] else At(was, i) {
      PwriteAt(was, off, data, i);
    }
    PwriteAt(was, off, data, 0);
  }

  lemma WriteRefused(t: Tree, p: Path, off: nat, size: nat, data: Option<bytes>)
    requires data.None? || data == Some([]) || p !in t || !t[p].File?
    ensures TreeApply(t, p, Loaded(Write(off, size), data)) == t
  {
    PutBack(t, p);
  }
}
