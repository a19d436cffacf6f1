/** What the system calls issued by the handlers do to a file, to a node and to a tree. */
module Posix {
  import opened Wrappers
  import opened Operations

  /******* File content *******/

  function Zeros(n: nat): bytes {
    seq(n, i => 0)
  }

  /** `truncate`: cut, or extend with zeros. */
  function Trunc(c: bytes, n: nat): bytes {
    if n <= |c| then c[..n] else c + Zeros(n - |c|)
  }

  /** `pwrite`: a gap before the offset reads as zeros; writing nothing changes nothing. */
  function Pwrite(c: bytes, off: nat, data: bytes): bytes {
    if data == [] then c
    else
      var base := if |c| < off then Trunc(c, off) else c;
      if off + |data| <= |base| then base[..off] + data + base[off + |data|..] else base[..off] + data
  }

  /** The byte read at `p`, with zeros behind the end of the file. */
  function At(c: bytes, p: nat): byte {
    if p < |c| then c[p] else 0
  }

  /******* One node *******/

  datatype Owner = Owner(uid: int, gid: int)

  datatype Node =
    | File(content: bytes, mode: nat, owner: Owner)
    | Dir(mode: nat, owner: Owner)
    | Sym(target: string)
    | Special(kind: nat, dev: int, mode: nat, owner: Owner)

  /** The owner a new node gets. */
  const NEW_OWNER := Owner(0, 0)

  /** Permission bits of a mode word. */
  function Perm(mode: nat): nat {
    mode % 0x1000
  }

  /** File type bits of a mode word; 8 is a regular file. */
  function Kind(mode: nat): nat {
    mode / 0x1000 % 16
  }

  function NewNode(op: Op): Option<Node> {
    match op
    case Create(mode) => Some(File([], Perm(mode), NEW_OWNER))
    case Mknod(mode, dev) =>
      if Kind(mode) == 8 then Some(File([], Perm(mode), NEW_OWNER))
      else Some(Special(Kind(mode), dev, Perm(mode), NEW_OWNER))
    case Mkdir(mode) => Some(Dir(Perm(mode), NEW_OWNER))
    case Symlink(target) => Some(Sym(target))
    case _ => None
  }

  /** What one operation does to the node at its path, when the rest of the tree allows it.
      An operation that the kernel refuses changes nothing. */
  function Apply(n: Option<Node>, l: Loaded): Option<Node> {
    match l.op
    case Unlink(_, _) => if n.Some? && !n.value.Dir? then None else n
    case Rmdir => if n.Some? && n.value.Dir? then None else n
    case Create(_) =>
      if n.None? then NewNode(l.op)
      else if n.value.File? then Some(n.value.(content := []))  // creat() truncates
      else n
    case Mknod(_, _) => if n.None? then NewNode(l.op) else n
    case Mkdir(_) => if n.None? then NewNode(l.op) else n
    case Symlink(_) => if n.None? then NewNode(l.op) else n
    case Chmod(mode) => if n.Some? && !n.value.Sym? then Some(n.value.(mode := Perm(mode))) else n
    case Chown(uid, gid) => if n.Some? && !n.value.Sym? then Some(n.value.(owner := Owner(uid, gid))) else n
    case Truncate(size) =>
      if n.Some? && n.value.File? then Some(n.value.(content := Trunc(n.value.content, size))) else n
    case Write(off, _) =>
      if n.Some? && n.value.File? && l.data.Some?
      then Some(n.value.(content := Pwrite(n.value.content, off, l.data.value)))
      else n
    case Link(_, _) => n
    case Rename(_, _) => n
  }

  function Replay(n: Option<Node>, ls: seq<Loaded>): Option<Node> {
    if ls == [] then n else Apply(Replay(n, ls[..|ls| - 1]), ls[|ls| - 1])
  }

  /******* The tree *******/

  type Tree = map<Path, Node>

  function Lookup(t: Tree, p: Path): Option<Node> {
    if p in t then Some(t[p]) else None
  }

  function Put(t: Tree, p: Path, n: Option<Node>): Tree {
    if n.Some? then t[p := n.value] else t - {p}
  }

  function Parent(p: Path): Path
    requires p != []
  {
    p[..|p| - 1]
  }

  predicate IsChild(c: Path, p: Path) {
    c != [] && Parent(c) == p
  }

  predicate IsDir(n: Option<Node>) {
    n.Some? && n.value.Dir?
  }

  ghost predicate WellFormed(t: Tree) {
    && IsDir(Lookup(t, []))
    && forall p {:trigger Parent(p)} :: p in t && p != [] ==> IsDir(Lookup(t, Parent(p)))
  }

  predicate HasChild(t: Tree, p: Path) {
    exists c :: c in t && IsChild(c, p)
  }

  /** What the tree around `p` must look like for the operation not to fail. */
  predicate Permitted(t: Tree, p: Path, op: Op) {
    && (op.Creates() ==> p != [] && IsDir(Lookup(t, Parent(p))))
    && (op.Rmdir? ==> p != [] && !HasChild(t, p))
  }

  function TreeApply(t: Tree, p: Path, l: Loaded): Tree {
    if Permitted(t, p, l.op) then Put(t, p, Apply(Lookup(t, p), l)) else t
  }

  function TreeReplay(t: Tree, p: Path, ls: seq<Loaded>): Tree {
    if ls == [] then t else TreeApply(TreeReplay(t, p, ls[..|ls| - 1]), p, ls[|ls| - 1])
  }
}
