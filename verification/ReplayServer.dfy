/** The server's replay loops and operation handlers, with the file descriptor they share. */
module ReplayServer {
  import opened Wrappers
  import opened Operations
  import opened Posix
  import opened Chunks

  class Server {
    /** The replicated tree, `config.rootdir`. */
    var root: Tree

    constructor (root: Tree)
      ensures this.root == root
    {
      this.root := root;
    }

    /** An open descriptor belongs to a regular file that stands at the path. */
    ghost predicate FdOk(fd: bool, path: Path)
      reads this
    {
      fd ==> path in root && root[path].File?
    }

    /** `creat`: the descriptor stays open for the writes that follow. */
    method HandleCreate(path: Path, l: Loaded) returns (fd: bool, ok: bool)
      requires l.op.Create?
      modifies this
      ensures root == TreeApply(old(root), path, l) && FdOk(fd, path)
      ensures fd == ok && (ok <==> path in root && root[path].File? && Permitted(old(root), path, l.op))
    {
      ok := Permitted(root, path, l.op) && (path !in root || root[path].File?);
      fd := ok;
      if ok {
        if path in root {
          root := root[path := root[path].(content := [])];
        } else {
          root := root[path := File([], Perm(l.op.mode), NEW_OWNER)];
        }
      }
    }

    /** `mknod`, `mkdir` and `symlink` fail if there is anything at the path. */
    method HandleNew(path: Path, l: Loaded) returns (ok: bool)
      requires l.op.Mknod? || l.op.Mkdir? || l.op.Symlink?
      modifies this
      ensures root == TreeApply(old(root), path, l)
      ensures forall p :: p in old(root) ==> p in root && root[p] == old(root)[p]
      ensures ok <==> path !in old(root) && path in root
    {
      ok := Permitted(root, path, l.op) && path !in root;
      if ok {
        match l.op {
          case Mkdir(mode) => root := root[path := Dir(Perm(mode), NEW_OWNER)];
          case Symlink(target) => root := root[path := Sym(target)];
          case Mknod(mode, dev) =>
            if Kind(mode) == 8 {
              root := root[path := File([], Perm(mode), NEW_OWNER)];
            } else {
              root := root[path := Special(Kind(mode), dev, Perm(mode), NEW_OWNER)];
            }
        }
      }
    }

    /** The file is opened at the first write, by its path; later writes go to the open descriptor. */
    method HandleWrite(path: Path, fd: bool, l: Loaded) returns (fd': bool, ok: bool)
      requires l.op.Write? && FdOk(fd, path)
      modifies this
      ensures root == TreeApply(old(root), path, l) && FdOk(fd', path)
      ensures (fd' <==> path in root && root[path].File?) && (ok <==> fd' && l.data.Some?)
    {
      fd' := fd;
      if !fd' {
        fd' := path in root && root[path].File?;
        if !fd' {
          ok := false;
          return;
        }
      }
      if l.data.None? {
        ok := false;
        return;
      }
      root := root[path := root[path].(content := Pwrite(root[path].content, l.op.offset, l.data.value))];
      ok := true;
    }

    /** An open file is closed before it is unlinked. */
    method HandleUnlink(path: Path, fd: bool, l: Loaded) returns (fd': bool, ok: bool)
      requires l.op.Unlink?
      modifies this
      ensures root == TreeApply(old(root), path, l) && !fd'
      ensures ok <==> path in old(root) && path !in root
      ensures forall p :: p in old(root) && old(root)[p].Dir? ==> p in root && root[p] == old(root)[p]
    {
      fd' := false;
      ok := path in root && !root[path].Dir?;
      if ok {
        root := root - {path};
      }
    }

    method HandleRmdir(path: Path, l: Loaded) returns (ok: bool)
      requires l.op.Rmdir?
      modifies this
      ensures root == TreeApply(old(root), path, l)
      ensures forall p :: p in old(root) && !old(root)[p].Dir? ==> p in root && root[p] == old(root)[p]
      ensures ok <==> path in old(root) && path !in root
    {
      ok := Permitted(root, path, l.op) && path in root && root[path].Dir?;
      if ok {
        root := root - {path};
      }
    }

    method HandleModify(path: Path, l: Loaded) returns (ok: bool)
      requires l.op.Truncate? || l.op.Chmod? || l.op.Chown?
      modifies this
      ensures root == TreeApply(old(root), path, l)
      ensures forall p :: p in old(root) && old(root)[p].File? ==> p in root && root[p].File?
      ensures ok <==> path in root && !root[path].Sym? && (l.op.Truncate? ==> root[path].File?)
    {
      ok := path in root && !root[path].Sym? && (l.op.Truncate? ==> root[path].File?);
      if ok {
        var n := root[path];
        match l.op {
          case Truncate(size) => root := root[path := n.(content := Trunc(n.content, size))];
          case Chmod(mode) => root := root[path := n.(mode := Perm(mode))];
          case Chown(uid, gid) => root := root[path := n.(owner := Owner(uid, gid))];
        }
      }
    }

    /** Dispatch on the type. What the handler answers is ignored by the caller; hard links and renames are not
        modelled and change nothing. */
    method HandleGenericOperation(path: Path, fd: bool, l: Loaded) returns (fd': bool, ok: bool)
      requires FdOk(fd, path)
      modifies this
      ensures root == TreeApply(old(root), path, l) && FdOk(fd', path)
      ensures !l.op.Create? && !l.op.Write? && !l.op.Unlink? ==> fd' == fd
      ensures l.op.Unlink? ==> !fd'
    {
      fd', ok := fd, true;
      match l.op {
        case Create(_) => fd', ok := HandleCreate(path, l);
        case Mknod(_, _) => ok := HandleNew(path, l);
        case Mkdir(_) => ok := HandleNew(path, l);
        case Symlink(_) => ok := HandleNew(path, l);
        case Write(_, _) => fd', ok := HandleWrite(path, fd, l);
        case Unlink(_, _) => fd', ok := HandleUnlink(path, fd, l);
        case Rmdir => ok := HandleRmdir(path, l);
        case Truncate(_) => ok := HandleModify(path, l);
        case Chmod(_) => ok := HandleModify(path, l);
        case Chown(_, _) => ok := HandleModify(path, l);
        case Link(_, _) => Unchanged(root, path, l);
        case Rename(_, _) => Unchanged(root, path, l);
      }
    }

    /** All operations of one chunk, on one path with one descriptor. */
    method HandleChunk(chunk: FileChunk, fd: bool) returns (fd': bool)
      requires FdOk(fd, chunk.path)
      modifies this
      ensures root == TreeReplay(old(root), chunk.path, chunk.ops) && FdOk(fd', chunk.path)
    {
      fd' := fd;
      for k := 0 to |chunk.ops|
        invariant root == TreeReplay(old(root), chunk.path, chunk.ops[..k]) && FdOk(fd', chunk.path)
      {
        var ok;
        fd', ok := HandleGenericOperation(chunk.path, fd', chunk.ops[k]);
        assert chunk.ops[..k + 1][..k] == chunk.ops[..k];
      }
      assert chunk.ops[..|chunk.ops|] == chunk.ops;
    }

    /** The chunks of one file, up to the one marked as last. A descriptor is carried from chunk to chunk, so
        the chunks of one file must have one path. None: the connection ended too early. */
    method HandleFile(stream: seq<FileChunk>) returns (rest: Option<seq<FileChunk>>)
      requires OnePathEach(stream)
      modifies this
      ensures (root, rest) == RunFile(old(root), stream)
      ensures rest.Some? ==> OnePathEach(rest.value) && |rest.value| < |stream|
    {
      var left := stream;
      var fd := false;
      while true
        invariant OnePathEach(left) && |left| <= |stream|
        invariant RunFile(root, left) == RunFile(old(root), stream)
        invariant left == [] || FdOk(fd, left[0].path)
        decreases |left|
      {
        if left == [] {
          return None;
        }
        var chunk := left[0];
        fd := HandleChunk(chunk, fd);
        left := left[1..];
        if chunk.last {
          return Some(left);
        }
      }
    }

    /** The outer loop of `handleClient`. */
    method HandleFiles(stream: seq<FileChunk>, nfiles: nat) returns (rest: Option<seq<FileChunk>>)
      requires OnePathEach(stream)
      modifies this
      ensures (root, rest) == RunFiles(old(root), stream, nfiles)
    {
      var left := stream;
      for i := 0 to nfiles
        invariant OnePathEach(left)
        invariant RunFiles(root, left, nfiles - i) == RunFiles(old(root), stream, nfiles)
      {
        rest := HandleFile(left);
        if rest.None? {
          return;
        }
        left := rest.value;
      }
      rest := Some(left);
    }
  }

  lemma Unchanged(t: Tree, p: Path, l: Loaded)
    requires l.op.Link? || l.op.Rename?
    ensures TreeApply(t, p, l) == t
  {
    assert Put(t, p, Lookup(t, p)) == t;
  }
}
