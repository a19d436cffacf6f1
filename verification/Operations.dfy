/** The operations of the log, as the protobuf messages of the repository describe them. */
module Operations {
  import opened Wrappers

  type byte = b: int | 0 <= b < 256
  type bytes = seq<byte>

  /** A relative path, as its components; the replicated root is the empty path. */
  type Path = seq<string>

  datatype Op =
    | Unlink(lastLink: bool, inode: int)
    | Rmdir
    | Create(mode: nat)
    | Mknod(mode: nat, dev: int)
    | Mkdir(mode: nat)
    | Symlink(target: string)
    | Link(oldpath: Path, newpath: Path)
    | Chmod(mode: nat)
    | Chown(uid: int, gid: int)
    | Truncate(newsize: nat)
    | Write(offset: nat, size: nat)
    | Rename(oldpath: Path, newpath: Path)
  {
    /** The number the operation type has on the wire; the optimizer sorts by it. */
    function Type(): nat {
      match this
      case Unlink(_, _) => 1
      case Rmdir => 2
      case Create(_) => 3
      case Mknod(_, _) => 4
      case Mkdir(_) => 5
      case Symlink(_) => 6
      case Link(_, _) => 7
      case Chmod(_) => 8
      case Chown(_, _) => 9
      case Truncate(_) => 12
      case Write(_, _) => 13
      case Rename(_, _) => 14
    }

    predicate Deletes() {
      Unlink? || Rmdir?
    }

    predicate Creates() {
      Create? || Mknod? || Mkdir? || Symlink? || Link?
    }

    /** Operations on a node that exists and goes on existing. */
    predicate Modifies() {
      Chmod? || Chown? || Truncate? || Write?
    }

    /** Right edge of a write interval. */
    function End(): nat
      requires Write?
    {
      offset + size
    }
  }

  /** A log record of one path: `id` is its position in the log. */
  datatype GenOp = GenOp(id: nat, op: Op)

  /** An operation as the server gets it: writes carry their data, unless loading it failed. */
  datatype Loaded = Loaded(op: Op, data: Option<bytes>)
}
