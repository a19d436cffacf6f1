/** A valid log after which the server's tree is not the client's. */
module LostMode {
  import opened Wrappers
  import opened Operations
  import opened Seqs
  import opened Posix
  import opened Optimizer
  import opened OptimizerLaws
  import opened NodeReplay
  import opened Reducer
  import opened ReducerLaws
  import opened History
  import opened TreeSync

  /** A directory, and a file in it. */
  const D: Path := ["d"]
  const F: Path := ["d", "f"]

  const OLD_FILE := File([], 0x180, NEW_OWNER)
  const TREE: Tree := map[[] := Dir(0x1ed, NEW_OWNER), D := Dir(0x1c0, NEW_OWNER), F := OLD_FILE]

  /** Both are removed; then both are made again, the directory with another mode. */
  const LOG: seq<Record> := [
    Record(F, Unlink(true, 7)), Record(D, Rmdir), Record(D, Mkdir(0x1ed)), Record(F, Create(0x180))]
  const DATA: seq<bytes> := [[], [], [], []]

  const ENTRY_D := Entry(D, 0, [GenOp(1, Rmdir), GenOp(2, Mkdir(0x1ed))], 8, 0, false)
  const ENTRY_F := Entry(F, 1, [GenOp(0, Unlink(true, 7)), GenOp(3, Create(0x180))], 8, 0, false)

  lemma Paths()
    ensures D != [] && F != [] && D != F && Parent(D) == [] && Parent(F) == D
  {
    assert |D| == 1 && |F| == 2;
  }

  lemma Trees()
    ensures TreeAt(TREE, LOG, DATA, 1) == TREE - {F}
    ensures TreeAt(TREE, LOG, DATA, 2) == TREE - {F, D}
    ensures TreeAt(TREE, LOG, DATA, 3) == (TREE - {F})[D := Dir(0x1ed, NEW_OWNER)]
    ensures TreeAt(TREE, LOG, DATA, 4) == TREE[D := Dir(0x1ed, NEW_OWNER)]
    ensures !HasChild(TREE - {F}, D)
  {
    Paths();
    assert TreeAt(TREE, LOG, DATA, 0) == TREE;
    forall c | c in TREE - {F} ensures !IsChild(c, D) {
    }
    assert TreeAt(TREE, LOG, DATA, 2) == TREE - {F, D};
  }

  lemma Valid()
    ensures ValidLog(TREE, LOG, DATA)
  {
    Paths();
    Trees();
    assert WellFormed(TREE);
    assert Possible(TREE, LOG[0], DATA[0]);
    assert Possible(TREE - {F}, LOG[1], DATA[1]);
    forall k: nat | k < |LOG| ensures Possible(TreeAt(TREE, LOG, DATA, k), LOG[k], DATA[k]) {
    }
  }

  lemma FindInTwo(a: Entry, b: Entry, p: Path)
    ensures FindPath([a], p) == if a.path == p then Some(a) else None
    ensures FindPath([a, b], p) == if b.path == p then Some(b) else FindPath([a], p)
  {
    assert [a][..0] == [] && [a, b][..1] == [a];
  }

  lemma ReplaceInTwo(a: Entry, b: Entry, e: Entry)
    requires a.path != b.path && (e.path == a.path || e.path == b.path)
    ensures Replace([a, b], e) == if e.path == a.path then [e, b] else [a, e]
  {
  }

  const UNLINKED := Entry(F, -1, [GenOp(0, Unlink(true, 7))], 8, 0, false)
  const REMOVED := Entry(D, -1, [GenOp(1, Rmdir)], 8, 0, false)

  lemma FirstTable()
    ensures AddOp(EMPTY_TABLE, F, Unlink(true, 7)) == Table([UNLINKED], [], 0, 1)
  {
  }

  lemma SecondTable()
    ensures AddOp(Table([UNLINKED], [], 0, 1), D, Rmdir) == Table([UNLINKED, REMOVED], [], 0, 2)
  {
    Paths();
    FilterAll(PathIsNot(D), [UNLINKED]);
    FindInTwo(UNLINKED, REMOVED, D);
  }

  /** An operation on the path of a purely deleted entry gives it the next order. */
  lemma Recreate(tb: Table, p: Path, op: Op, f: Entry, e: Entry, files: seq<Entry>)
    requires !op.Deletes() && !op.Link? && FindPath(tb.files, p) == Some(f) && f.order == -1 && |f.ops| < f.capacity
    requires e == f.(ops := f.ops + [GenOp(tb.nextId, op)], order := tb.fileorder) && Replace(tb.files, e) == files
    ensures AddOp(tb, p, op) == Table(files, tb.inodefiles, tb.fileorder + 1, tb.nextId + 1)
  {
  }

  lemma ThirdTable()
    ensures AddOp(Table([UNLINKED, REMOVED], [], 0, 2), D, Mkdir(0x1ed)) == Table([UNLINKED, ENTRY_D], [], 1, 3)
  {
    Paths();
    FindInTwo(UNLINKED, REMOVED, D);
    ReplaceInTwo(UNLINKED, REMOVED, ENTRY_D);
    assert REMOVED.ops + [GenOp(2, Mkdir(0x1ed))] == ENTRY_D.ops;
    Recreate(Table([UNLINKED, REMOVED], [], 0, 2), D, Mkdir(0x1ed), REMOVED, ENTRY_D, [UNLINKED, ENTRY_D]);
  }

  lemma FourthTable()
    ensures AddOp(Table([UNLINKED, ENTRY_D], [], 1, 3), F, Create(0x180)) == Table([ENTRY_F, ENTRY_D], [], 2, 4)
  {
    Paths();
    FindInTwo(UNLINKED, ENTRY_D, F);
    ReplaceInTwo(UNLINKED, ENTRY_D, ENTRY_F);
    assert UNLINKED.ops + [GenOp(3, Create(0x180))] == ENTRY_F.ops;
    Recreate(Table([UNLINKED, ENTRY_D], [], 1, 3), F, Create(0x180), UNLINKED, ENTRY_F, [ENTRY_F, ENTRY_D]);
  }

  lemma LastTable(log: seq<Record>, k: nat)
    requires log == LOG && k == 4
    ensures TableAt(log, k) == Table([ENTRY_F, ENTRY_D], [], 2, 4)
  {
    FirstTable();
    SecondTable();
    ThirdTable();
    FourthTable();
    assert TableAt(log, k - 4) == EMPTY_TABLE;
    assert TableAt(log, k - 3) == AddOp(TableAt(log, k - 4), F, Unlink(true, 7));
    assert TableAt(log, k - 2) == AddOp(TableAt(log, k - 3), D, Rmdir);
    assert TableAt(log, k - 1) == AddOp(TableAt(log, k - 2), D, Mkdir(0x1ed));
  }

  lemma SortTwo(a: Entry, b: Entry)
    requires a.order < b.order
    ensures StableSorted(ORDER, [b, a], [a, b])
  {
    forall k: int ensures Filter(HasKey(ORDER, k), [a, b]) == Filter(HasKey(ORDER, k), [b, a]) {
      assert [a, b] == [a] + [b] && [b, a] == [b] + [a];
      FilterAppend(HasKey(ORDER, k), [a], [b]);
      FilterAppend(HasKey(ORDER, k), [b], [a]);
      assert [a][..0] == [] && [b][..0] == [];
    }
  }

  /** A deletion and a creation need no optimizing. */
  lemma TwoOps(x: GenOp, y: GenOp)
    requires x.op.Deletes() && NewNode(y.op).Some?
    ensures IsOptimized([x, y], [x, y])
  {
    var ops := [x, y];
    HeadsBelow(x, y);
    ClippedWithoutTruncate(ops);
    SweptFinished(ops, 0);
    assert IsSorting(ops, ops);
  }

  lemma AttributesDiffer(t1: Tree)
    requires t1 == TREE[D := Dir(0x1ed, NEW_OWNER)]
    ensures !NothingLost(TREE, t1, [ENTRY_D, ENTRY_F])
  {
    Paths();
    assert F in TREE && F in t1 && IsChild(F, D);
    assert [ENTRY_D, ENTRY_F][0] == ENTRY_D && Blocked(TREE, t1, ENTRY_D);
    assert ENTRY_D.ops[..1] == [ENTRY_D.ops[0]] && ENTRY_D.ops[..1][..0] == [];
    assert LastMode(ENTRY_D.ops) == LastMode(ENTRY_D.ops[..1]) == None;
  }

  lemma Optimal(s: seq<Entry>, outs: seq<seq<GenOp>>)
    requires s == [ENTRY_D, ENTRY_F] && outs == [ENTRY_D.ops, ENTRY_F.ops]
    ensures |outs| == |s| && forall i :: 0 <= i < |s| ==> IsOptimized(s[i].ops, outs[i])
  {
    TwoOps(ENTRY_D.ops[0], ENTRY_D.ops[1]);
    TwoOps(ENTRY_F.ops[0], ENTRY_F.ops[1]);
  }

  lemma FinalTree()
    ensures TreeAt(TREE, LOG, DATA, |LOG|) == TREE[D := Dir(0x1ed, NEW_OWNER)]
  {
    Trees();
  }

  lemma Sorted()
    ensures StableSorted(ORDER, TableAt(LOG, |LOG|).files, [ENTRY_D, ENTRY_F])
  {
    LastTable(LOG, |LOG|);
    SortTwo(ENTRY_D, ENTRY_F);
  }

  /** Unlink a file, remove its directory, make both again with another mode for the directory: the server gets
      the directory first, cannot remove it because the old file is still in it, and keeps the old mode. */
  lemma ModeIsLost(s: seq<Entry>, outs: seq<seq<GenOp>>, t1: Tree)
    requires s == [ENTRY_D, ENTRY_F] && outs == [ENTRY_D.ops, ENTRY_F.ops] && t1 == TreeAt(TREE, LOG, DATA, |LOG|)
    ensures ValidLog(TREE, LOG, DATA) && StableSorted(ORDER, TableAt(LOG, |LOG|).files, s)
    ensures |outs| == |s| && forall i :: 0 <= i < |s| ==> IsOptimized(s[i].ops, outs[i])
    ensures ServerAt(TREE, t1, s, outs, |s|) != t1
  {
    Valid();
    Sorted();
    Optimal(s, outs);
    FinalTree();
    AttributesDiffer(t1);
    EpochSync(TREE, LOG, DATA, s, outs);
  }
}
