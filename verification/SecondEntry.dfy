/** A log after whose inodes are matched two entries have one path. */
module SecondEntry {
  import opened Wrappers
  import opened Operations
  import opened Seqs
  import opened Posix
  import opened Reducer
  import opened ReducerLaws
  import opened History
  import opened Inodes

  /** Two symbolic links are made, and the first is removed. It pointed to a file of another file system that has
      inode 7 there and more than one name: this is what `stat` reports when the removal is logged. */
  const LINKS: seq<Record> := [
    Record(["a"], Symlink("/mnt/x")), Record(["b"], Symlink("f")), Record(["a"], Unlink(false, 7))]

  const LISTED := Entry(["b"], 1, [GenOp(1, Symlink("f"))], 8, 0, true)
  const KEPT := Entry(["a"], 0, [GenOp(0, Symlink("/mnt/x"))], 1, 7, false)

  const START: Tree := map[[] := Dir(0x1ed, NEW_OWNER), ["f"] := File([], 0x180, NEW_OWNER)]
  const NO_DATA: seq<bytes> := [[], [], []]

  /** In the replicated file system the root has inode 256, the second link inode 7, and the file it points to
      inode 5. */
  const SNAPSHOT: map<Path, int> := map[[] := 256, ["b"] := 5, ["f"] := 5]
  const WALK := [Visit([], Some(256)), Visit(["b"], Some(7)), Visit(["f"], Some(5))]

  /** A client can log this. */
  lemma LinksAreLogged()
    ensures ValidLog(START, LINKS, NO_DATA)
  {
    var a: Path, b: Path, f: Path := ["a"], ["b"], ["f"];
    assert a[0] != b[0] && a[0] != f[0] && b[0] != f[0] && Parent(a) == Parent(b) == Parent(f) == [];
    var t1 := START[a := Sym("/mnt/x")];
    var t2 := t1[b := Sym("f")];
    assert TreeAt(START, LINKS, NO_DATA, 0) == START;
    assert TreeAt(START, LINKS, NO_DATA, 1) == t1;
    assert TreeAt(START, LINKS, NO_DATA, 2) == t2;
    forall k: nat | k < |LINKS| ensures Possible(TreeAt(START, LINKS, NO_DATA, k), LINKS[k], NO_DATA[k]) {
    }
  }

  lemma FirstLink()
    ensures AddOp(EMPTY_TABLE, ["a"], Symlink("/mnt/x")) ==
            Table([Entry(["a"], 0, [GenOp(0, Symlink("/mnt/x"))], 8, 0, true)], [], 1, 1)
  {
    var g := GenOp(0, Symlink("/mnt/x"));
    assert FindPath([], ["a"]).None? && [] + [g] == [g];
  }

  lemma SecondLink(first: Entry)
    requires first.path == ["a"]
    ensures AddOp(Table([first], [], 1, 1), ["b"], Symlink("f")) == Table([first, LISTED], [], 2, 2)
  {
    var g := GenOp(1, Symlink("f"));
    assert ["a"][0] != ["b"][0] && [] + [g] == [g];
    assert [first][..0] == [];
    assert FindPath([first], ["b"]).None?;
  }

  lemma FirstLinkRemoved(first: Entry)
    requires first == Entry(["a"], 0, [GenOp(0, Symlink("/mnt/x"))], 8, 0, true)
    ensures AddOp(Table([first, LISTED], [], 2, 2), ["a"], Unlink(false, 7)) == Table([LISTED], [KEPT], 2, 3)
  {
    assert [first, LISTED] == [first] + [LISTED] && [first][..0] == [];
    assert [first, LISTED][..1] == [first];
    assert FindPath([first, LISTED], ["a"]) == Some(first);
    FilterFirst(PathIsNot(["a"]), first, [LISTED]);
    FilterOne(PathIsNot(["a"]), LISTED);
    assert [] + first.ops == first.ops;
  }

  lemma LinksTable(log: seq<Record>, k: nat)
    requires log == LINKS && k == 3
    ensures TableAt(log, k) == Table([LISTED], [KEPT], 2, 3)
  {
    var first := Entry(["a"], 0, [GenOp(0, Symlink("/mnt/x"))], 8, 0, true);
    FirstLink();
    SecondLink(first);
    FirstLinkRemoved(first);
    assert TableAt(log, k - 3) == EMPTY_TABLE;
    assert TableAt(log, k - 2) == AddOp(TableAt(log, k - 3), ["a"], Symlink("/mnt/x"));
    assert TableAt(log, k - 1) == AddOp(TableAt(log, k - 2), ["b"], Symlink("f"));
  }

  lemma Missed(entries: seq<Entry>, visits: seq<Visit>, k: nat, kept: Entry)
    requires k < |visits| && Left(entries, visits, k) == [kept] && !Has(visits[k], kept.inode)
    ensures Left(entries, visits, k + 1) == [kept] && Claim(entries, visits, k).None?
    ensures Moved(entries, visits, k + 1) == Moved(entries, visits, k)
  {
    NothingFound(visits[k], kept);
  }

  lemma NothingFound(v: Visit, kept: Entry)
    requires !Has(v, kept.inode)
    ensures v.inode.Some? ==>
      FindInode([kept], v.inode.value).None? && Filter(InodeIsNot(v.inode.value), [kept]) == [kept]
  {
    if v.inode.Some? {
      FilterOne(InodeIsNot(v.inode.value), kept);
    }
  }

  lemma Hit(entries: seq<Entry>, visits: seq<Visit>, k: nat, kept: Entry)
    requires k < |visits| && Left(entries, visits, k) == [kept] && Has(visits[k], kept.inode)
    ensures Left(entries, visits, k + 1) == []
    ensures Moved(entries, visits, k + 1) == Moved(entries, visits, k) + [Merge(NewEntry(visits[k].path), kept)]
  {
    FilterOne(InodeIsNot(visits[k].inode.value), kept);
    assert FindInode([kept], visits[k].inode.value) == Some(kept) by {
      assert kept in [kept];
    }
  }

  /** Neither `stat` on the listed link nor the first step of the walk finds the inode; the second step does. */
  lemma SecondStep(kept: Entry, looks: seq<Visit>, visits: seq<Visit>, listed: Entry)
    requires |looks| == 1 && |visits| == 3
    requires !Has(looks[0], kept.inode) && !Has(visits[0], kept.inode) && Has(visits[1], kept.inode)
    ensures Left([kept], looks, |looks|) == [kept] && Merged([listed], [kept], looks, |looks|) == [listed]
    ensures Left([kept], visits, |visits|) == []
    ensures Moved([kept], visits, |visits|) == [Merge(NewEntry(visits[1].path), kept)]
  {
    Missed([kept], looks, 0, kept);
    Missed([kept], visits, 0, kept);
    Hit([kept], visits, 1, kept);
    NoneLeft([kept], visits, 2, 3);
    NoneMoved([kept], visits, 2, 3);
  }

  lemma HandedOver(t: Table, t': Table)
    requires t == Table([LISTED], [KEPT], 2, 3) && t' == Matched(t, SNAPSHOT, WALK)
    ensures t' == Table([LISTED, Entry(["b"], -1, KEPT.ops, 1, 0, false)], [], 3, 3)
  {
    var looks := FileVisits(SNAPSHOT, t.files);
    SecondStep(KEPT, looks, WALK, LISTED);
    assert [] + KEPT.ops == KEPT.ops;
  }

  /** The list of the first link becomes a second entry for the path of the other one. */
  lemma SymlinkCollides(t: Table, t': Table)
    requires t == TableAt(LINKS, |LINKS|) && t' == Matched(t, SNAPSHOT, WALK)
    ensures Collides(t, SNAPSHOT, WALK)
    ensures t'.inodefiles == [] && t'.files == [LISTED, Entry(["b"], -1, KEPT.ops, 1, 0, false)]
  {
    LinksTable(LINKS, |LINKS|);
    HandedOver(t, t');
    OtherPlaces(WALK);
    TwoEntries(t, SNAPSHOT, WALK);
  }

  lemma OtherPlaces(visits: seq<Visit>)
    requires visits == WALK
    ensures Ordered(OtherPlace, visits)
  {
    assert visits[1].path[0] != visits[2].path[0];
  }

  lemma TwoEntries(t: Table, snapshot: map<Path, int>, visits: seq<Visit>)
    requires |t.files| == 1 && Ordered(OtherPlace, visits)
    requires var files := Matched(t, snapshot, visits).files; |files| == 2 && files[0].path == files[1].path
    ensures Collides(t, snapshot, visits)
  {
    SecondPath(Matched(t, snapshot, visits).files);
    OneEntryEach(t, snapshot, visits);
  }

  lemma SecondPath(files: seq<Entry>)
    requires |files| == 2 && files[0].path == files[1].path
    ensures !Ordered(OtherPath, files)
  {
    assert !OtherPath(files[0], files[1]);
  }

  /** The second entry has order -1 and is sent first: the server makes a link to the wrong file, and then cannot make
      the right one any more. */
  lemma WrongTarget(sent: seq<Loaded>)
    requires sent == [Loaded(KEPT.ops[0].op, None), Loaded(LISTED.ops[0].op, None)]
    ensures Replay(None, sent) == Some(Sym("/mnt/x")) && Apply(None, sent[1]) == Some(Sym("f"))
  {
    assert sent[..1] == [sent[0]] && sent[..1][..0] == [];
    assert Replay(None, sent[..1]) == Apply(None, sent[0]) == Some(Sym("/mnt/x"));
  }
}
