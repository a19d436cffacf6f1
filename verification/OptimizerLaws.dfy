/** What every result of the optimizer keeps and what it drops. */
module OptimizerLaws {
  import opened Wrappers
  import opened Operations
  import opened Seqs
  import opened Optimizer

  ghost predicate IdsIncrease(ops: seq<GenOp>) {
    forall i, j :: 0 <= i < j < |ops| ==> ops[i].id < ops[j].id
  }

  /** Only writes that wrote something are logged. */
  predicate WritesSomething(g: GenOp) {
    g.op.Write? ==> g.op.size > 0
  }

  ghost predicate WritesPositive(ops: seq<GenOp>) {
    forall g :: g in ops ==> WritesSomething(g)
  }

  /** Position `q` lies in the interval of the write `g`. */
  predicate InWrite(g: GenOp, q: nat) {
    g.op.Write? && g.op.offset <= q < g.op.End()
  }

  ghost predicate Covers(ops: seq<GenOp>, q: nat) {
    exists g :: g in ops && InWrite(g, q)
  }

  /** The order of a finished list: types ascend, ids ascend within a type, and writes follow one
      another without overlap. */
  predicate StrictlyBelow(x: GenOp, y: GenOp) {
    || x.op.Type() < y.op.Type()
    || (x.op.Type() == y.op.Type() &&
        if x.op.Write? then y.op.Write? && x.op.offset < y.op.offset && x.op.End() <= y.op.offset else x.id < y.id)
  }

  /** A property that no write has. */
  ghost predicate NotOfWrites(p: GenOp -> bool) {
    forall g: GenOp :: g.op.Write? ==> !p(g)
  }

  function IsType(t: nat): GenOp -> bool {
    (g: GenOp) => g.op.Type() == t
  }

  const IS_NOT_WRITE: GenOp -> bool := (g: GenOp) => !g.op.Write?

  lemma OrdersOpposed()
    ensures Opposed(StrictlyBelow, Below)
  {
    forall x, y | Below(x, y) ensures !StrictlyBelow(y, x) {
      if x.op.Type() == y.op.Type() {
        SameType(x.op, y.op);
      }
    }
  }

  /******* Operations that are not writes *******/

  lemma {:induction false} ClippedKeeps(p: GenOp -> bool, ops: seq<GenOp>, limit: Option<nat>)
    requires NotOfWrites(p)
    ensures Filter(p, Clipped(ops, limit)) == Filter(p, ops)
  {
    if ops != [] {
      var n := |ops| - 1;
      var l := Limit(ops[n], limit);
      ClippedKeeps(p, ops[..n], l);
      var s := ClipSlot(ops[n], l);
      var tail := if s.Some? then [s.value] else [];
      FilterAppend(p, Clipped(ops[..n], l), tail);
      assert Filter(p, tail) == if p(ops[n]) then [ops[n]] else [] by {
        if s.Some? {
          FilterOne(p, s.value);
        }
      }
    }
  }

  lemma {:induction false} SweptKeeps(p: GenOp -> bool, ops: seq<GenOp>, m: nat)
    requires NotOfWrites(p)
    ensures Filter(p, Swept(ops, m)) == Filter(p, ops)
  {
    if ops != [] {
      var (s, m') := SweepSlot(Some(ops[0]), m);
      SweptKeeps(p, ops[1..], m');
      var head := if s.Some? then [s.value] else [];
      FilterAppend(p, head, Swept(ops[1..], m'));
      FilterAppend(p, [ops[0]], ops[1..]);
      assert ops == [ops[0]] + ops[1..];
      FilterOne(p, ops[0]);
      if s.Some? {
        FilterOne(p, s.value);
      }
    }
  }

  /** Operations other than writes all survive, each exactly once. If, as for the operations of one
      type, their order in the log already ascends strictly, they also survive in that order. */
  lemma NonWritesSurvive(p: GenOp -> bool, ops: seq<GenOp>, out: seq<GenOp>)
    requires IsOptimized(ops, out) && NotOfWrites(p)
    ensures multiset(Filter(p, out)) == multiset(Filter(p, ops))
    ensures Ordered(StrictlyBelow, Filter(p, ops)) ==> Filter(p, out) == Filter(p, ops)
  {
    var srt :| IsSorting(ops, srt) && out == Swept(srt, 0);
    SweptKeeps(p, srt, 0);
    ClippedKeeps(p, ops, None);
    forall g ensures multiset(Filter(p, srt))[g] == multiset(Filter(p, Clipped(ops, None)))[g] {
      FilterMultiset(p, srt, g);
      FilterMultiset(p, Clipped(ops, None), g);
    }
    assert multiset(Filter(p, srt)) == multiset(Filter(p, Clipped(ops, None)));
    if Ordered(StrictlyBelow, Filter(p, ops)) {
      FilterOrdered(p, Below, srt);
      OrdersOpposed();
      OrderedUnique(StrictlyBelow, Below, Filter(p, ops), Filter(p, srt));
    }
  }

  /** Within one type other than write, the result holds the operations of the log in log order. */
  lemma TypeInLogOrder(t: nat, ops: seq<GenOp>, out: seq<GenOp>)
    requires IsOptimized(ops, out) && IdsIncrease(ops) && t != 13
    ensures Filter(IsType(t), out) == Filter(IsType(t), ops)
  {
    var p := IsType(t);
    var later := (x: GenOp, y: GenOp) => x.id < y.id;
    assert Ordered(later, ops);
    FilterOrdered(p, later, ops);
    var f := Filter(p, ops);
    FilterMembers(p, ops);
    forall i, j | 0 <= i < j < |f| ensures StrictlyBelow(f[i], f[j]) {
      assert f[i] in f && f[j] in f && later(f[i], f[j]);
    }
    NonWritesSurvive(p, ops, out);
  }

  /******* Writes *******/

  /** `g` is what clipping and sweeping may leave of `h`: a write keeps its id and an inner part of
      its interval, anything else stays as it is. */
  predicate Within(g: GenOp, h: GenOp) {
    if h.op.Write? then
      g.op.Write? && g.id == h.id && h.op.offset <= g.op.offset && g.op.size > 0 && g.op.End() <= h.op.End()
    else g == h
  }

  lemma {:induction false} ClippedMembers(ops: seq<GenOp>, limit: Option<nat>, g: GenOp) returns (h: GenOp)
    requires WritesPositive(ops) && g in Clipped(ops, limit)
    ensures h in ops && Within(g, h)
    ensures limit.Some? && g.op.Write? ==> g.op.End() <= limit.value
  {
    var n := |ops| - 1;
    var l := Limit(ops[n], limit);
    if Some(g) == ClipSlot(ops[n], l) {
      h := ops[n];
    } else {
      h := ClippedMembers(ops[..n], l, g);
    }
  }

  lemma {:induction false} SweptMembers(ops: seq<GenOp>, m: nat, g: GenOp) returns (h: GenOp)
    requires WritesPositive(ops) && g in Swept(ops, m)
    ensures h in ops && Within(g, h)
    ensures g.op.Write? ==> m <= g.op.offset
  {
    var (s, m') := SweepSlot(Some(ops[0]), m);
    if Some(g) == s {
      h := ops[0];
    } else {
      h := SweptMembers(ops[1..], m', g);
    }
  }

  /** What the sweep leaves of one operation lies strictly below what it leaves of a later one. */
  lemma SeparatedStep(x: GenOp, x': GenOp, h: GenOp, g: GenOp)
    requires Below(x, h) && Within(x', x) && Within(g, h)
    requires !x.op.Write? && !h.op.Write? ==> StrictlyBelow(x, h)
    requires x'.op.Write? && g.op.Write? ==> x'.op.End() <= g.op.offset
    ensures StrictlyBelow(x', g)
  {
    assert x'.op.Type() == x.op.Type() && g.op.Type() == h.op.Type();
    if x.op.Type() == h.op.Type() {
      SameType(x.op, h.op);
    }
  }

  lemma {:induction false} SweptSeparates(ops: seq<GenOp>, m: nat)
    requires Sorted(ops) && WritesPositive(ops)
    requires Ordered(StrictlyBelow, Filter(IS_NOT_WRITE, ops))
    ensures Ordered(StrictlyBelow, Swept(ops, m))
  {
    if ops != [] {
      var (s, m') := SweepSlot(Some(ops[0]), m);
      assert WritesSomething(ops[0]);
      NonWritesAhead(ops);
      SweptSeparates(ops[1..], m');
      var rest := Swept(ops[1..], m');
      if s.Some? {
        forall i | 0 <= i < |rest| ensures StrictlyBelow(s.value, rest[i]) {
          var h := SweptMembers(ops[1..], m', rest[i]);
          SeparatedStep(ops[0], s.value, h, rest[i]);
        }
      }
    }
  }

  lemma OrderedTail(f: seq<GenOp>, head: seq<GenOp>, f1: seq<GenOp>)
    requires f == head + f1 && Ordered(StrictlyBelow, f)
    ensures Ordered(StrictlyBelow, f1)
    ensures forall x, y :: x in head && y in f1 ==> StrictlyBelow(x, y)
  {
    assert f1 == f[|head|..];
    forall i, j | 0 <= i < |head| && 0 <= j < |f1| ensures StrictlyBelow(head[i], f1[j]) {
      assert f[i] == head[i] && f[|head| + j] == f1[j];
    }
  }

  lemma NonWritesAhead(ops: seq<GenOp>)
    requires ops != [] && Ordered(StrictlyBelow, Filter(IS_NOT_WRITE, ops))
    ensures Ordered(StrictlyBelow, Filter(IS_NOT_WRITE, ops[1..]))
    ensures !ops[0].op.Write? ==> forall h :: h in ops[1..] && !h.op.Write? ==> StrictlyBelow(ops[0], h)
  {
    FilterAppend(IS_NOT_WRITE, [ops[0]], ops[1..]);
    FilterOne(IS_NOT_WRITE, ops[0]);
    assert ops == [ops[0]] + ops[1..];
    OrderedTail(Filter(IS_NOT_WRITE, ops), Filter(IS_NOT_WRITE, [ops[0]]), Filter(IS_NOT_WRITE, ops[1..]));
    FilterMembers(IS_NOT_WRITE, ops[1..]);
  }

  /******* One write after the other *******/

  /** The highest right edge of a write in the list, or `m` if none is higher. */
  function Reach(ops: seq<GenOp>, m: nat): nat {
    if ops == [] then m
    else
      var n := |ops| - 1;
      var r := Reach(ops[..n], m);
      if ops[n].op.Write? && ops[n].op.End() > r then ops[n].op.End() else r
  }

  lemma {:induction false} ReachBounds(ops: seq<GenOp>, m: nat, i: nat)
    requires i < |ops|
    ensures m <= Reach(ops, m) && (ops[i].op.Write? ==> ops[i].op.End() <= Reach(ops, m))
  {
    var n := |ops| - 1;
    if i < n {
      ReachBounds(ops[..n], m, i);
    } else if n > 0 {
      ReachBounds(ops[..n], m, 0);
    }
  }

  lemma {:induction false} ReachIsEdge(ops: seq<GenOp>, m: nat) returns (i: nat)
    requires Reach(ops, m) != m
    ensures i < |ops| && ops[i].op.Write? && ops[i].op.End() == Reach(ops, m)
  {
    i := |ops| - 1;
    if Reach(ops, m) == Reach(ops[..i], m) {
      i := ReachIsEdge(ops[..i], m);
    }
  }

  /** What an operation adds to the swept list: a write only what lies above all earlier ones. */
  function Piece(g: GenOp, reach: nat): seq<GenOp> {
    if !g.op.Write? then [g]
    else if g.op.End() <= reach then []
    else if g.op.offset < reach then [GenOp(g.id, Write(reach, g.op.End() - reach))]
    else [g]
  }

  lemma {:induction false} ReachFirst(ops: seq<GenOp>, m: nat)
    requires ops != []
    ensures Reach(ops, m) == Reach(ops[1..], SweepSlot(Some(ops[0]), m).1)
  {
    var n := |ops| - 1;
    if n == 0 {
      assert Reach(ops[..0], m) == m;
    } else {
      ReachFirst(ops[..n], m);
      FirstAndLast(ops);
    }
  }

  /** The sweep keeps of each write, in their sorted order, the part above everything in front of it. */
  lemma {:induction false} SweptNext(ops: seq<GenOp>, g: GenOp, m: nat)
    ensures Swept(ops + [g], m) == Swept(ops, m) + Piece(g, Reach(ops, m))
  {
    if ops == [] {
      assert [g][1..] == [] && ops + [g] == [g];
    } else {
      var (s, m') := SweepSlot(Some(ops[0]), m);
      SweptNext(ops[1..], g, m');
      ReachFirst(ops, m);
      assert (ops + [g])[1..] == ops[1..] + [g];
      Assoc(if s.Some? then [s.value] else [], Swept(ops[1..], m'), Piece(g, Reach(ops, m)));
    }
  }

  /******* The finished list *******/

  lemma NonWritesStrict(ops: seq<GenOp>, srt: seq<GenOp>)
    requires IdsIncrease(ops) && IsSorting(ops, srt)
    ensures Ordered(StrictlyBelow, Filter(IS_NOT_WRITE, srt))
  {
    var later := (x: GenOp, y: GenOp) => x.id < y.id;
    var a := Filter(IS_NOT_WRITE, ops);
    var f := Filter(IS_NOT_WRITE, srt);
    assert Ordered(later, ops);
    FilterOrdered(IS_NOT_WRITE, later, ops);
    FilterOrdered(IS_NOT_WRITE, Below, srt);
    SortingKeeps(IS_NOT_WRITE, ops, srt);
    FilterMembers(IS_NOT_WRITE, srt);
    forall i, j | 0 <= i < j < |f| ensures StrictlyBelow(f[i], f[j]) {
      assert f[i] in f && f[j] in f;
      NoRepeats(later, a, f[i]);
      if f[i] == f[j] {
        Repeats(f, i, j);
      }
      DistinctIds(a, f[i], f[j]);
      if f[i].op.Type() == f[j].op.Type() {
        SameType(f[i].op, f[j].op);
      }
    }
  }

  lemma SortingKeeps(p: GenOp -> bool, ops: seq<GenOp>, srt: seq<GenOp>)
    requires IsSorting(ops, srt) && NotOfWrites(p)
    ensures multiset(Filter(p, srt)) == multiset(Filter(p, ops))
  {
    ClippedKeeps(p, ops, None);
    forall g ensures multiset(Filter(p, srt))[g] == multiset(Filter(p, Clipped(ops, None)))[g] {
      FilterMultiset(p, srt, g);
      FilterMultiset(p, Clipped(ops, None), g);
    }
  }

  lemma DistinctIds(a: seq<GenOp>, x: GenOp, y: GenOp)
    requires Ordered((x: GenOp, y: GenOp) => x.id < y.id, a)
    requires x in multiset(a) && y in multiset(a) && x != y
    ensures x.id != y.id
  {
    var later := (x: GenOp, y: GenOp) => x.id < y.id;
    var i :| 0 <= i < |a| && a[i] == x;
    var j :| 0 <= j < |a| && a[j] == y;
    assert i < j ==> later(a[i], a[j]);
    assert j < i ==> later(a[j], a[i]);
  }

  lemma SortingPositive(ops: seq<GenOp>, srt: seq<GenOp>)
    requires WritesPositive(ops) && IsSorting(ops, srt)
    ensures WritesPositive(srt)
  {
    forall g | g in srt ensures WritesSomething(g) {
      assert g in multiset(srt) && g in Clipped(ops, None);
      var h := ClippedMembers(ops, None, g);
    }
  }

  /** The result is in strict order: by type, by log position within a type, and its writes are sorted,
      pairwise disjoint and of positive size. */
  lemma FinishedOrder(ops: seq<GenOp>, out: seq<GenOp>)
    requires IdsIncrease(ops) && WritesPositive(ops) && IsOptimized(ops, out)
    ensures Ordered(StrictlyBelow, out) && WritesPositive(out)
  {
    var srt :| IsSorting(ops, srt) && out == Swept(srt, 0);
    NonWritesStrict(ops, srt);
    SortingPositive(ops, srt);
    SweptSeparates(srt, 0);
    forall g | g in out ensures WritesSomething(g) {
      var h := SweptMembers(srt, 0, g);
    }
  }

  /** Deletions are sent before creations, creations before new modes, those before new owners, those before
      truncates, and those before writes. */
  lemma SentOrder(ops: seq<GenOp>, out: seq<GenOp>, i: nat, j: nat)
    requires IdsIncrease(ops) && WritesPositive(ops) && IsOptimized(ops, out) && i < j < |out|
    ensures var x, y := out[i].op, out[j].op;
      && (y.Unlink? ==> x.Unlink?)
      && (y.Rmdir? ==> x.Unlink? || x.Rmdir?)
      && (y.Create? || y.Mknod? || y.Mkdir? || y.Symlink? || y.Link? ==> x.Deletes() || x.Creates())
      && (y.Chmod? ==> x.Deletes() || x.Creates() || x.Chmod?)
      && (y.Chown? ==> x.Deletes() || x.Creates() || x.Chmod? || x.Chown?)
      && (y.Truncate? ==> x.Deletes() || x.Creates() || x.Chmod? || x.Chown? || x.Truncate?)
      && (y.Write? ==> !x.Rename?)
  {
    FinishedOrder(ops, out);
    Related(StrictlyBelow, out, i, j);
  }

  /** Among the creations the number of the type on the wire decides. */
  lemma CreationOrder(ops: seq<GenOp>, out: seq<GenOp>, i: nat, j: nat)
    requires IdsIncrease(ops) && WritesPositive(ops) && IsOptimized(ops, out) && i < j < |out|
    ensures var x, y := out[i].op, out[j].op;
      && (y.Create? ==> !x.Mknod? && !x.Mkdir? && !x.Symlink? && !x.Link?)
      && (y.Mknod? ==> !x.Mkdir? && !x.Symlink? && !x.Link?)
      && (y.Mkdir? ==> !x.Symlink? && !x.Link?)
      && (y.Symlink? ==> !x.Link?)
  {
    FinishedOrder(ops, out);
    Related(StrictlyBelow, out, i, j);
  }

  /** Whatever is in the result is an operation of the log, or the remainder of a write of the log. */
  lemma Origin(ops: seq<GenOp>, out: seq<GenOp>, g: GenOp) returns (h: GenOp)
    requires WritesPositive(ops) && IsOptimized(ops, out) && g in out
    ensures h in ops && Within(g, h)
  {
    var srt :| IsSorting(ops, srt) && out == Swept(srt, 0);
    SortingPositive(ops, srt);
    var k := SweptMembers(srt, 0, g);
    assert k in multiset(srt) && k in Clipped(ops, None);
    h := ClippedMembers(ops, None, k);
  }

  /******* Coverage *******/

  lemma CoversOne(g: GenOp, q: nat)
    ensures Covers([g], q) <==> InWrite(g, q)
  {
    assert g in [g];
  }

  lemma CoversAppend(a: seq<GenOp>, b: seq<GenOp>, q: nat)
    ensures Covers(a + b, q) <==> Covers(a, q) || Covers(b, q)
  {
    if Covers(a, q) {
      var g :| g in a && InWrite(g, q);
      assert g in a + b;
    }
    if Covers(b, q) {
      var g :| g in b && InWrite(g, q);
      assert g in a + b;
    }
  }

  lemma CoversCons(ops: seq<GenOp>, q: nat)
    requires ops != []
    ensures Covers(ops, q) <==> InWrite(ops[0], q) || Covers(ops[1..], q)
  {
    assert ops == [ops[0]] + ops[1..];
    CoversAppend([ops[0]], ops[1..], q);
    CoversOne(ops[0], q);
  }

  /** Under a sorted list the sweep loses nothing but what lay below `m` to begin with. */
  lemma {:induction false} SweptCovers(ops: seq<GenOp>, m: nat, q: nat)
    requires Sorted(ops) && WritesPositive(ops)
    ensures Covers(Swept(ops, m), q) <==> m <= q && Covers(ops, q)
  {
    if ops != [] {
      var (s, m') := SweepSlot(Some(ops[0]), m);
      var head := if s.Some? then [s.value] else [];
      SweptCovers(ops[1..], m', q);
      CoversAppend(head, Swept(ops[1..], m'), q);
      CoversCons(ops, q);
      if s.Some? {
        CoversOne(s.value, q);
      }
      if ops[0].op.Write? && Covers(ops[1..], q) {
        var g :| g in ops[1..] && InWrite(g, q);
        assert Below(ops[0], g);
      }
    }
  }

  /** The surviving writes cover exactly the positions that the clipped writes cover. */
  lemma CoverageKept(ops: seq<GenOp>, out: seq<GenOp>, q: nat)
    requires WritesPositive(ops) && IsOptimized(ops, out)
    ensures Covers(out, q) <==> Covers(Clipped(ops, None), q)
  {
    var srt :| IsSorting(ops, srt) && out == Swept(srt, 0);
    SortingPositive(ops, srt);
    SweptCovers(srt, 0, q);
    assert forall g :: g in srt <==> g in multiset(srt);
    assert forall g :: g in Clipped(ops, None) <==> g in multiset(Clipped(ops, None));
  }

  /******* Nothing is left, and running it again *******/

  lemma {:induction false} ClippedWithoutTruncate(ops: seq<GenOp>)
    requires forall g :: g in ops ==> !g.op.Truncate?
    ensures Clipped(ops, None) == ops
  {
    if ops != [] {
      var n := |ops| - 1;
      assert ops == ops[..n] + [ops[n]];
      ClippedWithoutTruncate(ops[..n]);
    }
  }

  /** A list that holds something still does: every file the client announces sends an operation. */
  lemma NeverEmpties(ops: seq<GenOp>, out: seq<GenOp>)
    requires WritesPositive(ops) && IsOptimized(ops, out) && ops != []
    ensures out != []
  {
    if g :| g in ops && !g.op.Write? {
      NonWritesSurvive(IS_NOT_WRITE, ops, out);
      FilterMembers(IS_NOT_WRITE, ops);
      FilterMembers(IS_NOT_WRITE, out);
      assert g in multiset(Filter(IS_NOT_WRITE, ops));
      assert g in multiset(Filter(IS_NOT_WRITE, out));
    } else {
      ClippedWithoutTruncate(ops);
      assert ops[0] in ops && WritesSomething(ops[0]);
      CoverageKept(ops, out, ops[0].op.offset);
      assert InWrite(ops[0], ops[0].op.offset);
    }
  }

  lemma {:induction false} ClippedWithoutWrites(ops: seq<GenOp>, limit: Option<nat>)
    requires forall g :: g in ops ==> !g.op.Write?
    ensures Clipped(ops, limit) == ops
  {
    if ops != [] {
      var n := |ops| - 1;
      assert ops == ops[..n] + [ops[n]];
      ClippedWithoutWrites(ops[..n], Limit(ops[n], limit));
    }
  }

  lemma {:induction false} ClippedFinished(out: seq<GenOp>)
    requires Ordered(StrictlyBelow, out)
    ensures Clipped(out, None) == out
  {
    if out != [] {
      var n := |out| - 1;
      assert out == out[..n] + [out[n]];
      if out[n].op.Truncate? {
        assert forall i :: 0 <= i < n ==> StrictlyBelow(out[i], out[n]);
        ClippedWithoutWrites(out[..n], Some(out[n].op.newsize));
      } else {
        ClippedFinished(out[..n]);
      }
    }
  }

  lemma {:induction false} SweptFinished(out: seq<GenOp>, m: nat)
    requires Ordered(StrictlyBelow, out) && WritesPositive(out)
    requires forall g :: g in out && g.op.Write? ==> m <= g.op.offset
    ensures Swept(out, m) == out
  {
    if out != [] {
      assert WritesSomething(out[0]) && out[0] in out;
      assert forall i :: 0 < i < |out| ==> StrictlyBelow(out[0], out[i]);
      SweptFinished(out[1..], SweepSlot(Some(out[0]), m).1);
      assert out == [out[0]] + out[1..];
    }
  }

  /** Optimizing a second time changes nothing, whatever the sort does. */
  lemma OptimizeTwice(ops: seq<GenOp>, out: seq<GenOp>, again: seq<GenOp>)
    requires IdsIncrease(ops) && WritesPositive(ops) && IsOptimized(ops, out) && IsOptimized(out, again)
    ensures again == out
  {
    FinishedOrder(ops, out);
    ClippedFinished(out);
    var srt :| IsSorting(out, srt) && again == Swept(srt, 0);
    OrdersOpposed();
    OrderedUnique(StrictlyBelow, Below, out, srt);
    SweptFinished(out, 0);
  }

  /******* The number of bytes to send *******/

  function WriteSize(g: GenOp): nat {
    if g.op.Write? then g.op.size else 0
  }

  function Total(ops: seq<GenOp>): nat {
    if ops == [] then 0 else Total(ops[..|ops| - 1]) + WriteSize(ops[|ops| - 1])
  }

  predicate Between(a: nat, q: nat, b: nat) {
    a <= q < b
  }

  function Range(a: nat, b: nat): set<nat> {
    set q: nat | q < b && Between(a, q, b)
  }

  function Interval(g: GenOp): set<nat> {
    if g.op.Write? then Range(g.op.offset, g.op.End()) else {}
  }

  function Covered(ops: seq<GenOp>): set<nat> {
    if ops == [] then {} else Covered(ops[..|ops| - 1]) + Interval(ops[|ops| - 1])
  }

  lemma {:induction false} CoveredMeaning(ops: seq<GenOp>, q: nat)
    ensures q in Covered(ops) <==> Covers(ops, q)
  {
    if ops != [] {
      var n := |ops| - 1;
      assert ops == ops[..n] + [ops[n]];
      CoveredMeaning(ops[..n], q);
      CoversAppend(ops[..n], [ops[n]], q);
      CoversOne(ops[n], q);
    }
  }

  lemma {:induction false} RangeSize(a: nat, b: nat)
    requires a <= b
    ensures |Range(a, b)| == b - a
  {
    if a < b {
      RangeSize(a, b - 1);
      assert Range(a, b) == Range(a, b - 1) + {b - 1};
    }
  }

  lemma IntervalSize(g: GenOp)
    ensures |Interval(g)| == WriteSize(g)
  {
    if g.op.Write? {
      RangeSize(g.op.offset, g.op.End());
    }
  }

  lemma UnionSize(a: set<nat>, b: set<nat>)
    ensures |a + b| <= |a| + |b|
    ensures a !! b ==> |a + b| == |a| + |b|
  {
    assert a + b == a + (b - a);
    assert |b - a| <= |b| by {
      assert b == (b - a) + (b * a);
    }
  }

  /** In a finished list the last interval meets none of the earlier ones. */
  lemma LastIsDisjoint(ops: seq<GenOp>)
    requires ops != [] && Ordered(StrictlyBelow, ops)
    ensures Covered(ops[..|ops| - 1]) !! Interval(ops[|ops| - 1])
  {
    var n := |ops| - 1;
    forall q | q in Covered(ops[..n]) ensures q !in Interval(ops[n]) {
      CoveredMeaning(ops[..n], q);
      var g :| g in ops[..n] && InWrite(g, q);
      var i :| 0 <= i < n && ops[i] == g;
      assert StrictlyBelow(ops[i], ops[n]);
    }
  }

  lemma {:induction false} TotalBounds(ops: seq<GenOp>)
    ensures |Covered(ops)| <= Total(ops)
    ensures Ordered(StrictlyBelow, ops) ==> |Covered(ops)| == Total(ops)
  {
    if ops != [] {
      var n := |ops| - 1;
      TotalBounds(ops[..n]);
      IntervalSize(ops[n]);
      UnionSize(Covered(ops[..n]), Interval(ops[n]));
      if Ordered(StrictlyBelow, ops) {
        LastIsDisjoint(ops);
      }
    }
  }

  lemma TotalOne(a: seq<GenOp>, g: GenOp)
    ensures Total(a + [g]) == Total(a) + WriteSize(g)
  {
    assert (a + [g])[..|a|] == a;
  }

  lemma TotalStep(clipped: seq<GenOp>, ops: seq<GenOp>, g: GenOp, limit: Option<nat>)
    requires Total(clipped) <= Total(ops)
    ensures var s := ClipSlot(g, limit);
      Total(if s.Some? then clipped + [s.value] else clipped) <= Total(ops + [g])
  {
    var s := ClipSlot(g, limit);
    TotalOne(ops, g);
    if s.Some? {
      TotalOne(clipped, s.value);
    }
  }

  lemma {:induction false} ClippedTotal(ops: seq<GenOp>, limit: Option<nat>)
    ensures Total(Clipped(ops, limit)) <= Total(ops)
  {
    if ops != [] {
      var n := |ops| - 1;
      var l := Limit(ops[n], limit);
      ClippedTotal(ops[..n], l);
      TotalStep(Clipped(ops[..n], l), ops[..n], ops[n], l);
      assert ops == ops[..n] + [ops[n]];
    }
  }

  /** The writes sent are as many bytes as the clipped log writes to distinct positions: never more than
      without the optimizer, and the same whichever way the sort breaks ties. */
  lemma BytesSent(ops: seq<GenOp>, out: seq<GenOp>)
    requires IdsIncrease(ops) && WritesPositive(ops) && IsOptimized(ops, out)
    ensures Total(out) == |Covered(Clipped(ops, None))| <= Total(ops)
  {
    FinishedOrder(ops, out);
    TotalBounds(out);
    forall q: nat ensures q in Covered(out) <==> q in Covered(Clipped(ops, None)) {
      CoverageKept(ops, out, q);
      CoveredMeaning(out, q);
      CoveredMeaning(Clipped(ops, None), q);
    }
    assert Covered(out) == Covered(Clipped(ops, None));
    TotalBounds(Clipped(ops, None));
    ClippedTotal(ops, None);
  }
}
