/** Replaying a list of operations on the content of one file: the list the client executed, with the data
    of each write, against the optimized list with data read back from the final file. */
module FileReplay {
  import opened Wrappers
  import opened Operations
  import opened Seqs
  import opened Posix
  import opened Optimizer
  import opened OptimizerLaws

  /******* Data *******/

  /** The bytes the client's write with this id carried; the log itself does not hold them. */
  function DataOf(d: seq<bytes>, g: GenOp): bytes {
    if g.id < |d| then d[g.id] else []
  }

  /** What the client executed. */
  function Executed(ops: seq<GenOp>, d: seq<bytes>): (r: seq<Loaded>)
    ensures |r| == |ops|
  {
    if ops == [] then []
    else
      var n := |ops| - 1;
      Executed(ops[..n], d) + [Loaded(ops[n].op, Some(DataOf(d, ops[n])))]
  }

  /** Read the data of one write from the final file `f`; the read must not come up short. */
  function Load(g: GenOp, f: bytes): Loaded {
    if g.op.Write? && g.op.End() <= |f| then Loaded(g.op, Some(f[g.op.offset..g.op.End()]))
    else Loaded(g.op, None)
  }

  function LoadAll(ops: seq<GenOp>, f: bytes): (r: seq<Loaded>)
    ensures |r| == |ops|
  {
    if ops == [] then []
    else
      var n := |ops| - 1;
      LoadAll(ops[..n], f) + [Load(ops[n], f)]
  }

  lemma {:induction false} LoadAllEach(ops: seq<GenOp>, f: bytes)
    ensures forall i :: 0 <= i < |ops| ==> LoadAll(ops, f)[i] == Load(ops[i], f)
  {
    if ops != [] {
      LoadAllEach(ops[..|ops| - 1], f);
    }
  }

  /** Every write of the client wrote as many bytes as the log says, and at least one. */
  ghost predicate DataFits(ops: seq<GenOp>, d: seq<bytes>) {
    forall g :: g in ops && g.op.Write? ==> |DataOf(d, g)| == g.op.size > 0
  }

  /** The content of a file after the operations; only truncates and writes touch it. */
  function Content(c: bytes, ls: seq<Loaded>): bytes {
    if ls == [] then c
    else
      var n := |ls| - 1;
      var before := Content(c, ls[..n]);
      match ls[n].op
      case Truncate(size) => Trunc(before, size)
      case Write(off, _) => if ls[n].data.Some? then Pwrite(before, off, ls[n].data.value) else before
      case _ => before
  }

  /******* Bytes *******/

  lemma TruncAt(c: bytes, n: nat, q: nat)
    ensures |Trunc(c, n)| == n
    ensures At(Trunc(c, n), q) == if q < n then At(c, q) else 0
  {
  }

  lemma PwriteAt(c: bytes, off: nat, data: bytes, q: nat)
    requires data != []
    ensures |Pwrite(c, off, data)| == if off + |data| <= |c| then |c| else off + |data|
    ensures At(Pwrite(c, off, data), q) == if off <= q < off + |data| then data[q - off] else At(c, q)
  {
  }

  lemma SameBytes(a: bytes, b: bytes)
    requires |a| == |b|
    requires forall q: nat :: q < |a| ==> At(a, q) == At(b, q)
    ensures a == b
  {
    forall i | 0 <= i < |a| ensures a[i] == b[i] {
      assert At(a, i) == At(b, i);
    }
  }

  /******* The client's file *******/

  /** The old content after the truncates alone. */
  function Base(c: bytes, ops: seq<GenOp>): bytes {
    if ops == [] then c
    else
      var n := |ops| - 1;
      if ops[n].op.Truncate? then Trunc(Base(c, ops[..n]), ops[n].op.newsize) else Base(c, ops[..n])
  }

  /** `f` is `base` with some bytes written at exactly the covered positions. */
  ghost predicate Overlay(base: bytes, f: bytes, ops: seq<GenOp>) {
    && |base| <= |f|
    && (|base| < |f| ==> Covers(ops, |f| - 1))
    && (forall q: nat :: Covers(ops, q) ==> q < |f|)
    && (forall q: nat :: !Covers(ops, q) ==> At(f, q) == At(base, q))
  }

  /** A position no write of the log ever touched reads as if there had been only truncates. */
  lemma {:induction false} Untouched(c: bytes, ops: seq<GenOp>, d: seq<bytes>, q: nat)
    requires DataFits(ops, d) && !Covers(ops, q)
    ensures At(Content(c, Executed(ops, d)), q) == At(Base(c, ops), q)
  {
    if ops != [] {
      var n := |ops| - 1;
      assert ops == ops[..n] + [ops[n]];
      CoversAppend(ops[..n], [ops[n]], q);
      CoversOne(ops[n], q);
      Untouched(c, ops[..n], d, q);
      assert Executed(ops, d)[..n] == Executed(ops[..n], d);
      var f := Content(c, Executed(ops[..n], d));
      if ops[n].op.Write? {
        PwriteAt(f, ops[n].op.offset, DataOf(d, ops[n]), q);
      } else if ops[n].op.Truncate? {
        TruncAt(f, ops[n].op.newsize, q);
        TruncAt(Base(c, ops[..n]), ops[n].op.newsize, q);
      }
    }
  }

  /** Clipping against `t` leaves coverage below `t` alone. */
  lemma {:induction false} ClippedCovers(ops: seq<GenOp>, t: nat, q: nat)
    ensures Covers(Clipped(ops, Some(t)), q) <==> q < t && Covers(ops, q)
  {
    if ops != [] {
      var n := |ops| - 1;
      assert ops == ops[..n] + [ops[n]];
      ClippedCovers(ops[..n], t, q);
      var s := ClipSlot(ops[n], Some(t));
      var tail := if s.Some? then [s.value] else [];
      CoversAppend(ops[..n], [ops[n]], q);
      CoversOne(ops[n], q);
      CoversAppend(Clipped(ops[..n], Some(t)), tail, q);
      if s.Some? {
        CoversOne(s.value, q);
      }
    }
  }

  lemma OverlayWrite(base: bytes, f: bytes, ops: seq<GenOp>, g: GenOp, data: bytes)
    requires Overlay(base, f, ops) && g.op.Write? && |data| == g.op.size > 0
    ensures Overlay(base, Pwrite(f, g.op.offset, data), ops + [g])
  {
    var f' := Pwrite(f, g.op.offset, data);
    forall q: nat
      ensures Covers(ops + [g], q) <==> Covers(ops, q) || InWrite(g, q)
      ensures At(f', q) == if InWrite(g, q) then data[q - g.op.offset] else At(f, q)
    {
      CoversAppend(ops, [g], q);
      CoversOne(g, q);
      PwriteAt(f, g.op.offset, data, q);
    }
    PwriteAt(f, g.op.offset, data, 0);
    assert |f| < |f'| ==> InWrite(g, |f'| - 1);
  }

  lemma OverlayTruncate(c: bytes, ops: seq<GenOp>, d: seq<bytes>, t: nat)
    requires DataFits(ops, d)
    ensures Overlay(Trunc(Base(c, ops), t), Trunc(Content(c, Executed(ops, d)), t), Clipped(ops, Some(t)))
  {
    var f := Content(c, Executed(ops, d));
    forall q: nat
      ensures Covers(Clipped(ops, Some(t)), q) ==> q < t
      ensures !Covers(Clipped(ops, Some(t)), q) ==> At(Trunc(f, t), q) == At(Trunc(Base(c, ops), t), q)
    {
      ClippedCovers(ops, t, q);
      TruncAt(f, t, q);
      TruncAt(Base(c, ops), t, q);
      if !Covers(ops, q) {
        Untouched(c, ops, d, q);
      }
    }
  }

  lemma ExecutedMore(c: bytes, ops: seq<GenOp>, g: GenOp, d: seq<bytes>)
    ensures var e := Executed(ops + [g], d);
      |e| == |ops| + 1 && e[..|ops|] == Executed(ops, d) && e[|ops|] == Loaded(g.op, Some(DataOf(d, g)))
    ensures Base(c, ops + [g]) == if g.op.Truncate? then Trunc(Base(c, ops), g.op.newsize) else Base(c, ops)
    ensures Clipped(ops + [g], None) ==
            var s := ClipSlot(g, Limit(g, None));
            if s.Some? then Clipped(ops, Limit(g, None)) + [s.value] else Clipped(ops, Limit(g, None))
  {
    assert (ops + [g])[..|ops|] == ops;
  }

  lemma ClientFileStep(c: bytes, ops: seq<GenOp>, g: GenOp, d: seq<bytes>)
    requires DataFits(ops + [g], d) && DataFits(ops, d)
    requires !g.op.Truncate? ==> Overlay(Base(c, ops), Content(c, Executed(ops, d)), Clipped(ops, None))
    ensures Overlay(Base(c, ops + [g]), Content(c, Executed(ops + [g], d)), Clipped(ops + [g], None))
  {
    ExecutedMore(c, ops, g, d);
    if g.op.Truncate? {
      OverlayTruncate(c, ops, d, g.op.newsize);
      SameCover(Clipped(ops, Some(g.op.newsize)), g);
    } else if g.op.Write? {
      assert g in ops + [g];
      OverlayWrite(Base(c, ops), Content(c, Executed(ops, d)), Clipped(ops, None), g, DataOf(d, g));
    } else {
      SameCover(Clipped(ops, None), g);
    }
  }

  /** The client's final file is the truncated old content, written over where the clipped writes cover it. */
  lemma {:induction false} ClientFile(c: bytes, ops: seq<GenOp>, d: seq<bytes>)
    requires DataFits(ops, d)
    ensures Overlay(Base(c, ops), Content(c, Executed(ops, d)), Clipped(ops, None))
  {
    if ops != [] {
      var n := |ops| - 1;
      if !ops[n].op.Truncate? {
        ClientFile(c, ops[..n], d);
      }
      ClientFileStep(c, ops[..n], ops[n], d);
      assert ops == ops[..n] + [ops[n]];
    }
  }

  lemma SameCover(ops: seq<GenOp>, g: GenOp)
    requires !g.op.Write?
    ensures forall q: nat :: Covers(ops + [g], q) <==> Covers(ops, q)
  {
    forall q: nat ensures Covers(ops + [g], q) <==> Covers(ops, q) {
      CoversAppend(ops, [g], q);
      CoversOne(g, q);
    }
  }

  /******* The server's file *******/

  ghost predicate WritesInside(ops: seq<GenOp>, f: bytes) {
    forall g :: g in ops && g.op.Write? ==> g.op.End() <= |f|
  }

  lemma PositiveData(ops: seq<GenOp>, d: seq<bytes>)
    requires DataFits(ops, d)
    ensures WritesPositive(ops)
  {
    forall g | g in ops ensures WritesSomething(g) {
    }
  }

  /** Every surviving write lies inside the client's final file, so reading its data never comes up short. */
  lemma SurvivorsInside(c: bytes, ops: seq<GenOp>, out: seq<GenOp>, d: seq<bytes>)
    requires IdsIncrease(ops) && DataFits(ops, d) && IsOptimized(ops, out)
    ensures WritesInside(out, Content(c, Executed(ops, d)))
  {
    PositiveData(ops, d);
    ClientFile(c, ops, d);
    FinishedOrder(ops, out);
    forall g | g in out && g.op.Write? ensures g.op.End() <= |Content(c, Executed(ops, d))| {
      assert WritesSomething(g);
      assert InWrite(g, g.op.End() - 1);
      CoverageKept(ops, out, g.op.End() - 1);
    }
  }

  lemma {:induction false} BaseOfTruncates(c: bytes, ops: seq<GenOp>)
    ensures Base(c, ops) == Base(c, Filter(IsType(12), ops))
  {
    if ops != [] {
      var n := |ops| - 1;
      BaseOfTruncates(c, ops[..n]);
      var f := Filter(IsType(12), ops[..n]);
      if ops[n].op.Truncate? {
        assert Filter(IsType(12), ops) == f + [ops[n]];
        assert (f + [ops[n]])[..|f|] == f;
      } else {
        assert Filter(IsType(12), ops) == f;
      }
    }
  }

  /** `g` has bytes of `f` at the covered positions, and elsewhere those of `base`. */
  ghost predicate Copied(base: bytes, g: bytes, f: bytes, ops: seq<GenOp>) {
    Overlay(base, g, ops) && forall q: nat :: Covers(ops, q) ==> At(g, q) == At(f, q)
  }

  lemma CopiedWrite(base: bytes, g: bytes, f: bytes, ops: seq<GenOp>, w: GenOp)
    requires Copied(base, g, f, ops) && w.op.Write? && w.op.size > 0 && w.op.End() <= |f|
    ensures Copied(base, Pwrite(g, w.op.offset, f[w.op.offset..w.op.End()]), f, ops + [w])
  {
    var data := f[w.op.offset..w.op.End()];
    OverlayWrite(base, g, ops, w, data);
    forall q: nat | Covers(ops + [w], q) ensures At(Pwrite(g, w.op.offset, data), q) == At(f, q) {
      CoversAppend(ops, [w], q);
      CoversOne(w, q);
      PwriteAt(g, w.op.offset, data, q);
    }
  }

  lemma CopiedNothing(base: bytes, g: bytes, f: bytes, ops: seq<GenOp>)
    requires Copied(base, g, f, ops)
    requires forall w :: w in ops ==> !w.op.Write?
    ensures g == base
  {
    assert forall q: nat :: !Covers(ops, q);
    SameBytes(g, base);
  }

  lemma CopiedTruncate(base: bytes, g: bytes, f: bytes, ops: seq<GenOp>, w: GenOp)
    requires Copied(base, g, f, ops) && w.op.Truncate?
    requires forall x :: x in ops ==> !x.op.Write?
    ensures Copied(Trunc(base, w.op.newsize), Trunc(g, w.op.newsize), f, ops + [w])
  {
    CopiedNothing(base, g, f, ops);
    assert forall q: nat :: !Covers(ops, q);
    SameCover(ops, w);
  }

  lemma CopiedOther(base: bytes, g: bytes, f: bytes, ops: seq<GenOp>, w: GenOp)
    requires Copied(base, g, f, ops) && !w.op.Write?
    ensures Copied(base, g, f, ops + [w])
  {
    SameCover(ops, w);
  }

  lemma NoWritesBefore(out: seq<GenOp>, n: nat)
    requires n < |out| && Ordered(StrictlyBelow, out) && out[n].op.Truncate?
    ensures forall w :: w in out[..n] ==> !w.op.Write?
  {
    assert forall i :: 0 <= i < n ==> StrictlyBelow(out[i], out[n]);
  }

  /** On the server all truncates run before the first write, and every write copies from the final file. */
  lemma {:induction false} ServerFile(c: bytes, out: seq<GenOp>, f: bytes)
    requires Ordered(StrictlyBelow, out) && WritesPositive(out) && WritesInside(out, f)
    ensures Copied(Base(c, out), Content(c, LoadAll(out, f)), f, out)
  {
    if out != [] {
      var n := |out| - 1;
      var g := out[n];
      assert out == out[..n] + [g];
      assert LoadAll(out, f)[..n] == LoadAll(out[..n], f);
      ServerFile(c, out[..n], f);
      assert WritesSomething(g);
      var base, before := Base(c, out[..n]), Content(c, LoadAll(out[..n], f));
      if g.op.Write? {
        CopiedWrite(base, before, f, out[..n], g);
      } else if g.op.Truncate? {
        NoWritesBefore(out, n);
        CopiedTruncate(base, before, f, out[..n], g);
      } else {
        CopiedOther(base, before, f, out[..n], g);
      }
    }
  }

  lemma SameOverlay(base: bytes, f: bytes, g: bytes, ops: seq<GenOp>)
    requires Overlay(base, f, ops) && Copied(base, g, f, ops)
    ensures g == f
  {
    forall q: nat ensures At(f, q) == At(g, q) {
      if Covers(ops, q) {
      }
    }
    SameBytes(g, f);
  }

  /** Replaying the optimized list, with data read from the client's final file, on the old content gives
      the client's final file, although all truncates come first and only the last one clipped. */
  lemma OptimizedFile(c: bytes, ops: seq<GenOp>, out: seq<GenOp>, d: seq<bytes>)
    requires IdsIncrease(ops) && DataFits(ops, d) && IsOptimized(ops, out)
    ensures Content(c, LoadAll(out, Content(c, Executed(ops, d)))) == Content(c, Executed(ops, d))
  {
    var f := Content(c, Executed(ops, d));
    PositiveData(ops, d);
    FinishedOrder(ops, out);
    SurvivorsInside(c, ops, out, d);
    ServerFile(c, out, f);
    TypeInLogOrder(12, ops, out);
    BaseOfTruncates(c, ops);
    BaseOfTruncates(c, out);
    ClientFile(c, ops, d);
    var clipped := Clipped(ops, None);
    forall q: nat ensures Covers(out, q) <==> Covers(clipped, q) {
      CoverageKept(ops, out, q);
    }
    SameOverlay(Base(c, ops), f, Content(c, LoadAll(out, f)), out);
  }

  /******* Replaying twice *******/

  /** A truncated file, read and truncated the same way again, reads the same below every cut. */
  lemma {:induction false} BaseAgain(c: bytes, f: bytes, ops: seq<GenOp>, q: nat)
    requires At(f, q) == At(Base(c, ops), q)
    ensures At(Base(f, ops), q) == At(f, q)
    ensures (exists g :: g in ops && g.op.Truncate?) ==> |Base(f, ops)| == |Base(c, ops)|
    ensures (forall g :: g in ops ==> !g.op.Truncate?) ==> Base(f, ops) == f
  {
    CutOrKept(c, f, ops, q);
  }

  lemma {:induction false} CutOrKept(c: bytes, f: bytes, ops: seq<GenOp>, q: nat)
    ensures (At(Base(c, ops), q) == 0 && At(Base(f, ops), q) == 0) ||
            (At(Base(c, ops), q) == At(c, q) && At(Base(f, ops), q) == At(f, q))
    ensures (exists g :: g in ops && g.op.Truncate?) ==> |Base(f, ops)| == |Base(c, ops)|
    ensures (forall g :: g in ops ==> !g.op.Truncate?) ==> Base(f, ops) == f
  {
    if ops != [] {
      var n := |ops| - 1;
      assert ops == ops[..n] + [ops[n]];
      CutOrKept(c, f, ops[..n], q);
      if ops[n].op.Truncate? {
        TruncAt(Base(c, ops[..n]), ops[n].op.newsize, q);
        TruncAt(Base(f, ops[..n]), ops[n].op.newsize, q);
      }
    }
  }

  /** Replaying the same finished list on its own result changes nothing. */
  lemma FileAgain(c: bytes, out: seq<GenOp>, f: bytes)
    requires Ordered(StrictlyBelow, out) && WritesPositive(out) && WritesInside(out, f)
    requires Content(c, LoadAll(out, f)) == f
    ensures Content(f, LoadAll(out, f)) == f
  {
    ServerFile(c, out, f);
    ServerFile(f, out, f);
    var g := Content(f, LoadAll(out, f));
    CutOrKept(c, f, out, 0);
    forall q: nat ensures At(g, q) == At(f, q) {
      if !Covers(out, q) {
        BaseAgain(c, f, out, q);
      }
    }
    SameBytes(g, f);
  }
}
