/** Replaying the optimized list of one path on the server's node. */
module NodeReplay {
  import opened Wrappers
  import opened Operations
  import opened Seqs
  import opened Posix
  import opened Optimizer
  import opened OptimizerLaws
  import opened FileReplay

  /******* The lists the reducer keeps *******/

  predicate HeadOp(g: GenOp) {
    g.op.Deletes() || g.op.Creates()
  }

  const IS_HEAD: GenOp -> bool := (g: GenOp) => HeadOp(g)

  /** A list that can follow the state `n0` of its path: at most one deletion of what was there, then at
      most one creation, then modifications. */
  predicate Shape(n0: Option<Node>, ops: seq<GenOp>) {
    && ops != []
    && (if ops[0].op.Deletes() then
          && n0.Some? && (ops[0].op.Rmdir? <==> n0.value.Dir?)
          && (|ops| > 1 ==> NewNode(ops[1].op).Some?)
        else if ops[0].op.Creates() then n0.None? && NewNode(ops[0].op).Some?
        else n0.Some?)
    && forall i :: HeadLength(ops) <= i < |ops| ==> ops[i].op.Modifies()
  }

  function HeadLength(ops: seq<GenOp>): (k: nat)
    requires ops != []
    ensures k <= |ops|
  {
    if ops[0].op.Deletes() then (if |ops| > 1 then 2 else 1) else if ops[0].op.Creates() then 1 else 0
  }

  /** The node the modifications of the list start from. */
  function Start(n0: Option<Node>, ops: seq<GenOp>): Option<Node>
    requires ops != []
  {
    var k := HeadLength(ops);
    if k == 0 then n0 else NewNode(ops[k - 1].op)
  }

  /******* Fields *******/

  function LastMode(ops: seq<GenOp>): Option<nat> {
    if ops == [] then None
    else
      var n := |ops| - 1;
      if ops[n].op.Chmod? then Some(Perm(ops[n].op.mode)) else LastMode(ops[..n])
  }

  function LastOwner(ops: seq<GenOp>): Option<Owner> {
    if ops == [] then None
    else
      var n := |ops| - 1;
      if ops[n].op.Chown? then Some(Owner(ops[n].op.uid, ops[n].op.gid)) else LastOwner(ops[..n])
  }

  function OrElse<T>(o: Option<T>, default: T): T {
    if o.Some? then o.value else default
  }

  /** `n` after the modifications among `ops`, which `ls` carries with data. */
  function Updated(n: Node, ops: seq<GenOp>, ls: seq<Loaded>): Node {
    match n
    case File(c, m, o) => File(Content(c, ls), OrElse(LastMode(ops), m), OrElse(LastOwner(ops), o))
    case Dir(m, o) => Dir(OrElse(LastMode(ops), m), OrElse(LastOwner(ops), o))
    case Special(k, d, m, o) => Special(k, d, OrElse(LastMode(ops), m), OrElse(LastOwner(ops), o))
    case Sym(_) => n
  }

  predicate Carries(ops: seq<GenOp>, ls: seq<Loaded>) {
    |ls| == |ops| && forall i :: 0 <= i < |ops| ==> ls[i].op == ops[i].op
  }

  lemma {:induction false} ExecutedEach(ops: seq<GenOp>, d: seq<bytes>)
    ensures Carries(ops, Executed(ops, d))
  {
    if ops != [] {
      ExecutedEach(ops[..|ops| - 1], d);
    }
  }

  lemma {:induction false} ExecutedPrefix(ops: seq<GenOp>, d: seq<bytes>, k: nat)
    requires k <= |ops|
    ensures Executed(ops, d)[..k] == Executed(ops[..k], d)
  {
    var n := |ops| - 1;
    if k == |ops| {
      assert ops[..k] == ops;
    } else {
      ExecutedPrefix(ops[..n], d, k);
      assert ops[..n][..k] == ops[..k];
      assert Executed(ops, d)[..k] == Executed(ops[..n], d)[..k];
    }
  }

  lemma ExecutedCarries(ops: seq<GenOp>, d: seq<bytes>)
    ensures Carries(ops, Executed(ops, d))
    ensures forall k :: 0 <= k <= |ops| ==> Executed(ops, d)[..k] == Executed(ops[..k], d)
  {
    ExecutedEach(ops, d);
    forall k | 0 <= k <= |ops| ensures Executed(ops, d)[..k] == Executed(ops[..k], d) {
      ExecutedPrefix(ops, d, k);
    }
  }

  /** Deletions and creations do not count as modifications. */
  lemma {:induction false} HeadsChangeNoField(n: Node, ops: seq<GenOp>, ls: seq<Loaded>)
    requires Carries(ops, ls) && forall g :: g in ops ==> HeadOp(g)
    ensures Updated(n, ops, ls) == n
  {
    if ops != [] {
      var k := |ops| - 1;
      assert ops == ops[..k] + [ops[k]];
      HeadsChangeNoField(n, ops[..k], ls[..k]);
      assert HeadOp(ops[k]);
    }
  }

  lemma ReplayMore(n: Option<Node>, ls: seq<Loaded>, l: Loaded)
    ensures Replay(n, ls + [l]) == Apply(Replay(n, ls), l)
  {
    assert (ls + [l])[..|ls|] == ls;
  }

  lemma UpdatedMore(m: Node, ops: seq<GenOp>, g: GenOp, ls: seq<Loaded>, l: Loaded)
    requires Carries(ops, ls) && g.op.Modifies() && l.op == g.op
    ensures Apply(Some(Updated(m, ops, ls)), l) == Some(Updated(m, ops + [g], ls + [l]))
  {
    assert (ops + [g])[..|ops|] == ops && (ls + [l])[..|ls|] == ls;
  }

  lemma {:induction false} ReplayFields(n0: Option<Node>, m: Node, k: nat, ops: seq<GenOp>, ls: seq<Loaded>)
    requires Carries(ops, ls) && k <= |ops|
    requires forall i :: 0 <= i < k ==> HeadOp(ops[i])
    requires forall i :: k <= i < |ops| ==> ops[i].op.Modifies()
    requires Replay(n0, ls[..k]) == Some(m)
    ensures Replay(n0, ls) == Some(Updated(m, ops, ls))
  {
    if |ops| == k {
      assert ls[..k] == ls;
      HeadsChangeNoField(m, ops, ls);
    } else {
      var n := |ops| - 1;
      assert ls[..n][..k] == ls[..k];
      ReplayFields(n0, m, k, ops[..n], ls[..n]);
      UpdatedMore(m, ops[..n], ops[n], ls[..n], ls[n]);
      ReplayMore(n0, ls[..n], ls[n]);
      LastApart([], ops);
      LastApart([], ls);
    }
  }

  /******* The optimized list has the same head *******/

  lemma HeadsBelow(x: GenOp, y: GenOp)
    ensures HeadOp(y) && StrictlyBelow(x, y) ==> HeadOp(x)
    ensures x.op.Deletes() && NewNode(y.op).Some? ==> StrictlyBelow(x, y)
    ensures x.op.Type() == y.op.Type() ==> (HeadOp(x) <==> HeadOp(y)) && (x.op.Modifies() <==> y.op.Modifies())
  {
    assert HeadOp(x) <==> x.op.Type() <= 7;
    assert HeadOp(y) <==> y.op.Type() <= 7;
    assert x.op.Modifies() <==> 8 <= x.op.Type() <= 13;
    assert y.op.Modifies() <==> 8 <= y.op.Type() <= 13;
  }

  lemma OnlyHeads(out: seq<GenOp>)
    requires Ordered(StrictlyBelow, out) && out != [] && HeadOp(out[|out| - 1])
    ensures Filter(IS_HEAD, out) == out
  {
    var n := |out| - 1;
    forall i | 0 <= i < |out| ensures HeadOp(out[i]) {
      assert i < n ==> StrictlyBelow(out[i], out[n]);
      HeadsBelow(out[i], out[n]);
    }
    FilterAll(IS_HEAD, out);
  }

  lemma {:induction false} HeadsFirst(out: seq<GenOp>, f: seq<GenOp>)
    requires Ordered(StrictlyBelow, out) && f == Filter(IS_HEAD, out)
    ensures |f| <= |out| && out[..|f|] == f
    ensures forall i :: |f| <= i < |out| ==> !HeadOp(out[i])
  {
    if out != [] {
      var n := |out| - 1;
      if HeadOp(out[n]) {
        OnlyHeads(out);
        assert out[..|out|] == out;
      } else {
        HeadsFirst(out[..n], f);
        assert out[..n][..|f|] == out[..|f|];
      }
    }
  }

  lemma HeadsOfShape(n0: Option<Node>, ops: seq<GenOp>)
    requires Shape(n0, ops)
    ensures forall i :: 0 <= i < HeadLength(ops) ==> HeadOp(ops[i])
    ensures forall i :: HeadLength(ops) <= i < |ops| ==> !HeadOp(ops[i])
  {
  }

  lemma HeadFilter(n0: Option<Node>, ops: seq<GenOp>)
    requires Shape(n0, ops)
    ensures Filter(IS_HEAD, ops) == ops[..HeadLength(ops)]
    ensures Ordered(StrictlyBelow, ops[..HeadLength(ops)])
  {
    var k := HeadLength(ops);
    HeadsOfShape(n0, ops);
    FilterPrefix(IS_HEAD, ops, k);
    if k == 2 {
      HeadsBelow(ops[0], ops[1]);
    }
  }

  lemma SameHead(n0: Option<Node>, ops: seq<GenOp>, out: seq<GenOp>)
    requires Shape(n0, ops) && IdsIncrease(ops) && WritesPositive(ops) && IsOptimized(ops, out)
    ensures HeadLength(ops) <= |out| && out[..HeadLength(ops)] == ops[..HeadLength(ops)]
    ensures forall i :: HeadLength(ops) <= i < |out| ==> out[i].op.Modifies()
  {
    HeadFilter(n0, ops);
    NonWritesSurvive(IS_HEAD, ops, out);
    FinishedOrder(ops, out);
    HeadsFirst(out, Filter(IS_HEAD, out));
    forall i | HeadLength(ops) <= i < |out| ensures out[i].op.Modifies() {
      var h := Origin(ops, out, out[i]);
      HeadsBelow(h, out[i]);
      var j :| 0 <= j < |ops| && ops[j] == h;
      HeadsOfShape(n0, ops);
    }
  }

  lemma {:induction false} ModeOfChmods(ops: seq<GenOp>)
    ensures LastMode(ops) == LastMode(Filter(IsType(8), ops))
  {
    if ops != [] {
      var n := |ops| - 1;
      ModeOfChmods(ops[..n]);
      var f := Filter(IsType(8), ops[..n]);
      assert Filter(IsType(8), ops) == if ops[n].op.Chmod? then f + [ops[n]] else f;
    }
  }

  lemma {:induction false} OwnerOfChowns(ops: seq<GenOp>)
    ensures LastOwner(ops) == LastOwner(Filter(IsType(9), ops))
  {
    if ops != [] {
      var n := |ops| - 1;
      OwnerOfChowns(ops[..n]);
      var f := Filter(IsType(9), ops[..n]);
      assert Filter(IsType(9), ops) == if ops[n].op.Chown? then f + [ops[n]] else f;
    }
  }

  lemma SameFields(ops: seq<GenOp>, out: seq<GenOp>)
    requires IdsIncrease(ops) && IsOptimized(ops, out)
    ensures LastMode(out) == LastMode(ops) && LastOwner(out) == LastOwner(ops)
  {
    TypeInLogOrder(8, ops, out);
    ModeOfChmods(ops);
    ModeOfChmods(out);
    TypeInLogOrder(9, ops, out);
    OwnerOfChowns(ops);
    OwnerOfChowns(out);
  }

  /******* First replay *******/

  /** The content the client's snapshot shows for a path. */
  function FinalContent(n: Option<Node>): bytes {
    if n.Some? && n.value.File? then n.value.content else []
  }

  lemma ReplayOne(n: Option<Node>, ls: seq<Loaded>)
    requires |ls| == 1
    ensures Replay(n, ls) == Apply(n, ls[0])
  {
    assert ls[..0] == [];
  }

  lemma ReplayTwo(n: Option<Node>, ls: seq<Loaded>)
    requires |ls| == 2
    ensures Replay(n, ls) == Apply(Apply(n, ls[0]), ls[1])
  {
    ReplayOne(n, ls[..1]);
  }

  lemma HeadReplay(n0: Option<Node>, ops: seq<GenOp>, ls: seq<Loaded>)
    requires Shape(n0, ops) && HeadLength(ops) <= |ls|
    requires forall i :: 0 <= i < HeadLength(ops) ==> ls[i].op == ops[i].op
    ensures Replay(n0, ls[..HeadLength(ops)]) == Start(n0, ops)
  {
    var k := HeadLength(ops);
    if k == 0 {
      assert ls[..0] == [];
    } else if k == 1 {
      ReplayOne(n0, ls[..1]);
    } else {
      ReplayTwo(n0, ls[..2]);
    }
  }

  lemma PureStays(n0: Option<Node>, ops: seq<GenOp>, out: seq<GenOp>)
    requires Shape(n0, ops) && IdsIncrease(ops) && WritesPositive(ops) && IsOptimized(ops, out)
    requires |ops| == 1 && ops[0].op.Deletes()
    ensures out == ops
  {
    SameHead(n0, ops, out);
    if |out| > 1 {
      var h := Origin(ops, out, out[1]);
      HeadsBelow(h, out[1]);
    }
    assert out == out[..1];
  }

  /** Where the replay of the list leads when its head works as it did on the client. */
  lemma ExecutedNode(n0: Option<Node>, ops: seq<GenOp>, d: seq<bytes>)
    requires Shape(n0, ops)
    ensures Start(n0, ops).Some? ==>
              Replay(n0, Executed(ops, d)) == Some(Updated(Start(n0, ops).value, ops, Executed(ops, d)))
    ensures Start(n0, ops).None? ==> |ops| == 1 && ops[0].op.Deletes() && Replay(n0, Executed(ops, d)) == None
  {
    var ls := Executed(ops, d);
    ExecutedCarries(ops, d);
    HeadReplay(n0, ops, ls);
    HeadsOfShape(n0, ops);
    if Start(n0, ops).Some? {
      ReplayFields(n0, Start(n0, ops).value, HeadLength(ops), ops, ls);
    } else {
      assert ls[..1] == ls;
    }
  }

  lemma LoadAllCarries(out: seq<GenOp>, f: bytes)
    ensures Carries(out, LoadAll(out, f))
  {
    LoadAllEach(out, f);
  }

  lemma SamePrefix(n0: Option<Node>, ops: seq<GenOp>, out: seq<GenOp>, k: nat)
    requires Shape(n0, ops) && k == HeadLength(ops) <= |out| && out[..k] == ops[..k]
    ensures forall i :: 0 <= i < k ==> out[i] == ops[i] && HeadOp(out[i])
  {
    HeadsOfShape(n0, ops);
    forall i | 0 <= i < k ensures out[i] == ops[i] {
      assert out[i] == out[..k][i] == ops[i];
    }
  }

  lemma LoadedNode(n0: Option<Node>, ops: seq<GenOp>, out: seq<GenOp>, f: bytes)
    requires Shape(n0, ops) && IdsIncrease(ops) && WritesPositive(ops) && IsOptimized(ops, out)
    requires Start(n0, ops).Some?
    ensures Replay(n0, LoadAll(out, f)) == Some(Updated(Start(n0, ops).value, out, LoadAll(out, f)))
  {
    SameHead(n0, ops, out);
    SamePrefix(n0, ops, out, HeadLength(ops));
    LoadAllCarries(out, f);
    HeadReplay(n0, ops, LoadAll(out, f));
    ReplayFields(n0, Start(n0, ops).value, HeadLength(ops), out, LoadAll(out, f));
  }

  lemma LoadedDeletion(n: Option<Node>, ops: seq<GenOp>, f: bytes)
    requires |ops| == 1
    ensures Replay(n, LoadAll(ops, f)) == Apply(n, Load(ops[0], f))
  {
    LoadAllEach(ops, f);
    ReplayOne(n, LoadAll(ops, f));
  }

  /** Optimized or not, the modifications make the same node of `m`. */
  lemma SameUpdate(m: Node, ops: seq<GenOp>, out: seq<GenOp>, d: seq<bytes>)
    requires IdsIncrease(ops) && DataFits(ops, d) && IsOptimized(ops, out)
    ensures var x := Updated(m, ops, Executed(ops, d));
            Updated(m, out, LoadAll(out, FinalContent(Some(x)))) == x
  {
    SameFields(ops, out);
    if m.File? {
      OptimizedFile(m.content, ops, out, d);
    }
  }

  /** The server's handlers, fed with the optimized list and data of the client's final file, turn the state
      the path had before the epoch into the state the client left: content, mode, owner and type. */
  lemma NodeSync(n0: Option<Node>, ops: seq<GenOp>, out: seq<GenOp>, d: seq<bytes>)
    requires Shape(n0, ops) && IdsIncrease(ops) && DataFits(ops, d) && IsOptimized(ops, out)
    ensures Replay(n0, LoadAll(out, FinalContent(Replay(n0, Executed(ops, d))))) == Replay(n0, Executed(ops, d))
  {
    PositiveData(ops, d);
    ExecutedNode(n0, ops, d);
    var n1 := Replay(n0, Executed(ops, d));
    if Start(n0, ops).None? {
      PureStays(n0, ops, out);
      LoadedDeletion(n0, ops, FinalContent(n1));
    } else {
      LoadedNode(n0, ops, out, FinalContent(n1));
      SameUpdate(Start(n0, ops).value, ops, out, d);
    }
  }

  /******* Replaying again *******/

  lemma {:induction false} SkipHead(n: Node, ops: seq<GenOp>, ls: seq<Loaded>)
    requires Carries(ops, ls) && ops != [] && HeadOp(ops[0])
    ensures Carries(ops[1..], ls[1..]) && Updated(n, ops[1..], ls[1..]) == Updated(n, ops, ls)
  {
    if |ops| == 1 {
      HeadsChangeNoField(n, ops, ls);
      HeadsChangeNoField(n, ops[1..], ls[1..]);
    } else {
      var k := |ops| - 1;
      SkipHead(n, ops[..k], ls[..k]);
      assert ops[..k][1..] == ops[1..][..k - 1];
      assert ls[..k][1..] == ls[1..][..k - 1];
    }
  }

  /** The fields of `x` are what the list makes of `m`; making them again changes nothing. */
  lemma UpdatedTwice(m: Node, out: seq<GenOp>, f: bytes)
    requires Ordered(StrictlyBelow, out) && WritesPositive(out)
    requires var x := Updated(m, out, LoadAll(out, f)); x.File? ==> x.content == f && WritesInside(out, f)
    ensures var x := Updated(m, out, LoadAll(out, f)); Updated(x, out, LoadAll(out, f)) == x
  {
    if m.File? {
      FileAgain(m.content, out, f);
    }
  }

  /** What can become of `x` when deletion and creation run again on it. */
  predicate HeadAgain(n0: Option<Node>, ops: seq<GenOp>, x: Node, y: Option<Node>)
    requires ops != []
  {
    || y == Start(n0, ops)
    || y == Some(x)
    || (x.File? && y == Some(x.(content := [])) && HeadLength(ops) > 0 && ops[HeadLength(ops) - 1].op.Create?)
  }

  lemma HeadReplayAgain(n0: Option<Node>, ops: seq<GenOp>, x: Node, ls: seq<Loaded>)
    requires Shape(n0, ops) && HeadLength(ops) <= |ls| && Start(n0, ops).Some?
    requires forall i :: 0 <= i < HeadLength(ops) ==> ls[i].op == ops[i].op
    ensures HeadAgain(n0, ops, x, Replay(Some(x), ls[..HeadLength(ops)]))
    ensures ops[0].op.Rmdir? ==> HeadLength(ops) == 2 && HeadAgain(n0, ops, x, Replay(Some(x), ls[1..2]))
  {
    var k := HeadLength(ops);
    if k == 0 {
      assert ls[..0] == [];
    } else if k == 1 {
      ReplayOne(Some(x), ls[..1]);
    } else {
      ReplayTwo(Some(x), ls[..2]);
      ReplayOne(Some(x), ls[1..2]);
    }
  }

  /** Whatever the head did the second time, the modifications lead back to `x`. */
  lemma TailAgain(n0: Option<Node>, ops: seq<GenOp>, out: seq<GenOp>, f: bytes, y: Option<Node>)
    requires Shape(n0, ops) && Start(n0, ops).Some?
    requires Ordered(StrictlyBelow, out) && WritesPositive(out)
    requires var x := Updated(Start(n0, ops).value, out, LoadAll(out, f));
             (x.File? ==> x.content == f && WritesInside(out, f)) && HeadAgain(n0, ops, x, y)
    ensures Updated(y.value, out, LoadAll(out, f)) == Updated(Start(n0, ops).value, out, LoadAll(out, f))
  {
    UpdatedTwice(Start(n0, ops).value, out, f);
  }

  lemma ReplaySkipping(n0: Option<Node>, ops: seq<GenOp>, out: seq<GenOp>, f: bytes, x: Node, y: Node)
    requires Shape(n0, ops) && HeadLength(ops) == 2 && 2 <= |out| && out[..2] == ops[..2]
    requires forall i :: 2 <= i < |out| ==> out[i].op.Modifies()
    requires Replay(Some(x), LoadAll(out, f)[1..2]) == Some(y)
    ensures Replay(Some(x), LoadAll(out, f)[1..]) == Some(Updated(y, out, LoadAll(out, f)))
  {
    var ls := LoadAll(out, f);
    SamePrefix(n0, ops, out, 2);
    LoadAllCarries(out, f);
    SkipHead(y, out, ls);
    assert ls[1..][..1] == ls[1..2];
    ReplayFields(Some(x), y, 1, out[1..], ls[1..]);
  }

  /** `x` is what the list makes of its starting node, and its data was read from `f`. */
  ghost predicate Settled(n0: Option<Node>, ops: seq<GenOp>, out: seq<GenOp>, f: bytes, x: Node) {
    && Shape(n0, ops) && Start(n0, ops).Some?
    && HeadLength(ops) <= |out| && out[..HeadLength(ops)] == ops[..HeadLength(ops)]
    && (forall i :: HeadLength(ops) <= i < |out| ==> out[i].op.Modifies())
    && Ordered(StrictlyBelow, out) && WritesPositive(out)
    && x == Updated(Start(n0, ops).value, out, LoadAll(out, f))
    && (x.File? ==> x.content == f && WritesInside(out, f))
  }

  lemma AgainWhole(n0: Option<Node>, ops: seq<GenOp>, out: seq<GenOp>, f: bytes, x: Node)
    requires Settled(n0, ops, out, f, x)
    ensures Replay(Some(x), LoadAll(out, f)) == Some(x)
  {
    var ls := LoadAll(out, f);
    SamePrefix(n0, ops, out, HeadLength(ops));
    LoadAllCarries(out, f);
    HeadReplayAgain(n0, ops, x, ls);
    var y := Replay(Some(x), ls[..HeadLength(ops)]);
    TailAgain(n0, ops, out, f, y);
    ReplayFields(Some(x), y.value, HeadLength(ops), out, ls);
  }

  lemma AgainRefused(n0: Option<Node>, ops: seq<GenOp>, out: seq<GenOp>, f: bytes, x: Node)
    requires Settled(n0, ops, out, f, x) && ops[0].op.Rmdir?
    ensures out != [] && Replay(Some(x), LoadAll(out, f)[1..]) == Some(x)
  {
    var ls := LoadAll(out, f);
    SamePrefix(n0, ops, out, HeadLength(ops));
    LoadAllCarries(out, f);
    HeadReplayAgain(n0, ops, x, ls);
    var z := Replay(Some(x), ls[1..2]);
    TailAgain(n0, ops, out, f, z);
    ReplaySkipping(n0, ops, out, f, x, z.value);
  }

  lemma SyncSettles(n0: Option<Node>, ops: seq<GenOp>, out: seq<GenOp>, d: seq<bytes>)
    requires Shape(n0, ops) && IdsIncrease(ops) && DataFits(ops, d) && IsOptimized(ops, out)
    requires Start(n0, ops).Some?
    ensures var n1 := Replay(n0, Executed(ops, d));
            n1.Some? && Settled(n0, ops, out, FinalContent(n1), n1.value)
  {
    PositiveData(ops, d);
    ExecutedNode(n0, ops, d);
    var m := Start(n0, ops).value;
    SameUpdate(m, ops, out, d);
    SameHead(n0, ops, out);
    FinishedOrder(ops, out);
    if m.File? {
      SurvivorsInside(m.content, ops, out, d);
    }
  }

  /** Replaying the list once more on its own outcome changes nothing, whether the second `rmdir` works or is
      refused because the new directory has entries. */
  lemma NodeAgain(n0: Option<Node>, ops: seq<GenOp>, out: seq<GenOp>, d: seq<bytes>)
    requires Shape(n0, ops) && IdsIncrease(ops) && DataFits(ops, d) && IsOptimized(ops, out)
    ensures var n1 := Replay(n0, Executed(ops, d));
            var ls := LoadAll(out, FinalContent(n1));
            Replay(n1, ls) == n1 && (ops[0].op.Rmdir? ==> ls != [] && Replay(n1, ls[1..]) == n1)
  {
    var n1 := Replay(n0, Executed(ops, d));
    if Start(n0, ops).None? {
      PositiveData(ops, d);
      ExecutedNode(n0, ops, d);
      PureStays(n0, ops, out);
      LoadedDeletion(n1, ops, FinalContent(n1));
    } else {
      SyncSettles(n0, ops, out, d);
      AgainWhole(n0, ops, out, FinalContent(n1), n1.value);
      if ops[0].op.Rmdir? {
        AgainRefused(n0, ops, out, FinalContent(n1), n1.value);
      }
    }
  }

  /******* A removal the server refuses *******/

  /** An old directory the server could not remove: only what the list sets explicitly reaches it. */
  function Refused(n0: Node, ops: seq<GenOp>): Node
    requires n0.Dir?
  {
    Dir(OrElse(LastMode(ops), n0.mode), OrElse(LastOwner(ops), n0.owner))
  }

  lemma NodeRefused(n0: Option<Node>, ops: seq<GenOp>, out: seq<GenOp>, f: bytes)
    requires Shape(n0, ops) && IdsIncrease(ops) && WritesPositive(ops) && IsOptimized(ops, out)
    requires ops[0].op.Rmdir? && |ops| > 1 && ops[1].op.Mkdir?
    ensures out != [] && n0.Some? && n0.value.Dir?
    ensures Replay(n0, LoadAll(out, f)[1..]) == Some(Refused(n0.value, ops))
    ensures Replay(Some(Refused(n0.value, ops)), LoadAll(out, f)[1..]) == Some(Refused(n0.value, ops))
  {
    SameHead(n0, ops, out);
    SameFields(ops, out);
    SamePrefix(n0, ops, out, 2);
    var ls := LoadAll(out, f);
    LoadAllCarries(out, f);
    var x := Refused(n0.value, ops);
    ReplayOne(n0, ls[1..2]);
    ReplaySkipping(n0, ops, out, f, n0.value, n0.value);
    ReplayOne(Some(x), ls[1..2]);
    ReplaySkipping(n0, ops, out, f, x, x);
  }
}
