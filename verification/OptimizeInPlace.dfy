/** `optimizeOperations` as the client runs it: on the operation vector, in place. */
module OptimizeInPlace {
  import opened Wrappers
  import opened Operations
  import opened Seqs
  import opened Optimizer

  /******* qsort *******/

  function Insert(x: Slot, s: seq<Slot>): seq<Slot> {
    if s == [] || SlotBelow(x, s[0]) then [x] + s else [s[0]] + Insert(x, s[1..])
  }

  lemma SlotBelowOrder(x: Slot, y: Slot, z: Slot)
    ensures SlotBelow(x, y) || SlotBelow(y, x)
    ensures SlotBelow(x, y) && SlotBelow(y, z) ==> SlotBelow(x, z)
  {
    if x.Some? && y.Some? && x.value.op.Type() == y.value.op.Type() {
      SameType(x.value.op, y.value.op);
    }
    if y.Some? && z.Some? && y.value.op.Type() == z.value.op.Type() {
      SameType(y.value.op, z.value.op);
    }
  }

  lemma {:induction false} InsertKeeps(x: Slot, s: seq<Slot>)
    ensures multiset(Insert(x, s)) == multiset(s) + multiset{x}
  {
    if s == [] || SlotBelow(x, s[0]) {
    } else {
      InsertKeeps(x, s[1..]);
      assert s == [s[0]] + s[1..];
    }
  }

  lemma {:induction false} InsertSorts(x: Slot, s: seq<Slot>)
    requires Ordered(SlotBelow, s)
    ensures Ordered(SlotBelow, Insert(x, s))
  {
    if s == [] {
    } else if SlotBelow(x, s[0]) {
      forall i | 0 <= i < |s| ensures SlotBelow(x, s[i]) {
        SlotBelowOrder(x, s[0], s[i]);
      }
    } else {
      SlotBelowOrder(x, s[0], s[0]);
      InsertSorts(x, s[1..]);
      InsertKeeps(x, s[1..]);
      var t := Insert(x, s[1..]);
      forall i | 0 <= i < |t| ensures SlotBelow(s[0], t[i]) {
        assert t[i] in multiset(t);
        assert t[i] == x || t[i] in s[1..];
      }
    }
  }

  /** The C library's sort. Its callers rely on the contract alone: some ordered arrangement
      of the same slots, in no particular order where the comparator sees no difference. */
  method Qsort(a: array<Slot>, n: nat)
    requires n <= a.Length
    modifies a
    ensures multiset(a[..n]) == multiset(old(a[..n]))
    ensures Ordered(SlotBelow, a[..n])
    ensures a[n..] == old(a[n..])
  {
    ghost var was := a[..];
    var sorted: seq<Slot> := [];
    for i := 0 to n
      invariant a[..] == was
      invariant Ordered(SlotBelow, sorted) && multiset(sorted) == multiset(was[..i])
    {
      InsertSorts(a[i], sorted);
      InsertKeeps(a[i], sorted);
      sorted := Insert(a[i], sorted);
      assert was[..i + 1] == was[..i] + [was[i]];
    }
    SameSize(sorted, was[..n]);
    for i := 0 to n
      invariant forall k :: 0 <= k < i ==> a[k] == sorted[k]
      invariant a[n..] == was[n..]
    {
      a[i] := sorted[i];
    }
    assert a[..n] == sorted;
  }

  lemma SameSize<T>(a: seq<T>, b: seq<T>)
    requires multiset(a) == multiset(b)
    ensures |a| == |b|
  {
    assert |multiset(a)| == |multiset(b)|;
  }

  /******* The vector *******/

  /** Slots from `i` on are clipped, those in front of it still hold what the log had. */
  ghost predicate Clipping(slots: seq<Slot>, ops: seq<GenOp>, i: nat, limit: Option<nat>) {
    && i <= |ops| == |slots| && (forall k :: 0 <= k < i ==> slots[k] == Some(ops[k]))
    && Clip(ops, None) == Clip(ops[..i], limit) + slots[i..]
  }

  lemma ClipStarts(slots: seq<Slot>, ops: seq<GenOp>)
    requires |slots| == |ops| && forall k :: 0 <= k < |ops| ==> slots[k] == Some(ops[k])
    ensures Clipping(slots, ops, |ops|, None)
  {
    assert ops[..|ops|] == ops;
  }

  lemma ClipNext(slots: seq<Slot>, ops: seq<GenOp>, i: nat, limit: Option<nat>)
    requires i < |ops| && Clipping(slots, ops, i + 1, limit)
    ensures var l := Limit(ops[i], limit);
      slots[i] == Some(ops[i]) && Clipping(slots[i := ClipSlot(ops[i], l)], ops, i, l)
  {
    var l := Limit(ops[i], limit);
    var s := ClipSlot(ops[i], l);
    assert ops[..i + 1][..i] == ops[..i];
    assert slots[i := s][i..] == [s] + slots[i + 1..];
  }

  lemma ClipEnds(slots: seq<Slot>, ops: seq<GenOp>, limit: Option<nat>)
    requires Clipping(slots, ops, 0, limit)
    ensures slots == Clip(ops, None)
  {
    assert ops[..0] == [] && slots[0..] == slots;
  }

  /** Edit or drop a write whose right edge lies behind the truncate. */
  method ClipOne(op: GenOp, newsize: nat) returns (s: Slot)
    ensures s == ClipSlot(op, Some(newsize))
  {
    s := Some(op);
    if op.op.Write? && op.op.offset + op.op.size > newsize {
      if op.op.offset >= newsize {
        s := None;
      } else {
        s := Some(op.(op := Write(op.op.offset, op.op.size - (op.op.offset + op.op.size - newsize))));
      }
    }
  }

  /** The part of `fileop_t` the optimizer works on. */
  class FileOp {
    var operations: array<Slot>
    var nelem: nat

    ghost predicate Valid()
      reads this, operations
    {
      nelem <= operations.Length && forall i :: 0 <= i < nelem ==> operations[i].Some?
    }

    ghost function Contents(): seq<GenOp>
      reads this, operations
      requires Valid()
    {
      seq(nelem, i requires 0 <= i < nelem reads this, operations requires Valid() => operations[i].value)
    }

    constructor (ops: seq<GenOp>, capacity: nat)
      requires |ops| <= capacity
      ensures Valid() && Contents() == ops && fresh(operations) && operations.Length == capacity
    {
      operations := new Slot[capacity](i => if 0 <= i < |ops| then Some(ops[i]) else None);
      nelem := |ops|;
    }

    /** Edit or drop every write that reaches behind the last truncate. */
    method ClipWrites()
      requires Valid()
      modifies operations
      ensures nelem == old(nelem) && operations[..nelem] == Clip(old(Contents()), None)
    {
      ghost var ops := Contents();
      ghost var limit: Option<nat> := None;
      var newsize: nat := 0;
      var truncfound := false;
      var i := nelem;
      ClipStarts(operations[..nelem], ops);
      while i > 0
        invariant 0 <= i <= nelem == |ops|
        invariant limit == if truncfound then Some(newsize) else None
        invariant Clipping(operations[..nelem], ops, i, limit)
      {
        i := i - 1;
        ghost var before := operations[..nelem];
        ClipNext(before, ops, i, limit);
        limit := Limit(ops[i], limit);
        var op := operations[i].value;
        if !truncfound && op.op.Truncate? {
          truncfound := true;
          newsize := op.op.newsize;
        }
        if truncfound {
          operations[i] := ClipOne(op, newsize);
        }
        assert operations[..nelem] == before[i := ClipSlot(ops[i], limit)];
      }
      ClipEnds(operations[..nelem], ops, limit);
    }

    /** Cut away what an earlier write of the sorted list already covers. */
    method SweepWrites()
      requires nelem <= operations.Length
      modifies operations
      ensures nelem == old(nelem) && operations[..nelem] == Sweep(old(operations[..nelem]), 0)
    {
      ghost var was := operations[..nelem];
      var maxoff: nat := 0;
      for i := 0 to nelem
        invariant forall k :: i <= k < nelem ==> operations[k] == was[k]
        invariant Sweep(was, 0) == operations[..i] + Sweep(was[i..], maxoff)
      {
        ghost var done := operations[..i];
        assert was[i..][1..] == was[i + 1..];
        ghost var m := maxoff;
        if operations[i].Some? && operations[i].value.op.Write? {
          var g := operations[i].value;
          if g.op.offset + g.op.size <= maxoff {
            operations[i] := None;
          } else {
            if g.op.offset < maxoff {
              g := g.(op := Write(maxoff, g.op.size - (maxoff - g.op.offset)));
              operations[i] := Some(g);
            }
            maxoff := g.op.offset + g.op.size;
          }
        }
        assert (operations[i], maxoff) == SweepSlot(was[i], m);
        assert operations[..i + 1] == done + [operations[i]];
      }
      assert was[nelem..] == [];
    }

    /** Close the gaps. */
    method CloseGaps()
      requires nelem <= operations.Length
      modifies this`nelem, operations
      ensures Valid() && Contents() == Compact(old(operations[..nelem]))
    {
      ghost var was := operations[..nelem];
      var j := 0;
      for i := 0 to nelem
        invariant nelem == |was|
        invariant 0 <= j <= i
        invariant forall k :: i <= k < nelem ==> operations[k] == was[k]
        invariant |Compact(was[..i])| == j
        invariant forall k :: 0 <= k < j ==> operations[k] == Some(Compact(was[..i])[k])
      {
        assert was[..i + 1][..i] == was[..i];
        if operations[i].Some? {
          operations[j] := operations[i];
          j := j + 1;
        }
      }
      assert was[..nelem] == was;
      nelem := j;
    }

    method OptimizeOperations()
      requires Valid()
      modifies this`nelem, operations
      ensures Valid() && IsOptimized(old(Contents()), Contents())
    {
      ghost var ops := Contents();
      ClipWrites();
      Qsort(operations, nelem);
      ghost var slots := operations[..nelem];
      SweepWrites();
      CloseGaps();
      PassesOptimize(ops, slots);
    }
  }
}
