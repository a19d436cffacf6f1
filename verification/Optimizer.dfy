/** The in-place log optimizer: clip, sort, sweep, compact. */
module Optimizer {
  import opened Wrappers
  import opened Operations
  import opened Seqs

  /** A slot of the operation vector; None is the NULL pointer. */
  type Slot = Option<GenOp>

  /******* The order *******/

  /** The comparator as written, including its answer for two NULLs. */
  function CmpOperationType(x: Slot, y: Slot): int {
    if x.None? then -1
    else if y.None? then 1
    else
      var a, b := x.value, y.value;
      if a.op.Type() == b.op.Type() then
        if a.op.Write? then
          if a.op.offset == b.op.offset then 0 else if a.op.offset < b.op.offset then -1 else 1
        else if a.id < b.id then -1 else 1
      else if a.op.Type() < b.op.Type() then -1 else 1
  }

  /** The total preorder the comparator stands for: writes by offset, the rest by id. */
  predicate Below(x: GenOp, y: GenOp) {
    || x.op.Type() < y.op.Type()
    || (x.op.Type() == y.op.Type() && if x.op.Write? then x.op.offset <= y.op.offset else x.id <= y.id)
  }

  /** NULLs come first and are all alike. */
  predicate SlotBelow(x: Slot, y: Slot) {
    x.None? || (y.Some? && Below(x.value, y.value))
  }

  lemma SameType(x: Op, y: Op)
    requires x.Type() == y.Type()
    ensures x.Write? <==> y.Write?
  {
  }

  /** Two different entries, not both NULL, and not two non-writes under one id: there the
      comparator answers "not greater" exactly for pairs in order. */
  lemma ComparatorMeaning(x: Slot, y: Slot)
    requires x.Some? || y.Some?
    requires x.Some? && y.Some? ==> x.value.op.Write? || x.value.id != y.value.id
    ensures CmpOperationType(x, y) <= 0 <==> SlotBelow(x, y)
    ensures SlotBelow(x, y) || SlotBelow(y, x)
  {
    if x.Some? && y.Some? && x.value.op.Type() == y.value.op.Type() {
      SameType(x.value.op, y.value.op);
    }
  }

  /******* What the passes compute *******/

  /** One write against the size of the last truncate behind it, if there is one. */
  function ClipSlot(g: GenOp, limit: Option<nat>): Slot {
    if limit.Some? && g.op.Write? && g.op.End() > limit.value then
      if g.op.offset >= limit.value then None
      else Some(g.(op := Write(g.op.offset, limit.value - g.op.offset)))
    else Some(g)
  }

  /** The first truncate found, coming from the end, stays the limit. */
  function Limit(g: GenOp, limit: Option<nat>): Option<nat> {
    if limit.None? && g.op.Truncate? then Some(g.op.newsize) else limit
  }

  function Clip(ops: seq<GenOp>, limit: Option<nat>): seq<Slot> {
    if ops == [] then []
    else
      var n := |ops| - 1;
      Clip(ops[..n], Limit(ops[n], limit)) + [ClipSlot(ops[n], Limit(ops[n], limit))]
  }

  /** A slot during the sweep, with everything below `maxoff` covered already. */
  function SweepSlot(s: Slot, maxoff: nat): (r: (Slot, nat)) {
    if s.None? || !s.value.op.Write? then (s, maxoff)
    else
      var w := s.value.op;
      if w.End() <= maxoff then (None, maxoff)
      else if w.offset < maxoff then (Some(s.value.(op := Write(maxoff, w.End() - maxoff))), w.End())
      else (s, w.End())
  }

  function Sweep(slots: seq<Slot>, maxoff: nat): seq<Slot> {
    if slots == [] then []
    else
      var (s, m) := SweepSlot(slots[0], maxoff);
      [s] + Sweep(slots[1..], m)
  }

  function Compact(slots: seq<Slot>): seq<GenOp> {
    if slots == [] then []
    else
      var n := |slots| - 1;
      Compact(slots[..n]) + (if slots[n].Some? then [slots[n].value] else [])
  }

  /** The clipped list without its NULLs, and the sweep on such a list. */
  function Clipped(ops: seq<GenOp>, limit: Option<nat>): seq<GenOp> {
    if ops == [] then []
    else
      var n := |ops| - 1;
      var s := ClipSlot(ops[n], Limit(ops[n], limit));
      var rest := Clipped(ops[..n], Limit(ops[n], limit));
      if s.Some? then rest + [s.value] else rest
  }

  function Swept(ops: seq<GenOp>, maxoff: nat): seq<GenOp> {
    if ops == [] then []
    else
      var (s, m) := SweepSlot(Some(ops[0]), maxoff);
      (if s.Some? then [s.value] else []) + Swept(ops[1..], m)
  }

  ghost predicate Sorted(ops: seq<GenOp>) {
    Ordered(Below, ops)
  }

  /** `srt` is one arrangement that a sort, stable or not, can make of the clipped list. */
  ghost predicate IsSorting(ops: seq<GenOp>, srt: seq<GenOp>) {
    multiset(srt) == multiset(Clipped(ops, None)) && Sorted(srt)
  }

  /** `out` is a result the optimizer can produce from `ops`. */
  ghost predicate IsOptimized(ops: seq<GenOp>, out: seq<GenOp>) {
    exists srt :: IsSorting(ops, srt) && out == Swept(srt, 0)
  }

  /******* The NULL slots add nothing *******/

  lemma {:induction false} CompactAppend(a: seq<Slot>, b: seq<Slot>)
    ensures Compact(a + b) == Compact(a) + Compact(b)
  {
    if b == [] {
      assert a + b == a;
    } else {
      CompactAppend(a, b[..|b| - 1]);
      Snoc(a, b);
    }
  }

  lemma {:induction false} CompactClip(ops: seq<GenOp>, limit: Option<nat>)
    ensures |Clip(ops, limit)| == |ops|
    ensures Compact(Clip(ops, limit)) == Clipped(ops, limit)
  {
    if ops != [] {
      var n := |ops| - 1;
      CompactClip(ops[..n], Limit(ops[n], limit));
      assert Clip(ops, limit)[..n] == Clip(ops[..n], Limit(ops[n], limit));
    }
  }

  lemma {:induction false} CompactSweep(slots: seq<Slot>, maxoff: nat)
    ensures Compact(Sweep(slots, maxoff)) == Swept(Compact(slots), maxoff)
  {
    if slots != [] {
      var (s, m) := SweepSlot(slots[0], maxoff);
      CompactSweep(slots[1..], m);
      CompactAppend([s], Sweep(slots[1..], m));
      CompactAppend([slots[0]], slots[1..]);
      assert slots == [slots[0]] + slots[1..];
      CompactOne(s);
      CompactOne(slots[0]);
      assert Compact(slots) == Compact([slots[0]]) + Compact(slots[1..]);
      if slots[0].Some? {
        assert Compact(slots)[1..] == Compact(slots[1..]);
      } else {
        assert Compact(slots) == Compact(slots[1..]);
      }
    }
  }

  lemma CompactOne(s: Slot)
    ensures Compact([s]) == if s.Some? then [s.value] else []
  {
    assert [s][..0] == [];
  }

  lemma {:induction false} CompactMembers(slots: seq<Slot>, g: GenOp)
    ensures multiset(Compact(slots))[g] == multiset(slots)[Some(g)]
  {
    if slots != [] {
      var n := |slots| - 1;
      CompactMembers(slots[..n], g);
      assert slots == slots[..n] + [slots[n]];
    }
  }

  lemma {:induction false} CompactSorted(slots: seq<Slot>)
    requires Ordered(SlotBelow, slots)
    ensures Sorted(Compact(slots))
  {
    if slots != [] {
      var n := |slots| - 1;
      CompactSorted(slots[..n]);
      var c := Compact(slots[..n]);
      forall i | 0 <= i < |c| && slots[n].Some? ensures Below(c[i], slots[n].value) {
        CompactMembers(slots[..n], c[i]);
        assert c[i] in multiset(c);
        assert Some(c[i]) in slots[..n];
      }
    }
  }

  /** Any sorting of the slots, swept and compacted, is a result of the optimizer. */
  lemma PassesOptimize(ops: seq<GenOp>, slots: seq<Slot>)
    requires multiset(slots) == multiset(Clip(ops, None)) && Ordered(SlotBelow, slots)
    ensures IsOptimized(ops, Compact(Sweep(slots, 0)))
  {
    var srt := Compact(slots);
    forall g ensures multiset(srt)[g] == multiset(Clipped(ops, None))[g] {
      CompactMembers(slots, g);
      CompactMembers(Clip(ops, None), g);
      CompactClip(ops, None);
    }
    assert multiset(srt) == multiset(Clipped(ops, None));
    CompactSorted(slots);
    assert IsSorting(ops, srt);
    CompactSweep(slots, 0);
  }
}
