/** Many epochs, with crashes: the server's trees are the client's. */
module Epochs {
  import opened Operations
  import opened Seqs
  import opened Posix
  import opened Optimizer
  import opened Reducer
  import opened ReducerLaws
  import opened History
  import opened TreeSync
  import opened Drift
  import opened Chunks
  import opened Pipeline
  import opened Recovery
  import opened Wrappers

  /******* Parcels as single steps *******/

  function StepsOf(p: Path, ls: seq<Loaded>): seq<Step> {
    if ls == [] then [] else StepsOf(p, ls[..|ls| - 1]) + [Step(p, ls[|ls| - 1])]
  }

  function AllSteps(ps: seq<Parcel>): seq<Step> {
    if ps == [] then [] else AllSteps(ps[..|ps| - 1]) + StepsOf(ps[|ps| - 1].path, ps[|ps| - 1].ops)
  }

  lemma {:induction false} RunFront(t: Tree, steps: seq<Step>, more: seq<Step>, n: nat)
    requires n <= |steps|
    ensures RunTo(t, steps + more, n) == RunTo(t, steps, n)
  {
    if n > 0 {
      RunFront(t, steps, more, n - 1);
    }
  }

  lemma RunOne(t: Tree, steps: seq<Step>, step: Step)
    ensures Run(t, steps + [step]) == TreeApply(Run(t, steps), step.path, step.op)
  {
    RunFront(t, steps, [step], |steps|);
  }

  lemma {:induction false} RunJoined(t: Tree, a: seq<Step>, b: seq<Step>)
    ensures Run(t, a + b) == Run(Run(t, a), b)
  {
    if b == [] {
      assert a + b == a;
    } else {
      var n := |b| - 1;
      RunJoined(t, a, b[..n]);
      LastApart(a, b);
      RunOne(t, a + b[..n], b[n]);
      RunOne(Run(t, a), b[..n], b[n]);
    }
  }

  lemma {:induction false} RunList(t: Tree, p: Path, ls: seq<Loaded>)
    ensures Run(t, StepsOf(p, ls)) == TreeReplay(t, p, ls)
  {
    if ls != [] {
      RunList(t, p, ls[..|ls| - 1]);
      RunOne(t, StepsOf(p, ls[..|ls| - 1]), Step(p, ls[|ls| - 1]));
    }
  }

  lemma {:induction false} RunParcels(t: Tree, ps: seq<Parcel>)
    ensures Run(t, AllSteps(ps)) == ReplayParcels(t, ps)
  {
    if ps != [] {
      var n := |ps| - 1;
      RunParcels(t, ps[..n]);
      RunJoined(t, AllSteps(ps[..n]), StepsOf(ps[n].path, ps[n].ops));
      RunList(ReplayParcels(t, ps[..n]), ps[n].path, ps[n].ops);
    }
  }

  lemma RunShipments(t: Tree, t1: Tree, s: seq<Entry>, outs: seq<seq<GenOp>>)
    requires |outs| == |s|
    ensures Run(t, AllSteps(Parcels(t1, s, outs))) == ServerAt(t, t1, s, outs, |s|)
  {
    var ps := Parcels(t1, s, outs);
    RunParcels(t, ps);
    ParcelsReplayed(t, t1, s, outs, ps, |ps|);
    assert ps[..|ps|] == ps;
  }

  /******* Epochs of a client *******/

  /** What was logged in an epoch and what was sent for it. */
  datatype Epoch = Epoch(log: seq<Record>, d: seq<bytes>, s: seq<Entry>, outs: seq<seq<GenOp>>)

  /** The log leads from one of the client's trees to the next, and what is sent comes from it in the way the
      client does it. */
  ghost predicate Ships(t0: Tree, t1: Tree, e: Epoch) {
    && ValidLog(t0, e.log, e.d) && t1 == TreeAt(t0, e.log, e.d, |e.log|) && NothingKept(e.log)
    && StableSorted(ORDER, TableAt(e.log, |e.log|).files, e.s)
    && |e.outs| == |e.s| && (forall i :: 0 <= i < |e.s| ==> IsOptimized(e.s[i].ops, e.outs[i]))
  }

  /** No directory loses its attributes in the epoch. */
  ghost predicate Intact(t0: Tree, t1: Tree, e: Epoch) {
    NothingLost(t0, t1, TableAt(e.log, |e.log|).files)
  }

  function StepsSent(t1: Tree, e: Epoch): seq<Step> {
    if |e.outs| == |e.s| then AllSteps(Parcels(t1, e.s, e.outs)) else []
  }

  /** On a tree like the client's, what is sent makes a tree like the client's new one, and leaves that as it is if it
      is sent again. */
  lemma EpochIsOk(u: Tree, t0: Tree, t1: Tree, e: Epoch)
    requires Ships(t0, t1, e) && Like(t0, u)
    ensures var w := Run(u, StepsSent(t1, e)); EpochOk(u, w, StepsSent(t1, e)) && Like(t1, w)
  {
    EpochFrom(u, t0, e.log, e.d, e.s, e.outs);
    RunShipments(u, t1, e.s, e.outs);
    RunShipments(Run(u, StepsSent(t1, e)), t1, e.s, e.outs);
  }

  /** On the client's own tree, it makes exactly the client's new one if and only if no directory loses its
      attributes. */
  lemma EpochIsExact(t0: Tree, t1: Tree, e: Epoch)
    requires Ships(t0, t1, e)
    ensures Run(t0, StepsSent(t1, e)) == t1 <==> Intact(t0, t1, e)
  {
    EpochSync(t0, e.log, e.d, e.s, e.outs);
    SameLoss(t0, t1, TableAt(e.log, |e.log|).files, e.s);
    RunShipments(t0, t1, e.s, e.outs);
  }

  ghost predicate ShipsAt(trees: seq<Tree>, epochs: seq<Epoch>, i: nat)
    requires i < |epochs| && |trees| == |epochs| + 1
  {
    Ships(trees[i], trees[i + 1], epochs[i])
  }

  /** The client's trees: the one both sides begin with and the one at the end of each epoch. */
  ghost predicate AreEpochs(trees: seq<Tree>, epochs: seq<Epoch>) {
    && |trees| == |epochs| + 1
    && forall i {:trigger ShipsAt(trees, epochs, i)} :: 0 <= i < |epochs| ==> ShipsAt(trees, epochs, i)
  }

  ghost predicate IntactAt(trees: seq<Tree>, epochs: seq<Epoch>, i: nat)
    requires i < |epochs| && |trees| == |epochs| + 1
  {
    Intact(trees[i], trees[i + 1], epochs[i])
  }

  /** No directory loses its attributes in the first `n` epochs. */
  ghost predicate AllIntact(trees: seq<Tree>, epochs: seq<Epoch>, n: nat)
    requires n <= |epochs| && |trees| == |epochs| + 1
  {
    forall i {:trigger IntactAt(trees, epochs, i)} :: 0 <= i < n ==> IntactAt(trees, epochs, i)
  }

  /** What the `i`-th epoch makes of the server's tree `u`. */
  function After(trees: seq<Tree>, epochs: seq<Epoch>, i: nat, u: Tree): Tree
    requires i < |epochs| && |trees| == |epochs| + 1
  {
    Run(u, StepsSent(trees[i + 1], epochs[i]))
  }

  lemma EpochKeepsLike(trees: seq<Tree>, epochs: seq<Epoch>, i: nat, u: Tree)
    requires AreEpochs(trees, epochs) && i < |epochs| && Like(trees[i], u)
    ensures var w := After(trees, epochs, i, u);
      EpochOk(u, w, StepsSent(trees[i + 1], epochs[i])) && Like(trees[i + 1], w)
  {
    assert ShipsAt(trees, epochs, i);
    EpochIsOk(u, trees[i], trees[i + 1], epochs[i]);
  }

  lemma EpochKeepsExact(trees: seq<Tree>, epochs: seq<Epoch>, i: nat)
    requires i < |epochs| && |trees| == |epochs| + 1
    requires ShipsAt(trees, epochs, i) && IntactAt(trees, epochs, i)
    ensures After(trees, epochs, i, trees[i]) == trees[i + 1]
  {
    EpochIsExact(trees[i], trees[i + 1], epochs[i]);
  }

  /** The server's tree after `i` epochs. */
  function ServerTree(trees: seq<Tree>, epochs: seq<Epoch>, i: nat): Tree
    requires i <= |epochs| && |trees| == |epochs| + 1
  {
    if i == 0 then trees[0] else After(trees, epochs, i - 1, ServerTree(trees, epochs, i - 1))
  }

  /** The server's trees differ from the client's at most in modes and owners of directories, however many epochs there
      have been... */
  lemma {:induction false} ServerTreeIsLike(trees: seq<Tree>, epochs: seq<Epoch>, i: nat)
    requires AreEpochs(trees, epochs) && i <= |epochs|
    ensures Like(trees[i], ServerTree(trees, epochs, i))
  {
    if i == 0 {
      LikeItself(trees[0]);
    } else {
      ServerTreeIsLike(trees, epochs, i - 1);
      EpochKeepsLike(trees, epochs, i - 1, ServerTree(trees, epochs, i - 1));
    }
  }

  /** ...and not at all as long as no directory has lost its attributes. */
  lemma ServerTreeIsExact(trees: seq<Tree>, epochs: seq<Epoch>, i: nat)
    requires AreEpochs(trees, epochs) && i <= |epochs| && AllIntact(trees, epochs, i)
    ensures ServerTree(trees, epochs, i) == trees[i]
  {
    for k := 0 to i
      invariant ServerTree(trees, epochs, k) == trees[k]
    {
      assert ShipsAt(trees, epochs, k) && IntactAt(trees, epochs, k);
      EpochKeepsExact(trees, epochs, k);
    }
  }

  /** What the server has to make of each epoch. */
  function PlanOf(trees: seq<Tree>, epochs: seq<Epoch>): Plan
    requires |trees| == |epochs| + 1
  {
    Plan(seq(|trees|, i requires 0 <= i < |trees| => ServerTree(trees, epochs, i)),
         seq(|epochs|, i requires 0 <= i < |epochs| => StepsSent(trees[i + 1], epochs[i])))
  }

  lemma PlanIsOk(trees: seq<Tree>, epochs: seq<Epoch>)
    requires AreEpochs(trees, epochs)
    ensures PlanOk(PlanOf(trees, epochs))
  {
    forall i | 0 <= i < |epochs|
      ensures EpochOk(ServerTree(trees, epochs, i), ServerTree(trees, epochs, i + 1),
                      StepsSent(trees[i + 1], epochs[i]))
    {
      ServerTreeIsLike(trees, epochs, i);
      EpochKeepsLike(trees, epochs, i, ServerTree(trees, epochs, i));
    }
  }

  /** The server's tree is what it should be after `i` epochs. */
  ghost predicate IsClientTree(trees: seq<Tree>, epochs: seq<Epoch>, i: nat, root: Option<Tree>) {
    && i < |trees| == |epochs| + 1 && root.Some? && Like(trees[i], root.value)
    && (AllIntact(trees, epochs, i) ==> root.value == trees[i])
  }

  lemma ServerTreeIsRight(trees: seq<Tree>, epochs: seq<Epoch>, i: nat)
    requires AreEpochs(trees, epochs) && i <= |epochs|
    ensures IsClientTree(trees, epochs, i, Some(PlanOf(trees, epochs).trees[i]))
  {
    ServerTreeIsLike(trees, epochs, i);
    if AllIntact(trees, epochs, i) {
      ServerTreeIsExact(trees, epochs, i);
    }
  }

  lemma ConfirmedIsRight(trees: seq<Tree>, epochs: seq<Epoch>, i: nat, root: Option<Tree>)
    requires AreEpochs(trees, epochs) && i < |epochs| && root == Some(PlanOf(trees, epochs).trees[i + 1])
    ensures IsClientTree(trees, epochs, i + 1, root)
  {
    ServerTreeIsRight(trees, epochs, i + 1);
  }

  /** A clean tree is the one of before or the one of after the epoch. */
  lemma CleanIsRight(trees: seq<Tree>, epochs: seq<Epoch>, i: nat, root: Option<Tree>) returns (j: nat)
    requires AreEpochs(trees, epochs) && i <= |epochs| && root.Some? && Clean(PlanOf(trees, epochs), i, root.value)
    ensures i <= j <= i + 1 && j <= |epochs| && IsClientTree(trees, epochs, j, root)
  {
    j := if root == Some(PlanOf(trees, epochs).trees[i]) then i else i + 1;
    ServerTreeIsRight(trees, epochs, j);
  }

  lemma ConfirmedAsPlanned(trees: seq<Tree>, epochs: seq<Epoch>, states: seq<State>, k: nat)
    requires AreEpochs(trees, epochs) && IsRun(PlanOf(trees, epochs), states) && k < |states|
    requires states[k].pc == Confirm
    ensures states[k].epoch < |epochs| && states[k].root == Some(PlanOf(trees, epochs).trees[states[k].epoch + 1])
  {
    PlanIsOk(trees, epochs);
    NeverPartial(PlanOf(trees, epochs), states, k);
  }

  lemma ConfirmedInRun(trees: seq<Tree>, epochs: seq<Epoch>, states: seq<State>, k: nat)
    requires AreEpochs(trees, epochs) && IsRun(PlanOf(trees, epochs), states) && k < |states|
    requires states[k].pc == Confirm
    ensures states[k].epoch < |epochs| && IsClientTree(trees, epochs, states[k].epoch + 1, states[k].root)
  {
    ConfirmedAsPlanned(trees, epochs, states, k);
    ConfirmedIsRight(trees, epochs, states[k].epoch, states[k].root);
  }

  lemma BegunClean(plan: Plan, states: seq<State>, k: nat)
    requires PlanOk(plan) && IsRun(plan, states) && k < |states| && states[k].pc == Respond(false)
    ensures states[k].epoch <= |plan.epochs|
    ensures states[k].root.Some? && Clean(plan, states[k].epoch, states[k].root.value)
  {
    RunsKeepInv(plan, states, k);
    NeverPartial(plan, states, k);
  }

  lemma BegunAsPlanned(trees: seq<Tree>, epochs: seq<Epoch>, states: seq<State>, k: nat)
    requires AreEpochs(trees, epochs) && IsRun(PlanOf(trees, epochs), states) && k < |states|
    requires states[k].pc == Respond(false)
    ensures states[k].epoch <= |epochs|
    ensures states[k].root.Some? && Clean(PlanOf(trees, epochs), states[k].epoch, states[k].root.value)
  {
    PlanIsOk(trees, epochs);
    BegunClean(PlanOf(trees, epochs), states, k);
  }

  lemma BegunInRun(trees: seq<Tree>, epochs: seq<Epoch>, states: seq<State>, k: nat) returns (j: nat)
    requires AreEpochs(trees, epochs) && IsRun(PlanOf(trees, epochs), states) && k < |states|
    requires states[k].pc == Respond(false)
    ensures states[k].epoch <= j <= states[k].epoch + 1 && j <= |epochs|
    ensures IsClientTree(trees, epochs, j, states[k].root)
  {
    BegunAsPlanned(trees, epochs, states, k);
    j := CleanIsRight(trees, epochs, states[k].epoch, states[k].root);
  }

  lemma EpochInRange(trees: seq<Tree>, epochs: seq<Epoch>, states: seq<State>, k: nat)
    requires AreEpochs(trees, epochs) && IsRun(PlanOf(trees, epochs), states) && k < |states|
    ensures states[k].epoch <= |epochs|
  {
    PlanIsOk(trees, epochs);
    RunsKeepInv(PlanOf(trees, epochs), states, k);
  }

  lemma NextInRun(trees: seq<Tree>, epochs: seq<Epoch>, states: seq<State>, k: nat)
    requires AreEpochs(trees, epochs) && IsRun(PlanOf(trees, epochs), states) && k + 1 < |states|
    ensures states[k + 1].epoch == states[k].epoch || states[k + 1].epoch == states[k].epoch + 1
  {
    PlanIsOk(trees, epochs);
    EpochsInSequence(PlanOf(trees, epochs), states, k);
  }

  /** Over all runs of any number of epochs, with server crashes and broken connections between any two steps: whenever
      the server confirms an epoch it has the tree the client had at the end of it, exactly as long as no directory
      has lost its attributes, and otherwise up to those; whenever it lets a client begin it has such a tree of before
      or after the epoch; and the epochs are confirmed one after the other. */
  lemma ServerFollowsClient(trees: seq<Tree>, epochs: seq<Epoch>, states: seq<State>, k: nat)
    requires AreEpochs(trees, epochs) && IsRun(PlanOf(trees, epochs), states) && k < |states|
    ensures var s := states[k];
      && s.epoch <= |epochs|
      && (s.pc == Confirm ==> s.epoch < |epochs| && IsClientTree(trees, epochs, s.epoch + 1, s.root))
      && (s.pc == Respond(false) ==>
            exists j :: s.epoch <= j <= s.epoch + 1 && IsClientTree(trees, epochs, j, s.root))
      && (k + 1 < |states| && states[k + 1].epoch != s.epoch ==> states[k + 1].epoch == s.epoch + 1)
  {
    EpochInRange(trees, epochs, states, k);
    if states[k].pc == Confirm {
      ConfirmedInRun(trees, epochs, states, k);
    } else if states[k].pc == Respond(false) {
      var j := BegunInRun(trees, epochs, states, k);
    }
    if k + 1 < |states| {
      NextInRun(trees, epochs, states, k);
    }
  }

  /** From whatever a crash has left behind, undisturbed steps end with the client's tree on the server. */
  lemma ServerCatchesUp(trees: seq<Tree>, epochs: seq<Epoch>, states: seq<State>, k: nat, id: nat)
    returns (n: nat, e: State)
    requires AreEpochs(trees, epochs) && IsRun(PlanOf(trees, epochs), states) && k < |states|
    requires states[k].pc == Idle && states[k].epoch < |epochs|
    ensures e == Steps(PlanOf(trees, epochs), states[k], id, n)
    ensures e.pc == Idle && e.epoch == states[k].epoch + 1 && e.snapshot == None && e.last == Holds(id)
    ensures IsClientTree(trees, epochs, e.epoch, e.root)
  {
    var plan := PlanOf(trees, epochs);
    PlanIsOk(trees, epochs);
    RunsKeepInv(plan, states, k);
    n, e := SessionsComplete(plan, states[k], id);
    ServerTreeIsRight(trees, epochs, e.epoch);
  }
}
