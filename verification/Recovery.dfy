/** The server's snapshot and sync-id protocol, one durable step at a time, with a crash or a lost connection
    possible between any two steps. */
module Recovery {
  import opened Wrappers
  import opened Operations
  import opened Posix

  /******* Epochs *******/

  /** One operation as the server's handlers get it. */
  datatype Step = Step(path: Path, op: Loaded)

  /** The tree after the first `n` operations. */
  function RunTo(t: Tree, steps: seq<Step>, n: nat): Tree
    requires n <= |steps|
  {
    if n == 0 then t else TreeApply(RunTo(t, steps, n - 1), steps[n - 1].path, steps[n - 1].op)
  }

  function Run(t: Tree, steps: seq<Step>): Tree {
    RunTo(t, steps, |steps|)
  }

  /** The tree before an epoch, the tree after it, and the operations sent for it. */
  ghost predicate EpochOk(before: Tree, after: Tree, steps: seq<Step>) {
    Run(before, steps) == after && Run(after, steps) == after
  }

  /** All epochs of a client: `trees[i]` is what the server has to have before epoch `i`. */
  datatype Plan = Plan(trees: seq<Tree>, epochs: seq<seq<Step>>)

  ghost predicate PlanOk(plan: Plan) {
    && |plan.trees| == |plan.epochs| + 1
    && forall i :: 0 <= i < |plan.epochs| ==> EpochOk(plan.trees[i], plan.trees[i + 1], plan.epochs[i])
  }

  /** The tree before or the tree after the client's current epoch, and nothing in between. */
  predicate Clean(plan: Plan, i: nat, t: Tree) {
    (i < |plan.trees| && t == plan.trees[i]) || (i + 1 < |plan.trees| && t == plan.trees[i + 1])
  }

  /******* States *******/

  /** A sync-id file; `Torn` is one that exists but holds no id, as between `ftruncate` and `write`. */
  datatype IdFile = Absent | Torn | Holds(id: nat)

  /** Where the server stands in `syncInit` and `handleClient`. */
  datatype Pc =
    | Idle
    | Init
    | RevertDelete
    | RevertCreate(failed: bool)
    | RevertDrop(failed: bool)
    | DropOld
    | TakeSnapshot
    | EmptyId
    | WriteId
    | Respond(err: bool)
    | Replay(pos: nat)
    | DropSnapshot
    | RenameId
    | Confirm

  /** The server's disk and position, and the number of epochs the client has seen confirmed. */
  datatype State = State(root: Option<Tree>, snapshot: Option<Tree>, syncid: IdFile, last: IdFile, pc: Pc, epoch: nat)

  /** One step of the server, without disturbance. `id` is the sync-id the client sent. */
  function Advance(plan: Plan, s: State, id: nat): State {
    match s.pc
    case Idle => if s.epoch < |plan.epochs| then s.(pc := Init) else s
    case Init => s.(pc := if s.syncid.Holds? && s.snapshot.Some? then RevertDelete else DropOld)
    case RevertDelete => s.(root := None, pc := RevertCreate(s.root.None?))
    case RevertCreate(failed) =>
      if s.snapshot.Some? && s.root.None? then s.(root := s.snapshot, pc := RevertDrop(failed))
      else s.(pc := RevertDrop(true))
    case RevertDrop(failed) =>
      s.(snapshot := None, pc := if failed || s.snapshot.None? then Respond(true) else DropOld)
    case DropOld => s.(snapshot := None, pc := TakeSnapshot)
    case TakeSnapshot => if s.root.Some? then s.(snapshot := s.root, pc := EmptyId) else s.(pc := Respond(true))
    case EmptyId => s.(syncid := Torn, pc := WriteId)
    case WriteId => s.(syncid := Holds(id), pc := Respond(false))
    case Respond(err) => s.(pc := if err then Idle else Replay(0))
    case Replay(pos) =>
      if s.root.Some? && s.epoch < |plan.epochs| && pos < |plan.epochs[s.epoch]| then
        var step := plan.epochs[s.epoch][pos];
        s.(root := Some(TreeApply(s.root.value, step.path, step.op)), pc := Replay(pos + 1))
      else s.(pc := DropSnapshot)
    case DropSnapshot => if s.snapshot.Some? then s.(snapshot := None, pc := RenameId) else s.(pc := Idle)
    case RenameId => if s.syncid.Absent? then s.(pc := Idle) else s.(syncid := Absent, last := s.syncid, pc := Confirm)
    case Confirm => s.(pc := Idle, epoch := s.epoch + 1)
  }

  /** Any step that can happen: the next one of the program, a crash or a broken connection, which both lead
      back to waiting for a client, or a confirmation that is sent but does not arrive. */
  ghost predicate Next(plan: Plan, s: State, s': State) {
    || (exists id: nat :: s' == Advance(plan, s, id))
    || s' == s.(pc := Idle)
  }

  /** A crash can come between any two steps, and any id can be sent. */
  lemma AnyStep(plan: Plan, s: State, id: nat)
    ensures Next(plan, s, Advance(plan, s, id)) && Next(plan, s, s.(pc := Idle))
  {
  }

  /** A run starts with a tree in place, no snapshot and no sync-id. */
  ghost predicate Start(plan: Plan, s: State) {
    s.pc == Idle && s.epoch == 0 && plan.trees != [] && s.root == Some(plan.trees[0]) && s.snapshot == None
      && s.syncid == Absent
  }

  ghost predicate IsRun(plan: Plan, states: seq<State>) {
    && states != [] && Start(plan, states[0])
    && forall k :: 0 <= k < |states| - 1 ==> Next(plan, states[k], states[k + 1])
  }

  /******* The invariant *******/

  predicate CleanRoot(plan: Plan, s: State) {
    s.root.Some? && Clean(plan, s.epoch, s.root.value)
  }

  /** What a crash may leave behind. */
  predicate Recoverable(plan: Plan, s: State) {
    && s.epoch < |plan.trees|
    && (s.snapshot.Some? ==> Clean(plan, s.epoch, s.snapshot.value))
    && (s.snapshot.None? ==> CleanRoot(plan, s))
    && (!CleanRoot(plan, s) ==> s.syncid.Holds?)
  }

  predicate Finished(plan: Plan, s: State) {
    s.epoch < |plan.epochs| && s.epoch + 1 < |plan.trees| && s.root == Some(plan.trees[s.epoch + 1])
  }

  /** What is true in addition at each position of the program. */
  predicate AtPc(plan: Plan, s: State) {
    match s.pc
    case Idle => true
    case Init => true
    case RevertDelete => s.snapshot.Some? && s.syncid.Holds?
    case RevertCreate(_) => s.root.None? && s.snapshot.Some? && s.syncid.Holds?
    case RevertDrop(_) => s.root.Some? && s.root == s.snapshot
    case DropOld => CleanRoot(plan, s)
    case TakeSnapshot => CleanRoot(plan, s) && s.snapshot.None?
    case EmptyId => CleanRoot(plan, s) && s.snapshot == s.root
    case WriteId => CleanRoot(plan, s) && s.snapshot == s.root && s.syncid.Torn?
    case Respond(err) => CleanRoot(plan, s) && (!err ==> s.snapshot == s.root && s.syncid.Holds?)
    case Replay(pos) =>
      s.snapshot.Some? && s.syncid.Holds? && s.epoch < |plan.epochs| && pos <= |plan.epochs[s.epoch]| &&
      s.root == Some(RunTo(s.snapshot.value, plan.epochs[s.epoch], pos))
    case DropSnapshot => s.snapshot.Some? && s.syncid.Holds? && Finished(plan, s)
    case RenameId => s.snapshot.None? && s.syncid.Holds? && Finished(plan, s)
    case Confirm => s.snapshot.None? && s.syncid.Absent? && s.last.Holds? && Finished(plan, s)
  }

  predicate Inv(plan: Plan, s: State) {
    |plan.trees| == |plan.epochs| + 1 && Recoverable(plan, s) && (s.pc != Idle ==> s.epoch < |plan.epochs|)
      && AtPc(plan, s)
  }

  lemma StartInv(plan: Plan, s: State)
    requires PlanOk(plan) && Start(plan, s)
    ensures Inv(plan, s)
  {
  }

  lemma CrashInv(plan: Plan, s: State)
    requires Inv(plan, s)
    ensures Inv(plan, s.(pc := Idle))
  {
  }

  lemma AdvanceInv(plan: Plan, s: State, id: nat)
    requires PlanOk(plan) && Inv(plan, s)
    ensures Inv(plan, Advance(plan, s, id))
  {
    if s.epoch < |plan.epochs| {
      assert EpochOk(plan.trees[s.epoch], plan.trees[s.epoch + 1], plan.epochs[s.epoch]);
    }
  }

  /** Over all runs of any number of epochs, crashes and repetitions. */
  lemma {:induction false} RunsKeepInv(plan: Plan, states: seq<State>, k: nat)
    requires PlanOk(plan) && IsRun(plan, states) && k < |states|
    ensures Inv(plan, states[k])
  {
    if k == 0 {
      StartInv(plan, states[0]);
    } else {
      RunsKeepInv(plan, states, k - 1);
      var s, s' := states[k - 1], states[k];
      assert Next(plan, s, s');
      if id: nat :| s' == Advance(plan, s, id) {
        AdvanceInv(plan, s, id);
      } else {
        CrashInv(plan, s);
      }
    }
  }

  /******* Safety *******/

  /** Whenever the server tells the client to go on, its tree is the one before or the one after the epoch, and a
      snapshot of just that tree exists; whenever it confirms, its tree is the one after; and at any time a
      partial or missing tree comes with a clean snapshot and a readable sync-id, which is what makes the next
      attempt revert. */
  lemma NeverPartial(plan: Plan, states: seq<State>, k: nat)
    requires PlanOk(plan) && IsRun(plan, states) && k < |states|
    ensures var s := states[k];
            && (s.pc == Respond(false) ==> CleanRoot(plan, s) && s.snapshot == s.root)
            && (s.pc == Confirm ==> s.epoch + 1 < |plan.trees| && s.root == Some(plan.trees[s.epoch + 1]))
            && (!CleanRoot(plan, s) ==>
                  s.syncid.Holds? && s.snapshot.Some? && Clean(plan, s.epoch, s.snapshot.value))
  {
    RunsKeepInv(plan, states, k);
  }

  /** In every run the snapshot is there before the sync-id is touched, both are there as long as operations are
      replayed, the snapshot is gone before the sync-id is moved, and that has been moved before the epoch is
      confirmed. */
  lemma OrderOfFiles(plan: Plan, states: seq<State>, k: nat)
    requires PlanOk(plan) && IsRun(plan, states) && k < |states|
    ensures var s := states[k];
            && (s.pc == TakeSnapshot ==> s.snapshot == None)
            && (s.pc == EmptyId || s.pc == WriteId ==> s.snapshot.Some? && s.snapshot == s.root)
            && (s.pc == WriteId ==> s.syncid == Torn)
            && (s.pc.Replay? ==> s.snapshot.Some? && s.syncid.Holds?)
            && (s.pc == DropSnapshot ==> s.snapshot.Some? && s.syncid.Holds?)
            && (s.pc == RenameId ==> s.snapshot == None && s.syncid.Holds?)
            && (s.pc == Confirm ==> s.snapshot == None && s.syncid == Absent && s.last.Holds?)
  {
    RunsKeepInv(plan, states, k);
  }

  /** An epoch counts as confirmed only once, in sequence, and with the server's tree complete at that time. */
  lemma EpochsInSequence(plan: Plan, states: seq<State>, k: nat)
    requires PlanOk(plan) && IsRun(plan, states) && k + 1 < |states|
    ensures states[k + 1].epoch != states[k].epoch ==>
              states[k + 1].epoch == states[k].epoch + 1 && states[k + 1].epoch < |plan.trees| &&
              states[k + 1].root == Some(plan.trees[states[k + 1].epoch])
  {
    RunsKeepInv(plan, states, k);
    assert Next(plan, states[k], states[k + 1]);
  }

  /** The client has been told to go on, and the epoch is not yet confirmed. */
  predicate InSession(pc: Pc) {
    pc == Respond(false) || pc.Replay? || pc.DropSnapshot? || pc.RenameId?
  }

  lemma SessionStep(plan: Plan, s: State, id: nat)
    requires InSession(Advance(plan, s, id).pc)
    ensures if s.pc == WriteId then Advance(plan, s, id).syncid == Holds(id)
            else InSession(s.pc) && Advance(plan, s, id).syncid == s.syncid
  {
  }

  /** In a session the sync-id file holds what its client sent. */
  lemma {:induction false} SessionId(plan: Plan, states: seq<State>, k: nat) returns (j: nat, id: nat)
    requires IsRun(plan, states) && k < |states| && InSession(states[k].pc)
    ensures j < k && states[j].pc == WriteId && states[j + 1] == Advance(plan, states[j], id)
    ensures states[k].syncid == Holds(id) && forall i :: j < i <= k ==> InSession(states[i].pc)
  {
    var s, s' := states[k - 1], states[k];
    assert Next(plan, s, s');
    var i: nat :| s' == Advance(plan, s, i);
    SessionStep(plan, s, i);
    if s.pc == WriteId {
      j, id := k - 1, i;
    } else {
      j, id := SessionId(plan, states, k - 1);
    }
  }

  /** When an epoch is confirmed, the id its client sent is in the file for the last one that was finished, and in no
      other. */
  lemma ConfirmedId(plan: Plan, states: seq<State>, k: nat) returns (j: nat, id: nat)
    requires IsRun(plan, states) && k < |states| && states[k].pc == Confirm
    ensures j < k && states[j].pc == WriteId && states[j + 1] == Advance(plan, states[j], id)
    ensures states[k].last == Holds(id) && states[k].syncid == Absent
    ensures forall i :: j < i < k ==> InSession(states[i].pc)
  {
    var s, s' := states[k - 1], states[k];
    assert Next(plan, s, s');
    j, id := SessionId(plan, states, k - 1);
  }

  /******* Recovery *******/

  /** `n` undisturbed steps. */
  function Steps(plan: Plan, s: State, id: nat, n: nat): State {
    if n == 0 then s else Advance(plan, Steps(plan, s, id, n - 1), id)
  }

  lemma {:induction false} StepsJoin(plan: Plan, s: State, id: nat, n: nat, m: nat)
    ensures Steps(plan, s, id, n + m) == Steps(plan, Steps(plan, s, id, n), id, m)
  {
    if m > 0 {
      StepsJoin(plan, s, id, n, m - 1);
    }
  }

  lemma {:induction false} StepsInv(plan: Plan, s: State, id: nat, n: nat)
    requires PlanOk(plan) && Inv(plan, s)
    ensures Inv(plan, Steps(plan, s, id, n))
  {
    if n > 0 {
      StepsInv(plan, s, id, n - 1);
      AdvanceInv(plan, Steps(plan, s, id, n - 1), id);
    }
  }

  /** Undisturbed steps lead from `s` to `e`. */
  predicate Leads(plan: Plan, s: State, id: nat, n: nat, e: State) {
    Steps(plan, s, id, n) == e
  }

  lemma LeadsOn(plan: Plan, s: State, id: nat, n: nat, t: State, m: nat, e: State)
    requires Leads(plan, s, id, n, t) && Leads(plan, t, id, m, e)
    ensures Leads(plan, s, id, n + m, e)
  {
    StepsJoin(plan, s, id, n, m);
  }

  /** Undisturbed, the server replays one operation after the other. */
  lemma {:induction false} ReplaySteps(plan: Plan, s: State, id: nat, n: nat)
    requires s.pc.Replay? && s.root.Some? && s.epoch < |plan.epochs| && s.pc.pos + n <= |plan.epochs[s.epoch]|
    ensures var e := Steps(plan, s, id, n);
      e.pc == Replay(s.pc.pos + n) && e.root.Some? && e.epoch == s.epoch && e.syncid == s.syncid
  {
    if n > 0 {
      ReplaySteps(plan, s, id, n - 1);
    }
  }

  /** Replaying to the end of the epoch. */
  lemma ReplayToEnd(plan: Plan, s: State, id: nat) returns (n: nat, e: State)
    requires PlanOk(plan) && Inv(plan, s) && s.pc == Replay(0)
    ensures s.epoch < |plan.epochs|
    ensures Leads(plan, s, id, n, e) && Inv(plan, e)
    ensures e.pc == Replay(|plan.epochs[s.epoch]|) && e.epoch == s.epoch && e.syncid == s.syncid
  {
    n := |plan.epochs[s.epoch]|;
    e := Steps(plan, s, id, n);
    ReplaySteps(plan, s, id, n);
    StepsInv(plan, s, id, n);
  }

  lemma ThreeSteps(plan: Plan, s: State, id: nat)
    ensures Steps(plan, s, id, 1) == Advance(plan, s, id)
    ensures Steps(plan, s, id, 2) == Advance(plan, Advance(plan, s, id), id)
    ensures Steps(plan, s, id, 3) == Advance(plan, Advance(plan, Advance(plan, s, id), id), id)
  {
    assert Steps(plan, s, id, 0) == s;
  }

  /** From waiting to the decision about a snapshot that may be left over. */
  lemma ToDropOld(plan: Plan, s: State, id: nat) returns (n: nat, e: State)
    requires PlanOk(plan) && Inv(plan, s) && s.pc == Idle && s.epoch < |plan.epochs| && s.root.Some?
    ensures Leads(plan, s, id, n, e) && Inv(plan, e) && e.pc == DropOld && e.epoch == s.epoch
    ensures e.root == if s.syncid.Holds? && s.snapshot.Some? then s.snapshot else s.root
  {
    ThreeSteps(plan, s, id);
    n := 2;
    if s.syncid.Holds? && s.snapshot.Some? {
      n := 5;
      ThreeSteps(plan, Steps(plan, s, id, 3), id);
      StepsJoin(plan, s, id, 3, 2);
    }
    e := Steps(plan, s, id, n);
    StepsInv(plan, s, id, n);
  }

  lemma ToReplay(plan: Plan, s: State, id: nat) returns (n: nat, e: State)
    requires PlanOk(plan) && Inv(plan, s) && s.pc == DropOld
    ensures Leads(plan, s, id, n, e) && Inv(plan, e)
    ensures e.pc == Replay(0) && e.epoch == s.epoch && e.syncid == Holds(id) && e.root == e.snapshot == s.root
  {
    n := 5;
    StepsInv(plan, s, id, 3);
    StepsInv(plan, s, id, n);
    ThreeSteps(plan, s, id);
    ThreeSteps(plan, Steps(plan, s, id, 3), id);
    StepsJoin(plan, s, id, 3, 2);
    e := Steps(plan, s, id, n);
  }

  /** What a session replays onto: on the snapshot if an epoch was left unfinished, that is if both the snapshot and a
      readable sync-id are there, and otherwise on the tree as it is. A new snapshot of just that tree is there, and
      the new sync-id. */
  lemma SessionBase(plan: Plan, s: State, id: nat) returns (n: nat, e: State)
    requires PlanOk(plan) && Inv(plan, s) && s.pc == Idle && s.epoch < |plan.epochs| && s.root.Some?
    ensures Leads(plan, s, id, n, e) && e.pc == Replay(0) && e.syncid == Holds(id) && e.root == e.snapshot
    ensures e.root == if s.syncid.Holds? && s.snapshot.Some? then s.snapshot else s.root
  {
    var a, t := ToDropOld(plan, s, id);
    var b;
    b, e := ToReplay(plan, t, id);
    LeadsOn(plan, s, id, a, t, b, e);
    n := a + b;
  }

  /** The tree is complete, the snapshot is gone, the client's id is that of the last epoch, and the server waits
      again. */
  predicate Completed(plan: Plan, epoch: nat, id: nat, e: State) {
    e.pc == Idle && e.epoch == epoch + 1 && e.epoch < |plan.trees| && e.root == Some(plan.trees[e.epoch])
      && e.snapshot == None && e.syncid == Absent && e.last == Holds(id)
  }

  lemma ToIdle(plan: Plan, s: State, id: nat) returns (n: nat, e: State)
    requires PlanOk(plan) && Inv(plan, s) && s.pc.Replay? && s.pc.pos == |plan.epochs[s.epoch]| && s.syncid == Holds(id)
    ensures Leads(plan, s, id, n, e) && Completed(plan, s.epoch, id, e)
  {
    n := 4;
    AdvanceInv(plan, s, id);
    ThreeSteps(plan, s, id);
    ThreeSteps(plan, Steps(plan, s, id, 3), id);
    StepsJoin(plan, s, id, 3, 1);
    e := Steps(plan, s, id, n);
  }

  lemma ToReplayed(plan: Plan, s: State, id: nat) returns (n: nat, e: State)
    requires PlanOk(plan) && Inv(plan, s) && s.pc == DropOld && s.epoch < |plan.epochs|
    ensures Leads(plan, s, id, n, e) && Inv(plan, e)
    ensures e.pc == Replay(|plan.epochs[s.epoch]|) && e.epoch == s.epoch && e.syncid == Holds(id)
  {
    var a, t := ToReplay(plan, s, id);
    var b;
    b, e := ReplayToEnd(plan, t, id);
    LeadsOn(plan, s, id, a, t, b, e);
    n := a + b;
  }

  /** From there to the end of the session. */
  lemma ToConfirmed(plan: Plan, s: State, id: nat) returns (n: nat, e: State)
    requires PlanOk(plan) && Inv(plan, s) && s.pc == DropOld
    ensures Leads(plan, s, id, n, e) && Completed(plan, s.epoch, id, e)
  {
    var a, t := ToReplayed(plan, s, id);
    var b;
    b, e := ToIdle(plan, t, id);
    LeadsOn(plan, s, id, a, t, b, e);
    n := a + b;
  }

  /** An undisturbed session completes the epoch, from whatever a crash has left, if the tree is in place. */
  lemma SessionCompletes(plan: Plan, s: State, id: nat) returns (n: nat, e: State)
    requires PlanOk(plan) && Inv(plan, s) && s.pc == Idle && s.epoch < |plan.epochs| && s.root.Some?
    ensures Leads(plan, s, id, n, e) && Completed(plan, s.epoch, id, e)
  {
    var a, t := ToDropOld(plan, s, id);
    var b;
    b, e := ToConfirmed(plan, t, id);
    LeadsOn(plan, s, id, a, t, b, e);
    n := a + b;
  }

  /** If the crash hit between deleting the tree and restoring it, the first session is refused although it
      restores the tree; the next one completes the epoch. */
  lemma MissingTreeIsRestored(plan: Plan, s: State, id: nat)
    requires PlanOk(plan) && Inv(plan, s) && s.pc == Idle && s.epoch < |plan.epochs| && s.root.None?
    ensures var e := Steps(plan, s, id, 6);
            e.pc == Idle && e.epoch == s.epoch && CleanRoot(plan, e) && e.root == s.snapshot && e.snapshot == None
  {
    ThreeSteps(plan, s, id);
    var t := Steps(plan, s, id, 3);
    ThreeSteps(plan, t, id);
    StepsJoin(plan, s, id, 3, 3);
  }

  lemma RestoreFirst(plan: Plan, s: State, id: nat) returns (n: nat, e: State)
    requires PlanOk(plan) && Inv(plan, s) && s.pc == Idle && s.epoch < |plan.epochs| && s.root.None?
    ensures Leads(plan, s, id, n, e) && Inv(plan, e) && e.pc == Idle && e.epoch == s.epoch && e.root.Some?
  {
    n := 6;
    e := Steps(plan, s, id, n);
    MissingTreeIsRestored(plan, s, id);
    StepsInv(plan, s, id, n);
  }

  /** From whatever a crash has left, undisturbed sessions complete the epoch. */
  lemma SessionsComplete(plan: Plan, s: State, id: nat) returns (n: nat, e: State)
    requires PlanOk(plan) && Inv(plan, s) && s.pc == Idle && s.epoch < |plan.epochs|
    ensures Leads(plan, s, id, n, e) && Completed(plan, s.epoch, id, e)
  {
    if s.root.Some? {
      n, e := SessionCompletes(plan, s, id);
    } else {
      var a, t := RestoreFirst(plan, s, id);
      var b;
      b, e := SessionCompletes(plan, t, id);
      LeadsOn(plan, s, id, a, t, b, e);
      n := a + b;
    }
  }
}
