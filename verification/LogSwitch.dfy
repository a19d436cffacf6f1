/** The operations log, written record by record, while a signal may ask at any moment to switch to a new one. */
module LogSwitch {
  import opened Wrappers
  import opened Operations
  import opened Seqs

  /** How far `handleSIGUSR1` has come; `Entered` still has to look at `writepending`. */
  datatype Handler = NotRunning | Entered | Switching | Closed | Renamed | Opened | Cleared

  /** How far `logGeneric` has come; in `Writing` the flag `writepending` is set and `done` bytes are written.
      After the record it may call the handler itself. */
  datatype Main = Resting | Packed(rec: bytes) | Writing(rec: bytes, done: nat) | Checking | Calling(handler: Handler)

  /** `sync` is the switched-out log, `taken` what the client has taken over already. The last line only records
      what happened: all records so far, those taken over, those in the switched-out log and those in the current
      log, and how many requests, switches and acknowledgements there were. */
  datatype State = State(
    log: bytes, sync: Option<bytes>, taken: bytes,
    writepending: bool, switchpending: bool, main: Main, handler: Handler,
    signal: bool, ack: bool, waiting: bool,
    history: seq<bytes>, past: seq<bytes>, cut: seq<bytes>, current: seq<bytes>, requests: nat, switches: nat,
    acks: nat)

  const INITIAL :=
    State([], None, [], false, false, Resting, NotRunning, false, false, false, [], [], [], [], 0, 0, 0)

  /** The client asks for a switch, the signal arrives, the handler or the file system does its next step, a
      record is to be logged, the client gets its answer, or it has taken over the switched-out log. */
  datatype Action = Request | Deliver | HandlerStep | MainStep | Log(rec: bytes) | Answered | TakeOver

  /** One step of the handler. It switches at once unless a record is being written. */
  function StepHandler(s: State, h: Handler): (State, Handler) {
    match h
    case NotRunning => (s, NotRunning)
    case Entered => if s.writepending then (s.(switchpending := true), NotRunning) else (s, Switching)
    case Switching => (s, Closed)
    case Closed =>
      (s.(sync := Some(s.log), log := [], cut := s.current, current := [], switches := s.switches + 1), Renamed)
    case Renamed => (s, Opened)
    case Opened => (s.(switchpending := false), Cleared)
    case Cleared => (s.(ack := true, acks := s.acks + 1), NotRunning)
  }

  /** One step of `logGeneric`; bytes of a record get into the log one by one. */
  function StepMain(s: State): State {
    match s.main
    case Resting => s
    case Packed(rec) => s.(writepending := true, main := Writing(rec, 0))
    case Writing(rec, done) =>
      if done < |rec| then s.(log := s.log + [rec[done]], main := Writing(rec, done + 1))
      else s.(writepending := false, history := s.history + [rec], current := s.current + [rec], main := Checking)
    case Checking => s.(main := if s.switchpending then Calling(Entered) else Resting)
    case Calling(h) =>
      var (s', h') := StepHandler(s, h);
      s'.(main := if h'.NotRunning? then Resting else Calling(h'))
  }

  /** None: the action is not possible now. While the handler runs, what it interrupted does not. The client
      waits for an answer before it asks again, and for the switched-out log to be gone. */
  function Do(s: State, a: Action): Option<State> {
    match a
    case Request =>
      if s.waiting || s.sync.Some? then None else Some(s.(signal := true, waiting := true, requests := s.requests + 1))
    case Deliver =>
      if s.signal && s.handler.NotRunning? then Some(s.(signal := false, handler := Entered)) else None
    case HandlerStep =>
      if s.handler.NotRunning? then None
      else
        var (s', h) := StepHandler(s, s.handler);
        Some(s'.(handler := h))
    case MainStep => if s.handler.NotRunning? && !s.main.Resting? then Some(StepMain(s)) else None
    case Log(rec) => if s.handler.NotRunning? && s.main.Resting? then Some(s.(main := Packed(rec))) else None
    case Answered => if s.ack then Some(s.(ack := false, waiting := false)) else None
    case TakeOver =>
      if !s.waiting && s.sync.Some? then
        Some(s.(taken := s.taken + s.sync.value, sync := None, past := s.past + s.cut, cut := []))
      else None
  }

  function Play(actions: seq<Action>): State {
    if actions == [] then INITIAL
    else
      var s := Play(actions[..|actions| - 1]);
      var r := Do(s, actions[|actions| - 1]);
      if r.Some? then r.value else s
  }

  /******* What is always true *******/

  function Flat(rs: seq<bytes>): bytes {
    if rs == [] then [] else Flat(rs[..|rs| - 1]) + rs[|rs| - 1]
  }

  /** The part of the record being written that has reached the log. */
  function Partial(s: State): bytes {
    if s.main.Writing? && s.main.done <= |s.main.rec| then s.main.rec[..s.main.done] else []
  }

  predicate Switches(h: Handler) {
    h.Switching? || h.Closed? || h.Renamed? || h.Opened? || h.Cleared?
  }

  /** The handler, whoever called it, has renamed the log and not yet answered. */
  predicate Halfway(h: Handler) {
    h.Renamed? || h.Opened? || h.Cleared?
  }

  function Called(s: State): Handler {
    if s.main.Calling? then s.main.handler else NotRunning
  }

  function One(b: bool): nat {
    if b then 1 else 0
  }

  /** Where the one request that may be outstanding is. */
  function Outstanding(s: State): nat {
    One(s.signal) + One(!s.handler.NotRunning?) +
    One(s.switchpending && !Switches(s.handler) && !s.main.Calling?) + One(s.main.Calling?) + One(s.ack)
  }

  predicate FilesOk(s: State) {
    && s.history == s.past + s.cut + s.current
    && s.taken == Flat(s.past)
    && s.log == Flat(s.current) + Partial(s)
    && (if s.sync.Some? then s.sync.value == Flat(s.cut) else s.cut == [])
  }

  predicate FlagsOk(s: State) {
    && (s.writepending <==> s.main.Writing?)
    && (s.main.Writing? ==> s.main.done <= |s.main.rec|)
    && (Switches(s.handler) ==> !s.writepending && !s.switchpending)
    && (s.main.Calling? ==> s.handler.NotRunning? && !s.main.handler.NotRunning?)
    && (s.main.Calling? && !s.main.handler.Cleared? ==> s.switchpending)
    && (s.main.Calling? && s.main.handler.Cleared? ==> !s.switchpending)
    && (s.switchpending ==> s.main.Writing? || s.main.Checking? || s.main.Calling?)
    && Outstanding(s) == One(s.waiting)
    && (s.sync.Some? && s.waiting <==> s.ack || Halfway(s.handler) || Halfway(Called(s)))
    && s.requests == s.acks + One(s.waiting && !s.ack)
    && s.switches == s.acks + One(Halfway(s.handler) || Halfway(Called(s)))
  }

  predicate Inv(s: State) {
    FilesOk(s) && FlagsOk(s)
  }

  lemma {:induction false} FlatConcat(a: seq<bytes>, b: seq<bytes>)
    ensures Flat(a + b) == Flat(a) + Flat(b)
  {
    if b == [] {
      assert a + b == a;
    } else {
      Snoc(a, b);
      FlatConcat(a, b[..|b| - 1]);
    }
  }

  lemma FlatMore(rs: seq<bytes>, rec: bytes)
    ensures Flat(rs + [rec]) == Flat(rs) + rec[..|rec|]
  {
    assert (rs + [rec])[..|rs + [rec]| - 1] == rs;
    assert rec[..|rec|] == rec;
  }

  lemma FlatThree(past: seq<bytes>, cut: seq<bytes>, current: seq<bytes>, partial: bytes)
    ensures Flat(past) + Flat(cut) + (Flat(current) + partial) == Flat(past + cut + current) + partial
  {
    FlatConcat(past, cut);
    FlatConcat(past + cut, current);
  }

  lemma OneMore(past: seq<bytes>, cut: seq<bytes>, current: seq<bytes>, rec: bytes)
    ensures past + cut + current + [rec] == past + cut + (current + [rec])
  {
  }

  /** Bytes get into the log one by one. */
  lemma ByteWritten(s: State)
    requires FilesOk(s) && s.main.Writing? && s.main.done < |s.main.rec|
    ensures FilesOk(StepMain(s))
  {
    var rec, done := s.main.rec, s.main.done;
    assert rec[..done + 1] == rec[..done] + [rec[done]];
  }

  /** A record has been written completely. */
  lemma RecordWritten(s: State)
    requires FilesOk(s) && s.main.Writing? && s.main.done == |s.main.rec|
    ensures FilesOk(StepMain(s))
  {
    FlatMore(s.current, s.main.rec);
    OneMore(s.past, s.cut, s.current, s.main.rec);
  }

  lemma HandlerStepFiles(s: State, h: Handler)
    requires FilesOk(s) && FlagsOk(s) && !h.NotRunning? && h in {s.handler, Called(s)}
    ensures FilesOk(StepHandler(s, h).0)
  {
  }

  /** Steps around the writing of a record touch no file. */
  lemma QuietStep(s: State)
    requires FilesOk(s) && (s.main.Packed? || s.main.Checking?)
    ensures FilesOk(StepMain(s))
  {
  }

  lemma WritingStep(s: State)
    requires FilesOk(s) && s.main.Writing? && s.main.done <= |s.main.rec|
    ensures FilesOk(StepMain(s))
  {
    if s.main.done < |s.main.rec| {
      ByteWritten(s);
    } else {
      RecordWritten(s);
    }
  }

  lemma CallingStep(s: State)
    requires FilesOk(s) && FlagsOk(s) && s.main.Calling?
    ensures FilesOk(StepMain(s))
  {
    HandlerStepFiles(s, s.main.handler);
  }

  lemma MainStepFiles(s: State)
    requires FilesOk(s) && FlagsOk(s) && !s.main.Resting?
    ensures FilesOk(StepMain(s))
  {
    match s.main
    case Writing(_, _) => WritingStep(s);
    case Calling(_) => CallingStep(s);
    case _ => QuietStep(s);
  }

  lemma MainStepFlags(s: State)
    requires FlagsOk(s) && s.handler.NotRunning? && !s.main.Resting?
    ensures FlagsOk(StepMain(s))
  {
  }

  lemma HandlerStepFlags(s: State)
    requires FlagsOk(s) && !s.handler.NotRunning?
    ensures FlagsOk(Do(s, HandlerStep).value)
  {
  }

  lemma TakeOverOk(s: State)
    requires Inv(s) && Do(s, TakeOver).Some?
    ensures Inv(Do(s, TakeOver).value)
  {
    FlatConcat(s.past, s.cut);
  }

  lemma OtherStepOk(s: State, a: Action)
    requires Inv(s) && Do(s, a).Some? && !a.HandlerStep? && !a.MainStep? && !a.TakeOver?
    ensures Inv(Do(s, a).value)
  {
  }

  /** Every step of every participant keeps the files and the flags as they should be. */
  lemma StepOk(s: State, a: Action)
    requires Inv(s) && Do(s, a).Some?
    ensures Inv(Do(s, a).value)
  {
    match a
    case HandlerStep =>
      HandlerStepFiles(s, s.handler);
      HandlerStepFlags(s);
    case MainStep =>
      MainStepFiles(s);
      MainStepFlags(s);
    case TakeOver => TakeOverOk(s);
    case _ => OtherStepOk(s, a);
  }

  lemma {:induction false} PlayOk(actions: seq<Action>)
    ensures Inv(Play(actions))
  {
    if actions != [] {
      PlayOk(actions[..|actions| - 1]);
      var s := Play(actions[..|actions| - 1]);
      if Do(s, actions[|actions| - 1]).Some? {
        StepOk(s, actions[|actions| - 1]);
      }
    }
  }

  /******* What that means *******/

  /** Nothing is lost, duplicated or reordered in any interleaving: what the client has taken over, the
      switched-out log and the current log are together exactly the records logged so far, and the beginning of
      the one being written. */
  lemma NoRecordLost(actions: seq<Action>)
    ensures var s := Play(actions);
      s.taken + (if s.sync.Some? then s.sync.value else []) + s.log == Flat(s.history) + Partial(s)
  {
    PlayOk(actions);
    var s := Play(actions);
    FlatThree(s.past, s.cut, s.current, Partial(s));
  }

  /** The records handed to `logGeneric`, one after the other: whenever it is idle, it takes one. */
  function Logged(actions: seq<Action>): seq<bytes> {
    if actions == [] then []
    else
      var front, a := actions[..|actions| - 1], actions[|actions| - 1];
      if a.Log? && Do(Play(front), a).Some? then Logged(front) + [a.rec] else Logged(front)
  }

  /** The record `logGeneric` has in hand. */
  function InHand(m: Main): seq<bytes> {
    match m
    case Packed(rec) => [rec]
    case Writing(rec, _) => [rec]
    case _ => []
  }

  lemma HandlerLogsNothing(s: State, h: Handler)
    ensures StepHandler(s, h).0.history == s.history
  {
  }

  lemma MainStepLogged(s: State)
    ensures !s.main.Resting? ==>
      StepMain(s).history + InHand(StepMain(s).main) == s.history + InHand(s.main)
  {
    HandlerLogsNothing(s, Called(s));
    if s.main.Writing? {
      assert s.history + [s.main.rec] + [] == s.history + [s.main.rec];
    }
  }

  lemma LoggedStep(s: State, a: Action)
    requires Do(s, a).Some?
    ensures var s' := Do(s, a).value;
      s'.history + InHand(s'.main) == if a.Log? then s.history + [a.rec] else s.history + InHand(s.main)
    ensures a.Log? ==> InHand(s.main) == []
  {
    match a
    case MainStep => MainStepLogged(s);
    case HandlerStep => HandlerLogsNothing(s, s.handler);
    case _ =>
  }

  /** They are the history, and the one in hand. */
  lemma {:induction false} HistoryIsLogged(actions: seq<Action>)
    ensures var s := Play(actions); Logged(actions) == s.history + InHand(s.main)
  {
    if actions != [] {
      var front, a := actions[..|actions| - 1], actions[|actions| - 1];
      HistoryIsLogged(front);
      if Do(Play(front), a).Some? {
        LoggedStep(Play(front), a);
        assert Play(front).history + [] == Play(front).history;
      }
    }
  }

  /** What can happen when: the signal arrives at any point of the logging, records are handed over and written
      whenever the handler does not run, and the client always has something to do or to wait for. */
  lemma AnyInterleaving(s: State, rec: bytes)
    ensures Do(s, Deliver).Some? <==> s.signal && s.handler == NotRunning
    ensures Do(s, HandlerStep).Some? <==> s.handler != NotRunning
    ensures Do(s, MainStep).Some? <==> s.handler == NotRunning && s.main != Resting
    ensures Do(s, Log(rec)).Some? <==> s.handler == NotRunning && s.main == Resting
    ensures s.ack <==> Do(s, Answered).Some?
    ensures !s.waiting ==> (Do(s, Request).Some? <==> s.sync.None?) && (Do(s, TakeOver).Some? <==> s.sync.Some?)
  {
  }

  /** `s'` counts the switch and the acknowledgement by which it differs from `s`, if there is one. */
  predicate Counted(s: State, s': State) {
    && s'.acks == s.acks + One(s'.ack && !s.ack)
    && s'.switches == s.switches + One(s'.sync.Some? && s'.sync != s.sync)
    && (s'.sync.Some? && s'.sync != s.sync ==> s.sync.None? && s'.sync.value == s.log && s'.log == [])
  }

  lemma NothingOpen(s: State)
    requires FlagsOk(s)
    ensures s.handler.Closed? || Called(s).Closed? ==> s.sync.None?
    ensures s.handler.Cleared? || Called(s).Cleared? ==> !s.ack
  {
  }

  lemma HandlerCounted(s: State, h: Handler)
    requires (h.Closed? ==> s.sync.None?) && (h.Cleared? ==> !s.ack)
    ensures Counted(s, StepHandler(s, h).0) && StepHandler(s, h).0.requests == s.requests
  {
  }

  lemma MainCounted(s: State)
    requires FlagsOk(s)
    ensures Counted(s, StepMain(s)) && StepMain(s).requests == s.requests
  {
    NothingOpen(s);
    HandlerCounted(s, Called(s));
  }

  /** What the counters count: a request is one of the client's, a switch makes the current log the switched-out one,
      and an acknowledgement is raised by a step. */
  lemma CountersCount(s: State, a: Action)
    requires Inv(s) && Do(s, a).Some?
    ensures Counted(s, Do(s, a).value) && Do(s, a).value.requests == s.requests + One(a.Request?)
  {
    match a
    case MainStep => MainCounted(s);
    case HandlerStep =>
      NothingOpen(s);
      HandlerCounted(s, s.handler);
    case _ =>
  }

  /** The switched-out log is a whole number of records, even when the signal came in the middle of a write; and
      it stays what it is until the client has taken it over. */
  lemma SwitchedOutLogIsWhole(actions: seq<Action>)
    requires Play(actions).sync.Some?
    ensures var s := Play(actions);
      && s.sync.value == Flat(s.cut)
      && s.history == s.past + s.cut + s.current
  {
    PlayOk(actions);
  }

  /** When the acknowledgement arrives, there is a switched-out log, and every request so far has led to exactly
      one switch and exactly one acknowledgement. */
  lemma AnsweredOnce(actions: seq<Action>)
    ensures var s := Play(actions);
      && s.acks <= s.switches <= s.requests <= s.acks + 1
      && (s.ack ==> s.sync.Some? && s.acks == s.switches == s.requests)
      && (!s.waiting ==> s.acks == s.switches == s.requests)
  {
    PlayOk(actions);
  }

  /** How many steps are left, in signal handler and file system, before the answer to the request. */
  function HandlerWork(h: Handler): nat {
    match h
    case NotRunning => 0
    case Entered => 6
    case Switching => 5
    case Closed => 4
    case Renamed => 3
    case Opened => 2
    case Cleared => 1
  }

  function Work(s: State): nat {
    One(s.signal) * 7 + HandlerWork(s.handler) +
    match s.main
    case Resting => 0
    case Packed(rec) => |rec| + 10
    case Writing(rec, done) => (if done < |rec| then |rec| - done else 0) + 9
    case Checking => 8
    case Calling(h) => HandlerWork(h)
  }

  /** No request is left unanswered: until the acknowledgement arrives, one of the participants can take a step... */
  lemma SomeoneCanStep(actions: seq<Action>)
    requires Play(actions).waiting && !Play(actions).ack
    ensures var s := Play(actions);
      Do(s, Deliver).Some? || Do(s, HandlerStep).Some? || Do(s, MainStep).Some?
  {
    PlayOk(actions);
  }

  lemma HandlerGetsOn(s: State, h: Handler)
    ensures !h.NotRunning? ==> HandlerWork(StepHandler(s, h).1) < HandlerWork(h)
    ensures StepHandler(s, h).0.signal == s.signal && StepHandler(s, h).0.main == s.main
  {
  }

  /** ...and each of their steps, whichever it is, leaves less to do. */
  lemma StepsEnd(s: State, a: Action)
    requires FlagsOk(s) && a in {Deliver, HandlerStep, MainStep} && Do(s, a).Some?
    ensures Work(Do(s, a).value) < Work(s)
  {
    HandlerGetsOn(s, s.handler);
    HandlerGetsOn(s, Called(s));
  }
}
