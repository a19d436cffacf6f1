/** Loading the log: every record that is there goes through the reducer, in order. */
module LogLoading {
  import opened Operations
  import opened Framing
  import opened Reducer
  import opened ReducerLaws
  import LogSwitch

  /** The records of the messages; `unpack` stands for the generated code that parses one. */
  function Unpacked(unpack: bytes -> Record, payloads: seq<bytes>): (log: seq<Record>)
    ensures |log| == |payloads|
    ensures forall k :: 0 <= k < |payloads| ==> log[k] == unpack(payloads[k])
  {
    seq(|payloads|, k requires 0 <= k < |payloads| => unpack(payloads[k]))
  }

  /** The tables when all records of `log` have been added to those in `t`. */
  function AddAll(t: Table, log: seq<Record>): Table
    decreases |log|
  {
    if log == [] then t else AddAll(AddOp(t, log[0].path, log[0].op), log[1..])
  }

  lemma AddNext(t: Table, log: seq<Record>, k: nat)
    requires k < |log|
    ensures AddAll(t, log[k..]) == AddAll(AddOp(t, log[k].path, log[k].op), log[k + 1..])
  {
    assert log[k..][1..] == log[k + 1..];
  }

  lemma TableNext(log: seq<Record>, k: nat)
    requires k < |log|
    ensures TableAt(log, k + 1) == AddOp(TableAt(log, k), log[k].path, log[k].op)
  {
  }

  lemma AddAllIsTableAt(log: seq<Record>)
    ensures AddAll(EMPTY_TABLE, log) == TableAt(log, |log|)
  {
    assert log[0..] == log;
    for k := 0 to |log|
      invariant AddAll(EMPTY_TABLE, log) == AddAll(TableAt(log, k), log[k..])
    {
      AddNext(TableAt(log, k), log, k);
      TableNext(log, k);
    }
  }

  /** What loading `log` makes of the tables `t`. */
  function Loading(t: Table, unpack: bytes -> Record, log: bytes): Table {
    AddAll(t, Unpacked(unpack, Read(log).payloads))
  }

  /** The reading loop of `loadLog`, with its buffer that is replaced when a message is longer than all before.
      What is added to the tables is what can be read, also when the log ends in the middle of a record. */
  method LoadLog(log: bytes, unpack: bytes -> Record, client: Client) returns (ok: bool)
    modifies client
    ensures ok == Read(log).ok
    ensures client.View() == Loading(old(client.View()), unpack, log)
  {
    var at, capacity := 0, 0;
    var buf := new byte[0];
    AllOfIt(log);
    while at + HEADER <= |log|
      invariant at <= |log| && capacity == buf.Length && fresh(buf)
      invariant Read(log[at..]).ok == Read(log).ok
      invariant Loading(client.View(), unpack, log[at..]) == Loading(old(client.View()), unpack, log)
      decreases |log| - at
    {
      var body := at + HEADER;
      var length := FromBigEndian(log[at..body]);
      if capacity < length {
        buf := new byte[length];
        capacity := length;
      }
      var next := body + length;
      if |log| < next {
        TornBody(client.View(), unpack, log, at);
        return false;
      }
      FillBuffer(buf, log[body..next]);
      assert buf[..length] == log[body..next];
      var record := unpack(buf[..length]);
      LoadNext(client.View(), unpack, log, at, next, record);
      client.AddOperation(record.path, record.op);
      at := next;
    }
    LoadEnd(client.View(), unpack, log[at..]);
    ok := true;
  }

  method FillBuffer(buf: array<byte>, data: bytes)
    requires |data| <= buf.Length
    modifies buf
    ensures buf[..|data|] == data
  {
    for i := 0 to |data|
      invariant buf[..i] == data[..i]
    {
      buf[i] := data[i];
    }
  }

  lemma AllOfIt(log: bytes)
    ensures log[0..] == log
  {
  }

  lemma LoadEnd(t: Table, unpack: bytes -> Record, tail: bytes)
    requires |tail| < HEADER
    ensures Read(tail).ok && Loading(t, unpack, tail) == t
  {
  }

  lemma AddFirst(t: Table, unpack: bytes -> Record, payload: bytes, rest: seq<bytes>)
    ensures var r := unpack(payload);
      AddAll(t, Unpacked(unpack, [payload] + rest)) == AddAll(AddOp(t, r.path, r.op), Unpacked(unpack, rest))
  {
    assert Unpacked(unpack, [payload] + rest)[1..] == Unpacked(unpack, rest);
  }

  lemma ReadNext(tail: bytes, end: nat, rest: bytes)
    requires |tail| >= HEADER && end == HEADER + FromBigEndian(tail[..HEADER]) <= |tail| && rest == tail[end..]
    ensures Read(tail).payloads == [tail[HEADER..end]] + Read(rest).payloads && Read(tail).ok == Read(rest).ok
  {
  }

  lemma LoadFirst(t: Table, unpack: bytes -> Record, tail: bytes, end: nat)
    requires |tail| >= HEADER && end == HEADER + FromBigEndian(tail[..HEADER]) <= |tail|
    ensures Read(tail).ok == Read(tail[end..]).ok
    ensures var r := unpack(tail[HEADER..end]);
      Loading(t, unpack, tail) == Loading(AddOp(t, r.path, r.op), unpack, tail[end..])
  {
    ReadNext(tail, end, tail[end..]);
    AddFirst(t, unpack, tail[HEADER..end], Read(tail[end..]).payloads);
  }

  lemma TornBody(t: Table, unpack: bytes -> Record, log: bytes, at: nat)
    requires at + HEADER <= |log| < at + HEADER + FromBigEndian(log[at..at + HEADER])
    ensures !Read(log[at..]).ok && Loading(t, unpack, log[at..]) == t
  {
    assert log[at..][..HEADER] == log[at..at + HEADER];
  }

  lemma LoadNext(t: Table, unpack: bytes -> Record, log: bytes, at: nat, next: nat, r: Record)
    requires at + HEADER <= |log| && next == at + HEADER + FromBigEndian(log[at..at + HEADER]) <= |log|
    requires r == unpack(log[at + HEADER..next])
    ensures Read(log[at..]).ok == Read(log[next..]).ok
    ensures Loading(t, unpack, log[at..]) == Loading(AddOp(t, r.path, r.op), unpack, log[next..])
  {
    var tail, end := log[at..], next - at;
    assert tail[..HEADER] == log[at..at + HEADER];
    assert tail[end..] == log[next..];
    assert tail[HEADER..end] == log[at + HEADER..next];
    LoadFirst(t, unpack, tail, end);
  }

  /******* From the signal to the tables *******/

  ghost predicate AreFrames(records: seq<bytes>, payloads: seq<bytes>) {
    && AllFit(payloads) && |records| == |payloads|
    && forall k :: 0 <= k < |payloads| ==> records[k] == Frame(payloads[k])
  }

  lemma {:induction false} FramesAreFlat(records: seq<bytes>, payloads: seq<bytes>)
    requires AreFrames(records, payloads)
    ensures LogSwitch.Flat(records) == Frames(payloads)
  {
    if records != [] {
      FramesAreFlat(records[1..], payloads[1..]);
      assert records == [records[0]] + records[1..];
      LogSwitch.FlatConcat([records[0]], records[1..]);
      LogSwitch.FlatMore([], records[0]);
    }
  }

  /** Whenever the log was switched out, also in the middle of a write, the client can load it to its end and gets
      exactly the records logged since the switch before. */
  lemma SwitchedOutLogLoads(actions: seq<LogSwitch.Action>, payloads: seq<bytes>)
    requires LogSwitch.Play(actions).sync.Some? && AreFrames(LogSwitch.Play(actions).cut, payloads)
    ensures Read(LogSwitch.Play(actions).sync.value) == Reading(payloads, true)
  {
    LogSwitch.SwitchedOutLogIsWhole(actions);
    FramesAreFlat(LogSwitch.Play(actions).cut, payloads);
    LoadsAll(payloads);
  }
}
