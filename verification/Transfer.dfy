/** Sending one file: write data is loaded into one growing buffer, and a chunk goes out whenever it is full. */
module Transfer {
  import opened Wrappers
  import opened Operations
  import opened Seqs
  import opened OptimizerLaws
  import opened FileReplay
  import opened Chunks

  /** Where the data of a loaded write lies: a position in the buffer, and which of the buffers that
      `realloc` has produced so far that position is in. */
  datatype Slice = Slice(buffer: nat, start: nat)

  function Largest(ops: seq<GenOp>): nat {
    if ops == [] then 0
    else
      var n := |ops| - 1;
      var l := Largest(ops[..n]);
      if WriteSize(ops[n]) > l then WriteSize(ops[n]) else l
  }

  lemma {:induction false} LargestBounds(ops: seq<GenOp>, i: nat)
    requires i < |ops|
    ensures WriteSize(ops[i]) <= Largest(ops)
  {
    if i < |ops| - 1 {
      LargestBounds(ops[..|ops| - 1], i);
    }
  }

  /** It is the size of one of them. */
  lemma {:induction false} LargestIsOne(ops: seq<GenOp>) returns (i: nat)
    requires Largest(ops) > 0
    ensures i < |ops| && WriteSize(ops[i]) == Largest(ops)
  {
    i := |ops| - 1;
    if WriteSize(ops[i]) <= Largest(ops[..i]) {
      i := LargestIsOne(ops[..i]);
    }
  }

  /** The operation's data lies below `offset` in the current buffer `b` with number `n`, and is as in the file;
      or the file was too short to load it. */
  ghost predicate InPlace(g: GenOp, s: Option<Slice>, n: nat, b: bytes, offset: nat, file: bytes) {
    match s
    case None => !(g.op.Write? && g.op.End() <= |file|)
    case Some(slice) =>
      && slice.buffer == n && g.op.Write? && slice.start + g.op.size <= offset <= |b|
      && g.op.End() <= |file| && b[slice.start..slice.start + g.op.size] == file[g.op.offset..g.op.End()]
  }

  /** Loading behind `offset` leaves what lies in front of it in place. */
  lemma StaysInPlace(g: GenOp, s: Option<Slice>, n: nat, b: bytes, offset: nat, file: bytes, b': bytes, offset': nat)
    requires InPlace(g, s, n, b, offset, file) && offset <= offset' <= |b'| && offset <= |b|
    requires b[..offset] == b'[..offset]
    ensures InPlace(g, s, n, b', offset', file)
  {
    if s.Some? {
      assert b[..offset][s.value.start..s.value.start + g.op.size] == b[s.value.start..s.value.start + g.op.size];
      assert b'[..offset][s.value.start..s.value.start + g.op.size] == b'[s.value.start..s.value.start + g.op.size];
    }
  }

  function DataSize(g: GenOp, file: bytes): nat {
    if g.op.Write? && g.op.End() <= |file| then g.op.size else 0
  }

  lemma BytesOneMore(ls: seq<Loaded>, l: Loaded)
    ensures Bytes(ls + [l]) == Bytes(ls) + (if l.data.Some? then |l.data.value| else 0)
  {
    assert (ls + [l])[..|ls|] == ls;
  }

  lemma LoadOneMore(ops: seq<GenOp>, g: GenOp, file: bytes)
    ensures LoadAll(ops + [g], file) == LoadAll(ops, file) + [Load(g, file)]
    ensures Bytes(LoadAll(ops + [g], file)) == Bytes(LoadAll(ops, file)) + DataSize(g, file)
  {
    assert (ops + [g])[..|ops|] == ops;
    BytesOneMore(LoadAll(ops, file), Load(g, file));
  }

  /** Bytes of data of the operations from `i` up to `j`. */
  function DataBytes(ops: seq<GenOp>, file: bytes, i: nat, j: nat): nat
    requires i <= j <= |ops|
  {
    if i == j then 0 else DataBytes(ops, file, i, j - 1) + DataSize(ops[j - 1], file)
  }

  lemma {:induction false} DataBytesLoaded(ops: seq<GenOp>, file: bytes, i: nat, j: nat)
    requires i <= j <= |ops|
    ensures DataBytes(ops, file, i, j) == Bytes(LoadAll(ops[i..j], file))
    decreases j
  {
    if i < j {
      DataBytesLoaded(ops, file, i, j - 1);
      LoadOneMore(ops[i..j - 1], ops[j - 1], file);
      assert ops[i..j] == ops[i..j - 1] + [ops[j - 1]];
    }
  }

  lemma LoadedSlice(ops: seq<GenOp>, file: bytes, i: nat, j: nat, ls: seq<Loaded>)
    requires i <= j <= |ops| && |ls| == j - i && forall m :: 0 <= m < j - i ==> ls[m] == Load(ops[i + m], file)
    ensures ls == LoadAll(ops[i..j], file)
  {
    LoadAllEach(ops[i..j], file);
  }

  lemma LoadJoinedStep(a: seq<GenOp>, b: seq<GenOp>, g: GenOp, file: bytes)
    requires LoadAll(a + b, file) == LoadAll(a, file) + LoadAll(b, file)
    ensures LoadAll(a + b + [g], file) == LoadAll(a, file) + LoadAll(b + [g], file)
  {
    LoadOneMore(a + b, g, file);
    LoadOneMore(b, g, file);
  }

  lemma {:induction false} LoadAllJoined(a: seq<GenOp>, b: seq<GenOp>, file: bytes)
    ensures LoadAll(a + b, file) == LoadAll(a, file) + LoadAll(b, file)
  {
    if b == [] {
      assert a + b == a;
    } else {
      LoadAllJoined(a, b[..|b| - 1], file);
      LoadJoinedStep(a, b[..|b| - 1], b[|b| - 1], file);
      LastApart(a, b);
    }
  }

  lemma Whole(ops: seq<GenOp>)
    ensures ops[..|ops|] == ops
  {
  }

  lemma LoadAllParts(ops: seq<GenOp>, file: bytes, i: nat, j: nat)
    requires i <= j <= |ops|
    ensures LoadAll(ops[..j], file) == LoadAll(ops[..i], file) + LoadAll(ops[i..j], file)
  {
    assert ops[..j] == ops[..i] + ops[i..j];
    LoadAllJoined(ops[..i], ops[i..j], file);
  }

  /** `dyndata_t`: the buffer the data of all pending writes is loaded into. */
  class DynData {
    var buf: array<byte>
    var offset: nat

    /** How often the buffer has been replaced by a larger one. */
    var buffer: nat

    constructor ()
      ensures offset == 0 && fresh(buf) && buf.Length == MESSAGE_MAX
    {
      buf := new byte[MESSAGE_MAX];
      offset := 0;
      buffer := 0;
    }

    /** `realloc` to the old size and that of the write together. */
    method Grow(size: nat)
      modifies this`buf, this`buffer
      ensures fresh(buf) && buf.Length == old(buf.Length) + size && buffer == old(buffer) + 1
      ensures buf[..old(buf.Length)] == old(buf[..])
    {
      var larger := new byte[buf.Length + size];
      for k := 0 to buf.Length
        modifies larger
        invariant larger[..k] == buf[..k]
      {
        larger[k] := buf[k];
      }
      assert buf[..buf.Length] == buf[..];
      buf := larger;
      buffer := buffer + 1;
    }

    /** `pread` of one interval of the file to the end of what the buffer holds already. */
    method Read(file: bytes, off: nat, size: nat)
      requires off + size <= |file| && offset + size <= buf.Length
      modifies buf
      ensures buf[..offset] == old(buf[..offset])
      ensures buf[offset..offset + size] == file[off..off + size]
    {
      for k := 0 to size
        invariant buf[..offset] == old(buf[..offset])
        invariant buf[offset..offset + k] == file[off..off + k]
      {
        buf[offset + k] := file[off + k];
        assert buf[offset..offset + k + 1] == buf[offset..offset + k] + [buf[offset + k]];
      }
    }
  }

  /******* One file *******/

  /** Of two waiting writes with data, the later one's slice begins where the earlier one's has ended. */
  ghost predicate Separate(ops: seq<GenOp>, data: seq<Option<Slice>>, opstart: nat, i: nat)
    requires i <= |ops| == |data|
  {
    forall j, k :: opstart <= j < k < i && data[j].Some? && data[k].Some? ==>
      data[j].value.start + WriteSize(ops[j]) <= data[k].value.start
  }

  /** Operations from `opstart` up to `i` wait to be sent, and each loaded write owns an intact slice of the
      current buffer `b` below `offset`. */
  ghost predicate Waiting(ops: seq<GenOp>, data: seq<Option<Slice>>, n: nat, b: bytes, offset: nat, file: bytes,
                          opstart: nat, i: nat)
  {
    && opstart <= i <= |ops| == |data| && offset <= |b|
    && (forall k :: i <= k < |ops| ==> data[k].None?)
    && (forall k :: opstart <= k < i ==> InPlace(ops[k], data[k], n, b, offset, file))
    && Separate(ops, data, opstart, i)
    && offset == DataBytes(ops, file, opstart, i)
  }

  lemma NothingWaits(ops: seq<GenOp>, data: seq<Option<Slice>>, n: nat, b: bytes, file: bytes, i: nat)
    requires i <= |ops| == |data| && forall k :: i <= k < |ops| ==> data[k].None?
    ensures Waiting(ops, data, n, b, 0, file, i, i)
  {
  }

  lemma NoneWaiting(ops: seq<GenOp>, data: seq<Option<Slice>>, n: nat, b: bytes, offset: nat, file: bytes, i: nat)
    requires Waiting(ops, data, n, b, offset, file, i, i)
    ensures offset == 0
  {
  }

  /** An operation that gets no data, because it is no write or the file is too short, joins those waiting. */
  lemma WaitsWithoutData(ops: seq<GenOp>, data: seq<Option<Slice>>, n: nat, b: bytes, offset: nat, file: bytes,
                         opstart: nat, i: nat)
    requires Waiting(ops, data, n, b, offset, file, opstart, i) && i < |ops|
    requires !(ops[i].op.Write? && ops[i].op.End() <= |file|)
    ensures Waiting(ops, data, n, b, offset, file, opstart, i + 1)
  {
  }

  /** A write whose bytes have been read to `offset` joins those waiting. */
  lemma WaitsWithData(ops: seq<GenOp>, data: seq<Option<Slice>>, n: nat, b: bytes, offset: nat, file: bytes,
                      opstart: nat, i: nat, b': bytes)
    requires Waiting(ops, data, n, b, offset, file, opstart, i) && i < |ops|
    requires ops[i].op.Write? && ops[i].op.End() <= |file|
    requires offset + ops[i].op.size <= |b'| && b[..offset] == b'[..offset]
    requires b'[offset..offset + ops[i].op.size] == file[ops[i].op.offset..ops[i].op.End()]
    ensures Waiting(ops, data[i := Some(Slice(n, offset))], n, b', offset + ops[i].op.size, file, opstart, i + 1)
  {
    var data' := data[i := Some(Slice(n, offset))];
    forall k | opstart <= k < i ensures InPlace(ops[k], data'[k], n, b', offset + ops[i].op.size, file) {
      StaysInPlace(ops[k], data[k], n, b, offset, file, b', offset + ops[i].op.size);
    }
  }

  /** One more chunk with the operations from `opstart` up to `end`. */
  lemma SentMore(relpath: Path, ops: seq<GenOp>, file: bytes, sent: seq<FileChunk>, opstart: nat, end: nat, last: bool)
    requires opstart <= end <= |ops| && DataBytes(ops, file, opstart, end) < MESSAGE_MAX + Largest(ops)
    requires Carry(relpath, LoadAll(ops[..opstart], file), sent, false) && Bounded(sent, Largest(ops))
    ensures var sent' := sent + [FileChunk(relpath, LoadAll(ops[opstart..end], file), last)];
      Carry(relpath, LoadAll(ops[..end], file), sent', last) && Bounded(sent', Largest(ops))
  {
    CarryMore(relpath, LoadAll(ops[..opstart], file), sent, LoadAll(ops[opstart..end], file), last);
    LoadAllParts(ops, file, opstart, end);
    DataBytesLoaded(ops, file, opstart, end);
  }

  /** The last chunk sent was due when operation `opstart` turned out to be the first that is not in it; those up to
      `i` wait. */
  ghost predicate LastDue(ops: seq<GenOp>, sent: seq<FileChunk>, opstart: nat, i: nat) {
    sent == [] || Bytes(sent[|sent| - 1].ops) >= 524288 ||
    (opstart < i <= |ops| && ops[opstart].op.Write? && Bytes(sent[|sent| - 1].ops) + ops[opstart].op.size > 524288)
  }

  lemma DueNext(relpath: Path, ops: seq<GenOp>, file: bytes, sent: seq<FileChunk>, opstart: nat, end: nat, last: bool)
    requires opstart <= end <= |ops| && AllDue(sent) && LastDue(ops, sent, opstart, end)
    ensures AllDue(sent + [FileChunk(relpath, LoadAll(ops[opstart..end], file), last)])
  {
    if opstart < end {
      LoadAllEach(ops[opstart..end], file);
      assert ops[opstart..end][0] == ops[opstart];
    }
    DueMore(sent, FileChunk(relpath, LoadAll(ops[opstart..end], file), last));
  }

  /******* How many chunks *******/

  lemma {:induction false} TotalUpto(ops: seq<GenOp>, i: nat)
    requires i <= |ops|
    ensures Total(ops[..i]) <= Total(ops)
    decreases |ops|
  {
    var n := |ops| - 1;
    if i <= n {
      TotalUpto(ops[..n], i);
      assert ops[..n][..i] == ops[..i];
    } else {
      assert ops[..i] == ops;
    }
  }

  lemma {:induction false} BytesBelowTotal(ops: seq<GenOp>, file: bytes)
    ensures Bytes(LoadAll(ops, file)) <= Total(ops)
  {
    if ops != [] {
      var n := |ops| - 1;
      BytesBelowTotal(ops[..n], file);
      LoadOneMore(ops[..n], ops[n], file);
      assert ops == ops[..n] + [ops[n]];
    }
  }

  lemma FirstLoaded(ops: seq<GenOp>, file: bytes, a: seq<Loaded>, b: seq<Loaded>)
    requires LoadAll(ops, file) == a + b
    ensures |a| <= |ops| && a == LoadAll(ops[..|a|], file)
    ensures b != [] ==> |a| < |ops| && b[0].op == ops[|a|].op
  {
    LoadAllEach(ops, file);
    LoadAllEach(ops[..|a|], file);
    forall k | 0 <= k < |a| ensures a[k] == LoadAll(ops[..|a|], file)[k] {
      assert a[k] == LoadAll(ops, file)[k];
    }
    assert b != [] ==> b[0] == LoadAll(ops, file)[|a|];
  }

  lemma WithinTotal(ops: seq<GenOp>, file: bytes, a: seq<Loaded>, b: seq<Loaded>)
    requires LoadAll(ops, file) == a + b
    ensures Bytes(a) <= Total(ops)
    ensures b != [] && b[0].op.Write? ==> Bytes(a) + b[0].op.size <= Total(ops)
  {
    FirstLoaded(ops, file, a, b);
    BytesBelowTotal(ops[..|a|], file);
    TotalUpto(ops, |a|);
    if b != [] {
      TotalUpto(ops, |a| + 1);
      assert ops[..|a| + 1] == ops[..|a|] + [ops[|a|]];
      TotalOne(ops[..|a|], ops[|a|]);
    }
  }

  lemma FirstOfSecond(cs: seq<FileChunk>) returns (rest: seq<Loaded>)
    requires |cs| > 1
    ensures Joined(cs) == cs[0].ops + rest && (cs[1].ops != [] ==> rest != [] && rest[0] == cs[1].ops[0])
  {
    JoinedFirst(cs);
    JoinedFirst(cs[1..]);
    rest := Joined(cs[1..]);
  }

  lemma DueAt(cs: seq<FileChunk>, k: nat)
    requires AllDue(cs) && k + 1 < |cs|
    ensures Due(cs[k], cs[k + 1])
  {
  }

  /** As long as all writes together stay below the limit, the whole file goes into a single chunk. */
  lemma OneChunk(relpath: Path, ops: seq<GenOp>, file: bytes, sent: seq<FileChunk>)
    requires Carry(relpath, LoadAll(ops, file), sent, true) && AllDue(sent) && Total(ops) < 524288
    ensures |sent| == 1 && sent[0] == FileChunk(relpath, LoadAll(ops, file), true)
  {
    if |sent| > 1 {
      var rest := FirstOfSecond(sent);
      DueAt(sent, 0);
      WithinTotal(ops, file, sent[0].ops, rest);
    } else {
      JoinedFirst(sent);
      assert sent[1..] == [] && Joined([]) == [];
    }
  }

  class Sender {
    const relpath: Path
    const file: bytes
    const ops: seq<GenOp>
    const ddata: DynData

    /** `writeop->data` of each operation. */
    var data: seq<Option<Slice>>

    /** Chunks sent so far. */
    var sent: seq<FileChunk>

    constructor (relpath: Path, ops: seq<GenOp>, file: bytes)
      ensures this.relpath == relpath && this.ops == ops && this.file == file
      ensures sent == [] && fresh(ddata) && fresh(ddata.buf) && ddata.buf.Length == 524288
      ensures Pending(0, 0)
    {
      this.relpath, this.ops, this.file := relpath, ops, file;
      sent := [];
      data := seq(|ops|, i => None);
      ddata := new DynData();
    }

    ghost predicate Pending(opstart: nat, i: nat)
      reads this`data, ddata, ddata.buf
    {
      && MESSAGE_MAX <= ddata.buf.Length
      && Waiting(ops, data, ddata.buffer, ddata.buf[..], ddata.offset, file, opstart, i)
    }

    /** What has been sent so far are chunks of this file with the operations in front of `upto`. */
    ghost predicate Transferred(upto: nat, done: bool)
      requires upto <= |ops|
      reads this`sent
    {
      Carry(relpath, LoadAll(ops[..upto], file), sent, done) && Bounded(sent, Largest(ops)) && AllDue(sent)
    }

    /** `loadWriteData`: a file shorter than the write leaves the operation without data. */
    method LoadWriteData(opstart: nat, i: nat)
      requires Pending(opstart, i) && i < |ops| && ops[i].op.Write?
      requires ops[i].op.size + ddata.offset <= ddata.buf.Length || opstart == i
      modifies this`data, ddata, ddata.buf
      ensures Pending(opstart, i + 1)
      ensures if ops[i].op.size <= old(ddata.buf.Length) then ddata.buf == old(ddata.buf)
        else fresh(ddata.buf) && ddata.buf.Length == old(ddata.buf.Length) + ops[i].op.size && opstart == i
      ensures ddata.offset <= old(ddata.offset) + ops[i].op.size
    {
      var w := ops[i].op;
      if opstart == i {
        NoneWaiting(ops, data, ddata.buffer, ddata.buf[..], ddata.offset, file, i);
      }
      if w.size > ddata.buf.Length {
        ddata.Grow(w.size);
        NothingWaits(ops, data, ddata.buffer, ddata.buf[..], file, i);
      }
      if w.offset + w.size <= |file| {
        ReadWriteData(opstart, i);
      } else {
        WaitsWithoutData(ops, data, ddata.buffer, ddata.buf[..], ddata.offset, file, opstart, i);
      }
    }

    /** `pread`, and the write gets its slice of the buffer. */
    method ReadWriteData(opstart: nat, i: nat)
      requires Pending(opstart, i) && i < |ops| && ops[i].op.Write? && ops[i].op.End() <= |file|
      requires ops[i].op.size + ddata.offset <= ddata.buf.Length
      modifies this`data, ddata`offset, ddata.buf
      ensures Pending(opstart, i + 1) && ddata.offset == old(ddata.offset) + ops[i].op.size
    {
      var w := ops[i].op;
      ghost var b, offset := ddata.buf[..], ddata.offset;
      ddata.Read(file, w.offset, w.size);
      WaitsWithData(ops, data, ddata.buffer, b, offset, file, opstart, i, ddata.buf[..]);
      data := data[i := Some(Slice(ddata.buffer, ddata.offset))];
      ddata.offset := ddata.offset + w.size;
    }

    /** One operation as it goes into a message: a loaded write takes its bytes from the buffer. */
    method Pack(k: nat) returns (l: Loaded)
      requires k < |ops| == |data| && InPlace(ops[k], data[k], ddata.buffer, ddata.buf[..], ddata.offset, file)
      ensures l == Load(ops[k], file)
    {
      var g, d := ops[k], data[k];
      if d.Some? {
        l := Loaded(g.op, Some(ddata.buf[d.value.start..d.value.start + g.op.size]));
      } else {
        l := Loaded(g.op, None);
      }
    }

    method PackAll(opstart: nat, end: nat) returns (packed: seq<Loaded>)
      requires opstart <= end && Pending(opstart, end)
      ensures packed == LoadAll(ops[opstart..end], file)
    {
      packed := [];
      for k := opstart to end
        invariant |packed| == k - opstart
        invariant forall m :: 0 <= m < k - opstart ==> packed[m] == Load(ops[opstart + m], file)
      {
        var l := Pack(k);
        packed := packed + [l];
      }
      LoadedSlice(ops, file, opstart, end, packed);
    }

    /** Send the operations from `opstart` up to `end` as one message. */
    method TransferChunk(opstart: nat, end: nat, lastchunk: bool)
      requires opstart <= end && Pending(opstart, end)
      modifies this`sent
      ensures sent == old(sent) + [FileChunk(relpath, LoadAll(ops[opstart..end], file), lastchunk)]
    {
      var packed := PackAll(opstart, end);
      sent := sent + [FileChunk(relpath, packed, lastchunk)];
    }

    /** Send the pending operations, if there are any, and start filling the buffer anew. */
    method Flush(opstart: nat, end: nat, lastchunk: bool)
      requires opstart <= end && Pending(opstart, end) && ddata.offset < MESSAGE_MAX + Largest(ops)
      requires Transferred(opstart, false) && LastDue(ops, sent, opstart, end)
      modifies this`sent, ddata`offset
      ensures Pending(end, end) && ddata.offset == 0
      ensures Transferred(end, lastchunk)
      ensures sent == old(sent) + [FileChunk(relpath, LoadAll(ops[opstart..end], file), lastchunk)]
      ensures Bytes(sent[|sent| - 1].ops) == old(ddata.offset)
    {
      DueNext(relpath, ops, file, sent, opstart, end, lastchunk);
      DataBytesLoaded(ops, file, opstart, end);
      SentMore(relpath, ops, file, sent, opstart, end, lastchunk);
      TransferChunk(opstart, end, lastchunk);
      ddata.offset := 0;
      NothingWaits(ops, data, ddata.buffer, ddata.buf[..], file, end);
    }

    /** If the data of write `i` does not fit the buffer, the operations in front of it are sent. */
    method MakeRoom(opstart: nat, i: nat) returns (start: nat)
      requires Pending(opstart, i) && i < |ops| && ops[i].op.Write? && ddata.offset < MESSAGE_MAX
      requires Transferred(opstart, false) && LastDue(ops, sent, opstart, i)
      modifies this`sent, ddata`offset
      ensures Pending(start, i) && ddata.offset < MESSAGE_MAX
      ensures Transferred(start, false) && LastDue(ops, sent, start, i + 1)
      ensures if ops[i].op.size + old(ddata.offset) > ddata.buf.Length then start == i && |sent| == |old(sent)| + 1
        else start == opstart && sent == old(sent) && ops[i].op.size + ddata.offset <= ddata.buf.Length
    {
      start := opstart;
      if ops[i].op.size + ddata.offset > ddata.buf.Length {
        Flush(opstart, i, false);
        start := i;
      }
    }

    /** Add operation `i` to the pending ones; if its data does not fit the buffer, those are sent first. */
    method Stage(opstart: nat, i: nat) returns (start: nat)
      requires Pending(opstart, i) && i < |ops| && ddata.offset < MESSAGE_MAX
      requires Transferred(opstart, false) && LastDue(ops, sent, opstart, i)
      modifies this`sent, this`data, ddata, ddata.buf
      ensures start <= i && Pending(start, i + 1) && ddata.offset < MESSAGE_MAX + Largest(ops)
      ensures Transferred(start, false) && LastDue(ops, sent, start, i + 1)
      ensures if ops[i].op.Write? && ops[i].op.size + old(ddata.offset) > old(ddata.buf.Length)
        then start == i && |sent| == |old(sent)| + 1 else start == opstart && sent == old(sent)
      ensures ddata.buf == old(ddata.buf) || fresh(ddata.buf)
    {
      LargestBounds(ops, i);
      if ops[i].op.Write? {
        start := MakeRoom(opstart, i);
        LoadWriteData(start, i);
      } else {
        start := opstart;
        WaitsWithoutData(ops, data, ddata.buffer, ddata.buf[..], ddata.offset, file, start, i);
      }
    }

    /** Send everything pending if the buffer has reached the limit; the chunk is marked as the last one if no
        operation follows. */
    method FlushIfFull(start: nat, end: nat) returns (next: nat)
      requires start < end && Pending(start, end) && ddata.offset < MESSAGE_MAX + Largest(ops)
      requires Transferred(start, false) && LastDue(ops, sent, start, end)
      modifies this`sent, ddata`offset
      ensures Pending(next, end) && ddata.offset < MESSAGE_MAX
      ensures Transferred(next, next == |ops|) && LastDue(ops, sent, next, end)
      ensures if old(ddata.offset) >= 524288 then next == end && |sent| == |old(sent)| + 1
        else next == start && sent == old(sent)
    {
      next := start;
      if ddata.offset >= MESSAGE_MAX {
        Flush(start, end, end == |ops|);
        next := end;
      }
    }

    /** Add operation `i`, and send everything pending if the buffer has reached the limit. */
    method Advance(opstart: nat, i: nat) returns (next: nat)
      requires Pending(opstart, i) && i < |ops| && ddata.offset < MESSAGE_MAX
      requires Transferred(opstart, false) && LastDue(ops, sent, opstart, i)
      modifies this`sent, this`data, ddata, ddata.buf
      ensures Pending(next, i + 1) && ddata.offset < MESSAGE_MAX
      ensures Transferred(next, next == |ops|) && LastDue(ops, sent, next, i + 1)
      ensures ddata.buf == old(ddata.buf) || fresh(ddata.buf)
    {
      var start := Stage(opstart, i);
      next := FlushIfFull(start, i + 1);
    }

    /** The operations still pending after the last one go out as the last chunk. */
    method FlushRest(opstart: nat)
      requires Pending(opstart, |ops|) && ddata.offset < MESSAGE_MAX && Transferred(opstart, opstart == |ops|)
      requires LastDue(ops, sent, opstart, |ops|)
      modifies this`sent, ddata`offset
      ensures Transferred(|ops|, true)
    {
      if opstart < |ops| {
        Flush(opstart, |ops|, true);
      }
    }

    lemma NothingSent()
      requires sent == []
      ensures Transferred(0, false)
    {
      assert ops[..0] == [];
    }

    lemma AllSent()
      requires Transferred(|ops|, true)
      ensures Carry(relpath, LoadAll(ops, file), sent, true) && Bounded(sent, Largest(ops)) && AllDue(sent)
    {
      Whole(ops);
    }

    /** The loop over the operations; those from `opstart` on are still pending when it ends. */
    method SendOperations() returns (opstart: nat)
      requires Pending(0, 0) && ddata.offset < MESSAGE_MAX && Transferred(0, false) && ops != [] && sent == []
      modifies this`sent, this`data, ddata, ddata.buf
      ensures Pending(opstart, |ops|) && ddata.offset < MESSAGE_MAX && Transferred(opstart, opstart == |ops|)
      ensures LastDue(ops, sent, opstart, |ops|)
      ensures ddata.buf == old(ddata.buf) || fresh(ddata.buf)
    {
      opstart := 0;
      for i := 0 to |ops|
        invariant Pending(opstart, i) && ddata.offset < MESSAGE_MAX && Transferred(opstart, opstart == |ops|)
        invariant LastDue(ops, sent, opstart, i)
        invariant ddata.buf == old(ddata.buf) || fresh(ddata.buf)
      {
        opstart := Advance(opstart, i);
      }
    }

    /** All chunks of the file: together they carry the list, only the last is marked, and none is much larger
        than the limit. */
    method TransferFile()
      requires Pending(0, 0) && sent == [] && ops != []
      modifies this`sent, this`data, ddata, ddata.buf
      ensures Carry(relpath, LoadAll(ops, file), sent, true)
      ensures Bounded(sent, Largest(ops))
      ensures forall k :: 0 <= k < |sent| - 1 ==>
        || Bytes(sent[k].ops) >= 524288
        || (sent[k + 1].ops != [] && sent[k + 1].ops[0].op.Write? &&
            Bytes(sent[k].ops) + sent[k + 1].ops[0].op.size > 524288)
    {
      NothingSent();
      var opstart := SendOperations();
      FlushRest(opstart);
      AllSent();
    }
  }
}
