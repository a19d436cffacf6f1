/** File chunks: how a list is cut into messages, and how the server puts the messages back together. */
module Chunks {
  import opened Wrappers
  import opened Operations
  import opened Seqs
  import opened Posix

  const MESSAGE_MAX := 524288

  datatype FileChunk = FileChunk(path: Path, ops: seq<Loaded>, last: bool)

  function Bytes(ls: seq<Loaded>): nat {
    if ls == [] then 0
    else
      var n := |ls| - 1;
      Bytes(ls[..n]) + (if ls[n].data.Some? then |ls[n].data.value| else 0)
  }

  function Joined(cs: seq<FileChunk>): seq<Loaded> {
    if cs == [] then [] else Joined(cs[..|cs| - 1]) + cs[|cs| - 1].ops
  }

  /** `cs` are chunks of one file that carry `ls`; only the last one is marked as last, and when `done` is not
      set there is no last one yet. */
  ghost predicate Carry(p: Path, ls: seq<Loaded>, cs: seq<FileChunk>, done: bool) {
    && (done ==> cs != [])
    && Joined(cs) == ls
    && forall k :: 0 <= k < |cs| ==> cs[k].path == p && (cs[k].last <==> done && k == |cs| - 1)
  }

  /** No chunk carries more write data than the limit and one further write. */
  ghost predicate Bounded(cs: seq<FileChunk>, largest: nat) {
    forall k :: 0 <= k < |cs| ==> Bytes(cs[k].ops) < MESSAGE_MAX + largest
  }

  /** A chunk is sent only when it is due: its data has reached the limit, or would pass it with the write that the
      next chunk begins with. */
  predicate Due(c: FileChunk, next: FileChunk) {
    || Bytes(c.ops) >= 524288
    || (next.ops != [] && next.ops[0].op.Write? && Bytes(c.ops) + next.ops[0].op.size > 524288)
  }

  ghost predicate AllDue(cs: seq<FileChunk>) {
    forall k :: 0 <= k < |cs| - 1 ==> Due(cs[k], cs[k + 1])
  }

  lemma DueMore(cs: seq<FileChunk>, c: FileChunk)
    requires AllDue(cs) && (cs == [] || Due(cs[|cs| - 1], c))
    ensures AllDue(cs + [c])
  {
    var more := cs + [c];
    forall k | 0 <= k < |more| - 1 ensures Due(more[k], more[k + 1]) {
      assert k < |cs| - 1 ==> Due(cs[k], cs[k + 1]);
    }
  }

  lemma CarryMore(p: Path, ls: seq<Loaded>, cs: seq<FileChunk>, ops: seq<Loaded>, last: bool)
    requires Carry(p, ls, cs, false)
    ensures Carry(p, ls + ops, cs + [FileChunk(p, ops, last)], last)
  {
    assert (cs + [FileChunk(p, ops, last)])[..|cs|] == cs;
  }

  /******* The server's side *******/

  /** One file: chunks are applied up to the first that is marked as last. None: the stream ended before. */
  function RunFile(t: Tree, stream: seq<FileChunk>): (Tree, Option<seq<FileChunk>>)
    decreases |stream|
  {
    if stream == [] then (t, None)
    else
      var t' := TreeReplay(t, stream[0].path, stream[0].ops);
      if stream[0].last then (t', Some(stream[1..])) else RunFile(t', stream[1..])
  }

  function RunFiles(t: Tree, stream: seq<FileChunk>, nfiles: nat): (Tree, Option<seq<FileChunk>>)
    decreases nfiles
  {
    if nfiles == 0 then (t, Some(stream))
    else
      var (t', rest) := RunFile(t, stream);
      if rest.None? then (t', None) else RunFiles(t', rest.value, nfiles - 1)
  }

  /** What one file ships: its path and its list with data. */
  datatype Parcel = Parcel(path: Path, ops: seq<Loaded>)

  /** The first parcel of a stream and what follows it. None: the stream ends before its last chunk. */
  function ParseFile(stream: seq<FileChunk>): Option<(Parcel, seq<FileChunk>)>
    decreases |stream|
  {
    if stream == [] then None
    else if stream[0].last then Some((Parcel(stream[0].path, stream[0].ops), stream[1..]))
    else
      var more := ParseFile(stream[1..]);
      if more.None? then None
      else Some((Parcel(stream[0].path, stream[0].ops + more.value.0.ops), more.value.1))
  }

  /** The first parcels of a stream and what follows them. */
  function ParseFiles(stream: seq<FileChunk>, nfiles: nat): Option<(seq<Parcel>, seq<FileChunk>)> {
    if nfiles == 0 then Some(([], stream))
    else
      var front := ParseFiles(stream, nfiles - 1);
      if front.None? then None
      else
        var last := ParseFile(front.value.1);
        if last.None? then None else Some((front.value.0 + [last.value.0], last.value.1))
  }

  function ReplayParcels(t: Tree, ps: seq<Parcel>): Tree {
    if ps == [] then t else TreeReplay(ReplayParcels(t, ps[..|ps| - 1]), ps[|ps| - 1].path, ps[|ps| - 1].ops)
  }

  /** A chunk that is not the last of its file is followed by one for the same path. */
  ghost predicate OnePathEach(stream: seq<FileChunk>) {
    forall k :: 0 <= k < |stream| - 1 && !stream[k].last ==> stream[k + 1].path == stream[k].path
  }

  lemma {:induction false} ReplayJoined(t: Tree, p: Path, a: seq<Loaded>, b: seq<Loaded>)
    ensures TreeReplay(t, p, a + b) == TreeReplay(TreeReplay(t, p, a), p, b)
    decreases |b|
  {
    if b == [] {
      assert a + b == a;
    } else {
      ReplayJoined(t, p, a, b[..|b| - 1]);
      Snoc(a, b);
    }
  }

  /** The chunk loop has the effect of the parcel it reads, applied once. */
  lemma {:induction false} RunFileParsed(t: Tree, stream: seq<FileChunk>)
    requires OnePathEach(stream) && ParseFile(stream).Some?
    ensures var (p, rest) := ParseFile(stream).value;
      && RunFile(t, stream) == (TreeReplay(t, p.path, p.ops), Some(rest))
      && p.path == stream[0].path && OnePathEach(rest)
    decreases |stream|
  {
    assert forall k :: 0 <= k < |stream| - 1 ==> stream[1..][k] == stream[k + 1];
    if !stream[0].last {
      var t' := TreeReplay(t, stream[0].path, stream[0].ops);
      RunFileParsed(t', stream[1..]);
      ReplayJoined(t, stream[0].path, stream[0].ops, ParseFile(stream[1..]).value.0.ops);
    }
  }

  lemma {:induction false} RunFilesJoined(t: Tree, stream: seq<FileChunk>, n: nat, m: nat)
    ensures RunFiles(t, stream, n + m) ==
            var (t', rest) := RunFiles(t, stream, n);
            if rest.None? then (t', None) else RunFiles(t', rest.value, m)
    decreases n
  {
    if n > 0 {
      var (t', rest) := RunFile(t, stream);
      if rest.Some? {
        RunFilesJoined(t', rest.value, n - 1, m);
      }
    }
  }

  lemma RunOneFile(t: Tree, stream: seq<FileChunk>)
    ensures RunFiles(t, stream, 1) == RunFile(t, stream)
  {
    var (t', rest) := RunFile(t, stream);
    assert rest.Some? ==> RunFiles(t', rest.value, 0) == (t', rest);
  }

  lemma ReplayOneMore(t: Tree, ps: seq<Parcel>, p: Parcel)
    ensures ReplayParcels(t, ps + [p]) == TreeReplay(ReplayParcels(t, ps), p.path, p.ops)
  {
    assert (ps + [p])[..|ps|] == ps;
  }

  /** The server's loops over files and chunks have the effect of the parcels they read, each applied once, to its own
      path, in their order. */
  lemma {:induction false} RunFilesParsed(t: Tree, stream: seq<FileChunk>, nfiles: nat)
    requires OnePathEach(stream) && ParseFiles(stream, nfiles).Some?
    ensures var (ps, rest) := ParseFiles(stream, nfiles).value;
      RunFiles(t, stream, nfiles) == (ReplayParcels(t, ps), Some(rest)) && OnePathEach(rest)
    decreases nfiles
  {
    if nfiles > 0 {
      RunFilesParsed(t, stream, nfiles - 1);
      var (ps, rest) := ParseFiles(stream, nfiles - 1).value;
      RunOneMore(t, stream, nfiles - 1, ps, rest);
    }
  }

  lemma RunOneMore(t: Tree, stream: seq<FileChunk>, n: nat, ps: seq<Parcel>, rest: seq<FileChunk>)
    requires RunFiles(t, stream, n) == (ReplayParcels(t, ps), Some(rest))
    requires OnePathEach(rest) && ParseFile(rest).Some?
    ensures var (p, rest') := ParseFile(rest).value;
      RunFiles(t, stream, n + 1) == (ReplayParcels(t, ps + [p]), Some(rest')) && OnePathEach(rest')
  {
    var t' := ReplayParcels(t, ps);
    RunFileParsed(t', rest);
    RunFilesJoined(t, stream, n, 1);
    RunOneFile(t', rest);
    ReplayOneMore(t, ps, ParseFile(rest).value.0);
  }

  /******* Round trip *******/

  lemma {:induction false} JoinedFirst(cs: seq<FileChunk>)
    requires cs != []
    ensures Joined(cs) == cs[0].ops + Joined(cs[1..])
  {
    var n := |cs| - 1;
    if n == 0 {
      assert cs[..0] == [] && cs[1..] == [];
    } else {
      JoinedFirst(cs[..n]);
      JoinedFirstMore(cs[..n], cs[n]);
      FirstAndLast(cs);
    }
  }

  lemma JoinedFirstMore(cs: seq<FileChunk>, c: FileChunk)
    requires cs != [] && Joined(cs) == cs[0].ops + Joined(cs[1..])
    ensures Joined(cs + [c]) == cs[0].ops + Joined(cs[1..] + [c])
  {
    JoinedMore(cs, c);
    JoinedMore(cs[1..], c);
    Assoc(cs[0].ops, Joined(cs[1..]), c.ops);
  }

  lemma JoinedMore(cs: seq<FileChunk>, c: FileChunk)
    ensures Joined(cs + [c]) == Joined(cs) + c.ops
  {
    assert (cs + [c])[..|cs|] == cs;
  }

  /** From the chunks of one file, whatever follows them, the server reads exactly the list that was sent. */
  lemma {:induction false} FileRoundTrip(p: Path, ls: seq<Loaded>, cs: seq<FileChunk>, rest: seq<FileChunk>)
    requires Carry(p, ls, cs, true)
    ensures ParseFile(cs + rest) == Some((Parcel(p, ls), rest))
    decreases |cs|
  {
    JoinedFirst(cs);
    if |cs| == 1 {
      assert cs[1..] == [];
      assert (cs + rest)[1..] == rest;
      assert cs[0].ops + [] == cs[0].ops;
    } else {
      assert (cs + rest)[1..] == cs[1..] + rest;
      FileRoundTrip(p, Joined(cs[1..]), cs[1..], rest);
    }
  }

  /** The stream is the chunks of the parcels, one parcel after the other. */
  ghost predicate Streams(ps: seq<Parcel>, stream: seq<FileChunk>) {
    if ps == [] then stream == []
    else
      var n := |ps| - 1;
      exists k :: 0 <= k <= |stream| && Streams(ps[..n], stream[..k]) && Carry(ps[n].path, ps[n].ops, stream[k..], true)
  }

  lemma StreamMore(ps: seq<Parcel>, stream: seq<FileChunk>, p: Parcel, cs: seq<FileChunk>)
    requires Streams(ps, stream) && Carry(p.path, p.ops, cs, true)
    ensures Streams(ps + [p], stream + cs)
  {
    assert (ps + [p])[..|ps|] == ps;
    assert (stream + cs)[..|stream|] == stream && (stream + cs)[|stream|..] == cs;
  }

  lemma {:induction false} ParseIgnoresRest(stream: seq<FileChunk>, more: seq<FileChunk>)
    requires ParseFile(stream).Some?
    ensures var (p, rest) := ParseFile(stream).value; ParseFile(stream + more) == Some((p, rest + more))
    decreases |stream|
  {
    assert (stream + more)[1..] == stream[1..] + more;
    if !stream[0].last {
      ParseIgnoresRest(stream[1..], more);
    }
  }

  lemma {:induction false} ParsesIgnoreRest(stream: seq<FileChunk>, n: nat, more: seq<FileChunk>)
    requires ParseFiles(stream, n).Some?
    ensures var (ps, rest) := ParseFiles(stream, n).value; ParseFiles(stream + more, n) == Some((ps, rest + more))
    decreases n
  {
    if n > 0 {
      ParsesIgnoreRest(stream, n - 1, more);
      ParseIgnoresRest(ParseFiles(stream, n - 1).value.1, more);
    }
  }

  lemma ParseOneMore(front: seq<FileChunk>, ps: seq<Parcel>, p: Parcel, cs: seq<FileChunk>)
    requires ParseFiles(front, |ps|) == Some((ps, [])) && Carry(p.path, p.ops, cs, true)
    ensures ParseFiles(front + cs, |ps| + 1) == Some((ps + [p], []))
  {
    ParsesIgnoreRest(front, |ps|, cs);
    FileRoundTrip(p.path, p.ops, cs, []);
    assert [] + cs == cs && cs + [] == cs;
  }

  /** The server splits the client's stream back into exactly the parcels that were sent, and reads it to its end. */
  lemma {:induction false} StreamRoundTrip(ps: seq<Parcel>, stream: seq<FileChunk>)
    requires Streams(ps, stream)
    ensures ParseFiles(stream, |ps|) == Some((ps, []))
    decreases |ps|
  {
    if ps != [] {
      var front, cs := LastFile(ps, stream);
      StreamRoundTrip(ps[..|ps| - 1], front);
      ParseOneMore(front, ps[..|ps| - 1], ps[|ps| - 1], cs);
      LastApart([], ps);
    }
  }

  lemma CutAt(s: seq<FileChunk>, k: nat)
    requires k <= |s|
    ensures s == s[..k] + s[k..]
  {
  }

  lemma LastFile(ps: seq<Parcel>, stream: seq<FileChunk>) returns (front: seq<FileChunk>, cs: seq<FileChunk>)
    requires Streams(ps, stream) && ps != []
    ensures Streams(ps[..|ps| - 1], front) && Carry(ps[|ps| - 1].path, ps[|ps| - 1].ops, cs, true)
      && stream == front + cs
  {
    var n := |ps| - 1;
    var k :| 0 <= k <= |stream| && Streams(ps[..n], stream[..k]) && Carry(ps[n].path, ps[n].ops, stream[k..], true);
    front, cs := stream[..k], stream[k..];
    CutAt(stream, k);
  }

  /** Every file of a stream has one path throughout, and the stream ends with the end of a file. */
  lemma {:induction false} StreamIsWhole(ps: seq<Parcel>, stream: seq<FileChunk>)
    requires Streams(ps, stream)
    ensures OnePathEach(stream) && (stream != [] ==> stream[|stream| - 1].last)
  {
    if ps != [] {
      var n := |ps| - 1;
      var k :| 0 <= k <= |stream| && Streams(ps[..n], stream[..k]) && Carry(ps[n].path, ps[n].ops, stream[k..], true);
      StreamIsWhole(ps[..n], stream[..k]);
      forall i | 0 <= i < |stream| - 1 && !stream[i].last ensures stream[i + 1].path == stream[i].path {
        if i < k {
          assert stream[i] == stream[..k][i];
          assert i + 1 < k ==> stream[i + 1] == stream[..k][i + 1];
        } else {
          assert stream[i] == stream[k..][i - k] && stream[i + 1] == stream[k..][i + 1 - k];
        }
      }
      assert stream[|stream| - 1] == stream[k..][|stream| - 1 - k];
    }
  }
}
