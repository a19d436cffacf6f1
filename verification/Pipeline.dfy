/** One epoch from the log to the server's tree, with the parts put together as the programs run them. */
module Pipeline {
  import opened Wrappers
  import opened Operations
  import opened Seqs
  import opened Posix
  import opened Optimizer
  import opened OptimizerLaws
  import opened FileReplay
  import opened NodeReplay
  import opened Reducer
  import opened ReducerLaws
  import opened History
  import opened TreeSync
  import opened Chunks
  import opened Transfer
  import opened ReplayServer
  import opened Framing
  import opened LogLoading
  import opened Links
  import OptimizeInPlace
  import MergeSort
  import Inodes

  /******* Sorting the table *******/

  predicate AreNumbers(files: seq<Entry>, t: seq<int>) {
    forall i :: 0 <= i < |t| ==> 0 <= t[i] < |files|
  }

  /** The entries with the numbers `t`. */
  function Picked(files: seq<Entry>, t: seq<int>): (s: seq<Entry>)
    requires AreNumbers(files, t)
    ensures |s| == |t| && forall i :: 0 <= i < |t| ==> s[i] == files[t[i]]
  {
    seq(|t|, i requires 0 <= i < |t| => files[t[i]])
  }

  lemma FilteredNumbers(files: seq<Entry>, p: int -> bool, t: seq<int>)
    requires AreNumbers(files, t)
    ensures AreNumbers(files, Filter(p, t))
  {
    var f := Filter(p, t);
    FilterMembers(p, t);
    forall i | 0 <= i < |f| ensures 0 <= f[i] < |files| {
      assert f[i] in f;
    }
  }

  lemma {:induction false} PickedFilter(files: seq<Entry>, key: int -> int, t: seq<int>, k: int)
    requires AreNumbers(files, t) && forall i :: 0 <= i < |files| ==> key(i) == files[i].order
    ensures AreNumbers(files, Filter(HasKey(key, k), t))
    ensures Filter(HasKey(ORDER, k), Picked(files, t)) == Picked(files, Filter(HasKey(key, k), t))
  {
    FilteredNumbers(files, HasKey(key, k), t);
    if t != [] {
      var n := |t| - 1;
      PickedFilter(files, key, t[..n], k);
      PickedMore(files, t[..n], t[n]);
      assert t == t[..n] + [t[n]];
      FilterAppend(HasKey(ORDER, k), Picked(files, t[..n]), [files[t[n]]]);
      if key(t[n]) == k {
        PickedMore(files, Filter(HasKey(key, k), t[..n]), t[n]);
      }
    }
  }

  lemma PickedMore(files: seq<Entry>, t: seq<int>, i: int)
    requires AreNumbers(files, t) && 0 <= i < |files|
    ensures Picked(files, t + [i]) == Picked(files, t) + [files[i]]
  {
  }

  lemma PickedSorted(files: seq<Entry>, key: int -> int, all: seq<int>, t: seq<int>)
    requires forall i :: 0 <= i < |files| ==> key(i) == files[i].order
    requires |all| == |files| && forall i :: 0 <= i < |all| ==> all[i] == i
    requires StableSorted(key, all, t) && AreNumbers(files, t)
    ensures StableSorted(ORDER, files, Picked(files, t))
  {
    var s := Picked(files, t);
    forall i, j | 0 <= i < j < |s| ensures ByKey(ORDER)(s[i], s[j]) {
      assert ByKey(key)(t[i], t[j]);
      assert key(t[i]) == files[t[i]].order && key(t[j]) == files[t[j]].order;
    }
    assert Picked(files, all) == files;
    forall k: int ensures Filter(HasKey(ORDER, k), s) == Filter(HasKey(ORDER, k), files) {
      PickedFilter(files, key, t, k);
      PickedFilter(files, key, all, k);
    }
  }

  /** `HASH_SORT(files, sortByOrder)`, and the walk along the list that follows. */
  method SortFiles(files: seq<Entry>) returns (s: seq<Entry>)
    ensures StableSorted(ORDER, files, s)
  {
    var list := new MergeSort.ItemList(seq(|files|, i requires 0 <= i < |files| => files[i].order));
    ghost var all := seq(|files|, i => i);
    ghost var t := list.Sort(all);
    s := [];
    var p := list.head;
    ghost var i := 0;
    while p != NULL
      invariant i <= |t| && s == Picked(files, t[..i]) && p == if i < |t| then t[i] else NULL
      decreases |t| - i
    {
      s := s + [files[p]];
      p := list.next[p];
      i := i + 1;
    }
    assert t[..|t|] == t;
    PickedSorted(files, list.Key(), all, t);
  }

  /******* Sending *******/

  /** What can be sent as a list of one path. */
  ghost predicate Sendable(e: Entry) {
    0 < |e.ops| <= e.capacity && WritesPositive(e.ops)
  }

  /** The chunks carry an optimized form of the entry's list with the data of `file`. */
  ghost predicate SentFor(e: Entry, file: bytes, sent: seq<FileChunk>) {
    exists out {:trigger IsOptimized(e.ops, out)} ::
      && IsOptimized(e.ops, out) && Carry(e.path, LoadAll(out, file), sent, true)
      && Bounded(sent, Largest(out)) && AllDue(sent)
  }

  /** `transferFile`: optimize the vector of the entry, then send it chunk by chunk with the data of `file`. */
  method SendFile(e: Entry, file: bytes) returns (sent: seq<FileChunk>)
    requires Sendable(e)
    ensures SentFor(e, file, sent)
  {
    var f := new OptimizeInPlace.FileOp(e.ops, e.capacity);
    f.OptimizeOperations();
    ghost var out := f.Contents();
    NeverEmpties(e.ops, out);
    var ops := [];
    for i := 0 to f.nelem
      invariant |ops| == i && forall k :: 0 <= k < i ==> ops[k] == out[k]
    {
      ops := ops + [f.operations[i].value];
    }
    assert ops == out;
    var sender := new Sender(e.path, ops, file);
    sender.TransferFile();
    sent := sender.sent;
  }

  function Parcels(t1: Tree, s: seq<Entry>, outs: seq<seq<GenOp>>): (ps: seq<Parcel>)
    requires |outs| == |s|
    ensures |ps| == |s| && forall i :: 0 <= i < |s| ==> ps[i] == Parcel(s[i].path, Shipment(t1, s[i], outs[i]))
  {
    seq(|s|, i requires 0 <= i < |s| => Parcel(s[i].path, Shipment(t1, s[i], outs[i])))
  }

  lemma SentParcels(t1: Tree, s: seq<Entry>, outs: seq<seq<GenOp>>, ps: seq<Parcel>)
    requires |outs| == |s| == |ps|
    requires forall i :: 0 <= i < |s| ==> ps[i] == Parcel(s[i].path, Shipment(t1, s[i], outs[i]))
    ensures ps == Parcels(t1, s, outs)
  {
  }

  ghost predicate AllOptimized(s: seq<Entry>, outs: seq<seq<GenOp>>) {
    |outs| <= |s| && forall i :: 0 <= i < |outs| ==> IsOptimized(s[i].ops, outs[i])
  }

  lemma OptimizedMore(s: seq<Entry>, outs: seq<seq<GenOp>>, out: seq<GenOp>)
    requires |outs| < |s| && AllOptimized(s, outs) && IsOptimized(s[|outs|].ops, out)
    ensures AllOptimized(s, outs + [out])
  {
    var all := outs + [out];
    forall i | 0 <= i < |all| ensures IsOptimized(s[i].ops, all[i]) {
      if i < |outs| {
        assert all[i] == outs[i];
      }
    }
  }

  lemma ParcelsMore(t1: Tree, s: seq<Entry>, outs: seq<seq<GenOp>>, out: seq<GenOp>, ps: seq<Parcel>)
    requires |outs| == |ps| < |s|
    requires forall i :: 0 <= i < |outs| ==> ps[i] == Parcel(s[i].path, Shipment(t1, s[i], outs[i]))
    ensures var p := Parcel(s[|outs|].path, Shipment(t1, s[|outs|], out));
      forall i :: 0 <= i < |outs + [out]| ==> (ps + [p])[i] == Parcel(s[i].path, Shipment(t1, s[i], (outs + [out])[i]))
  {
  }

  /** The stream is what has to be sent for the entries `s`, with data from the snapshot `t1`. */
  ghost predicate StreamFor(s: seq<Entry>, t1: Tree, stream: seq<FileChunk>) {
    exists outs {:trigger AllOptimized(s, outs)} ::
      |outs| == |s| && AllOptimized(s, outs) && Streams(Parcels(t1, s, outs), stream)
  }

  /** The stream for the first `j` entries. */
  ghost predicate StreamSoFar(s: seq<Entry>, t1: Tree, stream: seq<FileChunk>, j: nat, outs: seq<seq<GenOp>>,
                              ps: seq<Parcel>) {
    && |outs| == |ps| == j <= |s| && Streams(ps, stream) && AllOptimized(s, outs)
    && forall i :: 0 <= i < j ==> ps[i] == Parcel(s[i].path, Shipment(t1, s[i], outs[i]))
  }

  lemma OneMoreEntry(s: seq<Entry>, t1: Tree, stream: seq<FileChunk>, j: nat, outs: seq<seq<GenOp>>, ps: seq<Parcel>,
                     sent: seq<FileChunk>)
    returns (outs': seq<seq<GenOp>>, ps': seq<Parcel>)
    requires j < |s| && StreamSoFar(s, t1, stream, j, outs, ps)
    requires SentFor(s[j], FinalContent(Lookup(t1, s[j].path)), sent)
    ensures StreamSoFar(s, t1, stream + sent, j + 1, outs', ps')
  {
    var file := FinalContent(Lookup(t1, s[j].path));
    var out :| IsOptimized(s[j].ops, out) && Carry(s[j].path, LoadAll(out, file), sent, true);
    var p := Parcel(s[j].path, Shipment(t1, s[j], out));
    StreamMore(ps, stream, p, sent);
    OptimizedMore(s, outs, out);
    ParcelsMore(t1, s, outs, out, ps);
    outs', ps' := outs + [out], ps + [p];
  }

  lemma AllEntries(s: seq<Entry>, t1: Tree, stream: seq<FileChunk>, outs: seq<seq<GenOp>>, ps: seq<Parcel>)
    requires StreamSoFar(s, t1, stream, |s|, outs, ps)
    ensures StreamFor(s, t1, stream)
  {
    SentParcels(t1, s, outs, ps);
  }

  /** The loop of `transfer` over the sorted table. */
  method TransferAll(s: seq<Entry>, t1: Tree) returns (stream: seq<FileChunk>)
    requires forall e :: e in s ==> Sendable(e)
    ensures StreamFor(s, t1, stream)
  {
    stream := [];
    ghost var outs, ps := [], [];
    for j := 0 to |s|
      invariant StreamSoFar(s, t1, stream, j, outs, ps)
    {
      var sent := SendFile(s[j], FinalContent(Lookup(t1, s[j].path)));
      outs, ps := OneMoreEntry(s, t1, stream, j, outs, ps, sent);
      stream := stream + sent;
    }
    AllEntries(s, t1, stream, outs, ps);
  }

  /******* Receiving *******/

  lemma ReplayMore(t: Tree, ps: seq<Parcel>, j: nat)
    requires j < |ps|
    ensures ReplayParcels(t, ps[..j + 1]) == TreeReplay(ReplayParcels(t, ps[..j]), ps[j].path, ps[j].ops)
  {
    assert ps[..j + 1][..j] == ps[..j];
  }

  lemma ServerNext(t: Tree, t1: Tree, s: seq<Entry>, outs: seq<seq<GenOp>>, j: nat)
    requires |outs| == |s| && j < |s|
    ensures ServerAt(t, t1, s, outs, j + 1) ==
            TreeReplay(ServerAt(t, t1, s, outs, j), s[j].path, Shipment(t1, s[j], outs[j]))
  {
  }

  lemma ParcelsReplayed(t: Tree, t1: Tree, s: seq<Entry>, outs: seq<seq<GenOp>>, ps: seq<Parcel>, j: nat)
    requires |outs| == |s| == |ps| && j <= |s|
    requires forall i :: 0 <= i < |s| ==> ps[i].path == s[i].path && ps[i].ops == Shipment(t1, s[i], outs[i])
    ensures ReplayParcels(t, ps[..j]) == ServerAt(t, t1, s, outs, j)
  {
    for k := 0 to j
      invariant ReplayParcels(t, ps[..k]) == ServerAt(t, t1, s, outs, k)
    {
      ReplayMore(t, ps, k);
      ServerNext(t, t1, s, outs, k);
    }
  }

  lemma StreamReplayed(t: Tree, t1: Tree, s: seq<Entry>, outs: seq<seq<GenOp>>, stream: seq<FileChunk>)
    requires |outs| == |s| && Streams(Parcels(t1, s, outs), stream)
    ensures RunFiles(t, stream, |s|) == (ServerAt(t, t1, s, outs, |s|), Some([]))
  {
    var ps := Parcels(t1, s, outs);
    StreamIsWhole(ps, stream);
    StreamRoundTrip(ps, stream);
    RunFilesParsed(t, stream, |ps|);
    ParcelsReplayed(t, t1, s, outs, ps, |ps|);
    assert ps[..|ps|] == ps;
  }

  /******* One epoch *******/

  lemma NoLinks(t: Table, snapshot: map<Path, int>, visits: seq<Inodes.Visit>)
    requires t.inodefiles == []
    ensures Inodes.Matched(t, snapshot, visits) == t
  {
    var looks := Inodes.FileVisits(snapshot, t.files);
    Inodes.NoneLeft([], looks, 0, |looks|);
    Inodes.NoneMerged(t.files, [], looks, 0, |looks|);
    Inodes.NoneLeft([], visits, 0, |visits|);
    Inodes.NoneMoved([], visits, 0, |visits|);
  }

  /** No operations of an unlinked name are kept for another one. */
  ghost predicate NothingKept(records: seq<Record>) {
    TableAt(records, |records|).inodefiles == []
  }

  /** So it is if every unlinked name was the last one of its file. */
  lemma {:induction false} LastNames(records: seq<Record>, k: nat)
    requires k <= |records| && forall i :: 0 <= i < k && records[i].op.Unlink? ==> records[i].op.lastLink
    ensures TableAt(records, k).inodefiles == []
  {
    if k > 0 {
      LastNames(records, k - 1);
    }
  }

  lemma TrackedIsSendable(t0: Tree, t1: Tree, d: seq<bytes>, tb: Table, s: seq<Entry>)
    requires Synchronized(t0, t1, d, tb) && StableSorted(ORDER, tb.files, s)
    ensures forall e :: e in s ==> Sendable(e)
  {
    StableKeeps(ORDER, tb.files, s);
    forall e | e in s ensures Sendable(e) {
      assert EntryOk(e, tb.fileorder, tb.nextId);
      assert Follows(Lookup(t0, e.path), Lookup(t1, e.path), e, d);
      PositiveData(e.ops, d);
    }
  }

  /** The stream carries the reduced, sorted and optimized log of an epoch. */
  ghost predicate EpochStream(t0: Tree, records: seq<Record>, d: seq<bytes>, stream: seq<FileChunk>, nfiles: nat)
    requires |d| == |records|
  {
    exists s {:trigger StableSorted(ORDER, TableAt(records, |records|).files, s)} ::
      && StableSorted(ORDER, TableAt(records, |records|).files, s) && |s| == nfiles
      && StreamFor(s, TreeAt(t0, records, d, |records|), stream)
  }

  /** The client's part: load and reduce the log, match inodes, sort the table, optimize and send every list with
      the data of the snapshot `t1`. */
  method ClientEpoch(log: bytes, unpack: bytes -> Record, inodes: map<Path, int>, visits: seq<Inodes.Visit>, t1: Tree,
                     ghost t0: Tree, ghost records: seq<Record>, ghost d: seq<bytes>)
    returns (stream: seq<FileChunk>, nfiles: nat)
    requires Read(log).ok && records == Unpacked(unpack, Read(log).payloads)
    requires ValidLog(t0, records, d) && NothingKept(records) && t1 == TreeAt(t0, records, d, |records|)
    ensures EpochStream(t0, records, d, stream, nfiles)
  {
    var client := new Client();
    var ok := LoadLog(log, unpack, client);
    AddAllIsTableAt(records);
    ListsFollowTree(t0, records, d, |records|);
    ghost var tb := TableAt(records, |records|);
    NoLinks(tb, inodes, visits);
    ok := Inodes.MatchInodefiles(client, inodes, visits);
    var sorted := SortFiles(client.files);
    TrackedIsSendable(t0, t1, d, tb, sorted);
    stream := TransferAll(sorted, t1);
    nfiles := |sorted|;
  }

  /** What the server makes of the client's stream. */
  lemma EpochOutcome(t0: Tree, records: seq<Record>, d: seq<bytes>, stream: seq<FileChunk>, nfiles: nat)
    requires ValidLog(t0, records, d) && EpochStream(t0, records, d, stream, nfiles)
    ensures OnePathEach(stream)
    ensures var t1 := TreeAt(t0, records, d, |records|);
      RunFiles(t0, stream, nfiles).0 == t1 <==> NothingLost(t0, t1, TableAt(records, |records|).files)
  {
    var t1 := TreeAt(t0, records, d, |records|);
    var s :| StableSorted(ORDER, TableAt(records, |records|).files, s) && |s| == nfiles && StreamFor(s, t1, stream);
    var outs :| |outs| == |s| && AllOptimized(s, outs) && Streams(Parcels(t1, s, outs), stream);
    StreamIsWhole(Parcels(t1, s, outs), stream);
    StreamReplayed(t0, t1, s, outs, stream);
    EpochSync(t0, records, d, s, outs);
    SameLoss(t0, t1, TableAt(records, |records|).files, s);
  }

  lemma SameLoss(t0: Tree, t1: Tree, files: seq<Entry>, s: seq<Entry>)
    requires StableSorted(ORDER, files, s)
    ensures NothingLost(t0, t1, s) <==> NothingLost(t0, t1, files)
  {
    StableKeeps(ORDER, files, s);
  }

  /** Client and server together: for every valid log, of which only the bytes in the log file are known, the
      server's tree becomes the client's if and only if no directory loses its attributes. */
  method SynchronizeTrees(log: bytes, unpack: bytes -> Record, inodes: map<Path, int>, visits: seq<Inodes.Visit>,
                          t1: Tree, server: Server, ghost records: seq<Record>, ghost d: seq<bytes>)
    requires Read(log).ok && records == Unpacked(unpack, Read(log).payloads)
    requires ValidLog(server.root, records, d) && NothingKept(records)
      && t1 == TreeAt(server.root, records, d, |records|)
    modifies server
    ensures server.root == t1 <==> NothingLost(old(server.root), t1, TableAt(records, |records|).files)
  {
    ghost var t0 := server.root;
    var stream, nfiles := ClientEpoch(log, unpack, inodes, visits, t1, t0, records, d);
    EpochOutcome(t0, records, d, stream, nfiles);
    var rest := server.HandleFiles(stream, nfiles);
  }
}
