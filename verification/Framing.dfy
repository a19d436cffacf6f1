/** Messages with a length in front of them: how `packMessage` makes them and what reading a log of them gives. */
module Framing {
  import opened Operations

  const HEADER := 4
  const WORD := 0x1_0000_0000

  /** Network byte order of a 32-bit number. */
  function BigEndian(n: nat): (b: bytes)
    requires n < WORD
    ensures |b| == HEADER
  {
    [(n / 0x100_0000) as byte, (n / 0x1_0000 % 0x100) as byte, (n / 0x100 % 0x100) as byte, (n % 0x100) as byte]
  }

  function FromBigEndian(b: bytes): nat
    requires |b| == HEADER
  {
    b[0] as int * 0x100_0000 + b[1] as int * 0x1_0000 + b[2] as int * 0x100 + b[3] as int
  }

  lemma ByteOrder(n: nat)
    requires n < WORD
    ensures FromBigEndian(BigEndian(n)) == n
  {
    assert n / 0x1_0000 == n / 0x100 / 0x100;
    assert n / 0x100_0000 == n / 0x1_0000 / 0x100;
  }

  /** What fits into a message: its length with the header is kept in 32 bits. */
  predicate Fits(payload: bytes) {
    |payload| + HEADER < WORD
  }

  function Frame(payload: bytes): (f: bytes)
    requires Fits(payload)
    ensures |f| == HEADER + |payload|
  {
    BigEndian(|payload|) + payload
  }

  /** Four bytes of length, the most significant first, and then the message. */
  lemma FrameBytes(payload: bytes)
    requires |payload| + 4 < 0x1_0000_0000
    ensures Fits(payload)
    ensures var f := Frame(payload);
      && |f| == 4 + |payload| && f[4..] == payload
      && f[0] as int * 0x100_0000 + f[1] as int * 0x1_0000 + f[2] as int * 0x100 + f[3] as int == |payload|
  {
    ByteOrder(|payload|);
  }

  predicate AllFit(payloads: seq<bytes>) {
    forall p :: p in payloads ==> Fits(p)
  }

  /** A log: records one after the other. */
  function Frames(payloads: seq<bytes>): bytes
    requires AllFit(payloads)
  {
    if payloads == [] then [] else Frame(payloads[0]) + Frames(payloads[1..])
  }

  /** What reading gives: the records up to the end, or up to a record whose body is not all there. */
  datatype Reading = Reading(payloads: seq<bytes>, ok: bool)

  function Read(log: bytes): Reading
    decreases |log|
  {
    if |log| < HEADER then Reading([], true)
    else
      var end := HEADER + FromBigEndian(log[..HEADER]);
      if |log| < end then Reading([], false)
      else
        var rest := Read(log[end..]);
        Reading([log[HEADER..end]] + rest.payloads, rest.ok)
  }

  /******* Reading gives back what was written *******/

  lemma ReadFirst(payload: bytes, rest: bytes)
    requires Fits(payload)
    ensures Read(Frame(payload) + rest) == Reading([payload] + Read(rest).payloads, Read(rest).ok)
  {
    var log := Frame(payload) + rest;
    ByteOrder(|payload|);
    assert log[..HEADER] == BigEndian(|payload|);
    assert log[HEADER..|Frame(payload)|] == payload;
    assert log[|Frame(payload)|..] == rest;
  }

  /** How many records end within the first `k` bytes of the log. */
  function Whole(payloads: seq<bytes>, k: nat): (m: nat)
    requires AllFit(payloads)
    ensures m <= |payloads|
  {
    if payloads == [] || k < |Frame(payloads[0])| then 0
    else 1 + Whole(payloads[1..], k - |Frame(payloads[0])|)
  }

  /** The log ends within its first record. */
  lemma TornFirst(payload: bytes, log: bytes)
    requires Fits(payload) && |log| < |Frame(payload)| && log == Frame(payload)[..|log|]
    ensures Read(log) == Reading([], |log| < HEADER)
  {
    if HEADER <= |log| {
      ByteOrder(|payload|);
      assert log[..HEADER] == BigEndian(|payload|);
    }
  }

  /** Reading a log cut off after any number of bytes delivers exactly the records that are completely there. It
      ends in success if and only if not even the header of another record is there. */
  lemma {:induction false} TornLog(payloads: seq<bytes>, k: nat)
    requires AllFit(payloads) && k <= |Frames(payloads)|
    ensures var m := Whole(payloads, k);
      && Read(Frames(payloads)[..k]).payloads == payloads[..m]
      && |Frames(payloads[..m])| <= k
      && (m < |payloads| ==> k < |Frames(payloads[..m])| + |Frame(payloads[m])|)
      && (Read(Frames(payloads)[..k]).ok <==> k < |Frames(payloads[..m])| + HEADER)
  {
    if payloads != [] {
      var first, rest := payloads[0], payloads[1..];
      var log := Frames(payloads)[..k];
      if k < |Frame(first)| {
        assert payloads[..0] == [];
        TornFirst(first, log);
      } else {
        var left := k - |Frame(first)|;
        var m := Whole(rest, left);
        TornLog(rest, left);
        ReadFirst(first, Frames(rest)[..left]);
        assert log == Frame(first) + Frames(rest)[..left];
        assert payloads[..m + 1][0] == first && payloads[..m + 1][1..] == rest[..m];
      }
    }
  }

  /** A log that is all there gives back exactly the records, in order. */
  lemma LoadsAll(payloads: seq<bytes>)
    requires AllFit(payloads)
    ensures Read(Frames(payloads)) == Reading(payloads, true)
  {
    var log := Frames(payloads);
    TornLog(payloads, |log|);
    assert log[..|log|] == log;
    WholeAll(payloads);
    assert payloads[..|payloads|] == payloads;
  }

  lemma {:induction false} WholeAll(payloads: seq<bytes>)
    requires AllFit(payloads)
    ensures Whole(payloads, |Frames(payloads)|) == |payloads|
  {
    if payloads != [] {
      WholeAll(payloads[1..]);
    }
  }

  /******* The buffer used across all calls *******/

  class Packer {
    /** `bufbegin` as the allocator gave it; it can be longer than `totallen` says. */
    var bufbegin: array<byte>
    var totallen: nat

    ghost predicate Valid()
      reads this
    {
      totallen <= bufbegin.Length
    }

    constructor ()
      ensures Valid() && totallen == 0 && fresh(bufbegin)
    {
      bufbegin, totallen := new byte[0], 0;
    }

    /** The buffer grows only when `totallen` says that the message does not fit; then `totallen` becomes the
        length of this message, even when that is less than before. */
    method PackMessage(payload: bytes) returns (length: nat)
      requires Valid() && Fits(payload)
      modifies this, bufbegin
      ensures Valid()
      ensures if |Frame(payload)| <= old(totallen) then bufbegin == old(bufbegin)
        else fresh(bufbegin) && bufbegin.Length == |payload| + 4
      ensures length == totallen == |Frame(payload)|
      ensures bufbegin[..length] == Frame(payload)
    {
      if |payload| + HEADER > totallen {
        bufbegin := new byte[|payload| + HEADER];
      }
      totallen := |payload| + HEADER;
      var header, buf := BigEndian(|payload|), bufbegin;
      forall i | 0 <= i < HEADER {
        buf[i] := header[i];
      }
      for i := 0 to |payload|
        modifies buf
        invariant buf[..HEADER] == header
        invariant buf[HEADER..HEADER + i] == payload[..i]
      {
        buf[HEADER + i] := payload[i];
        assert payload[..i + 1] == payload[..i] + [payload[i]];
      }
      assert buf[..totallen] == buf[..HEADER] + buf[HEADER..totallen];
      length := totallen;
    }
  }
}
