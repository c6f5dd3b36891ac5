/** Reading the origin's response head before an upgrade, and handing over what came after it.
    The head ends at the first empty line, section 2.1 of RFC 9112. */
module Upgrade {
  import opened Text

  const MAX_HEAD: nat := 64 * 1024

  /** One read returns at most this many bytes. */
  const READ_SIZE: nat := 1024

  const TERMINATOR: seq<Byte> := [13, 10, 13, 10]

  predicate TerminatorAt(b: seq<Byte>, i: nat) {
    i + 4 <= |b| && b[i..i + 4] == TERMINATOR
  }

  ghost predicate NoTerminator(b: seq<Byte>) {
    forall i: nat :: !TerminatorAt(b, i)
  }

  /** The first terminator of `b` ends at `e`. */
  ghost predicate HeadEndsAt(b: seq<Byte>, e: nat) {
    4 <= e <= |b| && TerminatorAt(b, e - 4) && forall i: nat :: i < e - 4 ==> !TerminatorAt(b, i)
  }

  function Concat(chunks: seq<seq<Byte>>): seq<Byte> {
    if chunks == [] then [] else chunks[0] + Concat(chunks[1..])
  }

  lemma {:induction false} ConcatSplit(chunks: seq<seq<Byte>>, k: nat)
    requires k <= |chunks|
    ensures Concat(chunks) == Concat(chunks[..k]) + Concat(chunks[k..])
  {
    if k == 0 {
      assert chunks[0..] == chunks && chunks[..0] == [];
    } else {
      ConcatSplit(chunks[1..], k - 1);
      assert chunks[1..][..k - 1] == chunks[..k][1..] && chunks[1..][k - 1..] == chunks[k..];
    }
  }

  lemma ConcatNext(chunks: seq<seq<Byte>>, k: nat)
    requires k < |chunks|
    ensures Concat(chunks[..k + 1]) == Concat(chunks[..k]) + chunks[k]
  {
    ConcatSplit(chunks[..k + 1], k);
    assert chunks[..k + 1][..k] == chunks[..k] && chunks[..k + 1][k..] == [chunks[k]];
    assert Concat([chunks[k]]) == chunks[k] + Concat([]);
  }

  /** What a prefix of a stream says about terminators holds of the stream as far as it reaches. */
  lemma PrefixTerminators(p: seq<Byte>, b: seq<Byte>)
    requires p <= b
    ensures forall i: nat :: i + 4 <= |p| ==> (TerminatorAt(p, i) <==> TerminatorAt(b, i))
  {
  }

  method FindTerminator(b: seq<Byte>) returns (e: Option<nat>)
    ensures match e case Some(v) => HeadEndsAt(b, v) case None => NoTerminator(b)
  {
    var i := 0;
    while i + 4 <= |b|
      invariant forall j: nat :: j < i ==> !TerminatorAt(b, j)
    {
      if b[i..i + 4] == TERMINATOR {
        return Some(i + 4);
      }
      i := i + 1;
    }
    e := None;
  }

  datatype HeadRead = Head(buf: seq<Byte>, headEnd: nat) | ClosedEarly | Oversized

  /** The bytes the client receives after the switch: first those read past the head, then the
      rest of the connection as it arrives. */
  function Delivered(r: HeadRead, unread: seq<seq<Byte>>): seq<Byte>
    requires r.Head? && r.headEnd <= |r.buf|
  {
    r.buf[r.headEnd..] + Concat(unread)
  }

  /** Some prefix of the reads exceeds the limit without completing the head. */
  ghost predicate Overflows(chunks: seq<seq<Byte>>) {
    exists k :: 0 <= k <= |chunks| && |Concat(chunks[..k])| > MAX_HEAD && NoTerminator(Concat(chunks[..k]))
  }

  /** `chunks` are the successive non-empty reads until the origin closes the connection. The head
      found ends at the first terminator of the whole stream, and the client receives exactly the
      bytes after it; the other two answers are given exactly when no head is complete in time. */
  method ReadHead(chunks: seq<seq<Byte>>) returns (r: HeadRead, used: nat)
    ensures used <= |chunks|
    ensures r.Head? ==>
              && r.buf == Concat(chunks[..used])
              && HeadEndsAt(Concat(chunks), r.headEnd)
              && r.headEnd <= |r.buf|
              && r.buf[..r.headEnd] == Concat(chunks)[..r.headEnd]
              && Delivered(r, chunks[used..]) == Concat(chunks)[r.headEnd..]
    ensures r.ClosedEarly? <==> NoTerminator(Concat(chunks)) && |Concat(chunks)| <= MAX_HEAD
    ensures r.Oversized? <==> Overflows(chunks)
  {
    var buf: seq<Byte> := [];
    used := 0;
    while true
      invariant used <= |chunks|
      invariant buf == Concat(chunks[..used]) && NoTerminator(buf) && |buf| <= MAX_HEAD
      invariant forall k :: 0 <= k <= used ==> |Concat(chunks[..k])| <= MAX_HEAD
      decreases |chunks| - used
    {
      if used == |chunks| {
        assert chunks[..used] == chunks;
        return ClosedEarly, used;
      }
      ConcatNext(chunks, used);
      buf := buf + chunks[used];
      used := used + 1;
      ConcatSplit(chunks, used);
      PrefixTerminators(buf, Concat(chunks));
      var end := FindTerminator(buf);
      if end.Some? {
        ghost var stream := Concat(chunks);
        r := Head(buf, end.value);
        assert stream[end.value..] == buf[end.value..] + Concat(chunks[used..]);
        assert !NoTerminator(stream) by { assert TerminatorAt(stream, end.value - 4); }
        EndedInTime(chunks, used, end.value);
        return;
      }
      if |buf| > MAX_HEAD {
        return Oversized, used;
      }
    }
  }

  /** Once a prefix of at most `MAX_HEAD` bytes, followed by one more read, has the terminator, no
      prefix overflows. */
  lemma EndedInTime(chunks: seq<seq<Byte>>, used: nat, e: nat)
    requires 0 < used <= |chunks| && HeadEndsAt(Concat(chunks[..used]), e)
    requires forall k :: 0 <= k < used ==> |Concat(chunks[..k])| <= MAX_HEAD
    ensures !Overflows(chunks)
  {
    forall k | used <= k <= |chunks|
      ensures !NoTerminator(Concat(chunks[..k]))
    {
      ConcatSplit(chunks[..k], used);
      assert chunks[..k][..used] == chunks[..used];
      PrefixTerminators(Concat(chunks[..used]), Concat(chunks[..k]));
      assert TerminatorAt(Concat(chunks[..k]), e - 4);
    }
  }

  lemma {:induction false} PrefixLengths(chunks: seq<seq<Byte>>, limit: nat) returns (k: nat)
    requires |Concat(chunks)| > limit
    requires forall c :: c in chunks ==> 0 < |c| <= READ_SIZE
    ensures k <= |chunks| && limit < |Concat(chunks[..k])| <= limit + READ_SIZE
  {
    var p := chunks[..|chunks| - 1];
    ConcatNext(chunks, |chunks| - 1);
    assert chunks[..|chunks|] == chunks;
    if |Concat(p)| > limit {
      k := PrefixLengths(p, limit);
      assert p[..k] == chunks[..k];
    } else {
      k := |chunks|;
      assert chunks[|chunks| - 1] in chunks;
    }
  }

  /** A head of up to 65537 bytes is accepted however it is cut into reads, one longer than 66560
      bytes never is, and in between it depends on the cuts. */
  lemma AcceptedHowever(chunks: seq<seq<Byte>>, e: nat)
    requires HeadEndsAt(Concat(chunks), e)
    requires forall c :: c in chunks ==> 0 < |c| <= READ_SIZE
    ensures e <= MAX_HEAD + 1 ==> !Overflows(chunks)
    ensures e > MAX_HEAD + READ_SIZE ==> Overflows(chunks)
  {
    var stream := Concat(chunks);
    if e <= MAX_HEAD + 1 {
      forall k | 0 <= k <= |chunks| && |Concat(chunks[..k])| > MAX_HEAD
        ensures !NoTerminator(Concat(chunks[..k]))
      {
        ConcatSplit(chunks, k);
        PrefixTerminators(Concat(chunks[..k]), stream);
        assert TerminatorAt(Concat(chunks[..k]), e - 4);
      }
    }
    if e > MAX_HEAD + READ_SIZE {
      var k := PrefixLengths(chunks, MAX_HEAD);
      ConcatSplit(chunks, k);
      PrefixTerminators(Concat(chunks[..k]), stream);
      assert NoTerminator(Concat(chunks[..k]));
    }
  }
}
