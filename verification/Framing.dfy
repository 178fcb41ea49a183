/** auth.go and webrtc.go: messages with a 32-bit length in front, over a connection that delivers in any chunks. */
module Framing {
  import opened Bytes
  import opened Wrappers

  const LIMIT: nat := 10 * 1024 * 1024

  /** What sendAuthMessage and sendSignal write: the length is truncated to 32 bits. */
  function Frame(body: seq<Byte>): (f: seq<Byte>) { U32(|body|) + body }

  /** One message off the front of all that will ever arrive, and what is left. */
  function Decode(input: seq<Byte>): Option<(seq<Byte>, seq<Byte>)> {
    if |input| < 4 then None else
      var n := Value(input[..4]);
      if n > LIMIT || |input| < 4 + n then None
      else Some((input[4..4 + n], input[4 + n..]))
  }

  function Frames(bodies: seq<seq<Byte>>): seq<Byte> {
    if bodies == [] then [] else Frame(bodies[0]) + Frames(bodies[1..])
  }

  /** As many messages as asked for. */
  function DecodeMany(input: seq<Byte>, count: nat): Option<(seq<seq<Byte>>, seq<Byte>)> {
    if count == 0 then Some(([], input)) else
      var (body, rest) :- Decode(input);
      var (bodies, end) :- DecodeMany(rest, count - 1);
      Some(([body] + bodies, end))
  }

  /**
   * One end of a connection. Each entry of `chunks` bounds how much one Read returns; `writes` says
   * what the writes do, all of them succeeding once it is used up, and `failed` whether one did not.
   */
  class Conn {
    var incoming: seq<Byte>
    var outgoing: seq<Byte>
    var chunks: seq<nat>
    var writes: seq<WriteEvent>
    var failed: bool

    constructor (incoming: seq<Byte>, chunks: seq<nat>, writes: seq<WriteEvent>)
      ensures this.incoming == incoming && this.outgoing == [] && this.chunks == chunks
      ensures this.writes == writes && !failed
    {
      this.incoming, this.outgoing, this.chunks, this.writes, failed := incoming, [], chunks, writes, false;
    }

    method Write(data: seq<Byte>) returns (ok: bool)
      modifies this`outgoing, this`writes, this`failed
      ensures Put(old(outgoing), data, outgoing, ok) && failed == (old(failed) || !ok)
    {
      var event := if writes == [] then Takes else writes[0];
      writes := if writes == [] then [] else writes[1..];
      ok := event.Takes?;
      if ok {
        outgoing := outgoing + data;
      } else {
        var n := if event.n < |data| then event.n else |data|;
        outgoing, failed := outgoing + data[..n], true;
      }
    }

    /** Some bytes, at least one unless the stream has ended, and never more than wanted. */
    method Read(want: nat) returns (data: seq<Byte>)
      requires want > 0
      modifies this`incoming, this`chunks
      ensures data + incoming == old(incoming) && |data| <= want
      ensures data == [] ==> old(incoming) == []
    {
      var n := if chunks == [] then 1 else chunks[0];
      chunks := if chunks == [] then [] else chunks[1..];
      if n == 0 { n := 1; }
      if n > want { n := want; }
      if n > |incoming| { n := |incoming|; }
      data := incoming[..n];
      incoming := incoming[n..];
    }

    /** io.ReadFull */
    method ReadFull(want: nat) returns (r: Option<seq<Byte>>)
      modifies this`incoming, this`chunks
      ensures |old(incoming)| >= want ==> r == Some(old(incoming)[..want]) && incoming == old(incoming)[want..]
      ensures |old(incoming)| < want ==> r == None && incoming == []
    {
      var got: seq<Byte> := [];
      while |got| < want
        invariant |got| <= want && got + incoming == old(incoming)
        decreases want - |got|
      {
        var data := Read(want - |got|);
        if data == [] {
          return None;
        }
        got := got + data;
      }
      assert got == old(incoming)[..want];
      return Some(got);
    }

    /** readAuthMessage and readSignal up to the JSON decoding. */
    method ReadMessage() returns (r: Option<seq<Byte>>)
      modifies this`incoming, this`chunks
      ensures match Decode(old(incoming))
        case Some((body, rest)) => r == Some(body) && incoming == rest
        case None => r == None
    {
      var head := ReadFull(4);
      if head.None? {
        return None;
      }
      var n := Value(head.value);
      if n > LIMIT {
        return None;
      }
      ghost var left := incoming;
      r := ReadFull(n);
      assert |left| >= n ==> left[..n] == old(incoming)[4..4 + n] && left[n..] == old(incoming)[4 + n..];
    }

    /** sendAuthMessage and sendSignal after the JSON encoding. */
    method SendMessage(body: seq<Byte>) returns (ok: bool)
      modifies this`outgoing, this`writes, this`failed
      ensures Put(old(outgoing), Frame(body), outgoing, ok) && failed == (old(failed) || !ok)
    {
      ok := Write(U32(|body|));
      ghost var sent, ok1 := outgoing, ok;
      if ok {
        ok := Write(body);
      }
      PutConcat(old(outgoing), U32(|body|), sent, ok1, body, outgoing, ok);
    }
  }

  /** Decoding, seen from the four bytes of a length and what follows them. */
  lemma DecodeParts(input: seq<Byte>, head: seq<Byte>, tail: seq<Byte>)
    requires |head| == 4 && input == head + tail
    ensures var n := Value(head);
      Decode(input) == if n > LIMIT || |tail| < n then None else Some((tail[..n], tail[n..]))
  {
    var n := Value(head);
    assert input[..4] == head;
    if |tail| >= n {
      assert input[4..4 + n] == tail[..n] && input[4 + n..] == tail[n..];
    }
  }

  lemma TakeBody(body: seq<Byte>, rest: seq<Byte>, n: nat)
    requires n <= |body + rest|
    ensures (body + rest)[..n] == body && (body + rest)[n..] == rest <==> n == |body|
  {
    assert n == |body| ==> (body + rest)[..n] == body && (body + rest)[n..] == rest;
  }

  lemma DecodeFrame(body: seq<Byte>, rest: seq<Byte>)
    ensures var n, tail := |body| % 0x1_0000_0000, body + rest;
      && n <= |body|
      && Decode(Frame(body) + rest) == if n > LIMIT then None else Some((tail[..n], tail[n..]))
  {
    U32Value(|body|);
    Associative(U32(|body|), body, rest);
    DecodeParts(Frame(body) + rest, U32(|body|), body + rest);
  }

  /** A frame decodes to its body, leaving exactly what follows, if and only if the body is within the limit. */
  lemma RoundTripIff(body: seq<Byte>, rest: seq<Byte>)
    ensures Decode(Frame(body) + rest) == Some((body, rest)) <==> |body| <= 10485760
  {
    DecodeFrame(body, rest);
    TakeBody(body, rest, |body| % 0x1_0000_0000);
  }

  lemma SmallLength(head: seq<Byte>, n: nat)
    requires |head| == 4 && Value(head) == n && n <= LIMIT
    ensures U32(n) == head
  {
    U32Value(n);
    ValueInjective(U32(n), head);
  }

  /** What a reader takes for a message is a frame of at most 10 MiB, and nothing else. */
  lemma DecodeIff(input: seq<Byte>, body: seq<Byte>, rest: seq<Byte>)
    ensures Decode(input) == Some((body, rest)) <==> |body| <= 10485760 && input == Frame(body) + rest
  {
    if Decode(input) == Some((body, rest)) {
      SmallLength(input[..4], |body|);
      assert input == input[..4] + body + rest;
    } else if input == Frame(body) + rest {
      RoundTripIff(body, rest);
    }
  }

  lemma FirstOf(body: seq<Byte>, others: seq<Byte>, rest: seq<Byte>, bodies: seq<seq<Byte>>)
    requires |body| <= LIMIT && DecodeMany(others + rest, |bodies|) == Some((bodies, rest))
    ensures DecodeMany(Frame(body) + others + rest, |bodies| + 1) == Some(([body] + bodies, rest))
  {
    RoundTripIff(body, others + rest);
    Associative(Frame(body), others, rest);
  }

  /** Any sequence of frames within the limit decodes to itself and no later byte is consumed. */
  lemma {:induction false} FramesRoundTrip(bodies: seq<seq<Byte>>, rest: seq<Byte>)
    requires forall b | b in bodies :: |b| <= LIMIT
    ensures DecodeMany(Frames(bodies) + rest, |bodies|) == Some((bodies, rest))
  {
    if bodies == [] {
      assert Frames(bodies) + rest == rest;
    } else {
      assert bodies[0] in bodies;
      FramesRoundTrip(bodies[1..], rest);
      FirstOf(bodies[0], Frames(bodies[1..]), rest, bodies[1..]);
      assert [bodies[0]] + bodies[1..] == bodies;
    }
  }

  lemma FrameHead(body: seq<Byte>, k: nat)
    requires 4 <= k <= |Frame(body)|
    ensures Frame(body)[..k] == U32(|body|) + body[..k - 4] && Frame(body)[..k][..4] == U32(|body|)
    ensures Value(U32(|body|)) == |body| % 0x1_0000_0000
  {
    U32Value(|body|);
  }

  /** A frame that was cut short is never taken for a message. */
  lemma CutFrameRefused(body: seq<Byte>, cut: nat)
    requires cut < |Frame(body)| && |body| < 0x1_0000_0000
    ensures Decode(Frame(body)[..cut]) == None
  {
    if cut >= 4 { FrameHead(body, cut); }
  }

  // ---- A reader part way through a message ----

  /** The bytes a pending ReadMessage has taken, and those still on the wire. */
  datatype Inbox = Inbox(got: seq<Byte>, wire: seq<Byte>)

  /** How many more bytes it takes before it decides. */
  function Missing(got: seq<Byte>): nat {
    if |got| < 4 then 4 - |got| else
      var n := Value(got[..4]);
      if n > LIMIT || |got| >= 4 + n then 0 else 4 + n - |got|
  }

  function Take(box: Inbox, n: nat): Inbox
    requires n <= |box.wire|
  {
    Inbox(box.got + box.wire[..n], box.wire[n..])
  }

  function Sent(box: Inbox, data: seq<Byte>): Inbox { box.(wire := box.wire + data) }

  /** What ReadMessage returns once nothing is missing. */
  function Received(box: Inbox): Option<seq<Byte>> {
    var (body, _) :- Decode(box.got);
    Some(body)
  }

  /** How much of a frame its reader takes: only the length, if that is over the limit. */
  function Want(body: seq<Byte>): (n: nat)
    ensures n <= |Frame(body)|
  {
    var n := |body| % 0x1_0000_0000;
    if n > LIMIT then 4 else 4 + n
  }

  /** The inbox holds this frame, partly read, and data after it. */
  predicate Holding(box: Inbox, body: seq<Byte>, data: seq<Byte>) {
    var k := |box.got|;
    k <= Want(body) && box.got == Frame(body)[..k] && box.wire == Frame(body)[k..] + data
  }

  lemma MissingOf(body: seq<Byte>, k: nat)
    requires k <= Want(body)
    ensures Missing(Frame(body)[..k]) == if k < 4 then 4 - k else Want(body) - k
  {
    if k >= 4 { FrameHead(body, k); }
  }

  lemma HoldingNew(body: seq<Byte>, data: seq<Byte>)
    ensures Holding(Inbox([], Frame(body) + data), body, data)
  {}

  lemma TakeSlices(f: seq<Byte>, data: seq<Byte>, k: nat, n: nat)
    requires k + n <= |f|
    ensures f[..k] + (f[k..] + data)[..n] == f[..k + n] && (f[k..] + data)[n..] == f[k + n..] + data
  {}

  lemma HoldingTake(box: Inbox, body: seq<Byte>, data: seq<Byte>, n: nat)
    requires Holding(box, body, data) && n <= Missing(box.got) && n <= |box.wire|
    ensures Holding(Take(box, n), body, data)
  {
    MissingOf(body, |box.got|);
    TakeSlices(Frame(body), data, |box.got|, n);
  }

  /** While something is missing there is something to read. */
  lemma HoldingMore(box: Inbox, body: seq<Byte>, data: seq<Byte>)
    requires Holding(box, body, data) && Missing(box.got) > 0
    ensures box.wire != []
  {
    MissingOf(body, |box.got|);
  }

  /** When nothing is missing the reader has the body and nothing else, or, over the limit, never the whole body. */
  lemma HoldingDone(box: Inbox, body: seq<Byte>, data: seq<Byte>)
    requires Holding(box, body, data) && Missing(box.got) == 0
    ensures |body| <= LIMIT ==> Received(box) == Some(body) && box.wire == data
    ensures |body| > LIMIT ==> Received(box) == None || exists n :: 0 <= n < |body| && Received(box) == Some(body[..n])
  {
    MissingOf(body, |box.got|);
    if |body| <= LIMIT { ShortDone(box, body, data); } else { LongDone(box.got, body, |body| % 0x1_0000_0000); }
  }

  lemma ShortDone(box: Inbox, body: seq<Byte>, data: seq<Byte>)
    requires Holding(box, body, data) && |body| <= LIMIT && |box.got| == 4 + |body|
    ensures Received(box) == Some(body) && box.wire == data
  {
    var f := Frame(body);
    assert box.got == f + [] && box.wire == f[|f|..] + data;
    RoundTripIff(body, []);
  }

  lemma LongDone(got: seq<Byte>, body: seq<Byte>, n: nat)
    requires n == |body| % 0x1_0000_0000 && |got| == (if n > LIMIT then 4 else 4 + n) && got == Frame(body)[..|got|]
    ensures Decode(got) == if n > LIMIT then None else Some((body[..n], []))
  {
    var k := |got|;
    FrameHead(body, k);
    DecodeParts(got, U32(|body|), body[..k - 4]);
    assert n <= LIMIT ==> body[..n][..n] == body[..n] && body[..n][n..] == [];
  }
}
