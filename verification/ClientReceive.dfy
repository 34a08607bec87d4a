/** The receiving side of the client: one response is read from a socket that delivers its bytes
    in pieces of any size. */
module ClientReceive {
  import opened Bytes
  import opened Framing
  import opened Sockets

  datatype Message = Message(
    cmd: nat, errcode: nat, opaqueId: nat, cas: nat, keylen: nat, extralen: nat, dtype: nat, body: seq<Byte>)

  /** What reading one message does: a message, the end of the stream inside a message, or an
      exception on its magic byte. Alternative framing raises, as its format has one field more
      than is unpacked. */
  datatype Received =
    | Got(message: Message, rest: seq<Byte>)
    | EndOfStream
    | BadMagic(rest: seq<Byte>)
    | AlternativeFraming(rest: seq<Byte>)

  predicate KnownMagic(magic: nat) {
    magic == RES_MAGIC || magic == REQ_MAGIC || magic == ALT_RES_MAGIC || magic == ALT_REQ_MAGIC
  }

  /** Reading from the bytes still to come. */
  function Receive(stream: seq<Byte>): Received {
    if |stream| < HEADER_SIZE then EndOfStream
    else
      var h, more := Unpack(stream[..HEADER_SIZE]), stream[HEADER_SIZE..];
      if !KnownMagic(h.magic) then BadMagic(more)
      else if h.magic == ALT_RES_MAGIC || h.magic == ALT_REQ_MAGIC then AlternativeFraming(more)
      else if |more| < h.bodylen then EndOfStream
      else Got(Message(h.cmd, h.vbucket, h.opaqueId, h.cas, h.keylen, h.extralen, h.dtype, more[..h.bodylen]),
               more[h.bodylen..])
  }

  /** However the bytes arrive, the message read is the one at the head of the stream, and
      exactly its bytes are consumed. */
  method RecvMsg(s: Socket<Byte>) returns (r: Received)
    modifies s
    ensures r == Receive(old(s.incoming))
    ensures s.incoming == if r.EndOfStream? then [] else r.rest
  {
    var ok, response := s.RecvExactly(HEADER_SIZE);
    if !ok {
      return EndOfStream;
    }
    assert response == old(s.incoming)[..HEADER_SIZE] && s.incoming == old(s.incoming)[HEADER_SIZE..];
    var h := Unpack(response);
    if !KnownMagic(h.magic) {
      return BadMagic(s.incoming);
    }
    if h.magic == ALT_RES_MAGIC || h.magic == ALT_REQ_MAGIC {
      return AlternativeFraming(s.incoming);
    }
    ghost var more := s.incoming;
    var body;
    ok, body := s.RecvExactly(h.bodylen);
    if !ok {
      return EndOfStream;
    }
    assert body == more[..h.bodylen] && s.incoming == more[h.bodylen..];
    r := Got(Message(h.cmd, h.vbucket, h.opaqueId, h.cas, h.keylen, h.extralen, h.dtype, body), s.incoming);
  }

  /** The message at the head of a stream, byte by byte, and when there is one. */
  lemma {:induction false} ReceiveAt(stream: seq<Byte>)
    requires |stream| >= 24
    ensures var b: seq<nat> := stream;
      && (Receive(stream).Got? <==> (b[0] == 0x80 || b[0] == 0x81) && |b| >= 24 + Announced(b))
      && (Receive(stream).AlternativeFraming? <==> b[0] == 0x08 || b[0] == 0x18)
      && (Receive(stream).BadMagic? <==> b[0] !in {0x80, 0x81, 0x08, 0x18})
    ensures Receive(stream).Got? ==>
      var m := Receive(stream).message;
      && |stream| >= 24 + Announced(stream) && m.body == stream[24..24 + Announced(stream)]
      && Receive(stream).rest == stream[24 + Announced(stream)..]
      && LaidOut(Header(stream[0], m.cmd, m.keylen, m.extralen, m.dtype, m.errcode, |m.body|, m.opaqueId, m.cas), stream)
  {
    HeaderInAt(stream);
    if Receive(stream).Got? {
      RestSlices(stream, Announced(stream));
    }
  }

  lemma {:induction false} RestSlices(s: seq<Byte>, n: nat)
    requires |s| >= 24 + n
    ensures s[24..][..n] == s[24..24 + n] && s[24..][n..] == s[24 + n..]
  {
  }

  // ----- requests and responses together

  /** The message a client should read for a reply to its request. */
  function AnswerTo(r: Request, a: Reply): Message
    requires a.Reply?
  {
    Message(r.cmd, a.status, r.opaqueId, a.cas, |r.key|, |r.extra|, 0, a.body)
  }

  /** The messages for the requests that are replied to, in order, when some commands have been
      handled before. */
  function Answers(callback: Callback, before: seq<Call>, rs: seq<Request>): seq<Message>
    decreases |rs|
  {
    if rs == [] then []
    else
      var handled := before + [rs[0].AsCall()];
      var a := callback(handled);
      (if a.NoReply? then [] else [AnswerTo(rs[0], a)]) + Answers(callback, handled, rs[1..])
  }

  /** All messages of a stream, and whether it ends after one. */
  function ReceiveAll(stream: seq<Byte>): (seq<Message>, bool)
    decreases |stream|
  {
    if stream == [] then ([], true)
    else
      match Receive(stream)
      case Got(m, rest) => var (ms, clean) := ReceiveAll(rest); ([m] + ms, clean)
      case _ => ([], false)
  }

  /** The stream ends inside a message, or with one that cannot be read, if and only if it does so
      after its first messages. */
  lemma {:induction false} CleanIff(stream: seq<Byte>)
    ensures ReceiveAll(stream).1 <==> stream == [] || (Receive(stream).Got? && ReceiveAll(Receive(stream).rest).1)
  {
  }

  function FrameOf(r: Request): Frame {
    Frame(r.HeaderOf(), r.Body())
  }

  /** The client reads a response as the server packed it. */
  lemma {:induction false} ReceiveResponse(callback: Callback, before: seq<Call>, r: Request, tail: seq<Byte>)
    requires RepliesFit(callback) && Deliverable(r) && callback(before + [r.AsCall()]).Reply?
    ensures Receive(Response(callback, before, FrameOf(r)) + tail) ==
            Got(AnswerTo(r, callback(before + [r.AsCall()])), tail)
  {
    CallOfRequest(r);
    var a := callback(before + [r.AsCall()]);
    var h := ResponseHeader(r.HeaderOf(), a);
    var stream := Response(callback, before, FrameOf(r)) + tail;
    UnpackPack(h);
    assert stream == h.Pack() + a.body + tail;
    Parts(h.Pack(), a.body, tail);
  }

  lemma {:induction false} Parts<T>(a: seq<T>, b: seq<T>, c: seq<T>)
    ensures (a + b + c)[..|a|] == a && (a + b + c)[|a|..] == b + c
    ensures (b + c)[..|b|] == b && (b + c)[|b|..] == c
  {
  }

  /** A whole conversation: requests delivered in any chunks are answered so that the client
      reads one message per reply, in order, with the tag, key length and extra length of its
      own request, and nothing is left over; each reply may depend on all commands before it. */
  lemma {:induction false} Conversation(callback: Callback, rs: seq<Request>, chunks: seq<seq<Byte>>)
    requires RepliesFit(callback) && AllDeliverable(rs)
    requires Concat(chunks) == PackAll(rs)
    ensures Feed([], chunks) == Drained(FramesOf(rs), [], true)
    ensures ReceiveAll(Output(callback, [], Feed([], chunks).frames)) == (Answers(callback, [], rs), true)
  {
    WholeStream(rs, chunks);
    ReadResponses(callback, [], rs);
  }

  lemma {:induction false} WholeStream(rs: seq<Request>, chunks: seq<seq<Byte>>)
    requires AllDeliverable(rs) && Concat(chunks) == PackAll(rs)
    ensures Feed([], chunks) == Drained(FramesOf(rs), [], true)
  {
    DrainPacked(rs, []);
    ThenNothing(Drained(FramesOf(rs), [], true), [], true);
    assert PackAll(rs) + [] == [] + Concat(chunks);
    ChunkIndependence([], chunks);
  }

  /** What is queued for one request is read as its message, if it is replied to. */
  lemma {:induction false} ReadOne(callback: Callback, before: seq<Call>, r: Request, tail: seq<Byte>)
    requires RepliesFit(callback) && Deliverable(r)
    ensures var a := callback(before + [r.AsCall()]);
      var (ms, clean) := ReceiveAll(tail);
      ReceiveAll(Response(callback, before, FrameOf(r)) + tail) ==
      ((if a.NoReply? then [] else [AnswerTo(r, a)]) + ms, clean)
  {
    CallOfRequest(r);
    var queued := Response(callback, before, FrameOf(r));
    if callback(before + [r.AsCall()]).Reply? {
      ReceiveResponse(callback, before, r, tail);
      assert queued != [];
    } else {
      assert queued + tail == tail;
      assert [] + ReceiveAll(tail).0 == ReceiveAll(tail).0;
    }
  }

  lemma {:induction false} ReadResponses(callback: Callback, before: seq<Call>, rs: seq<Request>)
    requires RepliesFit(callback) && AllDeliverable(rs)
    ensures ReceiveAll(Output(callback, before, FramesOf(rs))) == (Answers(callback, before, rs), true)
    decreases |rs|
  {
    if rs != [] {
      var handled := before + [rs[0].AsCall()];
      ReadResponses(callback, handled, rs[1..]);
      FirstOutput(callback, before, rs);
      ReadOne(callback, before, rs[0], Output(callback, handled, FramesOf(rs[1..])));
    }
  }

  lemma {:induction false} FirstOutput(callback: Callback, before: seq<Call>, rs: seq<Request>)
    requires RepliesFit(callback) && AllDeliverable(rs) && rs != []
    ensures Output(callback, before, FramesOf(rs)) ==
            Response(callback, before, FrameOf(rs[0])) + Output(callback, before + [rs[0].AsCall()], FramesOf(rs[1..]))
  {
    CallOfRequest(rs[0]);
    assert FramesOf(rs)[0] == FrameOf(rs[0]) && FramesOf(rs)[1..] == FramesOf(rs[1..]);
  }
}
