/** The memcached binary protocol on the wire: 24-byte headers, requests as the client packs
    them, and the server channel that reassembles requests from a byte stream. */
module Framing {
  import opened Bytes

  /** The widths of the fields of ">BBHBBHIIQ", in groups. */
  const HEADER_WIDTHS: seq<nat> := [1, 1, 2] + [1, 1, 2] + [4, 4, 8]
  const HEADER_SIZE: nat := 24

  const REQ_MAGIC: Byte := 0x80
  const RES_MAGIC: Byte := 0x81
  const ALT_REQ_MAGIC: Byte := 0x08
  const ALT_RES_MAGIC: Byte := 0x18

  /** The fields of a header; `vbucket` is the status in a response. */
  datatype Header = Header(
    magic: nat, cmd: nat, keylen: nat, extralen: nat, dtype: nat,
    vbucket: nat, bodylen: nat, opaqueId: nat, cas: nat)
  {
    predicate Fits() {
      && magic < 0x100 && cmd < 0x100 && keylen < 0x1_0000 && extralen < 0x100 && dtype < 0x100
      && vbucket < 0x1_0000 && bodylen < 0x1_0000_0000 && opaqueId < 0x1_0000_0000
      && cas < 0x1_0000_0000_0000_0000
    }

    function Fields(): (vs: seq<nat>)
      ensures |vs| == 9
    {
      [magic, cmd, keylen, extralen, dtype, vbucket, bodylen, opaqueId, cas]
    }

    function Pack(): (s: seq<Byte>)
      ensures |s| == HEADER_SIZE
    {
      HeaderTotal();
      PackFields(HEADER_WIDTHS, Fields())
    }
  }

  function FromFields(vs: seq<nat>): Header
    requires |vs| == 9
  {
    Header(vs[0], vs[1], vs[2], vs[3], vs[4], vs[5], vs[6], vs[7], vs[8])
  }

  function Unpack(s: seq<Byte>): (h: Header)
    requires |s| == HEADER_SIZE
    ensures h.Fits()
  {
    HeaderTotal();
    var vs := UnpackFields(HEADER_WIDTHS, s);
    FitsIff(vs);
    FromFields(vs)
  }

  lemma {:induction false} HeaderTotal()
    ensures Total(HEADER_WIDTHS) == HEADER_SIZE
  {
    assert HEADER_WIDTHS[1..] == [1, 2, 1, 1, 2, 4, 4, 8];
    assert [1, 2, 1, 1, 2, 4, 4, 8][1..] == [2, 1, 1, 2, 4, 4, 8];
    assert [2, 1, 1, 2, 4, 4, 8][1..] == [1, 1, 2, 4, 4, 8];
    assert [1, 1, 2, 4, 4, 8][1..] == [1, 2, 4, 4, 8];
    assert [1, 2, 4, 4, 8][1..] == [2, 4, 4, 8];
    assert [2, 4, 4, 8][1..] == [4, 4, 8];
    assert [4, 4, 8][1..] == [4, 8];
    assert [4, 8][1..] == [8];
  }

  lemma {:induction false} FitsIff(vs: seq<nat>)
    requires |vs| == 9
    ensures Fit(HEADER_WIDTHS, vs) <==> FromFields(vs).Fits()
  {
    Spans();
  }

  lemma {:induction false} UnpackPack(h: Header)
    requires h.Fits()
    ensures Unpack(h.Pack()) == h
  {
    FitsIff(h.Fields());
    UnpackPackFields(HEADER_WIDTHS, h.Fields());
  }

  lemma {:induction false} PackUnpack(s: seq<Byte>)
    requires |s| == HEADER_SIZE
    ensures Unpack(s).Pack() == s
  {
    HeaderTotal();
    var vs := UnpackFields(HEADER_WIDTHS, s);
    assert Unpack(s).Fields() == vs;
    PackUnpackFields(HEADER_WIDTHS, s);
  }

  // ----- the header byte by byte

  lemma {:induction false} HeaderOffsets(i: nat)
    requires i < 9
    ensures Total(HEADER_WIDTHS[..i]) == [0, 1, 2, 4, 5, 6, 8, 12, 16][i]
  {
    if i > 0 {
      HeaderOffsets(i - 1);
      TotalNext(HEADER_WIDTHS, i - 1);
    }
  }

  /** Every field of the header stands at its place in the first 24 bytes, most significant byte
      first. */
  ghost predicate LaidOut(h: Header, s: seq<nat>)
    requires |s| >= 24
  {
    && h.magic == s[0]
    && h.cmd == s[1]
    && h.keylen == 0x100 * s[2] + s[3]
    && h.extralen == s[4]
    && h.dtype == s[5]
    && h.vbucket == 0x100 * s[6] + s[7]
    && h.bodylen == 0x100_0000 * s[8] + 0x1_0000 * s[9] + 0x100 * s[10] + s[11]
    && h.opaqueId == 0x100_0000 * s[12] + 0x1_0000 * s[13] + 0x100 * s[14] + s[15]
    && h.cas == 0x100_0000_0000_0000 * s[16] + 0x1_0000_0000_0000 * s[17]
                + 0x100_0000_0000 * s[18] + 0x1_0000_0000 * s[19]
                + 0x100_0000 * s[20] + 0x1_0000 * s[21] + 0x100 * s[22] + s[23]
  }

  lemma {:induction false} HeaderField(s: seq<Byte>, i: nat, from: nat, to: nat)
    requires |s| == HEADER_SIZE && i < 9
    requires from == [0, 1, 2, 4, 5, 6, 8, 12, 16][i] && to == [1, 2, 4, 5, 6, 8, 12, 16, 24][i]
    ensures Total(HEADER_WIDTHS) == |s| && UnpackFields(HEADER_WIDTHS, s)[i] == Get(s[from..to])
  {
    HeaderTotal();
    HeaderOffsets(i);
    FieldAt(HEADER_WIDTHS, s, i, from);
  }

  lemma {:induction false} FirstFields(s: seq<Byte>)
    requires |s| == 24
    ensures var h, b: seq<nat> := Unpack(s), s;
      && h.magic == b[0] && h.cmd == b[1] && h.keylen == 0x100 * b[2] + b[3]
      && h.extralen == b[4] && h.dtype == b[5] && h.vbucket == 0x100 * b[6] + b[7]
  {
    HeaderField(s, 0, 0, 1);
    HeaderField(s, 1, 1, 2);
    HeaderField(s, 2, 2, 4);
    HeaderField(s, 3, 4, 5);
    HeaderField(s, 4, 5, 6);
    HeaderField(s, 5, 6, 8);
    GetOnes(s);
    GetTwo(s[2..4]);
    GetTwo(s[6..8]);
  }

  lemma {:induction false} LastFields(s: seq<Byte>)
    requires |s| == 24
    ensures var h := Unpack(s);
      h.bodylen == Get(s[8..12]) && h.opaqueId == Get(s[12..16]) && h.cas == Get(s[16..24])
  {
    HeaderField(s, 6, 8, 12);
    HeaderField(s, 7, 12, 16);
    HeaderField(s, 8, 16, 24);
  }

  /** What is unpacked from 24 bytes is laid out in them. */
  lemma {:induction false} UnpackAt(s: seq<Byte>)
    requires |s| == 24
    ensures LaidOut(Unpack(s), s)
  {
    FirstFields(s);
    LastFields(s);
    GetFour(s[8..12]);
    GetFour(s[12..16]);
    GetEight(s[16..24]);
  }

  lemma {:induction false} GetOnes(s: seq<Byte>)
    requires |s| == 24
    ensures Get(s[0..1]) == s[0] && Get(s[1..2]) == s[1] && Get(s[4..5]) == s[4] && Get(s[5..6]) == s[5]
  {
    GetOne(s[0..1]);
    GetOne(s[1..2]);
    GetOne(s[4..5]);
    GetOne(s[5..6]);
  }

  /** And so is a header in the bytes it is packed to. */
  lemma {:induction false} PackAt(h: Header)
    requires h.Fits()
    ensures LaidOut(h, h.Pack())
  {
    UnpackAt(h.Pack());
    UnpackPack(h);
  }

  // ----- requests

  /** The arguments of a message the client sends. */
  datatype Request = Request(
    cmd: nat, extra: seq<Byte>, key: seq<Byte>, val: seq<Byte>, meta: seq<Byte>,
    dtype: nat, vbucket: nat, opaqueId: nat, cas: nat)
  {
    function HeaderOf(): Header {
      Header(REQ_MAGIC, cmd, |key|, |extra|, dtype, vbucket, |Body()|, opaqueId, cas)
    }

    function Body(): seq<Byte> {
      extra + key + val + meta
    }

    /** The message can be packed: `struct.pack` raises on a field that does not fit. */
    predicate Packs() {
      HeaderOf().Fits()
    }

    function Pack(): (s: seq<Byte>)
      requires Packs()
      ensures |s| == HEADER_SIZE + |Body()|
    {
      HeaderOf().Pack() + Body()
    }

    /** What the receiver should be given. */
    function AsCall(): Call {
      Call(cmd, extra, key, vbucket, val + meta, cas)
    }
  }

  /** The size of the extra header the receiving side expects for a command. */
  function ExtraSize(cmd: nat): (n: nat)
    ensures n < 256
  {
    match cmd
    case 0x01 => 8    // SET: flags, expiration
    case 0x02 => 8    // ADD
    case 0x03 => 8    // REPLACE
    case 0x05 => 20   // INCR: amount, initial, expiration
    case 0x06 => 20   // DECR
    case 0x5a => 4    // FLUSH: delay
    case 0x41 => 16   // TAP_MUTATION
    case 0x42 => 8    // TAP_DELETE
    case 0x43 => 8    // TAP_FLUSH
    case 0x44 => 8    // TAP_OPAQUE
    case 0x45 => 8    // TAP_VBUCKET_SET
    case 0x3d => 4    // SET_VBUCKET_STATE
    case 0xb3 => 24   // COMPACT_DB
    case _ => 0
  }

  /** The formats of the extra headers. */
  function ExtraFormat(cmd: nat): string {
    match cmd
    case 0x01 => "II"
    case 0x02 => "II"
    case 0x03 => "II"
    case 0x05 => "QQ" + "I"
    case 0x06 => "QQ" + "I"
    case 0x5a => "I"
    case 0x41 => "HHbx" + "xx" + "II"
    case 0x42 => "HHbx" + "xx"
    case 0x43 => "HHbx" + "xx"
    case 0x44 => "HHbx" + "xx"
    case 0x45 => "HHbx" + "xx"
    case 0x3d => "I"
    case 0xb3 => "QQ" + "Bxxx" + "xxxx"
    case _ => ""
  }

  lemma {:induction false} SmallFormats()
    ensures CalcSize("") == 0 && CalcSize("I") == 4 && CalcSize("II") == 8 && CalcSize("QQ") == 16
    ensures CalcSize("xx") == 2 && CalcSize("HHbx") == 6 && CalcSize("Bxxx") == CalcSize("xxxx") == 4
  {
    CalcSizeNext("", 'I');
    CalcSizeNext("I", 'I');
    CalcSizeNext("", 'Q');
    CalcSizeNext("Q", 'Q');
    CalcSizeNext("", 'x');
    CalcSizeNext("x", 'x');
    CalcSizeJoin("xx", "xx");
    CalcSizeNext("", 'H');
    CalcSizeNext("H", 'H');
    CalcSizeNext("HH", 'b');
    CalcSizeNext("HHb", 'x');
    CalcSizeNext("", 'B');
    CalcSizeNext("B", 'x');
    CalcSizeJoin("Bx", "xx");
  }

  /** The sizes expected are those of the formats, and those of the protocol. */
  lemma {:induction false} ExtraSizes(cmd: nat)
    ensures ExtraSize(cmd) == CalcSize(ExtraFormat(cmd))
    ensures ExtraSize(cmd) ==
      if cmd in {1, 2, 3} then 8
      else if cmd in {5, 6} then 20
      else if cmd == 0x5a || cmd == 0x3d then 4
      else if cmd == 0x41 then 16
      else if 0x42 <= cmd <= 0x45 then 8
      else if cmd == 0xb3 then 24
      else 0
  {
    SmallFormats();
    CalcSizeJoin("QQ", "I");
    CalcSizeJoin("HHbx", "xx");
    CalcSizeJoin("HHbx" + "xx", "II");
    CalcSizeJoin("QQ", "Bxxx");
    CalcSizeJoin("QQ" + "Bxxx", "xxxx");
  }

  // ----- the receiving channel

  /** A dispatched command. */
  datatype Call = Call(cmd: nat, extra: seq<Byte>, key: seq<Byte>, vbucket: nat, val: seq<Byte>, cas: nat)

  datatype Reply = NoReply | Reply(status: nat, cas: nat, body: seq<Byte>)

  /** What the handler of commands replies to the last of the commands it has been given so far. */
  type Callback = seq<Call> -> Reply

  /** Every reply fits the fields of a response header. */
  ghost predicate RepliesFit(callback: Callback) {
    forall cs: seq<Call> ::
      var r := callback(cs);
      r.Reply? ==> r.status < 0x1_0000 && r.cas < 0x1_0000_0000_0000_0000 && |r.body| < 0x1_0000_0000
  }

  /** A Python slice: bounds beyond the end are cut to it. */
  function Slice(s: seq<Byte>, from: nat, to: nat): seq<Byte>
    requires from <= to
  {
    var hi := if to <= |s| then to else |s|;
    var lo := if from <= hi then from else hi;
    s[lo..hi]
  }

  predicate HasEnoughBytes(buf: seq<Byte>) {
    |buf| >= HEADER_SIZE && |buf| - HEADER_SIZE >= Unpack(buf[..HEADER_SIZE]).bodylen
  }

  /** The assertions of the read handler. */
  predicate Accepts(h: Header) {
    h.magic == REQ_MAGIC && h.keylen <= h.bodylen && h.extralen == ExtraSize(h.cmd)
  }

  function ToCall(h: Header, data: seq<Byte>): Call {
    Call(h.cmd, Slice(data, 0, h.extralen), Slice(data, h.extralen, h.extralen + h.keylen),
         h.vbucket, Slice(data, h.extralen + h.keylen, h.extralen + h.keylen + |data|), h.cas)
  }

  function ResponseHeader(h: Header, r: Reply): Header
    requires r.Reply?
  {
    Header(RES_MAGIC, h.cmd, h.keylen, ExtraSize(h.cmd), 0, r.status, |r.body|, h.opaqueId, r.cas)
  }

  /** A frame that has been taken from the buffer. */
  datatype Frame = Frame(header: Header, data: seq<Byte>)
  {
    function AsCall(): Call {
      ToCall(header, data)
    }
  }

  predicate AllFit(frames: seq<Frame>) {
    forall i :: 0 <= i < |frames| ==> frames[i].header.Fits()
  }

  /** The commands handed on for some frames. */
  function CallsOf(frames: seq<Frame>): (cs: seq<Call>)
    ensures |cs| == |frames| && forall i :: 0 <= i < |cs| ==> cs[i] == frames[i].AsCall()
  {
    seq(|frames|, i requires 0 <= i < |frames| => frames[i].AsCall())
  }

  /** The bytes queued for the client when a command has been handled after some others. */
  function Response(callback: Callback, before: seq<Call>, f: Frame): seq<Byte>
    requires RepliesFit(callback) && f.header.Fits()
  {
    var r := callback(before + [f.AsCall()]);
    if r.NoReply? then [] else ResponseHeader(f.header, r).Pack() + r.body
  }

  function Output(callback: Callback, before: seq<Call>, frames: seq<Frame>): seq<Byte>
    requires RepliesFit(callback) && AllFit(frames)
    decreases |frames|
  {
    if frames == [] then []
    else Response(callback, before, frames[0]) + Output(callback, before + [frames[0].AsCall()], frames[1..])
  }

  /** What a buffer yields: the frames taken from it, the bytes that stay in it, and whether no
      assertion failed. */
  datatype Drained = Drained(frames: seq<Frame>, rest: seq<Byte>, ok: bool)
  {
    function Then(d: Drained): Drained {
      Drained(frames + d.frames, d.rest, d.ok)
    }
  }

  function HeaderIn(buf: seq<Byte>): (h: Header)
    requires HasEnoughBytes(buf)
    ensures h.Fits() && HEADER_SIZE + h.bodylen <= |buf|
  {
    Unpack(buf[..HEADER_SIZE])
  }

  function BodyIn(buf: seq<Byte>): seq<Byte>
    requires HasEnoughBytes(buf)
  {
    buf[HEADER_SIZE..HEADER_SIZE + HeaderIn(buf).bodylen]
  }

  function AfterFrame(buf: seq<Byte>): (tail: seq<Byte>)
    requires HasEnoughBytes(buf)
    ensures |tail| < |buf| && tail == buf[|buf| - |tail|..]
  {
    buf[HEADER_SIZE + HeaderIn(buf).bodylen..]
  }

  function First(buf: seq<Byte>): Drained
    requires HasEnoughBytes(buf)
  {
    Drained([Frame(HeaderIn(buf), BodyIn(buf))], [], true)
  }

  /** The bytes that stay are the last ones, and hold no complete frame unless an assertion failed. */
  predicate Drains(buf: seq<Byte>, d: Drained) {
    && |d.rest| <= |buf| && d.rest == buf[|buf| - |d.rest|..]
    && (d.ok ==> !HasEnoughBytes(d.rest))
    && AllFit(d.frames)
  }

  function Drain(buf: seq<Byte>): (d: Drained)
    ensures Drains(buf, d)
    decreases |buf|
  {
    if !HasEnoughBytes(buf) then Drained([], buf, true)
    else if !Accepts(HeaderIn(buf)) then Drained([], buf, false)
    else
      var more := Drain(AfterFrame(buf));
      DrainsOn(buf, AfterFrame(buf), First(buf).frames[0], more);
      First(buf).Then(more)
  }

  lemma {:induction false} DrainsOn(buf: seq<Byte>, tail: seq<Byte>, f: Frame, more: Drained)
    requires |tail| <= |buf| && tail == buf[|buf| - |tail|..] && f.header.Fits() && Drains(tail, more)
    ensures Drains(buf, Drained([f], [], true).Then(more))
  {
    SuffixOfSuffix(buf, tail, more.rest);
  }

  lemma {:induction false} SuffixOfSuffix(s: seq<Byte>, tail: seq<Byte>, rest: seq<Byte>)
    requires |rest| <= |tail| <= |s| && tail == s[|s| - |tail|..] && rest == tail[|tail| - |rest|..]
    ensures rest == s[|s| - |rest|..]
  {
  }

  lemma {:induction false} ThenAssociates(a: Drained, b: Drained, c: Drained)
    ensures a.Then(b).Then(c) == a.Then(b.Then(c))
  {
  }

  lemma {:induction false} ThenNothing(d: Drained, rest: seq<Byte>, ok: bool)
    ensures d.Then(Drained([], rest, ok)) == d.(rest := rest, ok := ok)
  {
    assert d.frames + [] == d.frames;
  }

  lemma {:induction false} NothingThen(d: Drained)
    ensures Drained([], [], true).Then(d) == d
  {
  }

  lemma {:induction false} CallsAppend(before: seq<Call>, a: seq<Frame>, b: seq<Frame>)
    ensures CallsOf(a + b) == CallsOf(a) + CallsOf(b)
    ensures before + CallsOf(a + b) == (before + CallsOf(a)) + CallsOf(b)
  {
  }

  lemma {:induction false} CallsFirst(before: seq<Call>, a: seq<Frame>)
    requires a != []
    ensures (before + [a[0].AsCall()]) + CallsOf(a[1..]) == before + CallsOf(a)
  {
  }

  lemma {:induction false} Associates<T>(a: seq<T>, b: seq<T>, c: seq<T>)
    ensures a + (b + c) == (a + b) + c
  {
  }

  lemma {:induction false} OutputAppend(callback: Callback, before: seq<Call>, a: seq<Frame>, b: seq<Frame>)
    requires RepliesFit(callback) && AllFit(a) && AllFit(b)
    ensures AllFit(a + b)
    ensures Output(callback, before, a + b) == Output(callback, before, a) + Output(callback, before + CallsOf(a), b)
    decreases |a|
  {
    if a == [] {
      assert a + b == b && before + CallsOf(a) == before;
    } else {
      var next := before + [a[0].AsCall()];
      assert (a + b)[1..] == a[1..] + b;
      OutputAppend(callback, next, a[1..], b);
      CallsFirst(before, a);
      Associates(Response(callback, before, a[0]), Output(callback, next, a[1..]), Output(callback, before + CallsOf(a), b));
    }
  }

  /** One more frame, after some that have been handled. */
  lemma {:induction false} OneMoreFrame(callback: Callback, before: seq<Call>, out: seq<Byte>, frames: seq<Frame>, f: Frame)
    requires RepliesFit(callback) && AllFit(frames) && f.header.Fits()
    ensures AllFit(frames + [f])
    ensures before + CallsOf(frames + [f]) == (before + CallsOf(frames)) + [f.AsCall()]
    ensures out + Output(callback, before, frames + [f]) ==
            (out + Output(callback, before, frames)) + Response(callback, before + CallsOf(frames), f)
  {
    var after := before + CallsOf(frames);
    CallsAppend(before, frames, [f]);
    assert CallsOf([f]) == [f.AsCall()];
    OutputAppend(callback, before, frames, [f]);
    assert Output(callback, after + [f.AsCall()], [f][1..]) == [];
    Associates(out, Output(callback, before, frames), Response(callback, after, f));
  }

  /** More frames, after some that have been handled. */
  lemma {:induction false} MoreFrames(callback: Callback, before: seq<Call>, out: seq<Byte>, frames: seq<Frame>, more: seq<Frame>)
    requires RepliesFit(callback) && AllFit(frames) && AllFit(more)
    ensures AllFit(frames + more)
    ensures before + CallsOf(frames + more) == (before + CallsOf(frames)) + CallsOf(more)
    ensures out + Output(callback, before, frames + more) ==
            (out + Output(callback, before, frames)) + Output(callback, before + CallsOf(frames), more)
  {
    CallsAppend(before, frames, more);
    OutputAppend(callback, before, frames, more);
    Associates(out, Output(callback, before, frames), Output(callback, before + CallsOf(frames), more));
  }

  class Channel {
    const callback: Callback
    var rbuf: seq<Byte>
    var wbuf: seq<Byte>
    /** The commands the handler has been given, which its replies may depend on. */
    var calls: seq<Call>

    ghost predicate Valid()
      reads this
    {
      RepliesFit(callback) && !HasEnoughBytes(rbuf)
    }

    constructor (callback: Callback, wbuf: seq<Byte>)
      requires RepliesFit(callback)
      ensures Valid() && this.callback == callback && rbuf == [] && this.wbuf == wbuf && calls == []
    {
      this.callback := callback;
      this.rbuf := [];
      this.wbuf := wbuf;
      this.calls := [];
    }

    /** Takes in a chunk and dispatches every complete request; `ok` is false when an assertion
        fails, which ends the connection. */
    method HandleRead(chunk: seq<Byte>) returns (ok: bool)
      requires Valid()
      modifies this
      ensures var d := Drain(old(rbuf) + chunk);
        && rbuf == d.rest && ok == d.ok && calls == old(calls) + CallsOf(d.frames)
        && wbuf == old(wbuf) + Output(callback, old(calls), d.frames)
      ensures ok ==> Valid()
    {
      rbuf := rbuf + chunk;
      ghost var all := Drain(rbuf);
      ghost var taken: seq<Frame> := [];
      assert calls + CallsOf([]) == calls;
      while HasEnoughBytes(rbuf)
        invariant AllFit(taken) && Drained(taken, [], true).Then(Drain(rbuf)) == all
        invariant calls == old(calls) + CallsOf(taken)
        invariant wbuf == old(wbuf) + Output(callback, old(calls), taken)
        decreases |rbuf|
      {
        var h := HeaderIn(rbuf);
        if h.magic != REQ_MAGIC || h.keylen > h.bodylen || h.extralen != ExtraSize(h.cmd) {
          ThenNothing(Drained(taken, [], true), rbuf, false);
          return false;
        }
        var data := BodyIn(rbuf);
        ghost var f := Frame(h, data);
        ThenAssociates(Drained(taken, [], true), First(rbuf), Drain(AfterFrame(rbuf)));
        OneMoreFrame(callback, old(calls), old(wbuf), taken, f);
        rbuf := AfterFrame(rbuf);
        Dispatch(h, data);
        taken := taken + [f];
      }
      ThenNothing(Drained(taken, [], true), rbuf, true);
      ok := true;
    }

    /** Hands a request to the handler and queues its reply. */
    method Dispatch(h: Header, data: seq<Byte>)
      requires RepliesFit(callback) && h.Fits()
      modifies this`wbuf, this`calls
      ensures calls == old(calls) + [ToCall(h, data)]
      ensures wbuf == old(wbuf) + Response(callback, old(calls), Frame(h, data))
    {
      calls := calls + [ToCall(h, data)];
      var reply := callback(calls);
      if reply.Reply? {
        wbuf := wbuf + (ResponseHeader(h, reply).Pack() + reply.body);
      }
    }

    /** Takes in chunk after chunk, until an assertion fails. */
    method ReadAll(chunks: seq<seq<Byte>>) returns (ok: bool)
      requires Valid()
      modifies this
      ensures var f := Feed(old(rbuf), chunks);
        && rbuf == f.rest && ok == f.ok && calls == old(calls) + CallsOf(f.frames)
        && wbuf == old(wbuf) + Output(callback, old(calls), f.frames)
      ensures ok ==> Valid()
    {
      ghost var all := Feed(rbuf, chunks);
      ghost var taken: seq<Frame> := [];
      assert calls + CallsOf([]) == calls;
      for i := 0 to |chunks|
        invariant Valid() && AllFit(taken)
        invariant Drained(taken, [], true).Then(Feed(rbuf, chunks[i..])) == all
        invariant calls == old(calls) + CallsOf(taken)
        invariant wbuf == old(wbuf) + Output(callback, old(calls), taken)
      {
        ghost var d := Drain(rbuf + chunks[i]);
        ThenAssociates(Drained(taken, [], true), d, Feed(d.rest, chunks[i..][1..]));
        MoreFrames(callback, old(calls), old(wbuf), taken, d.frames);
        ok := HandleRead(chunks[i]);
        taken := taken + d.frames;
        if !ok {
          return;
        }
      }
      ThenNothing(Drained(taken, [], true), rbuf, true);
      ok := true;
    }
  }

  // ----- chunking does not matter

  /** A complete first frame is the same whatever follows it. */
  lemma {:induction false} FirstFrameStays(a: seq<Byte>, b: seq<Byte>)
    requires HasEnoughBytes(a)
    ensures HasEnoughBytes(a + b) && HeaderIn(a + b) == HeaderIn(a) && BodyIn(a + b) == BodyIn(a)
    ensures AfterFrame(a + b) == AfterFrame(a) + b
  {
    assert (a + b)[..HEADER_SIZE] == a[..HEADER_SIZE];
  }

  /** Bytes that arrive later do not change what an earlier buffer yields. */
  lemma {:induction false} DrainMore(a: seq<Byte>, b: seq<Byte>)
    ensures var d := Drain(a);
      if d.ok then Drain(a + b) == d.Then(Drain(d.rest + b)) else Drain(a + b) == d.(rest := d.rest + b)
    decreases |a|
  {
    if !HasEnoughBytes(a) {
      NothingThen(Drain(a + b));
    } else {
      FirstFrameStays(a, b);
      if Accepts(HeaderIn(a)) {
        var tail := AfterFrame(a);
        DrainMore(tail, b);
        var d := Drain(tail);
        ThenAssociates(First(a), d, Drain(d.rest + b));
      }
    }
  }

  function Concat(chunks: seq<seq<Byte>>): seq<Byte> {
    if chunks == [] then [] else chunks[0] + Concat(chunks[1..])
  }

  /** A channel fed chunk by chunk, until an assertion fails. */
  function Feed(rbuf: seq<Byte>, chunks: seq<seq<Byte>>): (f: Drained)
    ensures AllFit(f.frames)
    decreases |chunks|
  {
    if chunks == [] then Drained([], rbuf, true)
    else
      var d := Drain(rbuf + chunks[0]);
      if d.ok then d.Then(Feed(d.rest, chunks[1..])) else d
  }

  /** However a byte stream, well formed or not, is cut into chunks, the same frames are taken from
      it, and so the same commands dispatched, and the same assertion fails, if any; and while
      none fails, the same bytes remain buffered. */
  lemma {:induction false} ChunkIndependence(rbuf: seq<Byte>, chunks: seq<seq<Byte>>)
    requires !HasEnoughBytes(rbuf)
    ensures var f := Feed(rbuf, chunks); var d := Drain(rbuf + Concat(chunks));
      f.frames == d.frames && f.ok == d.ok && (f.ok ==> f.rest == d.rest)
    decreases |chunks|
  {
    if chunks == [] {
      assert rbuf + [] == rbuf;
    } else {
      var a, b := rbuf + chunks[0], Concat(chunks[1..]);
      assert a + b == rbuf + Concat(chunks);
      DrainMore(a, b);
      if Drain(a).ok {
        ChunkIndependence(Drain(a).rest, chunks[1..]);
      }
    }
  }

  // ----- framing inverts packing

  /** The requests a client can pack and the server's assertions let through. */
  predicate Deliverable(r: Request) {
    r.Packs() && |r.extra| == ExtraSize(r.cmd)
  }

  predicate AllDeliverable(rs: seq<Request>) {
    forall i :: 0 <= i < |rs| ==> Deliverable(rs[i])
  }

  function PackAll(rs: seq<Request>): seq<Byte>
    requires AllDeliverable(rs)
  {
    if rs == [] then [] else rs[0].Pack() + PackAll(rs[1..])
  }

  /** The frames of a sequence of requests. */
  function FramesOf(rs: seq<Request>): (frames: seq<Frame>)
    requires AllDeliverable(rs)
    ensures AllFit(frames) && |frames| == |rs|
    ensures forall i :: 0 <= i < |rs| ==> frames[i] == Frame(rs[i].HeaderOf(), rs[i].Body())
  {
    if rs == [] then [] else [Frame(rs[0].HeaderOf(), rs[0].Body())] + FramesOf(rs[1..])
  }

  /** The commands handed on for them are the requests themselves. */
  lemma {:induction false} CallsOfRequests(rs: seq<Request>)
    requires AllDeliverable(rs)
    ensures forall i :: 0 <= i < |rs| ==> CallsOf(FramesOf(rs))[i] == rs[i].AsCall()
  {
    forall i | 0 <= i < |rs| ensures CallsOf(FramesOf(rs))[i] == rs[i].AsCall() {
      CallOfRequest(rs[i]);
    }
  }

  lemma {:induction false} CallOfRequest(r: Request)
    requires Deliverable(r)
    ensures ToCall(r.HeaderOf(), r.Body()) == r.AsCall()
  {
    CutUp(r.extra, r.key, r.val, r.meta);
  }

  lemma {:induction false} CutUp(extra: seq<Byte>, key: seq<Byte>, val: seq<Byte>, meta: seq<Byte>)
    ensures var data, e, k := extra + key + val + meta, |extra|, |key|;
      Slice(data, 0, e) == extra && Slice(data, e, e + k) == key && Slice(data, e + k, e + k + |data|) == val + meta
  {
  }

  /** A packed request at the head of the buffer is complete and accepted. */
  lemma {:induction false} PackedIsFirstFrame(r: Request, tail: seq<Byte>)
    requires Deliverable(r)
    ensures var buf := r.Pack() + tail;
      HasEnoughBytes(buf) && HeaderIn(buf) == r.HeaderOf() && BodyIn(buf) == r.Body() && AfterFrame(buf) == tail
    ensures Accepts(r.HeaderOf())
  {
    var buf, h := r.Pack() + tail, r.HeaderOf();
    UnpackPack(h);
    assert buf[..HEADER_SIZE] == h.Pack();
  }

  /** Any sequence of requests comes out as it went in, followed by whatever comes after it. */
  lemma {:induction false} DrainPacked(rs: seq<Request>, tail: seq<Byte>)
    requires AllDeliverable(rs)
    ensures Drain(PackAll(rs) + tail) == Drained(FramesOf(rs), [], true).Then(Drain(tail))
    decreases |rs|
  {
    if rs == [] {
      assert PackAll(rs) + tail == tail;
      NothingThen(Drain(tail));
    } else {
      var r, more := rs[0], PackAll(rs[1..]) + tail;
      assert PackAll(rs) + tail == r.Pack() + more;
      PackedIsFirstFrame(r, more);
      DrainPacked(rs[1..], tail);
      ThenAssociates(First(r.Pack() + more), Drained(FramesOf(rs[1..]), [], true), Drain(tail));
    }
  }

  /** A proper prefix of a packed request is not complete. */
  lemma {:induction false} PrefixIncomplete(r: Request, n: nat)
    requires Deliverable(r) && n < |r.Pack()|
    ensures !HasEnoughBytes(r.Pack()[..n])
  {
    if n >= HEADER_SIZE {
      UnpackPack(r.HeaderOf());
      assert r.Pack()[..n][..HEADER_SIZE] == r.HeaderOf().Pack();
    }
  }

  /** When the stream of packed requests has arrived up to any byte `n`, in any chunks, exactly
      the `j` requests that are complete by then have been dispatched, and the buffer holds
      exactly the bytes after them. */
  lemma {:induction false} DeliveredSoFar(rs: seq<Request>, chunks: seq<seq<Byte>>, n: nat) returns (j: nat)
    requires AllDeliverable(rs)
    requires n <= |PackAll(rs)| && Concat(chunks) == PackAll(rs)[..n]
    ensures j <= |rs|
    ensures |PackAll(rs[..j])| <= n && (j < |rs| ==> n < |PackAll(rs[..j])| + |rs[j].Pack()|)
    ensures Feed([], chunks) == Drained(FramesOf(rs[..j]), PackAll(rs)[|PackAll(rs[..j])|..n], true)
    ensures forall i :: 0 <= i < j ==> CallsOf(Feed([], chunks).frames)[i] == rs[i].AsCall()
  {
    j := CompleteRequests(rs, n);
    DrainPrefix(rs, j, n);
    assert [] + Concat(chunks) == PackAll(rs)[..n];
    ChunkIndependence([], chunks);
    CallsOfRequests(rs[..j]);
  }

  lemma {:induction false} DrainPrefix(rs: seq<Request>, j: nat, n: nat)
    requires AllDeliverable(rs)
    requires j <= |rs| && |PackAll(rs[..j])| <= n <= |PackAll(rs)|
    requires j < |rs| ==> n < |PackAll(rs[..j])| + |rs[j].Pack()|
    ensures Drain(PackAll(rs)[..n]) == Drained(FramesOf(rs[..j]), PackAll(rs)[|PackAll(rs[..j])|..n], true)
  {
    var done := PackAll(rs[..j]);
    var rest := PackAll(rs)[|done|..n];
    PackAllSplit(rs, j);
    assert PackAll(rs)[..n] == done + rest;
    DrainPacked(rs[..j], rest);
    RestIncomplete(rs, j, n);
    ThenNothing(Drained(FramesOf(rs[..j]), [], true), rest, true);
  }

  lemma {:induction false} RestIncomplete(rs: seq<Request>, j: nat, n: nat)
    requires AllDeliverable(rs) && j <= |rs| && |PackAll(rs[..j])| <= n <= |PackAll(rs)|
    requires j < |rs| ==> n < |PackAll(rs[..j])| + |rs[j].Pack()|
    ensures !HasEnoughBytes(PackAll(rs)[|PackAll(rs[..j])|..n])
  {
    var k := |PackAll(rs[..j])|;
    PackAllSplit(rs, j);
    if j < |rs| {
      assert PackAll(rs)[k..n] == PackAll(rs[j..])[..n - k];
      assert PackAll(rs[j..])[..n - k] == rs[j].Pack()[..n - k];
      PrefixIncomplete(rs[j], n - k);
    } else {
      assert rs[..j] == rs;
    }
  }

  lemma {:induction false} Slices<T>(s: seq<T>, j: nat)
    requires 0 < j <= |s|
    ensures s[..j][0] == s[0] && s[..j][1..] == s[1..][..j - 1] && s[1..][j - 1..] == s[j..]
  {
  }

  lemma {:induction false} PackAllSplit(rs: seq<Request>, j: nat)
    requires j <= |rs| && AllDeliverable(rs)
    ensures PackAll(rs) == PackAll(rs[..j]) + PackAll(rs[j..])
  {
    if j == 0 {
      assert rs[0..] == rs;
      assert rs[..0] == [];
    } else {
      Slices(rs, j);
      PackAllSplit(rs[1..], j - 1);
    }
  }

  lemma {:induction false} CompleteRequests(rs: seq<Request>, n: nat) returns (j: nat)
    requires AllDeliverable(rs) && n <= |PackAll(rs)|
    ensures j <= |rs|
    ensures |PackAll(rs[..j])| <= n && (j < |rs| ==> n < |PackAll(rs[..j])| + |rs[j].Pack()|)
  {
    if rs == [] || n < |rs[0].Pack()| {
      j := 0;
      assert rs[..0] == [];
    } else {
      var i := CompleteRequests(rs[1..], n - |rs[0].Pack()|);
      j := i + 1;
      Slices(rs, j);
    }
  }

  // ----- what the assertions do and do not guarantee

  /** The request a frame stands for. */
  function Unframe(h: Header, data: seq<Byte>): Request
    requires h.extralen + h.keylen <= |data|
  {
    Request(h.cmd, data[..h.extralen], data[h.extralen..h.extralen + h.keylen],
            data[h.extralen + h.keylen..], [], h.dtype, h.vbucket, h.opaqueId, h.cas)
  }

  lemma {:induction false} UnframeIsPacked(h: Header, data: seq<Byte>)
    requires h.Fits() && Accepts(h) && |data| == h.bodylen && h.extralen + h.keylen <= h.bodylen
    ensures Deliverable(Unframe(h, data)) && Unframe(h, data).Pack() == h.Pack() + data
  {
    var r := Unframe(h, data);
    assert r.Body() == data;
    assert r.HeaderOf() == h;
  }

  lemma {:induction false} PackedHeader(r: Request, h: Header, data: seq<Byte>)
    requires Deliverable(r) && h.Fits() && r.Pack() == h.Pack() + data
    ensures r.HeaderOf() == h
  {
    assert r.HeaderOf().Pack() == (h.Pack() + data)[..HEADER_SIZE] == h.Pack();
    UnpackPack(h);
    UnpackPack(r.HeaderOf());
  }

  /** An accepted frame is the packing of a deliverable request exactly when key and extra header
      together fit the body; the assertions check the key alone. */
  lemma {:induction false} AcceptedIsPackedIff(h: Header, data: seq<Byte>)
    requires h.Fits() && Accepts(h) && |data| == h.bodylen
    ensures (exists r: Request :: Deliverable(r) && r.Pack() == h.Pack() + data) <==> h.extralen + h.keylen <= h.bodylen
  {
    if h.extralen + h.keylen <= h.bodylen {
      UnframeIsPacked(h, data);
    }
    forall r: Request | Deliverable(r) && r.Pack() == h.Pack() + data
      ensures h.extralen + h.keylen <= h.bodylen
    {
      PackedHeader(r, h, data);
    }
  }

  /** The key handed to the callback has the announced length under the same condition. */
  lemma {:induction false} KeyLengthIff(h: Header, data: seq<Byte>)
    requires Accepts(h) && |data| == h.bodylen && h.keylen > 0
    ensures |ToCall(h, data).key| == h.keylen <==> h.extralen + h.keylen <= h.bodylen
  {
  }

  /** A set whose body of 8 bytes is announced with an extra header of 8 and a key of 8: it passes
      the assertions, is no packed request, and the key handed to the callback is empty. */
  lemma {:induction false} KeyCutOff(data: seq<Byte>) returns (h: Header)
    requires |data| == 8
    ensures h.Fits() && Accepts(h) && h.cmd == 0x01 && h.keylen == h.bodylen == |data|
    ensures ToCall(h, data).extra == data && ToCall(h, data).key == []
    ensures !exists r: Request :: Deliverable(r) && r.Pack() == h.Pack() + data
  {
    h := Header(REQ_MAGIC, 0x01, 8, 8, 0, 0, 8, 0, 0);
    AcceptedIsPackedIff(h, data);
  }

  // ----- messages byte by byte

  /** A request on the wire: the header, and behind it extra header, key, value and metadata. */
  lemma {:induction false} RequestAt(r: Request)
    requires r.Packs()
    ensures r.Pack()[24..] == r.extra + r.key + r.val + r.meta
    ensures LaidOut(Header(0x80, r.cmd, |r.key|, |r.extra|, r.dtype, r.vbucket,
                           |r.extra| + |r.key| + |r.val| + |r.meta|, r.opaqueId, r.cas), r.Pack())
  {
    PackAt(r.HeaderOf());
    InFront(r.HeaderOf(), r.HeaderOf().Pack(), r.Body());
  }

  lemma {:induction false} InFront(h: Header, s: seq<Byte>, more: seq<Byte>)
    requires |s| == 24 && LaidOut(h, s)
    ensures LaidOut(h, s + more) && (s + more)[24..] == more
  {
  }

  /** A response on the wire. */
  lemma {:induction false} ResponseAt(callback: Callback, before: seq<Call>, f: Frame)
    requires RepliesFit(callback) && f.header.Fits() && callback(before + [f.AsCall()]).Reply?
    ensures var a, s := callback(before + [f.AsCall()]), Response(callback, before, f);
      |s| == 24 + |a.body| && s[24..] == a.body &&
      LaidOut(Header(0x81, f.header.cmd, f.header.keylen, ExtraSize(f.header.cmd), 0, a.status,
                     |a.body|, f.header.opaqueId, a.cas), s)
  {
    var a := callback(before + [f.AsCall()]);
    var h := ResponseHeader(f.header, a);
    PackAt(h);
    InFront(h, h.Pack(), a.body);
  }

  /** The body length announced in a buffer. */
  ghost function Announced(s: seq<nat>): nat
    requires |s| >= 24
  {
    0x100_0000 * s[8] + 0x1_0000 * s[9] + 0x100 * s[10] + s[11]
  }

  lemma {:induction false} HeaderInAt(buf: seq<Byte>)
    requires |buf| >= 24
    ensures LaidOut(Unpack(buf[..24]), buf)
    ensures HasEnoughBytes(buf) <==> |buf| >= 24 + Announced(buf)
  {
    UnpackAt(buf[..24]);
  }

  /** When a buffer yields a command: it is complete as announced, and passes the assertions. */
  lemma {:induction false} YieldsIff(buf: seq<Byte>)
    requires |buf| >= 24
    ensures var b: seq<nat> := buf;
      Drain(buf).frames != [] <==>
      |b| >= 24 + Announced(b) && b[0] == 0x80 && 0x100 * b[2] + b[3] <= Announced(b) && b[4] == ExtraSize(b[1])
    ensures var b: seq<nat> := buf;
      |b| >= 24 + Announced(b) && Drain(buf).frames == [] ==> Drain(buf) == Drained([], buf, false)
    ensures |buf| < 24 + Announced(buf) ==> Drain(buf) == Drained([], buf, true)
  {
    HeaderInAt(buf);
  }

  /** A command byte by byte: its extra header, key and value follow the header in this order. */
  ghost predicate CallLaidOut(c: Call, buf: seq<Byte>, e: nat, k: nat, n: nat)
    requires |buf| >= 24 + n && e + k <= n
  {
    var b: seq<nat> := buf;
    && c.cmd == b[1] && c.vbucket == 0x100 * b[6] + b[7]
    && c.extra == buf[24..24 + e] && c.key == buf[24 + e..24 + e + k] && c.val == buf[24 + e + k..24 + n]
    && c.cas == 0x100_0000_0000_0000 * b[16] + 0x1_0000_0000_0000 * b[17]
                + 0x100_0000_0000 * b[18] + 0x1_0000_0000 * b[19]
                + 0x100_0000 * b[20] + 0x1_0000 * b[21] + 0x100 * b[22] + b[23]
  }

  lemma {:induction false} CallAt(h: Header, buf: seq<Byte>, data: seq<Byte>)
    requires |buf| >= 24 + h.bodylen && LaidOut(h, buf) && h.extralen + h.keylen <= h.bodylen
    requires data == buf[24..24 + h.bodylen]
    ensures CallLaidOut(ToCall(h, data), buf, h.extralen, h.keylen, h.bodylen)
  {
    var e, k, n := h.extralen, h.keylen, h.bodylen;
    assert |data| == n;
    FrameSlices(buf, data, e, k);
    SlicesOfCall(h, data, Slice(data, 0, e), Slice(data, e, e + k), Slice(data, e + k, e + k + |data|));
  }

  lemma {:induction false} SlicesOfCall(h: Header, data: seq<Byte>, extra: seq<Byte>, key: seq<Byte>, val: seq<Byte>)
    requires extra == Slice(data, 0, h.extralen) && key == Slice(data, h.extralen, h.extralen + h.keylen)
    requires val == Slice(data, h.extralen + h.keylen, h.extralen + h.keylen + |data|)
    ensures ToCall(h, data) == Call(h.cmd, extra, key, h.vbucket, val, h.cas)
  {
  }

  lemma {:induction false} FirstFrameAt(buf: seq<Byte>, h: Header)
    requires |buf| >= 24 && Drain(buf).frames != [] && h == Unpack(buf[..24])
    ensures |buf| >= 24 + h.bodylen && LaidOut(h, buf)
    ensures Drain(buf).frames[0] == Frame(h, buf[24..24 + h.bodylen])
  {
    UnpackAt(buf[..24]);
  }

  lemma {:induction false} SameLengths(h: Header, b: seq<nat>, e: nat, k: nat, n: nat)
    requires |b| >= 24 && LaidOut(h, b) && e == b[4] && k == 0x100 * b[2] + b[3] && n == Announced(b)
    ensures h.extralen == e && h.keylen == k && h.bodylen == n
  {
  }

  /** The first command a buffer yields, when extra header and key fit the body. */
  lemma {:induction false} FirstCallAt(buf: seq<Byte>, e: nat, k: nat, n: nat)
    requires |buf| >= 24 && Drain(buf).frames != []
    requires var b: seq<nat> := buf; e == b[4] && k == 0x100 * b[2] + b[3] && n == Announced(b)
    requires e + k <= n
    ensures |buf| >= 24 + n && CallLaidOut(Drain(buf).frames[0].AsCall(), buf, e, k, n)
  {
    var h := Unpack(buf[..24]);
    FirstFrameAt(buf, h);
    SameLengths(h, buf, e, k, n);
    CallAt(h, buf, buf[24..24 + n]);
  }

  lemma {:induction false} SliceOfBody(buf: seq<Byte>, data: seq<Byte>, i: nat, j: nat)
    requires |buf| >= 24 + |data| && data == buf[24..24 + |data|] && i <= j <= |data|
    ensures data[i..j] == buf[24 + i..24 + j]
  {
    forall t | 0 <= t < j - i ensures data[i..j][t] == buf[24 + i..24 + j][t] {
      assert data[i + t] == buf[24 + (i + t)];
    }
  }

  lemma {:induction false} FrameSlices(buf: seq<Byte>, data: seq<Byte>, e: nat, k: nat)
    requires |buf| >= 24 + |data| && data == buf[24..24 + |data|] && e + k <= |data|
    ensures Slice(data, 0, e) == buf[24..24 + e] && Slice(data, e, e + k) == buf[24 + e..24 + e + k]
    ensures Slice(data, e + k, e + k + |data|) == buf[24 + e + k..24 + |data|]
  {
    SliceOfBody(buf, data, 0, e);
    SliceOfBody(buf, data, e, e + k);
    SliceOfBody(buf, data, e + k, |data|);
  }
}
