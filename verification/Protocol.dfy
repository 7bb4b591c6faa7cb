// The packet format and how a stream of packets is taken apart again
// (src/common/include/protocol.h; src/server/dispatcher.c, lines 113-123).
module Protocol {
  import opened Bytes
  import opened Checksum
  import opened Wire

  const HEADER_SIZE: nat := 9

  const MSG_RIDE_REQ: nat := 1
  const MSG_RIDE_RESP: nat := 2
  const MSG_HANDSHAKE: nat := 3
  const MSG_HANDSHAKE_ACK: nat := 4

  const OP_REQ_RIDE: nat := 0x0001
  const OP_DRIVER_JOIN: nat := 0x0002
  const OP_HANDSHAKE: nat := 0x0004
  const OP_RESPONSE: nat := 0x8000

  datatype Header = Header(length: nat, kind: nat, opcode: nat, checksum: nat)

  predicate FitsFields(h: Header) {
    h.length < 0x1_0000_0000 && h.kind < 0x100 && h.opcode < 0x1_0000 && h.checksum < 0x1_0000
  }

  // Packed, in the byte order of the machines at both ends: little-endian.
  function HeaderBytes(h: Header): (r: seq<byte>)
    ensures |r| == HEADER_SIZE
  {
    Encode(h.length, 4) + Encode(h.kind, 1) + Encode(h.opcode, 2) + Encode(h.checksum, 2)
  }

  function ParseHeader(data: seq<byte>): Header
    requires |data| == HEADER_SIZE
  {
    Header(Decode(data[0..4]), Decode(data[4..5]), Decode(data[5..7]), Decode(data[7..9]))
  }

  lemma PowersOf256()
    ensures Power256(1) == 0x100 && Power256(2) == 0x1_0000 && Power256(4) == 0x1_0000_0000
    ensures Power256(8) == 0x1_0000_0000_0000_0000
  {
    assert Power256(4) == 256 * (256 * (256 * (256 * Power256(0))));
    assert Power256(8) == 256 * (256 * (256 * (256 * Power256(4))));
  }

  // The nine bytes: length, type, opcode and checksum, low bytes first.
  lemma HeaderLayout(h: Header)
    requires FitsFields(h)
    ensures HeaderBytes(h) == [h.length % 256, h.length / 256 % 256, h.length / 65536 % 256, h.length / 16777216]
                              + [h.kind] + [h.opcode % 256, h.opcode / 256] + [h.checksum % 256, h.checksum / 256]
  {
    hide Encode;
    EncodedField(h.length, 4);
    EncodedField(h.kind, 1);
    EncodedField(h.opcode, 2);
    EncodedField(h.checksum, 2);
  }

  lemma EncodedField(v: nat, n: nat)
    requires n == 1 || n == 2 || n == 4
    ensures n == 1 ==> Encode(v, n) == [v % 256]
    ensures n == 2 ==> Encode(v, n) == [v % 256, v / 256 % 256]
    ensures n == 4 ==> Encode(v, n) == [v % 256, v / 256 % 256, v / 65536 % 256, v / 16777216 % 256]
  {
    assert v / 256 / 256 == v / 65536 && v / 65536 / 256 == v / 16777216;
    if n == 4 {
      assert Encode(v / 16777216, 1) == [v / 16777216 % 256];
      assert Encode(v / 65536, 2) == [v / 65536 % 256] + Encode(v / 16777216, 1);
      assert Encode(v / 256, 3) == [v / 256 % 256] + Encode(v / 65536, 2);
    }
  }

  // A header comes back from its bytes unchanged.
  lemma HeaderRoundTrip(h: Header)
    requires FitsFields(h)
    ensures ParseHeader(HeaderBytes(h)) == h
  {
    var data := HeaderBytes(h);
    PowersOf256();
    assert data[0..4] == Encode(h.length, 4);
    assert data[4..5] == Encode(h.kind, 1);
    assert data[5..7] == Encode(h.opcode, 2);
    assert data[7..9] == Encode(h.checksum, 2);
    DecodeEncode(h.length, 4);
    DecodeEncode(h.kind, 1);
    DecodeEncode(h.opcode, 2);
    DecodeEncode(h.checksum, 2);
  }

  datatype Message = Message(header: Header, body: seq<byte>)

  // What both ends send: the length field counts the body.
  predicate Sendable(m: Message) {
    FitsFields(m.header) && m.header.length == |m.body| <= MAX_BODY
  }

  function MessageBytes(m: Message): seq<byte> {
    HeaderBytes(m.header) + m.body
  }

  // ---------------------------------------------------------------------------
  // Taking a stream apart
  // ---------------------------------------------------------------------------

  // The receiver's two buffers. They are reused, and start out with whatever was there.
  datatype Buffers = Buffers(header: seq<byte>, body: seq<byte>)

  predicate Sized(b: Buffers) {
    |b.header| == HEADER_SIZE && |b.body| == MAX_BODY
  }

  function Overwrite(buf: seq<byte>, data: seq<byte>): (r: seq<byte>)
    requires |data| <= |buf|
    ensures |r| == |buf|
  {
    data + buf[|data|..]
  }

  datatype Framed = Closed | Got(bufs: Buffers, rest: seq<byte>)

  // One header and its body, read as the dispatcher reads them. A header cut short by
  // the end of the stream is not noticed: its missing bytes are the stale ones.
  function Frame(b: Buffers, input: seq<byte>): (f: Framed)
    requires Sized(b)
    ensures f.Got? ==> Sized(f.bufs) && |f.rest| < |input| && ParseHeader(f.bufs.header).length <= MAX_BODY
  {
    var n := Min(HEADER_SIZE, |input|);
    if n == 0 then Closed
    else
      var header := Overwrite(b.header, input[..n]);
      var length := ParseHeader(header).length;
      var rest := input[n..];
      if length > MAX_BODY || |rest| < length then Closed
      else Got(Buffers(header, Overwrite(b.body, rest[..length])), rest[length..])
  }

  // With the bytes of a whole frame there, it is taken exactly when its length field is at
  // most 1024, and then it is the first of them.
  lemma FrameAcceptsIff(b: Buffers, input: seq<byte>)
    requires Sized(b) && |input| >= 9
    ensures var h, f := ParseHeader(input[..9]), Frame(b, input);
            && (f.Got? <==> h.length <= 1024 && |input| >= 9 + h.length)
            && (f.Got? ==>
                  && f.bufs.header == input[..9] && f.bufs.body[..h.length] == input[9..9 + h.length]
                  && f.bufs.body[h.length..] == b.body[h.length..] && f.rest == input[9 + h.length..])
  {
    var h := ParseHeader(input[..9]);
    assert Overwrite(b.header, input[..9]) == input[..9];
    if h.length <= 1024 && |input| >= 9 + h.length {
      assert input[9..][..h.length] == input[9..9 + h.length];
    }
  }

  // What the end of the stream cuts off a header is made up by the bytes left from the last.
  lemma ShortHeaderIsCompleted(b: Buffers, input: seq<byte>)
    requires Sized(b) && 0 < |input| < 9
    ensures Frame(b, input) == Frame(b, input + b.header[|input|..])
  {
    var whole := input + b.header[|input|..];
    assert Overwrite(b.header, input[..|input|]) == whole == Overwrite(b.header, whole[..9]);
    assert input[|input|..] == [] == whole[9..];
  }

  // All the messages of a stream.
  function Frames(b: Buffers, input: seq<byte>): seq<Message>
    requires Sized(b)
    decreases |input|
  {
    match Frame(b, input)
    case Closed => []
    case Got(bufs, rest) =>
      var h := ParseHeader(bufs.header);
      [Message(h, bufs.body[..h.length])] + Frames(bufs, rest)
  }

  function StreamBytes(ms: seq<Message>): seq<byte> {
    if ms == [] then [] else MessageBytes(ms[0]) + StreamBytes(ms[1..])
  }

  lemma FrameOfMessage(b: Buffers, m: Message, rest: seq<byte>)
    requires Sized(b) && Sendable(m)
    ensures var f := Frame(b, MessageBytes(m) + rest);
            && f.Got? && f.rest == rest
            && f.bufs == Buffers(HeaderBytes(m.header), Overwrite(b.body, m.body))
            && ParseHeader(f.bufs.header) == m.header && f.bufs.body[..|m.body|] == m.body
  {
    var input := MessageBytes(m) + rest;
    HeaderRoundTrip(m.header);
    assert input[..HEADER_SIZE] == HeaderBytes(m.header);
    assert Overwrite(b.header, input[..HEADER_SIZE]) == HeaderBytes(m.header);
    assert input[HEADER_SIZE..] == m.body + rest;
    assert (m.body + rest)[..|m.body|] == m.body;
    assert (m.body + rest)[|m.body|..] == rest;
  }

  lemma FrameOfLastMessage(b: Buffers, m: Message)
    requires Sized(b) && Sendable(m)
    ensures Frame(b, MessageBytes(m)) == Got(Buffers(HeaderBytes(m.header), Overwrite(b.body, m.body)), [])
    ensures ParseHeader(HeaderBytes(m.header)) == m.header && Overwrite(b.body, m.body)[..|m.body|] == m.body
  {
    FrameOfMessage(b, m, []);
    assert MessageBytes(m) + [] == MessageBytes(m);
  }

  // Whatever the messages, and whatever was in the buffers: the stream of their bytes
  // comes apart into the same messages in the same order.
  lemma {:induction false} FramesComeBack(b: Buffers, ms: seq<Message>)
    requires Sized(b) && forall i :: 0 <= i < |ms| ==> Sendable(ms[i])
    ensures Frames(b, StreamBytes(ms)) == ms
    decreases |ms|
  {
    if ms != [] {
      FrameOfMessage(b, ms[0], StreamBytes(ms[1..]));
      FramesComeBack(Buffers(HeaderBytes(ms[0].header), Overwrite(b.body, ms[0].body)), ms[1..]);
    } else {
      assert StreamBytes(ms) == [];
    }
  }

  method SendMessage(p: Pipe, m: Message)
    modifies p
    ensures !p.failed ==> p.content == old(p.content) + MessageBytes(m) && !old(p.failed)
  {
    var r1 := SendN(p, HeaderBytes(m.header));
    var r2 := SendN(p, m.body);
    if r1 != -1 && r2 != -1 {
      assert old(p.content) + HeaderBytes(m.header) + m.body == old(p.content) + MessageBytes(m);
    }
  }
}
