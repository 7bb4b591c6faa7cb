// The session protocol on values: what the dispatcher does with the bytes of one
// connection (src/server/dispatcher.c, lines 41-55 and 79-206), what the client does
// (src/client/client_core.c, lines 55-173), and what the two achieve together.
module Session {
  import opened Bytes
  import opened Checksum
  import opened DhCrypto
  import opened Rc4
  import opened Wire
  import opened Protocol

  const PUBLIC_KEY_SIZE: nat := 8
  const COORDS_SIZE: nat := 16
  const REQUEST_SIZE: nat := 24
  const REPLY_BUFFER: nat := 256

  // generate_private_key draws from this range.
  type PrivateKey = k: int | 1 <= k <= 100000 witness 1

  // C's int on the client's side of the request.
  type ClientId = c: int | -0x8000_0000 <= c < 0x8000_0000

  // What the services behind the dispatcher answer: a refusal by the rate limiter, or a
  // reply text.
  datatype ServiceReply = Refused | Reply(text: seq<byte>)

  // A text the 256-byte reply buffer can hold as a C string.
  predicate CText(text: seq<byte>) {
    |text| < REPLY_BUFFER && 0 !in text
  }

  // ---------------------------------------------------------------------------
  // The messages
  // ---------------------------------------------------------------------------

  function PublicKeyBytes(key: PrivateKey): (r: seq<byte>)
    ensures |r| == PUBLIC_KEY_SIZE
  {
    PublicKeysFit(key);
    EncodeSigned(PublicKey(key), PUBLIC_KEY_SIZE)
  }

  lemma PublicKeysFit(key: int)
    ensures 0 <= 2 * PublicKey(key) + Power256(8) < 2 * Power256(8)
    ensures 0 <= PublicKey(key) + Power256(8)
  {
    KeysAreInt64(DH_GENERATOR as int, key);
    PowersOf256();
  }

  function Hello(key: PrivateKey): Message {
    Message(Header(PUBLIC_KEY_SIZE, MSG_HANDSHAKE, OP_HANDSHAKE, 0), PublicKeyBytes(key))
  }

  function HelloAck(key: PrivateKey): Message {
    Message(Header(PUBLIC_KEY_SIZE, MSG_HANDSHAKE_ACK, OP_HANDSHAKE, 0), PublicKeyBytes(key))
  }

  // Id, type (1 for a VIP) and two doubles, whose bytes `coords` gives.
  function RequestBody(client: ClientId, coords: seq<byte>): (r: seq<byte>)
    requires |coords| == COORDS_SIZE
    ensures |r| == REQUEST_SIZE
  {
    PowersOf256();
    EncodeSigned(client, 4) + Encode(if client <= 10 then 1 else 0, 4) + coords
  }

  function Request(client: ClientId, coords: seq<byte>, key: string): Message
    requires |coords| == COORDS_SIZE && UsableKey(key)
  {
    var body := RequestBody(client, coords);
    Message(Header(REQUEST_SIZE, MSG_RIDE_REQ, OP_REQ_RIDE, ChecksumOf(body)), Crypt(body, key))
  }

  function Response(text: seq<byte>, key: string): Message
    requires UsableKey(key)
  {
    Message(Header(|text|, MSG_RIDE_RESP, OP_RESPONSE, ChecksumOf(text)), Crypt(text, key))
  }

  function JoinResponse(): Message {
    Message(Header(0, MSG_RIDE_RESP, OP_RESPONSE, 0), [])
  }

  // What a request says: whose it is, whether that is a VIP, and from where.
  predicate IsRequestOf(body: seq<byte>, client: ClientId, coords: seq<byte>) {
    && |body| == 24 && DecodeSigned(body[..4]) == client
    && Decode(body[4..8]) == (if client <= 10 then 1 else 0) && body[8..] == coords
  }

  lemma RequestFields(client: ClientId, coords: seq<byte>)
    requires |coords| == COORDS_SIZE
    ensures IsRequestOf(RequestBody(client, coords), client, coords)
  {
    PowersOf256();
    SignedRoundTrip(client, 4);
    DecodeEncode(if client <= 10 then 1 else 0, 4);
    var body := RequestBody(client, coords);
    assert body[..4] == EncodeSigned(client, 4);
    assert body[4..8] == Encode(if client <= 10 then 1 else 0, 4);
  }

  // The bytes of each kind of message.
  lemma HandshakeLayout(key: PrivateKey)
    ensures MessageBytes(Hello(key)) == [8, 0, 0, 0] + [3] + [4, 0] + [0, 0] + PublicKeyBytes(key)
    ensures MessageBytes(HelloAck(key)) == [8, 0, 0, 0] + [4] + [4, 0] + [0, 0] + PublicKeyBytes(key)
    ensures DecodeSigned(PublicKeyBytes(key)) == PublicKey(key)
  {
    HeaderLayout(Hello(key).header);
    HeaderLayout(HelloAck(key).header);
    PublicKeyComesBack(key);
  }

  lemma RequestLayout(client: ClientId, coords: seq<byte>, key: string)
    requires |coords| == COORDS_SIZE && UsableKey(key)
    ensures var body := RequestBody(client, coords);
            MessageBytes(Request(client, coords, key))
            == [24, 0, 0, 0] + [1] + [1, 0] + [ChecksumOf(body) % 256, ChecksumOf(body) / 256] + Crypt(body, key)
  {
    HeaderLayout(Request(client, coords, key).header);
  }

  lemma ResponseLayout(text: seq<byte>, key: string)
    requires |text| <= MAX_BODY && UsableKey(key)
    ensures MessageBytes(Response(text, key))
         == [|text| % 256, |text| / 256, 0, 0] + [2] + [0, 128] + [ChecksumOf(text) % 256, ChecksumOf(text) / 256] + Crypt(text, key)
  {
    HeaderLayout(Response(text, key).header);
  }

  lemma JoinLayout()
    ensures MessageBytes(JoinResponse()) == [0, 0, 0, 0] + [2] + [0, 128] + [0, 0]
  {
    HeaderLayout(JoinResponse().header);
  }

  // ---------------------------------------------------------------------------
  // The dispatcher
  // ---------------------------------------------------------------------------

  datatype Event =
    | KeyAgreed(key: string)
    | NoHandshake
    | BadChecksum
    | RideRefused(client: int)
    | RideServed(client: int, body: seq<byte>)
    | DriverJoined(id: int)

  // The locals of handle_client that outlive one message.
  datatype Conn = Conn(bufs: Buffers, key: string, established: bool, handshakes: nat)

  predicate GoodConn(c: Conn) {
    && Sized(c.bufs) && ParseHeader(c.bufs.header).length <= MAX_BODY
    && (c.established ==> UsableKey(c.key))
  }

  predicate StartingConn(c: Conn) {
    Sized(c.bufs) && !c.established && c.handshakes == 0
  }

  // Effect of one message: bytes sent, events, and whether the loop goes on.
  datatype Turn = Turn(conn: Conn, out: seq<byte>, events: seq<Event>, go: bool)

  function OnHandshake(c: Conn, key: PrivateKey): (t: Turn)
    requires GoodConn(c)
    ensures GoodConn(t.conn) && t.go
  {
    var secret := SharedSecret(DecodeSigned(c.bufs.body[..PUBLIC_KEY_SIZE]), key);
    SessionKeyIsUsable(secret);
    Turn(c.(key := SessionKey(secret), established := true, handshakes := c.handshakes + 1),
         MessageBytes(HelloAck(key)), [KeyAgreed(SessionKey(secret))], true)
  }

  function OnRide(c: Conn, svc: int -> ServiceReply): (t: Turn)
    requires GoodConn(c) && c.established
    ensures !t.go
  {
    var client := DecodeSigned(c.bufs.body[..4]);
    match svc(client)
    case Refused => Turn(c, [], [RideRefused(client)], false)
    case Reply(text) =>
      var length := ParseHeader(c.bufs.header).length;
      Turn(c, MessageBytes(Response(text, c.key)), [RideServed(client, c.bufs.body[..length])], false)
  }

  function OnOther(c: Conn): (t: Turn)
    requires GoodConn(c)
    ensures GoodConn(t.conn)
  {
    if ParseHeader(c.bufs.header).opcode == OP_DRIVER_JOIN
    then Turn(c, MessageBytes(JoinResponse()), [DriverJoined(Decode(c.bufs.body[..4]))], false)
    else Turn(c, [], [], true)
  }

  // The buffers hold the message just received.
  function OnMessage(c: Conn, key: PrivateKey, svc: int -> ServiceReply): (t: Turn)
    requires GoodConn(c)
    ensures GoodConn(t.conn)
  {
    var h := ParseHeader(c.bufs.header);
    if h.kind == MSG_HANDSHAKE then OnHandshake(c, key)
    else if h.kind == MSG_RIDE_REQ then
      if !c.established then Turn(c, [], [NoHandshake], false)
      else
        var plain := Crypt(c.bufs.body[..h.length], c.key);
        var c' := c.(bufs := c.bufs.(body := Overwrite(c.bufs.body, plain)));
        if ChecksumOf(plain) != h.checksum then Turn(c', [], [BadChecksum], false)
        else if h.opcode == OP_REQ_RIDE then OnRide(c', svc)
        else OnOther(c')
    else OnOther(c)
  }

  datatype Served = Served(out: seq<byte>, events: seq<Event>)

  // Everything the dispatcher sends and does for a connection that delivers `input`.
  function Serve(c: Conn, input: seq<byte>, keys: nat -> PrivateKey, svc: int -> ServiceReply): Served
    requires Sized(c.bufs) && (c.established ==> UsableKey(c.key))
    decreases |input|
  {
    match Frame(c.bufs, input)
    case Closed => Served([], [])
    case Got(bufs, rest) =>
      var t := OnMessage(c.(bufs := bufs), keys(c.handshakes), svc);
      if !t.go then Served(t.out, t.events)
      else
        var more := Serve(t.conn, rest, keys, svc);
        Served(t.out + more.out, t.events + more.events)
  }

  // ---------------------------------------------------------------------------
  // The client
  // ---------------------------------------------------------------------------

  // The client's receive buffers, with what was in them before.
  datatype Stale = Stale(ackHeader: seq<byte>, ackBody: seq<byte>, header: seq<byte>, message: seq<byte>)

  predicate StaleSized(s: Stale) {
    && |s.ackHeader| == HEADER_SIZE && |s.ackBody| == PUBLIC_KEY_SIZE
    && |s.header| == HEADER_SIZE && |s.message| == MAX_BODY
  }

  // What the client sends, what it returns, and what it leaves in its caller's message
  // buffer, all of it.
  datatype ClientEnd = ClientEnd(sent: seq<byte>, code: int, message: seq<byte>)

  // The buffer with a C string written to its beginning.
  function LeftWith(buf: seq<byte>, text: seq<byte>): (r: seq<byte>)
    requires |text| < |buf|
    ensures |r| == |buf|
  {
    Overwrite(buf, text + [0])
  }

  function Ascii(text: string): seq<byte> {
    seq(|text|, i requires 0 <= i < |text| => text[i] as int % 256)
  }

  lemma WordsSought()
    ensures Ascii("Blocked.") == [66, 108, 111, 99, 107, 101, 100, 46]
    ensures Ascii("Ride Confirmed!") == [82, 105, 100, 101, 32] + [67, 111, 110, 102, 105, 114, 109, 101, 100, 33]
  {}

  function UpToNul(text: seq<byte>): seq<byte> {
    if text == [] || text[0] == 0 then [] else [text[0]] + UpToNul(text[1..])
  }

  // strstr
  predicate Contains(text: seq<byte>, part: seq<byte>) {
    (|part| <= |text| && text[..|part|] == part) || (text != [] && Contains(text[1..], part))
  }

  // How the client classifies a reply text.
  function CodeOf(text: seq<byte>): int {
    if Contains(text, Ascii("Ride Confirmed!")) then 0
    else if Contains(text, Ascii("Blocked.")) then -2
    else -1
  }

  // The body of a reply, as it is read, decrypted and checked.
  function ReadReplyBody(sent: seq<byte>, key: string, s: Stale, h: Header, input: seq<byte>): ClientEnd
    requires StaleSized(s) && UsableKey(key) && 0 < h.length < MAX_BODY
  {
    if input == [] then ClientEnd(sent, -1, s.message)
    else
      var got := Overwrite(s.message, input[..Min(h.length, |input|)]);
      var plain := Crypt(got[..h.length], key);
      var buffer := LeftWith(got, plain);
      if ChecksumOf(plain) != h.checksum then ClientEnd(sent, -1, LeftWith(buffer, Ascii("Checksum Mismatch")))
      else ClientEnd(sent, CodeOf(UpToNul(buffer)), buffer)
  }

  // The last part of a ride request: the reply.
  function ReadReply(sent: seq<byte>, key: string, s: Stale, input: seq<byte>): ClientEnd
    requires StaleSized(s) && UsableKey(key)
  {
    var n := Min(HEADER_SIZE, |input|);
    if n == 0 then ClientEnd(sent, -1, s.message)
    else
      var h := ParseHeader(Overwrite(s.header, input[..n]));
      if h.length == 0 || h.length >= MAX_BODY then ClientEnd(sent, -1, s.message)
      else ReadReplyBody(sent, key, s, h, input[n..])
  }

  function HandshakeFailed(key: PrivateKey, s: Stale): ClientEnd
    requires StaleSized(s)
  {
    ClientEnd(MessageBytes(Hello(key)), -1, LeftWith(s.message, Ascii("Handshake Failed")))
  }

  // A ride request from the body of the acknowledgement on.
  function AfterAckHeader(key: PrivateKey, client: ClientId, coords: seq<byte>, s: Stale, input: seq<byte>): ClientEnd
    requires StaleSized(s) && |coords| == COORDS_SIZE
  {
    var n := Min(PUBLIC_KEY_SIZE, |input|);
    if n == 0 then HandshakeFailed(key, s)
    else
      var secret := SharedSecret(DecodeSigned(Overwrite(s.ackBody, input[..n])), key);
      SessionKeyIsUsable(secret);
      ReadReply(MessageBytes(Hello(key)) + MessageBytes(Request(client, coords, SessionKey(secret))), SessionKey(secret), s, input[n..])
  }

  // A whole ride request by the client, over a connection that delivers `input`.
  function RequestRide(key: PrivateKey, client: ClientId, coords: seq<byte>, s: Stale, input: seq<byte>): ClientEnd
    requires StaleSized(s) && |coords| == COORDS_SIZE
  {
    var n := Min(HEADER_SIZE, |input|);
    if n == 0 || ParseHeader(Overwrite(s.ackHeader, input[..n])).kind != MSG_HANDSHAKE_ACK then HandshakeFailed(key, s)
    else AfterAckHeader(key, client, coords, s, input[n..])
  }

  // ---------------------------------------------------------------------------
  // End to end
  // ---------------------------------------------------------------------------

  lemma PublicKeyComesBack(key: PrivateKey)
    ensures DecodeSigned(PublicKeyBytes(key)) == PublicKey(key)
  {
    PublicKeysFit(key);
    SignedRoundTrip(PublicKey(key), PUBLIC_KEY_SIZE);
  }

  function AgreedKey(a: PrivateKey, b: PrivateKey): (key: string)
    ensures UsableKey(key)
  {
    SessionKeyIsUsable(PowerRem(DH_GENERATOR as int, a * b, DH_PRIME as int));
    SessionKey(PowerRem(DH_GENERATOR as int, a * b, DH_PRIME as int))
  }

  lemma BothSidesAgree(a: PrivateKey, b: PrivateKey)
    ensures SessionKey(SharedSecret(PublicKey(a), b)) == AgreedKey(a, b)
    ensures SessionKey(SharedSecret(PublicKey(b), a)) == AgreedKey(a, b)
  {
    SecretIsPowerOfProduct(a, b);
    SecretsAgree(a, b);
  }

  // The dispatcher's locals after a client's hello.
  function AfterHello(c: Conn, a: PrivateKey, b: PrivateKey): (c': Conn)
    requires Sized(c.bufs)
    ensures Sized(c'.bufs)
  {
    Conn(Buffers(HeaderBytes(Hello(a).header), Overwrite(c.bufs.body, PublicKeyBytes(a))), AgreedKey(a, b), true, c.handshakes + 1)
  }

  lemma HelloTurn(c: Conn, a: PrivateKey, b: PrivateKey, svc: int -> ServiceReply)
    requires Sized(c.bufs) && (c.established ==> UsableKey(c.key))
    ensures var c' := AfterHello(c, a, b);
            && ParseHeader(c'.bufs.header) == Hello(a).header
            && OnMessage(c.(bufs := c'.bufs), b, svc) == Turn(c', MessageBytes(HelloAck(b)), [KeyAgreed(AgreedKey(a, b))], true)
  {
    PowersOf256();
    HeaderRoundTrip(Hello(a).header);
    PublicKeyComesBack(a);
    BothSidesAgree(a, b);
    assert AfterHello(c, a, b).bufs.body[..PUBLIC_KEY_SIZE] == PublicKeyBytes(a);
  }

  // The dispatcher answers a client's hello with its own key, and from then on holds the
  // agreed key.
  lemma HelloEstablishesKey(c: Conn, a: PrivateKey, rest: seq<byte>, keys: nat -> PrivateKey, svc: int -> ServiceReply)
    requires Sized(c.bufs) && (c.established ==> UsableKey(c.key))
    ensures var b := keys(c.handshakes);
            && var more := Serve(AfterHello(c, a, b), rest, keys, svc);
               Serve(c, MessageBytes(Hello(a)) + rest, keys, svc)
               == Served(MessageBytes(HelloAck(b)) + more.out, [KeyAgreed(AgreedKey(a, b))] + more.events)
  {
    var b := keys(c.handshakes);
    BothSidesAgree(a, b);
    assert Frame(c.bufs, MessageBytes(Hello(a)) + rest) == Got(AfterHello(c, a, b).bufs, rest) by {
      PowersOf256();
      FrameOfMessage(c.bufs, Hello(a), rest);
    }
    HelloTurn(c, a, b, svc);
  }

  lemma RequestFitsFields(client: ClientId, coords: seq<byte>, key: string)
    requires |coords| == COORDS_SIZE && UsableKey(key)
    ensures Sendable(Request(client, coords, key))
  {}

  // With the key established, a client's request is decrypted to exactly its plaintext,
  // passes the checksum and reaches the ride service.
  lemma RequestReachesService(c: Conn, client: ClientId, coords: seq<byte>, own: PrivateKey, svc: int -> ServiceReply)
    requires Sized(c.bufs) && c.established && UsableKey(c.key) && |coords| == COORDS_SIZE
    ensures var m, plain := Request(client, coords, c.key), RequestBody(client, coords);
            var f, c' := Frame(c.bufs, MessageBytes(m)), c.(bufs := Buffers(HeaderBytes(m.header), Overwrite(c.bufs.body, plain)));
            && f.Got? && f.rest == [] && GoodConn(c') && ParseHeader(c'.bufs.header) == m.header
            && OnMessage(c.(bufs := f.bufs), own, svc) == OnRide(c', svc)
            && DecodeSigned(c'.bufs.body[..4]) == client && c'.bufs.body[..REQUEST_SIZE] == plain
  {
    var m, plain := Request(client, coords, c.key), RequestBody(client, coords);
    RequestFitsFields(client, coords, c.key);
    FrameOfLastMessage(c.bufs, m);
    var bufs := Frame(c.bufs, MessageBytes(m)).bufs;
    CryptIsInvolution(plain, c.key);
    hide Crypt, MessageBytes, Frame, ChecksumOf, RequestBody;
    assert Crypt(bufs.body[..REQUEST_SIZE], c.key) == plain;
    var body := Overwrite(c.bufs.body, plain);
    assert Overwrite(bufs.body, plain) == body;
    assert body[..4] == plain[..4] && body[..REQUEST_SIZE] == plain;
    RequestFields(client, coords);
  }

  // The service's reply goes back encrypted.
  lemma RequestIsServed(c: Conn, client: ClientId, coords: seq<byte>, text: seq<byte>, keys: nat -> PrivateKey, svc: int -> ServiceReply)
    requires Sized(c.bufs) && c.established && UsableKey(c.key) && |coords| == COORDS_SIZE
    requires svc(client) == Reply(text)
    ensures Serve(c, MessageBytes(Request(client, coords, c.key)), keys, svc)
         == Served(MessageBytes(Response(text, c.key)), [RideServed(client, RequestBody(client, coords))])
  {
    RequestReachesService(c, client, coords, keys(c.handshakes), svc);
    hide OnMessage, Frame, MessageBytes, Request, RequestBody;
  }

  // When the rate check refuses the client, the connection ends with that.
  lemma RequestIsRefused(c: Conn, client: ClientId, coords: seq<byte>, keys: nat -> PrivateKey, svc: int -> ServiceReply)
    requires Sized(c.bufs) && c.established && UsableKey(c.key) && |coords| == COORDS_SIZE
    requires svc(client) == Refused
    ensures Serve(c, MessageBytes(Request(client, coords, c.key)), keys, svc) == Served([], [RideRefused(client)])
  {
    RequestReachesService(c, client, coords, keys(c.handshakes), svc);
    hide OnMessage, Frame, MessageBytes, RequestBody;
  }

  // Without a key the request is not even decrypted, whatever follows it.
  lemma RequestWithoutHandshake(c: Conn, m: Message, rest: seq<byte>, keys: nat -> PrivateKey, svc: int -> ServiceReply)
    requires Sized(c.bufs) && !c.established && Sendable(m) && m.header.kind == 1
    ensures Serve(c, MessageBytes(m) + rest, keys, svc) == Served([], [NoHandshake])
  {
    FrameOfMessage(c.bufs, m, rest);
  }

  // A driver joins under the id in the first four bytes of the body, and its connection
  // ends with the empty response.
  lemma JoinIsTaken(c: Conn, m: Message, id: nat, rest: seq<byte>, keys: nat -> PrivateKey, svc: int -> ServiceReply)
    requires Sized(c.bufs) && (c.established ==> UsableKey(c.key)) && Sendable(m)
    requires m.header.kind != 1 && m.header.kind != 3 && m.header.opcode == 2
    requires id < 0x1_0000_0000 && |m.body| >= 4 && m.body[..4] == Encode(id, 4)
    ensures Serve(c, MessageBytes(m) + rest, keys, svc) == Served([0, 0, 0, 0] + [2] + [0, 128] + [0, 0], [DriverJoined(id)])
  {
    FrameOfMessage(c.bufs, m, rest);
    var bufs := Frame(c.bufs, MessageBytes(m) + rest).bufs;
    assert bufs.body[..4] == m.body[..4];
    PowersOf256();
    DecodeEncode(id, 4);
    JoinLayout();
  }

  // Any other message is passed over.
  lemma OthersArePassedOver(c: Conn, m: Message, rest: seq<byte>, keys: nat -> PrivateKey, svc: int -> ServiceReply)
    requires Sized(c.bufs) && (c.established ==> UsableKey(c.key)) && Sendable(m)
    requires m.header.kind != 1 && m.header.kind != 3 && m.header.opcode != 2
    ensures Serve(c, MessageBytes(m) + rest, keys, svc)
         == Serve(c.(bufs := Buffers(HeaderBytes(m.header), m.body + c.bufs.body[|m.body|..])), rest, keys, svc)
  {
    FrameOfMessage(c.bufs, m, rest);
    var t := Serve(c.(bufs := Frame(c.bufs, MessageBytes(m) + rest).bufs), rest, keys, svc);
    assert [] + t.out == t.out && [] + t.events == t.events;
  }

  // The C string in a buffer is what precedes its first NUL.
  lemma {:induction false} UpToNulIsPrefix(text: seq<byte>)
    ensures var r := UpToNul(text); r <= text && 0 !in r && (|r| < |text| ==> text[|r|] == 0)
  {
    if text != [] && text[0] != 0 {
      UpToNulIsPrefix(text[1..]);
    }
  }

  // One text contains another exactly when it has it as a slice.
  lemma {:induction false} ContainsIff(text: seq<byte>, part: seq<byte>)
    ensures Contains(text, part) <==> exists i :: 0 <= i <= |text| - |part| && text[i..][..|part|] == part
  {
    if text != [] {
      ContainsIff(text[1..], part);
    }
    if i :| 0 <= i <= |text| - |part| && text[i..][..|part|] == part {
      if i == 0 {
        assert text[0..] == text;
      } else {
        assert text[1..][i - 1..] == text[i..];
      }
    }
    if Contains(text, part) {
      if |part| <= |text| && text[..|part|] == part {
        assert text[0..] == text;
      } else {
        var i :| 0 <= i <= |text| - 1 - |part| && text[1..][i..][..|part|] == part;
        assert text[1..][i..] == text[i + 1..];
      }
    }
  }

  lemma {:induction false} StringComesBack(text: seq<byte>, rest: seq<byte>)
    requires 0 !in text
    ensures UpToNul(text + [0] + rest) == text
  {
    if text != [] {
      StringComesBack(text[1..], rest);
      assert (text + [0] + rest)[1..] == text[1..] + [0] + rest;
    }
  }

  // The client gets the exact text back, as the C string in its buffer.
  lemma ReplyIsRead(sent: seq<byte>, key: string, s: Stale, text: seq<byte>)
    requires StaleSized(s) && UsableKey(key) && CText(text) && text != []
    ensures ReadReply(sent, key, s, MessageBytes(Response(text, key))) == ClientEnd(sent, CodeOf(text), LeftWith(s.message, text))
    ensures UpToNul(LeftWith(s.message, text)) == text
  {
    CryptIsInvolution(text, key);
    ReadOfAltered(sent, key, s, text, Crypt(text, key));
    StringComesBack(text, []);
    StringIsUpToNul(text, []);
    StringLeft(s.message, text);
  }

  lemma AckIsRead(s: Stale, b: PrivateKey, rest: seq<byte>)
    requires StaleSized(s)
    ensures var input := MessageBytes(HelloAck(b)) + rest;
            && |input| >= HEADER_SIZE + PUBLIC_KEY_SIZE
            && ParseHeader(Overwrite(s.ackHeader, input[..HEADER_SIZE])).kind == MSG_HANDSHAKE_ACK
            && Overwrite(s.ackBody, input[HEADER_SIZE..][..PUBLIC_KEY_SIZE]) == PublicKeyBytes(b)
            && input[HEADER_SIZE..][PUBLIC_KEY_SIZE..] == rest
  {
    var m := HelloAck(b);
    var input := MessageBytes(m) + rest;
    HeaderRoundTrip(m.header);
    assert input[..HEADER_SIZE] == HeaderBytes(m.header);
    assert Overwrite(s.ackHeader, input[..HEADER_SIZE]) == HeaderBytes(m.header);
    assert input[HEADER_SIZE..] == m.body + rest;
  }

  // Once the client has read the dispatcher's key it sends its request under the agreed
  // key, and then reads the reply under it.
  lemma ClientProceeds(a: PrivateKey, b: PrivateKey, client: ClientId, coords: seq<byte>, s: Stale, rest: seq<byte>)
    requires StaleSized(s) && |coords| == COORDS_SIZE
    ensures RequestRide(a, client, coords, s, MessageBytes(HelloAck(b)) + rest)
         == ReadReply(MessageBytes(Hello(a)) + MessageBytes(Request(client, coords, AgreedKey(a, b))), AgreedKey(a, b), s, rest)
  {
    AckIsRead(s, b, rest);
    PublicKeyComesBack(b);
    BothSidesAgree(a, b);
  }

  lemma DispatcherServesSession(a: PrivateKey, client: ClientId, coords: seq<byte>, c: Conn, text: seq<byte>,
                                keys: nat -> PrivateKey, svc: int -> ServiceReply)
    requires |coords| == COORDS_SIZE && StartingConn(c) && svc(client) == Reply(text)
    ensures var key := AgreedKey(a, keys(0));
            && Serve(c, MessageBytes(Hello(a)) + MessageBytes(Request(client, coords, key)), keys, svc)
               == Served(MessageBytes(HelloAck(keys(0))) + MessageBytes(Response(text, key)),
                         [KeyAgreed(key), RideServed(client, RequestBody(client, coords))])
  {
    var key := AgreedKey(a, keys(0));
    BothSidesAgree(a, keys(0));
    HelloEstablishesKey(c, a, MessageBytes(Request(client, coords, key)), keys, svc);
    RequestIsServed(AfterHello(c, a, keys(0)), client, coords, text, keys, svc);
  }

  lemma ClientGetsReply(a: PrivateKey, b: PrivateKey, client: ClientId, coords: seq<byte>, s: Stale, text: seq<byte>)
    requires StaleSized(s) && |coords| == COORDS_SIZE && CText(text) && text != []
    ensures var key := AgreedKey(a, b);
            && RequestRide(a, client, coords, s, MessageBytes(HelloAck(b)) + MessageBytes(Response(text, key)))
               == ClientEnd(MessageBytes(Hello(a)) + MessageBytes(Request(client, coords, key)), CodeOf(text), LeftWith(s.message, text))
            && UpToNul(LeftWith(s.message, text)) == text
  {
    var key := AgreedKey(a, b);
    BothSidesAgree(a, b);
    ClientProceeds(a, b, client, coords, s, MessageBytes(Response(text, key)));
    ReplyIsRead(MessageBytes(Hello(a)) + MessageBytes(Request(client, coords, key)), key, s, text);
  }

  // A ride request fails with the handshake when the dispatcher's key does not come, or
  // something else comes in its place.
  lemma ClientGivesUp(key: PrivateKey, client: ClientId, coords: seq<byte>, s: Stale, input: seq<byte>)
    requires StaleSized(s) && |coords| == COORDS_SIZE
    requires input == [] || |input| == 9 || (|input| > 9 && input[4] != 4)
    ensures var end := RequestRide(key, client, coords, s, input);
            && end.sent == MessageBytes(Hello(key)) && end.code == -1
            && UpToNul(end.message) == Ascii("Handshake Failed")
  {
    FailedHandshake(key, s);
    hide HandshakeFailed, UpToNul, Ascii, ParseHeader, Overwrite;
    if |input| >= 9 {
      HeaderIsRead(s.ackHeader, input);
      assert |input| == 9 ==> input[9..] == [];
    }
  }

  lemma HeaderIsRead(stale: seq<byte>, input: seq<byte>)
    requires |stale| == 9 <= |input|
    ensures var h := ParseHeader(Overwrite(stale, input[..9]));
            h.length == Decode(input[..4]) && h.kind == input[4]
  {
    var header := Overwrite(stale, input[..9]);
    assert header == input[..9] && header[0..4] == input[..4] && header[4..5] == [input[4]];
    assert Decode([input[4]]) == input[4] + 256 * Decode([]);
  }

  lemma FailedHandshake(key: PrivateKey, s: Stale)
    requires StaleSized(s)
    ensures var end := HandshakeFailed(key, s);
            && end.sent == MessageBytes(Hello(key)) && end.code == -1
            && UpToNul(end.message) == Ascii("Handshake Failed")
  {
    FailedIsString();
    StringLeft(s.message, Ascii("Handshake Failed"));
  }

  lemma FailedIsString()
    ensures UpToNul(Ascii("Handshake Failed")) == Ascii("Handshake Failed") && |Ascii("Handshake Failed")| < MAX_BODY
  {
    var text := Ascii("Handshake Failed");
    assert forall i :: 0 <= i < |"Handshake Failed"| ==> 0 < "Handshake Failed"[i] as int < 128;
    StringComesBack(text, []);
    StringIsUpToNul(text, []);
  }

  // And it fails without a message when no reply comes, or its length field says that it is
  // empty or too long.
  lemma NoReply(sent: seq<byte>, key: string, s: Stale, input: seq<byte>)
    requires StaleSized(s) && UsableKey(key)
    requires input == [] || |input| == 9 || (|input| > 9 && !(0 < Decode(input[..4]) < 1024))
    ensures ReadReply(sent, key, s, input) == ClientEnd(sent, -1, s.message)
  {
    hide ParseHeader, Overwrite;
    if |input| >= 9 {
      HeaderIsRead(s.header, input);
    }
  }

  // The client does not notice what the end of the stream cuts off a header or a body: the
  // bytes its buffers held stand in for it. First the acknowledgement, then the reply.
  lemma ShortAckIsCompleted(key: PrivateKey, client: ClientId, coords: seq<byte>, s: Stale, input: seq<byte>)
    requires StaleSized(s) && |coords| == COORDS_SIZE && input != []
    requires |input| < 9 || 9 < |input| < 17
    ensures RequestRide(key, client, coords, s, input)
         == RequestRide(key, client, coords, s, input + if |input| < 9 then s.ackHeader[|input|..] else s.ackBody[|input| - 9..])
  {
    hide AfterAckHeader, HandshakeFailed, ParseHeader;
    if |input| < 9 {
      var whole := input + s.ackHeader[|input|..];
      assert Overwrite(s.ackHeader, input[..|input|]) == whole == Overwrite(s.ackHeader, whole[..9]);
      assert input[|input|..] == [] == whole[9..];
    } else {
      var rest := s.ackBody[|input| - 9..];
      assert (input + rest)[..9] == input[..9] && (input + rest)[9..] == input[9..] + rest;
      ShortAckBodyIsCompleted(key, client, coords, s, input[9..]);
    }
  }

  lemma ShortAckBodyIsCompleted(key: PrivateKey, client: ClientId, coords: seq<byte>, s: Stale, input: seq<byte>)
    requires StaleSized(s) && |coords| == COORDS_SIZE && 0 < |input| < 8
    ensures AfterAckHeader(key, client, coords, s, input) == AfterAckHeader(key, client, coords, s, input + s.ackBody[|input|..])
  {
    hide ReadReply, SharedSecret, SessionKey, MessageBytes;
    var whole := input + s.ackBody[|input|..];
    assert Overwrite(s.ackBody, input[..|input|]) == whole == Overwrite(s.ackBody, whole[..8]);
    assert input[|input|..] == [] == whole[8..];
  }

  lemma ShortReplyIsCompleted(sent: seq<byte>, key: string, s: Stale, input: seq<byte>)
    requires StaleSized(s) && UsableKey(key) && input != []
    requires |input| < 9 || 9 < |input| < 9 + Decode(input[..4]) < 9 + MAX_BODY
    ensures ReadReply(sent, key, s, input)
         == ReadReply(sent, key, s, input + if |input| < 9 then s.header[|input|..] else s.message[|input| - 9..Decode(input[..4])])
  {
    hide ReadReplyBody, ParseHeader;
    if |input| < 9 {
      var whole := input + s.header[|input|..];
      assert Overwrite(s.header, input[..|input|]) == whole == Overwrite(s.header, whole[..9]);
      assert input[|input|..] == [] == whole[9..];
    } else {
      HeaderIsRead(s.header, input);
      var h := ParseHeader(Overwrite(s.header, input[..9]));
      var rest := s.message[|input| - 9..h.length];
      assert (input + rest)[..9] == input[..9] && (input + rest)[9..] == input[9..] + rest;
      ShortReplyBodyIsCompleted(sent, key, s, h, input[9..]);
    }
  }

  lemma ShortReplyBodyIsCompleted(sent: seq<byte>, key: string, s: Stale, h: Header, input: seq<byte>)
    requires StaleSized(s) && UsableKey(key) && 0 < |input| < h.length < MAX_BODY
    ensures ReadReplyBody(sent, key, s, h, input) == ReadReplyBody(sent, key, s, h, input + s.message[|input|..h.length])
  {
    hide Crypt, ChecksumOf, CodeOf, LeftWith, UpToNul;
    var whole := input + s.message[|input|..h.length];
    assert Overwrite(s.message, input[..|input|]) == Overwrite(s.message, whole[..h.length]);
  }

  // All that the client and the dispatcher send in a session with private keys a and b.
  function UpStream(a: PrivateKey, b: PrivateKey, client: ClientId, coords: seq<byte>): seq<byte>
    requires |coords| == COORDS_SIZE
  {
    MessageBytes(Hello(a)) + MessageBytes(Request(client, coords, AgreedKey(a, b)))
  }

  function DownStream(a: PrivateKey, b: PrivateKey, text: seq<byte>): seq<byte> {
    MessageBytes(HelloAck(b)) + MessageBytes(Response(text, AgreedKey(a, b)))
  }

  // The whole session, for all private keys, client ids, coordinates, replies that are
  // not refusals, and stale buffers at both ends. The two byte streams are what each end
  // sends given what the other end sent: both ends hold the same key, the dispatcher
  // serves the client's own plaintext, and the client ends with the exact reply text.
  lemma SessionEndToEnd(a: PrivateKey, client: ClientId, coords: seq<byte>, s: Stale, c: Conn, text: seq<byte>,
                        keys: nat -> PrivateKey, svc: int -> ServiceReply)
    requires StaleSized(s) && |coords| == COORDS_SIZE && StartingConn(c)
    requires svc(client) == Reply(text) && CText(text) && text != []
    ensures var up, down := UpStream(a, keys(0), client, coords), DownStream(a, keys(0), text);
            && RequestRide(a, client, coords, s, down) == ClientEnd(up, CodeOf(text), LeftWith(s.message, text))
            && UpToNul(LeftWith(s.message, text)) == text
            && Serve(c, up, keys, svc)
               == Served(down, [KeyAgreed(AgreedKey(a, keys(0))), RideServed(client, RequestBody(client, coords))])
            && IsRequestOf(RequestBody(client, coords), client, coords)
  {
    RequestFields(client, coords);
    DispatcherServesSession(a, client, coords, c, text, keys, svc);
    ClientGetsReply(a, keys(0), client, coords, s, text);
  }

  // The order is possible: the dispatcher sends its key on the hello alone, and the client
  // sends its request on that key alone.
  lemma SessionIsCausal(a: PrivateKey, client: ClientId, coords: seq<byte>, s: Stale, c: Conn,
                        keys: nat -> PrivateKey, svc: int -> ServiceReply)
    requires StaleSized(s) && |coords| == COORDS_SIZE && StartingConn(c)
    ensures var b := keys(0);
            && RequestRide(a, client, coords, s, []).sent == MessageBytes(Hello(a))
            && Serve(c, MessageBytes(Hello(a)), keys, svc).out == MessageBytes(HelloAck(b))
            && RequestRide(a, client, coords, s, MessageBytes(HelloAck(b))).sent
               == MessageBytes(Hello(a)) + MessageBytes(Request(client, coords, AgreedKey(a, b)))
  {
    var b := keys(0);
    HelloEstablishesKey(c, a, [], keys, svc);
    assert MessageBytes(Hello(a)) + [] == MessageBytes(Hello(a));
    ClientProceeds(a, b, client, coords, s, []);
    assert MessageBytes(HelloAck(b)) + [] == MessageBytes(HelloAck(b));
  }

  // ---------------------------------------------------------------------------
  // For any input at all
  // ---------------------------------------------------------------------------

  predicate IsBusiness(e: Event) {
    e.RideServed? || e.RideRefused? || e.BadChecksum?
  }

  // A connection is a number of handshakes followed by at most one other event, and what
  // a ride request can lead to needs a handshake first.
  predicate Orderly(events: seq<Event>, established: bool) {
    && (forall i :: 0 <= i < |events| - 1 ==> events[i].KeyAgreed?)
    && (events != [] && IsBusiness(events[|events| - 1]) ==> established || |events| > 1)
  }

  lemma TurnIsOrderly(c: Conn, key: PrivateKey, svc: int -> ServiceReply)
    requires GoodConn(c)
    ensures var t := OnMessage(c, key, svc);
            && (t.go ==>
                  || (t.events == [] && t.conn.established == c.established)
                  || (|t.events| == 1 && t.events[0].KeyAgreed? && t.conn.established))
            && (!t.go ==> |t.events| == 1 && (IsBusiness(t.events[0]) ==> c.established))
  {}

  lemma OrderlyAfter(first: seq<Event>, more: seq<Event>, before: bool, after: bool)
    requires Orderly(more, after)
    requires (first == [] && after == before) || (|first| == 1 && first[0].KeyAgreed? && after)
    ensures Orderly(first + more, before)
  {
    if first == [] {
      assert first + more == more;
    }
  }

  lemma {:induction false} ConnectionsAreOrderly(c: Conn, input: seq<byte>, keys: nat -> PrivateKey, svc: int -> ServiceReply)
    requires Sized(c.bufs) && (c.established ==> UsableKey(c.key))
    ensures Orderly(Serve(c, input, keys, svc).events, c.established)
    decreases |input|
  {
    match Frame(c.bufs, input)
    case Closed =>
    case Got(bufs, rest) =>
      var c' := c.(bufs := bufs);
      var t := OnMessage(c', keys(c.handshakes), svc);
      TurnIsOrderly(c', keys(c.handshakes), svc);
      if t.go {
        ConnectionsAreOrderly(t.conn, rest, keys, svc);
        OrderlyAfter(t.events, Serve(t.conn, rest, keys, svc).events, c.established, t.conn.established);
      }
  }

  lemma CryptOfUpdate(data: seq<byte>, i: nat, v: byte, key: string)
    requires UsableKey(key) && i < |data|
    ensures Crypt(data[i := v], key) == Crypt(data, key)[i := Xor(v, KeyByte(key, i))]
  {}

  // What the dispatcher makes of a request whose body was altered on the way: it is
  // refused exactly when the byte sum of what it decrypts to can be told from the sum of
  // the plaintext, so a single altered byte is always refused.
  lemma AlteredRequest(c: Conn, client: ClientId, coords: seq<byte>, body: seq<byte>, keys: nat -> PrivateKey, svc: int -> ServiceReply)
    requires Sized(c.bufs) && c.established && UsableKey(c.key) && |coords| == COORDS_SIZE && |body| == REQUEST_SIZE
    ensures var m := Request(client, coords, c.key);
            Serve(c, MessageBytes(Message(m.header, body)), keys, svc).events == [BadChecksum]
            <==> !Indistinct(ByteSum(Crypt(body, c.key)), ByteSum(RequestBody(client, coords)))
  {
    var m := Message(Request(client, coords, c.key).header, body);
    var plain := RequestBody(client, coords);
    FrameOfLastMessage(c.bufs, m);
    var bufs := Frame(c.bufs, MessageBytes(m)).bufs;
    assert bufs.body[..REQUEST_SIZE] == body;
    ChecksumsAgreeIff(Crypt(body, c.key), plain);
  }

  lemma AlteredByteIsRefused(c: Conn, client: ClientId, coords: seq<byte>, i: nat, v: byte, keys: nat -> PrivateKey, svc: int -> ServiceReply)
    requires Sized(c.bufs) && c.established && UsableKey(c.key) && |coords| == COORDS_SIZE && i < REQUEST_SIZE
    requires v != Request(client, coords, c.key).body[i]
    ensures var m := Request(client, coords, c.key);
            Serve(c, MessageBytes(Message(m.header, m.body[i := v])), keys, svc).events == [BadChecksum]
  {
    var m, plain := Request(client, coords, c.key), RequestBody(client, coords);
    var k := KeyByte(c.key, i);
    CryptOfUpdate(m.body, i, v, c.key);
    CryptIsInvolution(plain, c.key);
    XorTwice(v, k);
    XorTwice(m.body[i], k);
    SingleByteChangeIsSeen(plain, i, Xor(v, k));
    ChecksumsAgreeIff(plain[i := Xor(v, k)], plain);
    AlteredRequest(c, client, coords, m.body[i := v], keys, svc);
  }

  lemma {:induction false} StringIsUpToNul(text: seq<byte>, rest: seq<byte>)
    ensures UpToNul(text + [0] + rest) == UpToNul(text)
  {
    if text != [] && text[0] != 0 {
      StringIsUpToNul(text[1..], rest);
      assert (text + [0] + rest)[1..] == text[1..] + [0] + rest;
    }
  }

  lemma StringLeft(buf: seq<byte>, text: seq<byte>)
    requires |text| < |buf|
    ensures UpToNul(LeftWith(buf, text)) == UpToNul(text)
  {
    StringIsUpToNul(text, buf[|text| + 1..]);
  }

  // The client's end when it is handed a reply of the right length under the header of
  // the true one.
  lemma ReadOfAltered(sent: seq<byte>, key: string, s: Stale, text: seq<byte>, body: seq<byte>)
    requires StaleSized(s) && UsableKey(key) && CText(text) && |body| == |text| > 0
    ensures var plain := Crypt(body, key);
            ReadReply(sent, key, s, MessageBytes(Message(Response(text, key).header, body)))
            == if ChecksumOf(plain) != ChecksumOf(text)
               then ClientEnd(sent, -1, LeftWith(LeftWith(s.message, plain), Ascii("Checksum Mismatch")))
               else ClientEnd(sent, CodeOf(UpToNul(plain)), LeftWith(s.message, plain))
  {
    var m, plain := Message(Response(text, key).header, body), Crypt(body, key);
    var input := MessageBytes(m);
    HeaderRoundTrip(m.header);
    assert input[..HEADER_SIZE] == HeaderBytes(m.header);
    assert Overwrite(s.header, input[..HEADER_SIZE]) == HeaderBytes(m.header);
    assert input[HEADER_SIZE..] == body && body[..|text|] == body;
    assert Overwrite(s.message, body)[..|text|] == body;
    assert LeftWith(Overwrite(s.message, body), plain) == LeftWith(s.message, plain);
    StringLeft(s.message, plain);
  }

  // What the client makes of a reply whose body was altered on the way: it returns -1 and
  // leaves the mismatch message exactly when the byte sum of what it decrypts to can be
  // told from that of the text; otherwise it takes what it decrypts for the reply. So
  // the message in its buffer says mismatch exactly then, unless that is the very string
  // the altered reply decrypts to.
  lemma AlteredReply(sent: seq<byte>, key: string, s: Stale, text: seq<byte>, body: seq<byte>)
    requires StaleSized(s) && UsableKey(key) && CText(text) && |body| == |text| > 0
    ensures var end, plain := ReadReply(sent, key, s, MessageBytes(Message(Response(text, key).header, body))), Crypt(body, key);
            var told := !Indistinct(ByteSum(plain), ByteSum(text));
            && (told ==> end == ClientEnd(sent, -1, LeftWith(LeftWith(s.message, plain), Ascii("Checksum Mismatch"))))
            && (!told ==> end == ClientEnd(sent, CodeOf(UpToNul(plain)), LeftWith(s.message, plain)))
            && (UpToNul(end.message) == Ascii("Checksum Mismatch") <==> told || UpToNul(plain) == Ascii("Checksum Mismatch"))
  {
    var plain := Crypt(body, key);
    ReadOfAltered(sent, key, s, text, body);
    ChecksumsAgreeIff(plain, text);
    StringLeft(s.message, plain);
    MismatchIsString();
    StringLeft(LeftWith(s.message, plain), Ascii("Checksum Mismatch"));
  }

  lemma MismatchIsString()
    ensures UpToNul(Ascii("Checksum Mismatch")) == Ascii("Checksum Mismatch") && |Ascii("Checksum Mismatch")| < MAX_BODY
  {
    var text := Ascii("Checksum Mismatch");
    assert forall i :: 0 <= i < |"Checksum Mismatch"| ==> 0 < "Checksum Mismatch"[i] as int < 128;
    StringComesBack(text, []);
    StringIsUpToNul(text, []);
  }

  lemma AlteredReplyByteIsRefused(sent: seq<byte>, key: string, s: Stale, text: seq<byte>, i: nat, v: byte)
    requires StaleSized(s) && UsableKey(key) && CText(text) && i < |text| && v != Response(text, key).body[i]
    ensures var m := Response(text, key);
            var end := ReadReply(sent, key, s, MessageBytes(Message(m.header, m.body[i := v])));
            end.code == -1 && UpToNul(end.message) == Ascii("Checksum Mismatch")
  {
    var m, k := Response(text, key), KeyByte(key, i);
    CryptOfUpdate(m.body, i, v, key);
    CryptIsInvolution(text, key);
    XorTwice(v, k);
    XorTwice(m.body[i], k);
    SingleByteChangeIsSeen(text, i, Xor(v, k));
    ChecksumsAgreeIff(text[i := Xor(v, k)], text);
    AlteredReply(sent, key, s, text, m.body[i := v]);
  }
}
