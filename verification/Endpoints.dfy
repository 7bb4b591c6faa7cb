// Both ends of the session in place: handle_client and the functions it calls
// (src/server/dispatcher.c, lines 41-55 and 79-206), and the client's handshake and ride
// request (src/client/client_core.c, lines 55-173). Whatever the pieces in which the
// kernel moves the bytes, they do what module Session says, unless a call fails for good.
module Endpoints {
  import opened Bytes
  import opened Checksum
  import opened DhCrypto
  import opened Rc4
  import opened Wire
  import opened Protocol
  import opened Session

  // What went out through p since its content was `before`, provided nothing failed.
  ghost predicate Sent(p: Pipe, before: seq<byte>, out: seq<byte>)
    reads p
  {
    !p.failed ==> p.content == before + out
  }

  lemma SignedFits(data: seq<byte>)
    requires |data| == 8
    ensures -0x8000_0000_0000_0000 <= DecodeSigned(data) < 0x8000_0000_0000_0000
  {
    EncodeDecode(data);
    PowersOf256();
  }

  // ---------------------------------------------------------------------------
  // The dispatcher
  // ---------------------------------------------------------------------------

  // Checksums, encrypts in place and sends.
  method SendResponsePacket(p: Pipe, msg: array<byte>, len: nat, key: string)
    requires UsableKey(key) && len <= msg.Length && len < REPLY_BUFFER
    modifies p, msg
    ensures Sent(p, old(p.content), MessageBytes(Response(old(msg[..len]), key)))
    ensures old(p.failed) ==> p.failed
  {
    var checksum := CalculateChecksum(msg, len);
    Rc4Crypt(msg, len, key);
    SendMessage(p, Message(Header(len, MSG_RIDE_RESP, OP_RESPONSE, checksum), msg[..len]));
  }

  method Handshake(p: Pipe, body: array<byte>, sessionKey: array<char>, key: PrivateKey)
    requires body.Length == MAX_BODY && sessionKey.Length == KEY_BUFFER
    modifies p, sessionKey
    ensures CString(sessionKey[..]) == SessionKey(SharedSecret(DecodeSigned(body[..PUBLIC_KEY_SIZE]), key))
    ensures Sent(p, old(p.content), MessageBytes(HelloAck(key)))
    ensures old(p.failed) ==> p.failed
  {
    var public := CalculatePublicKey(key as int64);
    SignedFits(body[..PUBLIC_KEY_SIZE]);
    var shared := CalculateSharedSecret(DecodeSigned(body[..PUBLIC_KEY_SIZE]) as int64, key as int64);
    DeriveSessionKey(shared, sessionKey);
    PublicKeysFit(key);
    SendMessage(p, Message(Header(PUBLIC_KEY_SIZE, MSG_HANDSHAKE_ACK, OP_HANDSHAKE, 0), EncodeSigned(public as int, PUBLIC_KEY_SIZE)));
  }

  // The rate limit and the ride service, then the reply.
  method ProcessRideRequest(p: Pipe, body: array<byte>, key: string, svc: int -> ServiceReply, length: nat, ghost c: Conn)
    returns (event: Event)
    requires body.Length == MAX_BODY && GoodConn(c) && c.established && c.key == key && c.bufs.body == body[..]
    requires length == ParseHeader(c.bufs.header).length
    requires forall id :: svc(id).Reply? ==> CText(svc(id).text)
    modifies p
    ensures [event] == OnRide(c, svc).events
    ensures Sent(p, old(p.content), OnRide(c, svc).out)
    ensures old(p.failed) ==> p.failed
  {
    var client := DecodeSigned(body[..4]);
    match svc(client)
    case Refused =>
      event := RideRefused(client);
    case Reply(text) =>
      event := RideServed(client, body[..length]);
      var msg := new byte[|text|](i requires 0 <= i < |text| => text[i]);
      assert msg[..|text|] == text;
      SendResponsePacket(p, msg, |text|, key);
  }

  method ProcessOther(p: Pipe, h: Header, body: array<byte>, ghost c: Conn) returns (go: bool, events: seq<Event>)
    requires body.Length == MAX_BODY && GoodConn(c) && c.bufs.body == body[..] && h == ParseHeader(c.bufs.header)
    modifies p
    ensures go == OnOther(c).go && events == OnOther(c).events
    ensures Sent(p, old(p.content), OnOther(c).out)
    ensures old(p.failed) ==> p.failed
  {
    if h.opcode == OP_DRIVER_JOIN {
      go, events := false, [DriverJoined(Decode(body[..4]))];
      SendMessage(p, JoinResponse());
    } else {
      go, events := true, [];
    }
  }

  // The dispatcher's locals are those of c.
  ghost predicate Holds(header: array<byte>, body: array<byte>, sessionKey: array<char>, established: bool, c: Conn)
    reads header, body, sessionKey
  {
    && header.Length == HEADER_SIZE && body.Length == MAX_BODY && sessionKey.Length == KEY_BUFFER
    && c.bufs == Buffers(header[..], body[..]) && c.established == established
    && (established ==> UsableKey(c.key) && CString(sessionKey[..]) == c.key)
  }

  method HandleMessage(p: Pipe, header: array<byte>, body: array<byte>, sessionKey: array<char>, wasEstablished: bool,
                       key: PrivateKey, svc: int -> ServiceReply, ghost c: Conn)
    returns (go: bool, established: bool, events: seq<Event>)
    requires header != body && GoodConn(c) && Holds(header, body, sessionKey, wasEstablished, c)
    requires forall id :: svc(id).Reply? ==> CText(svc(id).text)
    modifies p, body, sessionKey
    ensures var t := OnMessage(c, key, svc);
            && go == t.go && events == t.events
            && (go ==> Holds(header, body, sessionKey, established, t.conn))
            && Sent(p, old(p.content), t.out)
    ensures old(p.failed) ==> p.failed
  {
    established, events := wasEstablished, [];
    var h := ParseHeader(header[..]);
    if h.kind == MSG_HANDSHAKE {
      Handshake(p, body, sessionKey, key);
      SessionKeyIsUsable(SharedSecret(DecodeSigned(body[..PUBLIC_KEY_SIZE]), key));
      return true, true, [KeyAgreed(CString(sessionKey[..]))];
    }
    if h.kind == MSG_RIDE_REQ {
      if !established {
        return false, established, [NoHandshake];
      }
      ghost var plain := Crypt(body[..h.length], c.key);
      ghost var c' := c.(bufs := c.bufs.(body := Overwrite(c.bufs.body, plain)));
      Rc4Crypt(body, h.length, CString(sessionKey[..]));
      assert body[..] == body[..h.length] + body[h.length..];
      assert Holds(header, body, sessionKey, established, c');
      var checksum := CalculateChecksum(body, h.length);
      if checksum != h.checksum {
        return false, established, [BadChecksum];
      }
      if h.opcode == OP_REQ_RIDE {
        var event := ProcessRideRequest(p, body, CString(sessionKey[..]), svc, h.length, c');
        return false, established, [event];
      }
      go, events := ProcessOther(p, h, body, c');
      return;
    }
    go, events := ProcessOther(p, h, body, c);
  }

  // Reads one header and body into the two buffers.
  method ReceiveMessage(p: Pipe, header: array<byte>, body: array<byte>) returns (ok: bool)
    requires header != body && header.Length == HEADER_SIZE && body.Length == MAX_BODY
    modifies p, header, body
    ensures var f := Frame(Buffers(old(header[..]), old(body[..])), old(p.content));
            !p.failed ==> (ok <==> f.Got?) && (ok ==> p.content == f.rest && Buffers(header[..], body[..]) == f.bufs)
    ensures ok ==> |p.content| < |old(p.content)| && p.failed == old(p.failed)
    ensures ok ==> ParseHeader(header[..]).length <= MAX_BODY
    ensures old(p.failed) ==> p.failed
  {
    ghost var input := p.content;
    var bytesRead := RecvN(p, header, HEADER_SIZE);
    if bytesRead <= 0 {
      return false;
    }
    assert header[..] == header[..bytesRead] + header[bytesRead..];
    assert header[..] == Overwrite(old(header[..]), input[..bytesRead]);
    var length := ParseHeader(header[..]).length;
    if length > MAX_BODY {
      return false;
    }
    if length > 0 {
      bytesRead := RecvN(p, body, length);
      if bytesRead != length {
        return false;
      }
      assert body[..] == body[..length] + body[length..];
    }
    assert p.failed || body[..] == Overwrite(old(body[..]), input[Min(HEADER_SIZE, |input|)..][..length]);
    return true;
  }

  // What the connection will come to, given what has been sent and done so far.
  function Total(sent: seq<byte>, events: seq<Event>, c: Conn, input: seq<byte>, keys: nat -> PrivateKey, svc: int -> ServiceReply): Served
    requires Sized(c.bufs) && (c.established ==> UsableKey(c.key))
  {
    var more := Serve(c, input, keys, svc);
    Served(sent + more.out, events + more.events)
  }

  lemma Regrouped<T>(a: seq<T>, b: seq<T>, c: seq<T>)
    ensures a + (b + c) == (a + b) + c
  {}

  lemma StartIsTotal(c: Conn, input: seq<byte>, keys: nat -> PrivateKey, svc: int -> ServiceReply)
    requires Sized(c.bufs) && (c.established ==> UsableKey(c.key))
    ensures Total([], [], c, input, keys, svc) == Serve(c, input, keys, svc)
  {
    var more := Serve(c, input, keys, svc);
    assert [] + more.out == more.out && [] + more.events == more.events;
  }

  lemma EndKeepsTotal(sent: seq<byte>, events: seq<Event>, c: Conn, input: seq<byte>, keys: nat -> PrivateKey, svc: int -> ServiceReply)
    requires Sized(c.bufs) && (c.established ==> UsableKey(c.key)) && Frame(c.bufs, input) == Closed
    ensures Total(sent, events, c, input, keys, svc) == Served(sent, events)
  {}

  // One turn of the loop does not change it.
  lemma TurnKeepsTotal(sent: seq<byte>, events: seq<Event>, c: Conn, input: seq<byte>, rest: seq<byte>,
                       keys: nat -> PrivateKey, svc: int -> ServiceReply, bufs: Buffers)
    requires Sized(c.bufs) && (c.established ==> UsableKey(c.key)) && Frame(c.bufs, input) == Got(bufs, rest)
    ensures var t := OnMessage(c.(bufs := bufs), keys(c.handshakes), svc);
            Total(sent, events, c, input, keys, svc)
            == if t.go then Total(sent + t.out, events + t.events, t.conn, rest, keys, svc)
               else Served(sent + t.out, events + t.events)
  {
    var t := OnMessage(c.(bufs := bufs), keys(c.handshakes), svc);
    if t.go {
      var more := Serve(t.conn, rest, keys, svc);
      Regrouped(sent, t.out, more.out);
      Regrouped(events, t.events, more.events);
    }
  }

  lemma HandshakesAreCounted(c: Conn, key: PrivateKey, svc: int -> ServiceReply)
    requires GoodConn(c) && OnMessage(c, key, svc).go
    ensures OnMessage(c, key, svc).conn.handshakes
         == c.handshakes + if ParseHeader(c.bufs.header).kind == MSG_HANDSHAKE then 1 else 0
  {}

  // One connection, from accept to close. `start` is what the buffers held to begin with.
  method HandleClient(inp: Pipe, outp: Pipe, keys: nat -> PrivateKey, svc: int -> ServiceReply)
    returns (events: seq<Event>, ghost start: Conn)
    requires inp != outp && !inp.failed && forall id :: svc(id).Reply? ==> CText(svc(id).text)
    modifies inp, outp
    ensures StartingConn(start)
    ensures !inp.failed && !outp.failed ==>
              var served := Serve(start, old(inp.content), keys, svc);
              events == served.events && outp.content == old(outp.content) + served.out
  {
    hide Serve, Total, OnMessage, Frame;
    var header := new byte[HEADER_SIZE];
    var body := new byte[MAX_BODY];
    var sessionKey := new char[KEY_BUFFER](_ => '\0');
    var established, handshakes := false, 0;
    events := [];
    start := Conn(Buffers(header[..], body[..]), "", false, 0);
    ghost var c, sent := start, [];
    ghost var goal := Serve(start, inp.content, keys, svc);
    StartIsTotal(start, inp.content, keys, svc);
    assert outp.content + [] == outp.content;
    while true
      invariant Holds(header, body, sessionKey, established, c) && c.handshakes == handshakes
      invariant Sent(outp, old(outp.content), sent) && !inp.failed
      invariant Total(sent, events, c, inp.content, keys, svc) == goal
      decreases |inp.content|
    {
      ghost var before, input := c, inp.content;
      var ok := ReceiveMessage(inp, header, body);
      if !ok {
        if !inp.failed {
          EndKeepsTotal(sent, events, before, input, keys, svc);
        }
        return;
      }
      c := c.(bufs := Buffers(header[..], body[..]));
      TurnKeepsTotal(sent, events, before, input, inp.content, keys, svc, c.bufs);
      ghost var t := OnMessage(c, keys(handshakes), svc);
      var key := keys(handshakes);
      if ParseHeader(header[..]).kind == MSG_HANDSHAKE {
        handshakes := handshakes + 1;
      }
      var go, more;
      go, established, more := HandleMessage(outp, header, body, sessionKey, established, key, svc, c);
      events := events + more;
      Regrouped(old(outp.content), sent, t.out);
      sent := sent + t.out;
      if !go {
        return;
      }
      HandshakesAreCounted(c, key, svc);
      c := t.conn;
    }
  }

  // ---------------------------------------------------------------------------
  // The client
  // ---------------------------------------------------------------------------

  method PerformDhHandshake(outp: Pipe, inp: Pipe, key: PrivateKey, sessionKey: array<char>)
    returns (ok: bool, ghost header: seq<byte>, ghost body: seq<byte>)
    requires inp != outp && sessionKey.Length == KEY_BUFFER
    modifies inp, outp, sessionKey
    ensures |header| == HEADER_SIZE && |body| == PUBLIC_KEY_SIZE
    ensures Sent(outp, old(outp.content), MessageBytes(Hello(key)))
    ensures old(outp.failed) ==> outp.failed
    ensures old(inp.failed) ==> inp.failed
    ensures ok ==> UsableKey(CString(sessionKey[..]))
    ensures !inp.failed && !outp.failed ==>
              var input := old(inp.content);
              var n := Min(HEADER_SIZE, |input|);
              var m := Min(PUBLIC_KEY_SIZE, |input| - n);
              && (ok <==> n > 0 && m > 0 && ParseHeader(Overwrite(header, input[..n])).kind == MSG_HANDSHAKE_ACK)
              && (ok ==>
                    && CString(sessionKey[..]) == SessionKey(SharedSecret(DecodeSigned(Overwrite(body, input[n..][..m])), key))
                    && inp.content == input[n..][m..])
  {
    hide PowerRem, MessageBytes, UsableKey;
    var respHeader := new byte[HEADER_SIZE];
    var respBody := new byte[PUBLIC_KEY_SIZE];
    header, body := respHeader[..], respBody[..];
    ghost var input := inp.content;
    var public := CalculatePublicKey(key as int64);
    PublicKeysFit(key);
    SendMessage(outp, Message(Header(PUBLIC_KEY_SIZE, MSG_HANDSHAKE, OP_HANDSHAKE, 0), EncodeSigned(public as int, PUBLIC_KEY_SIZE)));
    if outp.failed {
      return false, header, body;
    }
    var n := RecvN(inp, respHeader, HEADER_SIZE);
    if n <= 0 {
      return false, header, body;
    }
    assert respHeader[..] == respHeader[..n] + respHeader[n..];
    assert respHeader[..] == Overwrite(header, input[..n]);
    if ParseHeader(respHeader[..]).kind != MSG_HANDSHAKE_ACK {
      return false, header, body;
    }
    var m := RecvN(inp, respBody, PUBLIC_KEY_SIZE);
    if m <= 0 {
      return false, header, body;
    }
    assert respBody[..] == respBody[..m] + respBody[m..];
    assert respBody[..] == Overwrite(body, input[n..][..m]);
    SignedFits(respBody[..]);
    var secret := CalculateSharedSecret(DecodeSigned(respBody[..]) as int64, key as int64);
    DeriveSessionKey(secret, sessionKey);
    SessionKeyIsUsable(secret as int);
    return true, header, body;
  }

  // snprintf of a text that fits.
  method PutString(buf: array<byte>, text: seq<byte>)
    requires |text| < buf.Length
    modifies buf
    ensures buf[..] == LeftWith(old(buf[..]), text)
  {
    forall i | 0 <= i < |text| {
      buf[i] := text[i];
    }
    buf[|text|] := 0;
  }

  // A whole ride request. `s` is what the receive buffers held to begin with.
  method PerformRideRequest(outp: Pipe, inp: Pipe, key: PrivateKey, client: ClientId, coords: seq<byte>, msgBuffer: array<byte>)
    returns (code: int, ghost s: Stale)
    requires inp != outp && |coords| == COORDS_SIZE && msgBuffer.Length == MAX_BODY
    modifies inp, outp, msgBuffer
    ensures StaleSized(s) && s.message == old(msgBuffer[..])
    ensures !inp.failed && !outp.failed ==>
              var end := RequestRide(key, client, coords, s, old(inp.content));
              code == end.code && msgBuffer[..] == end.message && outp.content == old(outp.content) + end.sent
    ensures code == 0 ==> Contains(UpToNul(msgBuffer[..]), Ascii("Ride Confirmed!"))
  {
    var sessionKey := new char[KEY_BUFFER](_ => '\0');
    var respHeader := new byte[HEADER_SIZE];
    ghost var before, input := outp.content, inp.content;
    var ok;
    ghost var ackHeader, ackBody;
    ok, ackHeader, ackBody := PerformDhHandshake(outp, inp, key, sessionKey);
    s := Stale(ackHeader, ackBody, respHeader[..], msgBuffer[..]);
    if !ok {
      PutString(msgBuffer, Ascii("Handshake Failed"));
      return -1, s;
    }
    var k := CString(sessionKey[..]);
    ghost var rest := inp.content;
    SendRequest(outp, client, coords, k);
    ghost var sent := MessageBytes(Hello(key)) + MessageBytes(Request(client, coords, k));
    assert before + MessageBytes(Hello(key)) + MessageBytes(Request(client, coords, k)) == before + sent;
    if outp.failed {
      return -1, s;
    }
    code := ReceiveReply(inp, respHeader, msgBuffer, k, s, sent);
  }

  // Builds the request, checksums it, encrypts it in place and sends it.
  method SendRequest(p: Pipe, client: ClientId, coords: seq<byte>, key: string)
    requires UsableKey(key) && |coords| == COORDS_SIZE
    modifies p
    ensures Sent(p, old(p.content), MessageBytes(Request(client, coords, key)))
    ensures old(p.failed) ==> p.failed
  {
    var plain := RequestBody(client, coords);
    var body := new byte[REQUEST_SIZE](i requires 0 <= i < REQUEST_SIZE => plain[i]);
    assert body[..REQUEST_SIZE] == plain;
    var checksum := CalculateChecksum(body, REQUEST_SIZE);
    Rc4Crypt(body, REQUEST_SIZE, key);
    SendMessage(p, Message(Header(REQUEST_SIZE, MSG_RIDE_REQ, OP_REQ_RIDE, checksum), body[..REQUEST_SIZE]));
  }

  // Reads, decrypts in place, checks and classifies the reply.
  method ReceiveReply(p: Pipe, respHeader: array<byte>, msgBuffer: array<byte>, key: string, ghost s: Stale, ghost sent: seq<byte>)
    returns (code: int)
    requires respHeader != msgBuffer && respHeader.Length == HEADER_SIZE && msgBuffer.Length == MAX_BODY
    requires StaleSized(s) && s.header == respHeader[..] && s.message == msgBuffer[..] && UsableKey(key)
    modifies p, respHeader, msgBuffer
    ensures !p.failed ==>
              var end := ReadReply(sent, key, s, old(p.content));
              code == end.code && msgBuffer[..] == end.message
    ensures old(p.failed) ==> p.failed
    ensures code == 0 ==> Contains(UpToNul(msgBuffer[..]), Ascii("Ride Confirmed!"))
  {
    ghost var input := p.content;
    var n := RecvN(p, respHeader, HEADER_SIZE);
    if n <= 0 {
      return -1;
    }
    assert respHeader[..] == respHeader[..n] + respHeader[n..];
    assert respHeader[..] == Overwrite(s.header, input[..n]);
    var h := ParseHeader(respHeader[..]);
    if h.length == 0 || h.length >= MAX_BODY {
      return -1;
    }
    code := ReceiveReplyBody(p, h, msgBuffer, key, s, sent);
  }

  method ReceiveReplyBody(p: Pipe, h: Header, msgBuffer: array<byte>, key: string, ghost s: Stale, ghost sent: seq<byte>)
    returns (code: int)
    requires 0 < h.length < MAX_BODY == msgBuffer.Length
    requires StaleSized(s) && s.message == msgBuffer[..] && UsableKey(key)
    modifies p, msgBuffer
    ensures !p.failed ==>
              var end := ReadReplyBody(sent, key, s, h, old(p.content));
              code == end.code && msgBuffer[..] == end.message
    ensures old(p.failed) ==> p.failed
    ensures code == 0 ==> Contains(UpToNul(msgBuffer[..]), Ascii("Ride Confirmed!"))
  {
    ghost var input := p.content;
    var m := RecvN(p, msgBuffer, h.length);
    if m <= 0 {
      assert m == 0 ==> msgBuffer[..] == msgBuffer[0..] == s.message;
      return -1;
    }
    assert msgBuffer[..] == msgBuffer[..m] + msgBuffer[m..];
    ghost var got := msgBuffer[..];
    assert got == Overwrite(s.message, input[..m]);
    msgBuffer[h.length] := 0;
    assert msgBuffer[..h.length] == got[..h.length];
    Rc4Crypt(msgBuffer, h.length, key);
    assert msgBuffer[..] == LeftWith(got, Crypt(got[..h.length], key));
    var checksum := CalculateChecksum(msgBuffer, h.length);
    if checksum != h.checksum {
      PutString(msgBuffer, Ascii("Checksum Mismatch"));
      return -1;
    }
    code := CodeOf(UpToNul(msgBuffer[..]));
  }

  // ---------------------------------------------------------------------------
  // Both ends
  // ---------------------------------------------------------------------------

  // The two programs against each other. What arrives at either end is what the other end
  // sends, in any pieces and with any interruptions: then each end does send it, the
  // dispatcher serves the client's own plaintext under the agreed key, and the client
  // returns with the exact reply. That the two streams come about when both ends run at
  // once, each waiting for the other, is shown in module ConversationEnds.
  method SessionOverPipes(clientOut: Pipe, clientIn: Pipe, serverIn: Pipe, serverOut: Pipe, a: PrivateKey, client: ClientId,
                          coords: seq<byte>, msgBuffer: array<byte>, keys: nat -> PrivateKey, svc: int -> ServiceReply,
                          ghost text: seq<byte>)
    returns (code: int, events: seq<Event>)
    requires clientOut != clientIn && serverIn != serverOut && {clientOut, clientIn} !! {serverIn, serverOut}
    requires |coords| == COORDS_SIZE && msgBuffer.Length == MAX_BODY && !serverIn.failed
    requires forall id :: svc(id).Reply? ==> CText(svc(id).text)
    requires svc(client) == Reply(text) && text != []
    requires serverIn.content == UpStream(a, keys(0), client, coords) && clientIn.content == DownStream(a, keys(0), text)
    modifies clientOut, clientIn, serverIn, serverOut, msgBuffer
    ensures !serverIn.failed && !serverOut.failed ==>
              && serverOut.content == old(serverOut.content + clientIn.content)
              && events == [KeyAgreed(AgreedKey(a, keys(0))), RideServed(client, RequestBody(client, coords))]
    ensures !clientIn.failed && !clientOut.failed ==>
              && clientOut.content == old(clientOut.content + serverIn.content)
              && code == CodeOf(text) && UpToNul(msgBuffer[..]) == text
  {
    ghost var start, s;
    events, start := HandleClient(serverIn, serverOut, keys, svc);
    code, s := PerformRideRequest(clientOut, clientIn, a, client, coords, msgBuffer);
    SessionEndToEnd(a, client, coords, s, start, text, keys, svc);
  }
}
