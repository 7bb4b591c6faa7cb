// Both ends of a session at once, over two byte channels: whoever wants to read waits
// until there is something to read or the other end has closed, and any part of what is
// wanted or offered may move at a time (src/common/net_wrapper.c, lines 105-148;
// src/client/client_core.c, lines 55-173; src/server/dispatcher.c, lines 58-206).
module Conversation {
  import opened Bytes
  import opened Checksum
  import opened DhCrypto
  import opened Wire
  import opened Protocol
  import opened Session

  // What a session depends on: the client's key, id, coordinates and stale buffers; the
  // dispatcher's locals, keys and services.
  datatype Setup = Setup(a: PrivateKey, client: ClientId, coords: seq<byte>, s: Stale,
                         start: Conn, keys: nat -> PrivateKey, svc: int -> ServiceReply)

  predicate GoodSetup(p: Setup) {
    StaleSized(p.s) && |p.coords| == COORDS_SIZE && StartingConn(p.start)
  }

  // `got` is what the call of recv_n under way has received, `left` what the sending under
  // way has still to hand over.
  datatype Client =
    | SendingHello(left: seq<byte>)
    | AwaitingAck(got: seq<byte>)
    | AwaitingKey(got: seq<byte>)
    | SendingRequest(key: string, left: seq<byte>)
    | AwaitingReply(key: string, got: seq<byte>)
    | AwaitingBody(key: string, h: Header, got: seq<byte>)
    | ClientDone(end: ClientEnd)

  // The dispatcher reads a message, header and then body, or writes its answer.
  datatype Server =
    | Reading(c: Conn, got: seq<byte>, events: seq<Event>)
    | Writing(c: Conn, left: seq<byte>, events: seq<Event>, go: bool)
    | ServerDone(events: seq<Event>)

  // All that was sent so far in either direction, and how much of it has been read.
  datatype Net = Net(client: Client, server: Server, up: seq<byte>, upRead: nat, down: seq<byte>, downRead: nat)

  predicate ClientAwaits(cl: Client) {
    cl.AwaitingAck? || cl.AwaitingKey? || cl.AwaitingReply? || cl.AwaitingBody?
  }

  predicate ClientSending(cl: Client) {
    cl.SendingHello? || cl.SendingRequest?
  }

  // Keys usable, and no call of recv_n or send_n with nothing left to do.
  predicate ClientOk(cl: Client) {
    && (cl.SendingRequest? || cl.AwaitingReply? || cl.AwaitingBody? ==> UsableKey(cl.key))
    && (cl.AwaitingBody? ==> 0 < cl.h.length < MAX_BODY)
    && (ClientSending(cl) ==> cl.left != [])
    && (ClientAwaits(cl) ==> |cl.got| < ClientGoal(cl))
  }

  // The length of the call of recv_n under way.
  function ClientGoal(cl: Client): nat
    requires ClientAwaits(cl)
  {
    match cl
    case AwaitingKey(_) => PUBLIC_KEY_SIZE
    case AwaitingBody(_, h, _) => h.length
    case _ => HEADER_SIZE
  }

  predicate ServerOk(q: Server) {
    match q
    case Reading(c, got, _) => Sized(c.bufs) && (c.established ==> UsableKey(c.key)) && !Complete(got)
    case Writing(c, left, _, _) => Sized(c.bufs) && (c.established ==> UsableKey(c.key)) && left != []
    case ServerDone(_) => true
  }

  // A whole message, or a header that announces too long a body.
  predicate Complete(got: seq<byte>) {
    |got| >= HEADER_SIZE
    && var length := ParseHeader(got[..HEADER_SIZE]).length;
       length > MAX_BODY || |got| >= HEADER_SIZE + length
  }

  // What the calls of recv_n for one message still want.
  function ServerWants(got: seq<byte>): nat
    requires !Complete(got)
  {
    if |got| < HEADER_SIZE then HEADER_SIZE - |got|
    else HEADER_SIZE + ParseHeader(got[..HEADER_SIZE]).length - |got|
  }

  // ---------------------------------------------------------------------------
  // The moves
  // ---------------------------------------------------------------------------

  function HelloBytes(p: Setup): seq<byte> {
    MessageBytes(Hello(p.a))
  }

  function UpBytes(p: Setup, key: string): seq<byte>
    requires GoodSetup(p) && UsableKey(key)
  {
    HelloBytes(p) + MessageBytes(Request(p.client, p.coords, key))
  }

  // The client after a call of recv_n has returned with `got`.
  function ClientGoesOn(p: Setup, cl: Client): (cl': Client)
    requires GoodSetup(p) && ClientAwaits(cl) && |cl.got| <= ClientGoal(cl)
    requires cl.AwaitingReply? || cl.AwaitingBody? ==> UsableKey(cl.key)
    requires cl.AwaitingBody? ==> 0 < cl.h.length < MAX_BODY
    ensures ClientOk(cl')
  {
    match cl
    case AwaitingAck(got) =>
      if got == [] || ParseHeader(Overwrite(p.s.ackHeader, got)).kind != MSG_HANDSHAKE_ACK then ClientDone(HandshakeFailed(p.a, p.s))
      else AwaitingKey([])
    case AwaitingKey(got) =>
      if got == [] then ClientDone(HandshakeFailed(p.a, p.s))
      else
        var secret := SharedSecret(DecodeSigned(Overwrite(p.s.ackBody, got)), p.a);
        SessionKeyIsUsable(secret);
        SendingRequest(SessionKey(secret), MessageBytes(Request(p.client, p.coords, SessionKey(secret))))
    case AwaitingReply(key, got) =>
      if got == [] then ClientDone(ClientEnd(UpBytes(p, key), -1, p.s.message))
      else
        var h := ParseHeader(Overwrite(p.s.header, got));
        if h.length == 0 || h.length >= MAX_BODY then ClientDone(ClientEnd(UpBytes(p, key), -1, p.s.message))
        else AwaitingBody(key, h, [])
    case AwaitingBody(key, h, got) => ClientDone(ReadReplyBody(UpBytes(p, key), key, p.s, h, got))
  }

  function ClientReceives(p: Setup, cl: Client, data: seq<byte>): (cl': Client)
    requires GoodSetup(p) && ClientOk(cl) && ClientAwaits(cl) && |cl.got| + |data| <= ClientGoal(cl)
    ensures ClientOk(cl')
  {
    var cl' := cl.(got := cl.got + data);
    if |cl'.got| == ClientGoal(cl') then ClientGoesOn(p, cl') else cl'
  }

  function ClientHandsOver(cl: Client, n: nat): (cl': Client)
    requires ClientOk(cl) && ClientSending(cl) && n <= |cl.left|
    ensures ClientOk(cl')
  {
    if n < |cl.left| then cl.(left := cl.left[n..])
    else match cl case SendingHello(_) => AwaitingAck([]) case SendingRequest(key, _) => AwaitingReply(key, [])
  }

  function ServerAnswers(c: Conn, left: seq<byte>, events: seq<Event>, go: bool): (q: Server)
    requires Sized(c.bufs) && (c.established ==> UsableKey(c.key))
    ensures ServerOk(q)
  {
    if left != [] then Writing(c, left, events, go) else if go then Reading(c, [], events) else ServerDone(events)
  }

  // The dispatcher after its calls of recv_n for one message have returned with `got`.
  function ServerGoesOn(p: Setup, c: Conn, got: seq<byte>, events: seq<Event>): (q: Server)
    requires Sized(c.bufs) && (c.established ==> UsableKey(c.key))
    ensures ServerOk(q)
  {
    match Frame(c.bufs, got)
    case Closed => ServerDone(events)
    case Got(bufs, _) =>
      var t := OnMessage(c.(bufs := bufs), p.keys(c.handshakes), p.svc);
      ServerAnswers(t.conn, t.out, events + t.events, t.go)
  }

  function ServerReceives(p: Setup, q: Server, data: seq<byte>): (q': Server)
    requires ServerOk(q) && q.Reading?
    ensures ServerOk(q')
  {
    var got := q.got + data;
    if Complete(got) then ServerGoesOn(p, q.c, got, q.events) else q.(got := got)
  }

  predicate NetOk(net: Net) {
    ClientOk(net.client) && ServerOk(net.server) && net.upRead <= |net.up| && net.downRead <= |net.down|
  }

  // The moves of the two ends. A read waits while nothing is there and the other end may
  // still send.
  predicate ClientCanSend(net: Net, n: nat)
    requires NetOk(net)
  {
    ClientSending(net.client) && 0 < n <= |net.client.left|
  }

  function ClientSend(net: Net, n: nat): (net': Net)
    requires NetOk(net) && ClientCanSend(net, n)
    ensures NetOk(net')
  {
    net.(client := ClientHandsOver(net.client, n), up := net.up + net.client.left[..n])
  }

  predicate ClientCanRead(net: Net, n: nat)
    requires NetOk(net)
  {
    && ClientAwaits(net.client) && 0 < n <= |net.down| - net.downRead
    && |net.client.got| + n <= ClientGoal(net.client)
  }

  function ClientRead(p: Setup, net: Net, n: nat): (net': Net)
    requires GoodSetup(p) && NetOk(net) && ClientCanRead(net, n)
    ensures NetOk(net')
  {
    net.(client := ClientReceives(p, net.client, net.down[net.downRead..net.downRead + n]), downRead := net.downRead + n)
  }

  predicate ClientCanSeeEnd(net: Net)
    requires NetOk(net)
  {
    ClientAwaits(net.client) && net.downRead == |net.down| && net.server.ServerDone?
  }

  function ClientSeeEnd(p: Setup, net: Net): (net': Net)
    requires GoodSetup(p) && NetOk(net) && ClientCanSeeEnd(net)
    ensures NetOk(net')
  {
    net.(client := ClientGoesOn(p, net.client))
  }

  predicate ServerCanSend(net: Net, n: nat)
    requires NetOk(net)
  {
    net.server.Writing? && 0 < n <= |net.server.left|
  }

  function ServerSend(net: Net, n: nat): (net': Net)
    requires NetOk(net) && ServerCanSend(net, n)
    ensures NetOk(net')
  {
    var q := net.server;
    net.(server := ServerAnswers(q.c, q.left[n..], q.events, q.go), down := net.down + q.left[..n])
  }

  predicate ServerCanRead(net: Net, n: nat)
    requires NetOk(net)
  {
    net.server.Reading? && 0 < n <= |net.up| - net.upRead && n <= ServerWants(net.server.got)
  }

  function ServerRead(p: Setup, net: Net, n: nat): (net': Net)
    requires NetOk(net) && ServerCanRead(net, n)
    ensures NetOk(net')
  {
    net.(server := ServerReceives(p, net.server, net.up[net.upRead..net.upRead + n]), upRead := net.upRead + n)
  }

  predicate ServerCanSeeEnd(net: Net)
    requires NetOk(net)
  {
    net.server.Reading? && net.upRead == |net.up| && net.client.ClientDone?
  }

  function ServerSeeEnd(p: Setup, net: Net): (net': Net)
    requires NetOk(net) && ServerCanSeeEnd(net)
    ensures NetOk(net')
  {
    net.(server := ServerGoesOn(p, net.server.c, net.server.got, net.server.events))
  }

  function Beginning(p: Setup): (net: Net)
    requires GoodSetup(p)
    ensures NetOk(net)
  {
    Net(SendingHello(HelloBytes(p)), Reading(p.start, [], []), [], 0, [], 0)
  }

  ghost predicate Next(p: Setup, a: Net, b: Net)
    requires GoodSetup(p)
  {
    && NetOk(a)
    && (|| (exists n :: ClientCanSend(a, n) && b == ClientSend(a, n))
        || (exists n :: ClientCanRead(a, n) && b == ClientRead(p, a, n))
        || (ClientCanSeeEnd(a) && b == ClientSeeEnd(p, a))
        || (exists n :: ServerCanSend(a, n) && b == ServerSend(a, n))
        || (exists n :: ServerCanRead(a, n) && b == ServerRead(p, a, n))
        || (ServerCanSeeEnd(a) && b == ServerSeeEnd(p, a)))
  }

  // Any interleaving of the two ends, with the bytes moved in any pieces.
  ghost predicate Interleaving(p: Setup, trace: seq<Net>)
    requires GoodSetup(p)
  {
    && trace != [] && trace[0] == Beginning(p)
    && forall i :: 0 < i < |trace| ==> Next(p, trace[i - 1], trace[i])
  }

  // ---------------------------------------------------------------------------
  // What each end will have come to
  // ---------------------------------------------------------------------------

  // The client's end if `rest` is all it still reads.
  function ClientTotal(p: Setup, cl: Client, rest: seq<byte>): ClientEnd
    requires GoodSetup(p) && (cl.SendingRequest? || cl.AwaitingReply? || cl.AwaitingBody? ==> UsableKey(cl.key))
    requires cl.AwaitingBody? ==> 0 < cl.h.length < MAX_BODY
  {
    match cl
    case SendingHello(_) => RequestRide(p.a, p.client, p.coords, p.s, rest)
    case AwaitingAck(got) => RequestRide(p.a, p.client, p.coords, p.s, got + rest)
    case AwaitingKey(got) => AfterAckHeader(p.a, p.client, p.coords, p.s, got + rest)
    case SendingRequest(key, _) => ReadReply(UpBytes(p, key), key, p.s, rest)
    case AwaitingReply(key, got) => ReadReply(UpBytes(p, key), key, p.s, got + rest)
    case AwaitingBody(key, h, got) => ReadReplyBody(UpBytes(p, key), key, p.s, h, got + rest)
    case ClientDone(end) => end
  }

  // What the client has sent is as far as it has got.
  predicate ClientHasSent(p: Setup, cl: Client, up: seq<byte>)
    requires GoodSetup(p) && ClientOk(cl)
  {
    match cl
    case SendingHello(left) => up + left == HelloBytes(p)
    case AwaitingAck(_) => up == HelloBytes(p)
    case AwaitingKey(_) => up == HelloBytes(p)
    case SendingRequest(key, left) => up + left == UpBytes(p, key)
    case AwaitingReply(key, _) => up == UpBytes(p, key)
    case AwaitingBody(key, _, _) => up == UpBytes(p, key)
    case ClientDone(end) => up == end.sent
  }

  // The dispatcher's whole output and events if `rest` is all it still reads.
  function ServerTotal(p: Setup, q: Server, down: seq<byte>, rest: seq<byte>): Served
    requires ServerOk(q)
  {
    match q
    case Reading(c, got, events) =>
      var more := Serve(c, got + rest, p.keys, p.svc);
      Served(down + more.out, events + more.events)
    case Writing(c, left, events, go) =>
      if !go then Served(down + left, events)
      else
        var more := Serve(c, rest, p.keys, p.svc);
        Served(down + left + more.out, events + more.events)
    case ServerDone(events) => Served(down, events)
  }

  lemma Regroup<T>(a: seq<T>, b: seq<T>, c: seq<T>)
    ensures a + (b + c) == (a + b) + c
  {}

  lemma SplitAt(got: seq<byte>, rest: seq<byte>)
    ensures (got + rest)[..|got|] == got && (got + rest)[|got|..] == rest && [] + rest == rest
  {}

  lemma AckKeepsTotal(p: Setup, cl: Client, rest: seq<byte>)
    requires GoodSetup(p) && cl.AwaitingAck? && |cl.got| <= HEADER_SIZE && (|cl.got| == HEADER_SIZE || rest == [])
    ensures ClientTotal(p, ClientGoesOn(p, cl), rest) == ClientTotal(p, cl, rest)
  {
    SplitAt(cl.got, rest);
  }

  lemma KeyKeepsTotal(p: Setup, cl: Client, rest: seq<byte>)
    requires GoodSetup(p) && cl.AwaitingKey? && |cl.got| <= PUBLIC_KEY_SIZE && (|cl.got| == PUBLIC_KEY_SIZE || rest == [])
    ensures ClientTotal(p, ClientGoesOn(p, cl), rest) == ClientTotal(p, cl, rest)
  {
    SplitAt(cl.got, rest);
  }

  lemma ReplyKeepsTotal(p: Setup, cl: Client, rest: seq<byte>)
    requires GoodSetup(p) && cl.AwaitingReply? && UsableKey(cl.key)
    requires |cl.got| <= HEADER_SIZE && (|cl.got| == HEADER_SIZE || rest == [])
    ensures ClientTotal(p, ClientGoesOn(p, cl), rest) == ClientTotal(p, cl, rest)
  {
    hide ReadReplyBody, UpBytes, ParseHeader;
    var input := cl.got + rest;
    SplitAt(cl.got, rest);
    assert Min(HEADER_SIZE, |input|) == |cl.got|;
    if cl.got != [] {
      var h := ParseHeader(Overwrite(p.s.header, cl.got));
      if 0 < h.length < MAX_BODY {
        assert ClientGoesOn(p, cl) == AwaitingBody(cl.key, h, []);
      }
    }
  }

  lemma BodyKeepsTotal(p: Setup, cl: Client, rest: seq<byte>)
    requires GoodSetup(p) && cl.AwaitingBody? && UsableKey(cl.key) && 0 < cl.h.length < MAX_BODY
    requires |cl.got| <= cl.h.length && (|cl.got| == cl.h.length || rest == [])
    ensures ClientTotal(p, ClientGoesOn(p, cl), rest) == ClientTotal(p, cl, rest)
  {
    hide UpBytes, ChecksumOf, CodeOf, LeftWith;
    SplitAt(cl.got, rest);
    if rest != [] {
      assert (cl.got + rest)[..Min(cl.h.length, |cl.got + rest|)] == cl.got[..Min(cl.h.length, |cl.got|)];
    } else {
      assert cl.got + rest == cl.got;
    }
  }

  // A call of recv_n that has all it asked for, or all there will ever be, returns.
  lemma GoingOnKeepsClientTotal(p: Setup, cl: Client, rest: seq<byte>)
    requires GoodSetup(p) && ClientAwaits(cl) && |cl.got| <= ClientGoal(cl)
    requires cl.AwaitingReply? || cl.AwaitingBody? ==> UsableKey(cl.key)
    requires cl.AwaitingBody? ==> 0 < cl.h.length < MAX_BODY
    requires |cl.got| == ClientGoal(cl) || rest == []
    ensures ClientTotal(p, ClientGoesOn(p, cl), rest) == ClientTotal(p, cl, rest)
  {
    match cl
    case AwaitingAck(_) => AckKeepsTotal(p, cl, rest);
    case AwaitingKey(_) => KeyKeepsTotal(p, cl, rest);
    case AwaitingReply(_, _) => ReplyKeepsTotal(p, cl, rest);
    case AwaitingBody(_, _, _) => BodyKeepsTotal(p, cl, rest);
  }

  lemma ReceivingKeepsClientTotal(p: Setup, cl: Client, data: seq<byte>, rest: seq<byte>)
    requires GoodSetup(p) && ClientOk(cl) && ClientAwaits(cl) && |cl.got| + |data| <= ClientGoal(cl)
    ensures ClientTotal(p, ClientReceives(p, cl, data), rest) == ClientTotal(p, cl, data + rest)
  {
    var cl' := cl.(got := cl.got + data);
    Regroup(cl.got, data, rest);
    assert ClientTotal(p, cl', rest) == ClientTotal(p, cl, data + rest);
    if |cl'.got| == ClientGoal(cl') {
      GoingOnKeepsClientTotal(p, cl', rest);
    }
  }

  // No more than the message.
  predicate EndsMessage(got: seq<byte>)
    requires Complete(got)
  {
    var length := ParseHeader(got[..HEADER_SIZE]).length;
    length > MAX_BODY || |got| == HEADER_SIZE + length
  }

  lemma FrameOfComplete(b: Buffers, got: seq<byte>, rest: seq<byte>)
    requires Sized(b) && Complete(got) && EndsMessage(got)
    ensures match Frame(b, got)
            case Closed => Frame(b, got + rest) == Closed
            case Got(bufs, none) => none == [] && Frame(b, got + rest) == Got(bufs, rest)
  {
    var input := got + rest;
    var header := got[..HEADER_SIZE];
    assert input[..HEADER_SIZE] == header && Overwrite(b.header, header) == header;
    var length := ParseHeader(header).length;
    if length <= MAX_BODY {
      assert input[HEADER_SIZE..] == got[HEADER_SIZE..] + rest;
      assert input[HEADER_SIZE..][..length] == got[HEADER_SIZE..][..length] == got[HEADER_SIZE..];
      assert input[HEADER_SIZE..][length..] == rest;
    }
  }

  function ServedAfter(p: Setup, go: bool, c: Conn, rest: seq<byte>): Served
    requires Sized(c.bufs) && (c.established ==> UsableKey(c.key))
  {
    if go then Serve(c, rest, p.keys, p.svc) else Served([], [])
  }

  lemma ServeOneTurn(p: Setup, c: Conn, input: seq<byte>, bufs: Buffers, rest: seq<byte>)
    requires Sized(c.bufs) && (c.established ==> UsableKey(c.key)) && Frame(c.bufs, input) == Got(bufs, rest)
    ensures var t := OnMessage(c.(bufs := bufs), p.keys(c.handshakes), p.svc);
            var more := ServedAfter(p, t.go, t.conn, rest);
            Serve(c, input, p.keys, p.svc) == Served(t.out + more.out, t.events + more.events)
  {
    var t := OnMessage(c.(bufs := bufs), p.keys(c.handshakes), p.svc);
    assert t.out + [] == t.out && t.events + [] == t.events;
  }

  lemma TotalOfAnswer(p: Setup, c: Conn, left: seq<byte>, events: seq<Event>, go: bool, down: seq<byte>, rest: seq<byte>)
    requires Sized(c.bufs) && (c.established ==> UsableKey(c.key))
    ensures var more := ServedAfter(p, go, c, rest);
            ServerTotal(p, ServerAnswers(c, left, events, go), down, rest) == Served(down + left + more.out, events + more.events)
  {
    assert [] + rest == rest && down + [] == down && events + [] == events && down + left + [] == down + left;
  }

  // What is read now and what will be read frame the same message.
  lemma SameFrame(b: Buffers, got: seq<byte>, rest: seq<byte>)
    requires Sized(b) && if Complete(got) then EndsMessage(got) else rest == []
    ensures match Frame(b, got)
            case Closed => Frame(b, got + rest) == Closed
            case Got(bufs, none) => Frame(b, got + rest) == Got(bufs, rest)
  {
    if Complete(got) {
      FrameOfComplete(b, got, rest);
    } else {
      assert got + rest == got;
      ShortFrameLeavesNothing(b, got);
    }
  }

  lemma GoingOnKeepsServerTotal(p: Setup, c: Conn, got: seq<byte>, events: seq<Event>, down: seq<byte>, rest: seq<byte>)
    requires Sized(c.bufs) && (c.established ==> UsableKey(c.key))
    requires if Complete(got) then EndsMessage(got) else rest == []
    ensures var more := Serve(c, got + rest, p.keys, p.svc);
            ServerTotal(p, ServerGoesOn(p, c, got, events), down, rest) == Served(down + more.out, events + more.events)
  {
    SameFrame(c.bufs, got, rest);
    match Frame(c.bufs, got)
    case Closed =>
      assert down + [] == down && events + [] == events;
    case Got(bufs, _) =>
      var t := OnMessage(c.(bufs := bufs), p.keys(c.handshakes), p.svc);
      var more := ServedAfter(p, t.go, t.conn, rest);
      ServeOneTurn(p, c, got + rest, bufs, rest);
      TotalOfAnswer(p, t.conn, t.out, events + t.events, t.go, down, rest);
      Regroup(down, t.out, more.out);
      Regroup(events, t.events, more.events);
  }

  lemma ShortFrameLeavesNothing(b: Buffers, got: seq<byte>)
    requires Sized(b) && !Complete(got)
    ensures Frame(b, got).Got? ==> Frame(b, got).rest == []
  {
    if |got| >= HEADER_SIZE {
      assert Overwrite(b.header, got[..HEADER_SIZE]) == got[..HEADER_SIZE];
    }
  }

  lemma ReceivingKeepsServerTotal(p: Setup, q: Server, data: seq<byte>, down: seq<byte>, rest: seq<byte>)
    requires ServerOk(q) && q.Reading? && |data| <= ServerWants(q.got)
    ensures ServerTotal(p, ServerReceives(p, q, data), down, rest) == ServerTotal(p, q, down, data + rest)
  {
    var got := q.got + data;
    Regroup(q.got, data, rest);
    if Complete(got) {
      assert |q.got| >= HEADER_SIZE ==> got[..HEADER_SIZE] == q.got[..HEADER_SIZE];
      GoingOnKeepsServerTotal(p, q.c, got, q.events, down, rest);
    }
  }

  // ---------------------------------------------------------------------------
  // Every conversation comes to what the two ends say of their input
  // ---------------------------------------------------------------------------

  // Two streams that are what each end sends, given the other.
  predicate Agree(p: Setup, up: seq<byte>, down: seq<byte>)
    requires GoodSetup(p)
  {
    RequestRide(p.a, p.client, p.coords, p.s, down).sent == up && Serve(p.start, up, p.keys, p.svc).out == down
  }

  // The two ends are on their way to those streams and to what they make of them.
  predicate ClientFollows(p: Setup, net: Net, up: seq<byte>, down: seq<byte>)
    requires GoodSetup(p) && NetOk(net) && net.downRead <= |down|
  {
    && net.up <= up && (net.client.ClientDone? ==> net.up == up)
    && ClientHasSent(p, net.client, net.up)
    && ClientTotal(p, net.client, down[net.downRead..]) == RequestRide(p.a, p.client, p.coords, p.s, down)
  }

  predicate ServerFollows(p: Setup, net: Net, up: seq<byte>, down: seq<byte>)
    requires GoodSetup(p) && NetOk(net) && net.upRead <= |up|
  {
    && net.down <= down && (net.server.ServerDone? ==> net.down == down)
    && ServerTotal(p, net.server, net.down, up[net.upRead..]) == Serve(p.start, up, p.keys, p.svc)
  }

  predicate Follows(p: Setup, net: Net, up: seq<byte>, down: seq<byte>)
    requires GoodSetup(p)
  {
    && NetOk(net) && net.up <= up && net.down <= down
    && ClientFollows(p, net, up, down) && ServerFollows(p, net, up, down)
  }

  lemma ReadReplySends(p: Setup, key: string, rest: seq<byte>)
    requires GoodSetup(p) && UsableKey(key)
    ensures ReadReply(UpBytes(p, key), key, p.s, rest).sent == UpBytes(p, key)
  {}

  lemma ReadBodySends(p: Setup, key: string, h: Header, rest: seq<byte>)
    requires GoodSetup(p) && UsableKey(key) && 0 < h.length < MAX_BODY
    ensures ReadReplyBody(UpBytes(p, key), key, p.s, h, rest).sent == UpBytes(p, key)
  {}

  lemma AfterAckSends(p: Setup, rest: seq<byte>)
    requires GoodSetup(p)
    ensures HelloBytes(p) <= AfterAckHeader(p.a, p.client, p.coords, p.s, rest).sent
  {
    var n := Min(PUBLIC_KEY_SIZE, |rest|);
    if n > 0 {
      var secret := SharedSecret(DecodeSigned(Overwrite(p.s.ackBody, rest[..n])), p.a);
      SessionKeyIsUsable(secret);
      ReadReplySends(p, SessionKey(secret), rest[n..]);
    }
  }

  lemma RequestRideSends(p: Setup, rest: seq<byte>)
    requires GoodSetup(p)
    ensures HelloBytes(p) <= RequestRide(p.a, p.client, p.coords, p.s, rest).sent
  {
    AfterAckSends(p, rest[Min(HEADER_SIZE, |rest|)..]);
  }

  // What was sent is the beginning of what will have been sent.
  lemma ClientSendsItsTotal(p: Setup, cl: Client, up: seq<byte>, rest: seq<byte>)
    requires GoodSetup(p) && ClientOk(cl) && ClientHasSent(p, cl, up)
    ensures up <= ClientTotal(p, cl, rest).sent && (cl.ClientDone? ==> up == ClientTotal(p, cl, rest).sent)
  {
    match cl
    case SendingHello(_) => RequestRideSends(p, rest);
    case AwaitingAck(got) => RequestRideSends(p, got + rest);
    case AwaitingKey(got) => AfterAckSends(p, got + rest);
    case SendingRequest(key, _) => ReadReplySends(p, key, rest);
    case AwaitingReply(key, got) => ReadReplySends(p, key, got + rest);
    case AwaitingBody(key, h, got) => ReadBodySends(p, key, h, got + rest);
    case ClientDone(_) =>
  }

  lemma ServerSendsItsTotal(p: Setup, q: Server, down: seq<byte>, rest: seq<byte>)
    requires ServerOk(q)
    ensures down <= ServerTotal(p, q, down, rest).out && (q.ServerDone? ==> down == ServerTotal(p, q, down, rest).out)
  {}

  lemma GoingOnKeepsSent(p: Setup, cl: Client, up: seq<byte>)
    requires GoodSetup(p) && ClientOk(cl) && ClientAwaits(cl) && ClientHasSent(p, cl, up)
    ensures ClientHasSent(p, ClientGoesOn(p, cl), up)
  {}

  lemma ReceivingKeepsSent(p: Setup, cl: Client, data: seq<byte>, up: seq<byte>)
    requires GoodSetup(p) && ClientOk(cl) && ClientAwaits(cl) && ClientHasSent(p, cl, up) && |cl.got| + |data| <= ClientGoal(cl)
    ensures ClientHasSent(p, ClientReceives(p, cl, data), up)
  {}

  lemma HandingOverKeepsClient(p: Setup, cl: Client, n: nat, up: seq<byte>, rest: seq<byte>)
    requires GoodSetup(p) && ClientOk(cl) && ClientSending(cl) && n <= |cl.left| && ClientHasSent(p, cl, up)
    ensures ClientHasSent(p, ClientHandsOver(cl, n), up + cl.left[..n])
    ensures ClientTotal(p, ClientHandsOver(cl, n), rest) == ClientTotal(p, cl, rest)
  {
    assert up + cl.left[..n] + cl.left[n..] == up + cl.left;
    assert [] + rest == rest;
  }

  lemma Unread(sent: seq<byte>, all: seq<byte>, read: nat, n: nat)
    requires sent <= all && read + n <= |sent|
    ensures sent[read..read + n] + all[read + n..] == all[read..]
  {}

  // The client's moves change nothing of what it will have come to.
  ghost predicate ClientUnmoved(p: Setup, net: Net, net': Net, down: seq<byte>)
    requires GoodSetup(p) && NetOk(net) && NetOk(net') && net.downRead <= |down|
  {
    && net'.downRead <= |down| && ClientHasSent(p, net'.client, net'.up)
    && ClientTotal(p, net'.client, down[net'.downRead..]) == ClientTotal(p, net.client, down[net.downRead..])
  }

  lemma ClientSendsUnmoved(p: Setup, net: Net, n: nat, down: seq<byte>)
    requires GoodSetup(p) && NetOk(net) && net.down <= down && ClientHasSent(p, net.client, net.up) && ClientCanSend(net, n)
    ensures ClientUnmoved(p, net, ClientSend(net, n), down)
  {
    HandingOverKeepsClient(p, net.client, n, net.up, down[net.downRead..]);
  }

  lemma ClientReadsUnmoved(p: Setup, net: Net, n: nat, down: seq<byte>)
    requires GoodSetup(p) && NetOk(net) && net.down <= down && ClientHasSent(p, net.client, net.up) && ClientCanRead(net, n)
    ensures ClientUnmoved(p, net, ClientRead(p, net, n), down)
  {
    hide ClientTotal, ClientReceives, ClientHasSent;
    var b, data := ClientRead(p, net, n), net.down[net.downRead..net.downRead + n];
    assert b.up == net.up && b.client == ClientReceives(p, net.client, data);
    Unread(net.down, down, net.downRead, n);
    ReceivingKeepsClientTotal(p, net.client, data, down[b.downRead..]);
    ReceivingKeepsSent(p, net.client, data, net.up);
  }

  lemma ClientSeesEndUnmoved(p: Setup, net: Net, down: seq<byte>)
    requires GoodSetup(p) && NetOk(net) && net.down == down && ClientHasSent(p, net.client, net.up) && ClientCanSeeEnd(net)
    ensures ClientUnmoved(p, net, ClientSeeEnd(p, net), down)
  {
    assert down[net.downRead..] == [];
    GoingOnKeepsClientTotal(p, net.client, []);
    GoingOnKeepsSent(p, net.client, net.up);
  }

  lemma SendingKeepsServerTotal(p: Setup, q: Server, down: seq<byte>, n: nat, rest: seq<byte>)
    requires ServerOk(q) && q.Writing? && n <= |q.left|
    ensures ServerTotal(p, ServerAnswers(q.c, q.left[n..], q.events, q.go), down + q.left[..n], rest) == ServerTotal(p, q, down, rest)
  {
    TotalOfAnswer(p, q.c, q.left[n..], q.events, q.go, down + q.left[..n], rest);
    assert down + q.left[..n] + q.left[n..] == down + q.left;
    assert down + q.left + [] == down + q.left && q.events + [] == q.events;
  }

  lemma SeeingEndKeepsServerTotal(p: Setup, q: Server, down: seq<byte>)
    requires ServerOk(q) && q.Reading?
    ensures ServerTotal(p, ServerGoesOn(p, q.c, q.got, q.events), down, []) == ServerTotal(p, q, down, [])
  {
    assert q.got + [] == q.got;
    GoingOnKeepsServerTotal(p, q.c, q.got, q.events, down, []);
  }

  // Nor do the dispatcher's.
  ghost predicate ServerUnmoved(p: Setup, net: Net, net': Net, up: seq<byte>)
    requires NetOk(net) && NetOk(net') && net.upRead <= |up|
  {
    && net'.upRead <= |up|
    && ServerTotal(p, net'.server, net'.down, up[net'.upRead..]) == ServerTotal(p, net.server, net.down, up[net.upRead..])
  }

  lemma ServerSendsUnmoved(p: Setup, net: Net, n: nat, up: seq<byte>)
    requires NetOk(net) && net.up <= up && ServerCanSend(net, n)
    ensures ServerUnmoved(p, net, ServerSend(net, n), up)
  {
    SendingKeepsServerTotal(p, net.server, net.down, n, up[net.upRead..]);
  }

  lemma ServerReadsUnmoved(p: Setup, net: Net, n: nat, up: seq<byte>)
    requires NetOk(net) && net.up <= up && ServerCanRead(net, n)
    ensures ServerUnmoved(p, net, ServerRead(p, net, n), up)
  {
    hide ServerTotal, ServerReceives;
    var b, data := ServerRead(p, net, n), net.up[net.upRead..net.upRead + n];
    assert b.down == net.down && b.server == ServerReceives(p, net.server, data);
    Unread(net.up, up, net.upRead, n);
    ReceivingKeepsServerTotal(p, net.server, data, net.down, up[b.upRead..]);
  }

  lemma ServerSeesEndUnmoved(p: Setup, net: Net, up: seq<byte>)
    requires NetOk(net) && net.up == up && ServerCanSeeEnd(net)
    ensures ServerUnmoved(p, net, ServerSeeEnd(p, net), up)
  {
    hide ServerTotal, ServerGoesOn;
    assert up[net.upRead..] == [];
    SeeingEndKeepsServerTotal(p, net.server, net.down);
  }

  lemma NextFollows(p: Setup, a: Net, b: Net, up: seq<byte>, down: seq<byte>)
    requires GoodSetup(p) && Agree(p, up, down) && Follows(p, a, up, down) && Next(p, a, b)
    ensures Follows(p, b, up, down)
  {
    hide ClientHandsOver, ClientReceives, ClientGoesOn, ServerReceives, ServerGoesOn, ServerAnswers, ClientTotal, ServerTotal, ClientHasSent, RequestRide, Serve;
    if n :| ClientCanSend(a, n) && b == ClientSend(a, n) {
      ClientSendsUnmoved(p, a, n, down);
    } else if n :| ClientCanRead(a, n) && b == ClientRead(p, a, n) {
      ClientReadsUnmoved(p, a, n, down);
    } else if ClientCanSeeEnd(a) && b == ClientSeeEnd(p, a) {
      ClientSeesEndUnmoved(p, a, down);
    } else if n :| ServerCanSend(a, n) && b == ServerSend(a, n) {
      ServerSendsUnmoved(p, a, n, up);
    } else if n :| ServerCanRead(a, n) && b == ServerRead(p, a, n) {
      ServerReadsUnmoved(p, a, n, up);
    } else {
      ServerSeesEndUnmoved(p, a, up);
    }
    ClientSendsItsTotal(p, b.client, b.up, down[b.downRead..]);
    ServerSendsItsTotal(p, b.server, b.down, up[b.upRead..]);
  }

  lemma BeginningFollows(p: Setup, up: seq<byte>, down: seq<byte>)
    requires GoodSetup(p) && Agree(p, up, down)
    ensures Follows(p, Beginning(p), up, down)
  {
    hide RequestRide, Serve;
    assert down[0..] == down && up[0..] == up && [] + up == up && [] + HelloBytes(p) == HelloBytes(p);
    var all := Serve(p.start, up, p.keys, p.svc);
    assert [] + all.out == all.out && [] + all.events == all.events;
  }

  // Whatever the interleaving and the pieces: what either end has sent is always the
  // beginning of the one stream, and an end that is done has sent, seen and done exactly
  // what it would have, had all of the other stream been there from the start.
  lemma {:induction false} EveryConversationFollows(p: Setup, trace: seq<Net>, up: seq<byte>, down: seq<byte>)
    requires GoodSetup(p) && Interleaving(p, trace) && Agree(p, up, down)
    ensures var net := trace[|trace| - 1];
            && Follows(p, net, up, down)
            && (net.client.ClientDone? ==> net.up == up && net.client.end == RequestRide(p.a, p.client, p.coords, p.s, down))
            && (net.server.ServerDone? ==> net.down == down && net.server.events == Serve(p.start, up, p.keys, p.svc).events)
  {
    var n := |trace| - 1;
    if n == 0 {
      BeginningFollows(p, up, down);
    } else {
      assert Interleaving(p, trace[..n]);
      EveryConversationFollows(p, trace[..n], up, down);
      NextFollows(p, trace[n - 1], trace[n], up, down);
    }
  }
}
