// A session over blocking channels ends: neither end waits for ever, the number of moves
// is bounded, and when both are done the client holds the dispatcher's reply.
module ConversationEnds {
  import opened Bytes
  import opened Checksum
  import opened DhCrypto
  import opened Protocol
  import opened Session
  import opened Conversation

  const HELLO_LENGTH: nat := HEADER_SIZE + PUBLIC_KEY_SIZE
  const UP_LENGTH: nat := HELLO_LENGTH + HEADER_SIZE + REQUEST_SIZE

  function SessionKeyOf(p: Setup): string {
    AgreedKey(p.a, p.keys(0))
  }

  function RequestBytes(p: Setup): seq<byte>
    requires GoodSetup(p)
  {
    MessageBytes(Request(p.client, p.coords, SessionKeyOf(p)))
  }

  function AckBytes(p: Setup): seq<byte> {
    MessageBytes(HelloAck(p.keys(0)))
  }

  // The two streams of a session.
  function Up(p: Setup): seq<byte>
    requires GoodSetup(p)
  {
    HelloBytes(p) + RequestBytes(p)
  }

  function Down(p: Setup): seq<byte>
    requires GoodSetup(p)
  {
    Serve(p.start, Up(p), p.keys, p.svc).out
  }

  lemma UpAndDownAgree(p: Setup)
    requires GoodSetup(p)
    ensures Agree(p, Up(p), Down(p))
    ensures |HelloBytes(p)| == |AckBytes(p)| == HELLO_LENGTH && |Up(p)| == UP_LENGTH && AckBytes(p) <= Down(p)
    ensures |RequestBytes(p)| == UP_LENGTH - HELLO_LENGTH
  {
    var b := p.keys(0);
    var more := Serve(AfterHello(p.start, p.a, b), RequestBytes(p), p.keys, p.svc).out;
    HelloEstablishesKey(p.start, p.a, RequestBytes(p), p.keys, p.svc);
    ClientProceeds(p.a, b, p.client, p.coords, p.s, more);
    ReadReplySends(p, SessionKeyOf(p), more);
  }

  // ---------------------------------------------------------------------------
  // Where the two ends are
  // ---------------------------------------------------------------------------

  // The messages of the handshake and the request, and the dispatcher's locals before and
  // after the hello.
  datatype Script = Script(hello: seq<byte>, request: seq<byte>, ack: seq<byte>, start: Conn, after: Conn)

  function ScriptOf(p: Setup): Script
    requires GoodSetup(p)
  {
    Script(HelloBytes(p), RequestBytes(p), AckBytes(p), p.start, AfterHello(p.start, p.a, p.keys(0)))
  }

  // The dispatcher, by the number of bytes it has read.
  predicate ServerThere(x: Script, q: Server, read: nat, down: seq<byte>) {
    match q
    case Reading(c, got, _) =>
      if read < HELLO_LENGTH then c == x.start && |x.hello| == HELLO_LENGTH && got == x.hello[..read] && down == []
      else
        && read < UP_LENGTH && c == x.after && down == x.ack
        && |x.request| == UP_LENGTH - HELLO_LENGTH && got == x.request[..read - HELLO_LENGTH]
    case Writing(c, left, _, go) =>
      if go then read == HELLO_LENGTH && c == x.after && down + left == x.ack
      else read == UP_LENGTH
    case ServerDone(_) => read == UP_LENGTH
  }

  // The client, while it is in the handshake.
  predicate ClientThere(cl: Client, read: nat) {
    match cl
    case SendingHello(_) => read == 0
    case AwaitingAck(got) => read == |got|
    case AwaitingKey(got) => read == HEADER_SIZE + |got|
    case _ => true
  }

  predicate BothThere(x: Script, net: Net) {
    ClientThere(net.client, net.downRead) && ServerThere(x, net.server, net.upRead, net.down)
  }

  // What an end has sent that is done, and what the client has sent that waits.
  predicate SentEnough(net: Net) {
    && (net.client.AwaitingAck? || net.client.AwaitingKey? ==> |net.up| == HELLO_LENGTH)
    && (net.client.AwaitingReply? || net.client.AwaitingBody? || net.client.ClientDone? ==> |net.up| == UP_LENGTH)
    && (net.server.ServerDone? ==> |net.down| >= HELLO_LENGTH)
  }

  predicate There(p: Setup, net: Net)
    requires GoodSetup(p)
  {
    Follows(p, net, Up(p), Down(p)) && BothThere(ScriptOf(p), net)
  }

  lemma ThereSentEnough(p: Setup, net: Net)
    requires GoodSetup(p) && There(p, net)
    ensures SentEnough(net)
  {
    UpAndDownAgree(p);
    var cl := net.client;
    if cl.AwaitingReply? || cl.AwaitingBody? {
      assert net.up == UpBytes(p, cl.key);
      assert |MessageBytes(Request(p.client, p.coords, cl.key))| == HEADER_SIZE + REQUEST_SIZE;
    }
  }

  lemma PrefixOfMessage(m: Message, k: nat)
    requires Sendable(m) && k <= |MessageBytes(m)|
    ensures var got := MessageBytes(m)[..k];
            && (Complete(got) <==> k == |MessageBytes(m)|)
            && (!Complete(got) ==> ServerWants(got) <= |MessageBytes(m)| - k)
  {
    HeaderRoundTrip(m.header);
    if k >= HEADER_SIZE {
      assert MessageBytes(m)[..k][..HEADER_SIZE] == HeaderBytes(m.header);
    }
  }

  lemma HelloIsSendable(p: Setup)
    ensures Sendable(Hello(p.a)) && |HelloBytes(p)| == HELLO_LENGTH
  {
    PowersOf256();
  }

  // The hello is complete: the dispatcher answers it.
  lemma HelloIsAnswered(p: Setup, events: seq<Event>)
    requires GoodSetup(p)
    ensures ServerThere(ScriptOf(p), ServerGoesOn(p, p.start, HelloBytes(p), events), HELLO_LENGTH, [])
  {
    UpAndDownAgree(p);
    HelloIsSendable(p);
    FrameOfMessage(p.start.bufs, Hello(p.a), []);
    assert HelloBytes(p) + [] == HelloBytes(p) && [] + AckBytes(p) == AckBytes(p);
    HelloTurn(p.start, p.a, p.keys(0), p.svc);
    assert AfterHello(p.start, p.a, p.keys(0)).bufs == Frame(p.start.bufs, HelloBytes(p)).bufs;
  }

  // The request is complete: whatever becomes of it, the dispatcher reads no more.
  lemma RequestIsTheLast(p: Setup, events: seq<Event>)
    requires GoodSetup(p)
    ensures var q := ServerGoesOn(p, AfterHello(p.start, p.a, p.keys(0)), RequestBytes(p), events);
            q.ServerDone? || (q.Writing? && !q.go)
  {
    var c, m := AfterHello(p.start, p.a, p.keys(0)), Request(p.client, p.coords, SessionKeyOf(p));
    RequestFitsFields(p.client, p.coords, SessionKeyOf(p));
    FrameOfMessage(c.bufs, m, []);
    assert RequestBytes(p) + [] == RequestBytes(p);
  }

  lemma BeginningIsThere(p: Setup)
    requires GoodSetup(p)
    ensures There(p, Beginning(p))
  {
    UpAndDownAgree(p);
    BeginningFollows(p, Up(p), Down(p));
    assert HelloBytes(p)[..0] == [];
  }

  // ---------------------------------------------------------------------------
  // Every move leaves them where they should be
  // ---------------------------------------------------------------------------

  lemma ClientReadStays(p: Setup, cl: Client, data: seq<byte>, read: nat)
    requires GoodSetup(p) && ClientOk(cl) && ClientAwaits(cl) && |cl.got| + |data| <= ClientGoal(cl) && ClientThere(cl, read)
    ensures ClientThere(ClientReceives(p, cl, data), read + |data|)
  {}

  // The dispatcher has not closed while the client is in the handshake.
  lemma NoEndInHandshake(p: Setup, net: Net)
    requires GoodSetup(p) && NetOk(net) && ClientThere(net.client, net.downRead) && SentEnough(net) && ClientCanSeeEnd(net)
    ensures ClientThere(ClientSeeEnd(p, net).client, net.downRead)
  {
    hide ReadReplyBody, ParseHeader, Overwrite;
  }

  lemma ServerSendIsThere(x: Script, net: Net, n: nat)
    requires NetOk(net) && BothThere(x, net) && ServerCanSend(net, n) && |x.request| == UP_LENGTH - HELLO_LENGTH
    ensures BothThere(x, ServerSend(net, n))
  {
    hide ClientThere;
    var left, down := net.server.left, net.down;
    assert down + left[..n] + left[n..] == down + left;
    assert left[n..] == [] ==> left[..n] == left;
    assert x.request[..0] == [];
  }

  lemma ServerNeverSeesEnd(x: Script, net: Net)
    requires NetOk(net) && BothThere(x, net) && SentEnough(net)
    ensures !ServerCanSeeEnd(net)
  {}

  // The dispatcher reads on in the hello, or in the request.
  lemma HelloReadIsThere(p: Setup, x: Script, q: Server, read: nat, n: nat)
    requires GoodSetup(p) && x == ScriptOf(p) && ServerOk(q) && q.Reading? && q.c == x.start && 0 < n <= ServerWants(q.got)
    requires read < |x.hello| == HELLO_LENGTH && q.got == x.hello[..read]
    ensures read + n <= HELLO_LENGTH && ServerThere(x, ServerReceives(p, q, x.hello[read..read + n]), read + n, [])
  {
    hide ServerGoesOn, AckBytes, RequestBytes;
    HelloIsSendable(p);
    PrefixOfMessage(Hello(p.a), read);
    PrefixOfMessage(Hello(p.a), read + n);
    assert q.got + x.hello[read..read + n] == x.hello[..read + n];
    if read + n == HELLO_LENGTH {
      assert x.hello[..read + n] == x.hello;
      HelloIsAnswered(p, q.events);
    }
  }

  lemma RequestReadIsThere(p: Setup, x: Script, q: Server, k: nat, n: nat)
    requires GoodSetup(p) && x == ScriptOf(p) && ServerOk(q) && q.Reading? && q.c == x.after && 0 < n <= ServerWants(q.got)
    requires k < |x.request| == UP_LENGTH - HELLO_LENGTH && q.got == x.request[..k]
    ensures k + n <= |x.request|
    ensures ServerThere(x, ServerReceives(p, q, x.request[k..k + n]), HELLO_LENGTH + k + n, x.ack)
  {
    hide ServerGoesOn, AckBytes, HelloBytes, AfterHello;
    var m := Request(p.client, p.coords, SessionKeyOf(p));
    RequestFitsFields(p.client, p.coords, SessionKeyOf(p));
    PrefixOfMessage(m, k);
    PrefixOfMessage(m, k + n);
    assert q.got + x.request[k..k + n] == x.request[..k + n];
    if k + n == |x.request| {
      assert x.request[..k + n] == x.request;
      RequestIsTheLast(p, q.events);
    }
  }

  lemma ServerReadIsThere(p: Setup, x: Script, net: Net, n: nat)
    requires GoodSetup(p) && x == ScriptOf(p) && NetOk(net) && net.up <= x.hello + x.request && BothThere(x, net) && ServerCanRead(net, n)
    ensures BothThere(x, ServerRead(p, net, n))
  {
    hide ServerReceives, ScriptOf, ClientThere;
    var read, data := net.upRead, net.up[net.upRead..net.upRead + n];
    assert data == (x.hello + x.request)[read..read + n];
    if read < HELLO_LENGTH {
      HelloReadIsThere(p, x, net.server, read, n);
      assert data == x.hello[read..read + n];
    } else {
      var k := read - HELLO_LENGTH;
      SizesOfScript(p);
      RequestReadIsThere(p, x, net.server, k, n);
      assert data == x.request[k..k + n];
    }
  }

  lemma SizesOfScript(p: Setup)
    requires GoodSetup(p)
    ensures |ScriptOf(p).hello| == HELLO_LENGTH
  {
    HelloIsSendable(p);
  }

  lemma ClientReadIsThere(p: Setup, x: Script, net: Net, n: nat)
    requires GoodSetup(p) && NetOk(net) && BothThere(x, net) && ClientCanRead(net, n)
    ensures BothThere(x, ClientRead(p, net, n))
  {
    hide ClientReceives, ServerThere, ClientThere;
    var data := net.down[net.downRead..net.downRead + n];
    assert |data| == n;
    ClientReadStays(p, net.client, data, net.downRead);
  }

  lemma NextIsThere(p: Setup, a: Net, b: Net)
    requires GoodSetup(p) && There(p, a) && Next(p, a, b)
    ensures There(p, b)
  {
    hide ClientReceives, ClientGoesOn, ServerReceives, ServerGoesOn, ServerAnswers, ClientFollows, ServerFollows, Agree, ServerThere, SentEnough, Down, NetOk;
    var x := ScriptOf(p);
    UpAndDownAgree(p);
    ThereSentEnough(p, a);
    NextFollows(p, a, b, Up(p), Down(p));
    if n :| ClientCanSend(a, n) && b == ClientSend(a, n) {
    } else if n :| ClientCanRead(a, n) && b == ClientRead(p, a, n) {
      ClientReadIsThere(p, x, a, n);
    } else if ClientCanSeeEnd(a) && b == ClientSeeEnd(p, a) {
      NoEndInHandshake(p, a);
    } else if n :| ServerCanSend(a, n) && b == ServerSend(a, n) {
      ServerSendIsThere(x, a, n);
    } else if n :| ServerCanRead(a, n) && b == ServerRead(p, a, n) {
      ServerReadIsThere(p, x, a, n);
    } else {
      ServerNeverSeesEnd(x, a);
    }
  }

  lemma {:induction false} EveryNetIsThere(p: Setup, trace: seq<Net>)
    requires GoodSetup(p) && Interleaving(p, trace)
    ensures There(p, trace[|trace| - 1])
  {
    var n := |trace| - 1;
    if n == 0 {
      BeginningIsThere(p);
    } else {
      assert Interleaving(p, trace[..n]);
      EveryNetIsThere(p, trace[..n]);
      NextIsThere(p, trace[n - 1], trace[n]);
    }
  }

  // ---------------------------------------------------------------------------
  // Nobody waits for ever
  // ---------------------------------------------------------------------------

  predicate Finished(net: Net) {
    net.client.ClientDone? && net.server.ServerDone?
  }

  // If the dispatcher waits for bytes that have not been sent, the client has an
  // acknowledgement to read or something to send.
  lemma NotBothWait(x: Script, net: Net)
    requires NetOk(net) && BothThere(x, net) && SentEnough(net) && |x.ack| == HELLO_LENGTH
    requires ClientAwaits(net.client) && net.server.Reading?
    ensures net.downRead < |net.down| || net.upRead < |net.up|
  {}

  lemma SomeoneCanMove(p: Setup, x: Script, net: Net) returns (b: Net)
    requires GoodSetup(p) && NetOk(net) && BothThere(x, net) && SentEnough(net) && |x.ack| == HELLO_LENGTH && !Finished(net)
    ensures Next(p, net, b)
  {
    hide ServerThere, ClientThere, SentEnough, ClientReceives, ServerReceives, ClientGoesOn, ServerGoesOn;
    if ClientSending(net.client) {
      assert ClientCanSend(net, 1);
      b := ClientSend(net, 1);
    } else if net.server.Writing? {
      assert ServerCanSend(net, 1);
      b := ServerSend(net, 1);
    } else if net.server.Reading? && net.upRead < |net.up| {
      assert ServerCanRead(net, 1);
      b := ServerRead(p, net, 1);
    } else if ClientAwaits(net.client) && net.downRead < |net.down| {
      assert ClientCanRead(net, 1);
      b := ClientRead(p, net, 1);
    } else if ClientAwaits(net.client) && net.server.ServerDone? {
      b := ClientSeeEnd(p, net);
    } else if ClientAwaits(net.client) {
      NotBothWait(x, net);
      assert false;
    } else {
      ServerNeverSeesEnd(x, net);
      assert false;
    }
  }

  // ---------------------------------------------------------------------------
  // The number of moves
  // ---------------------------------------------------------------------------

  function ClientRank(cl: Client): nat {
    match cl
    case SendingHello(_) => 6
    case AwaitingAck(_) => 5
    case AwaitingKey(_) => 4
    case SendingRequest(_, _) => 3
    case AwaitingReply(_, _) => 2
    case AwaitingBody(_, _, _) => 1
    case ClientDone(_) => 0
  }

  function ServerRank(q: Server): nat {
    if !q.Reading? then 0 else if q.got == [] then 1 else 2
  }

  // Bytes still to be sent and to be read, of so many in all, and then the stages to come.
  function Togo(net: Net, up: nat, down: nat): int {
    3 * (up - |net.up| + up - net.upRead + down - |net.down| + down - net.downRead) + ClientRank(net.client) + ServerRank(net.server)
  }

  lemma GoingOnLowersRank(p: Setup, cl: Client)
    requires GoodSetup(p) && ClientAwaits(cl) && |cl.got| <= ClientGoal(cl)
    requires cl.AwaitingReply? || cl.AwaitingBody? ==> UsableKey(cl.key)
    requires cl.AwaitingBody? ==> 0 < cl.h.length < MAX_BODY
    ensures ClientRank(ClientGoesOn(p, cl)) < ClientRank(cl)
  {
    hide ReadReplyBody, HandshakeFailed, ParseHeader, Overwrite, UpBytes;
  }

  lemma ReceivingKeepsRank(p: Setup, cl: Client, data: seq<byte>)
    requires GoodSetup(p) && ClientOk(cl) && ClientAwaits(cl) && |cl.got| + |data| <= ClientGoal(cl)
    ensures ClientRank(ClientReceives(p, cl, data)) <= ClientRank(cl)
  {
    hide ClientGoesOn;
    var cl' := cl.(got := cl.got + data);
    if |cl'.got| == ClientGoal(cl') {
      GoingOnLowersRank(p, cl');
    }
  }

  lemma NextComesCloser(p: Setup, x: Script, a: Net, b: Net, up: nat, down: nat)
    requires GoodSetup(p) && NetOk(a) && BothThere(x, a) && SentEnough(a) && Next(p, a, b)
    ensures Togo(b, up, down) < Togo(a, up, down)
  {
    hide ClientReceives, ClientGoesOn, ServerReceives, ServerGoesOn, ServerThere, ClientThere, SentEnough;
    if n :| ClientCanSend(a, n) && b == ClientSend(a, n) {
    } else if n :| ClientCanRead(a, n) && b == ClientRead(p, a, n) {
      ReceivingKeepsRank(p, a.client, a.down[a.downRead..a.downRead + n]);
    } else if ClientCanSeeEnd(a) && b == ClientSeeEnd(p, a) {
      GoingOnLowersRank(p, a.client);
    } else if n :| ServerCanSend(a, n) && b == ServerSend(a, n) {
    } else if n :| ServerCanRead(a, n) && b == ServerRead(p, a, n) {
    } else {
      ServerNeverSeesEnd(x, a);
    }
  }

  lemma {:induction false} MovesAreBounded(p: Setup, trace: seq<Net>)
    requires GoodSetup(p) && Interleaving(p, trace)
    ensures There(p, trace[|trace| - 1])
    ensures |trace| - 1 + Togo(trace[|trace| - 1], |Up(p)|, |Down(p)|) <= 6 * (|Up(p)| + |Down(p)|) + 7
  {
    hide Follows, ClientThere, ServerThere, Up, Down, ScriptOf;
    EveryNetIsThere(p, trace);
    var n := |trace| - 1;
    if n > 0 {
      assert Interleaving(p, trace[..n]);
      MovesAreBounded(p, trace[..n]);
      ThereSentEnough(p, trace[n - 1]);
      NextComesCloser(p, ScriptOf(p), trace[n - 1], trace[n], |Up(p)|, |Down(p)|);
    }
  }

  // ---------------------------------------------------------------------------
  // The whole session
  // ---------------------------------------------------------------------------

  // For every setup and every conversation, whatever the services answer: neither end
  // waits for ever, the number of moves is bounded, and an end that is done has done what
  // it does with the other's whole stream there from the start.
  lemma EveryConversationEnds(p: Setup, trace: seq<Net>) returns (next: Net)
    requires GoodSetup(p) && Interleaving(p, trace)
    ensures |trace| <= 6 * (|Up(p)| + |Down(p)|) + 8
    ensures var net := trace[|trace| - 1];
            && (!Finished(net) ==> Next(p, net, next))
            && net.up <= Up(p) && net.down <= Down(p)
            && (net.client.ClientDone? ==> net.up == Up(p) && net.client.end == RequestRide(p.a, p.client, p.coords, p.s, Down(p)))
            && (net.server.ServerDone? ==> net.down == Down(p) && net.server.events == Serve(p.start, Up(p), p.keys, p.svc).events)
  {
    var net := trace[|trace| - 1];
    UpAndDownAgree(p);
    MovesAreBounded(p, trace);
    EveryConversationFollows(p, trace, Up(p), Down(p));
    next := net;
    if !Finished(net) {
      ThereSentEnough(p, net);
      next := SomeoneCanMove(p, ScriptOf(p), net);
    }
  }

  // When the services answer with a reply: every conversation that is finished ends with
  // the request served under the agreed key and that exact reply at the client.
  lemma ReplyArrives(p: Setup, trace: seq<Net>, text: seq<byte>)
    requires GoodSetup(p) && Interleaving(p, trace) && Finished(trace[|trace| - 1])
    requires p.svc(p.client) == Reply(text) && CText(text) && text != []
    ensures var net, key := trace[|trace| - 1], SessionKeyOf(p);
            && net.up == UpStream(p.a, p.keys(0), p.client, p.coords) && net.down == DownStream(p.a, p.keys(0), text)
            && net.server.events == [KeyAgreed(key), RideServed(p.client, RequestBody(p.client, p.coords))]
            && IsRequestOf(RequestBody(p.client, p.coords), p.client, p.coords)
            && net.client.end == ClientEnd(net.up, CodeOf(text), LeftWith(p.s.message, text))
            && UpToNul(net.client.end.message) == text
  {
    var _ := EveryConversationEnds(p, trace);
    SessionEndToEnd(p.a, p.client, p.coords, p.s, p.start, text, p.keys, p.svc);
  }
}
