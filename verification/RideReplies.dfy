// From the ride section to the client's return code: the text of the reply
// (src/server/ride_service.c, lines 57-73), how the client classifies it
// (src/client/client_core.c, lines 164-172), and the session with the services in place
// (src/server/dispatcher.c, lines 79-101).
module RideReplies {
  import opened Bytes
  import opened GridMap
  import opened DhCrypto
  import opened Session
  import opened Conversation
  import opened ConversationEnds
  import opened Fleet
  import opened FleetInvariants
  import opened FleetRuns
  import LateReads
  import Locking

  // ---------------------------------------------------------------------------
  // The text
  // ---------------------------------------------------------------------------

  // printf's %.1f of a rating in tenths.
  function Tenths(n: int): string {
    (if n < 0 then "-" else "") + Digits(Abs(n) / 10) + "." + [Digit(Abs(n) % 10)]
  }

  function Joined(parts: seq<string>): string {
    if parts == [] then "" else parts[0] + Joined(parts[1..])
  }

  // `dist` prints a distance, given squared, with %.4f.
  function ReplyParts(r: Reply, dist: int -> string): seq<string> {
    match r
    case NoDrivers => ["Error: No drivers available."]
    case Confirmed(id, rating, distSq, smart) =>
      ["Ride Confirmed!", " Driver ID: ", Decimal(id), " (Rating: ", Tenths(rating), ", Dist: ", dist(distSq),
       ") [Mode: ", if smart then "SMART" else "BASIC", "]"]
  }

  function ReplyText(r: Reply, dist: int -> string): string {
    Joined(ReplyParts(r, dist))
  }

  // snprintf into the reply buffer, which cuts a longer text short.
  function Printed(text: string): seq<byte> {
    Ascii(if |text| < REPLY_BUFFER then text else text[..REPLY_BUFFER - 1])
  }

  predicate PlainText(text: string) {
    forall i :: 0 <= i < |text| ==> 0 < text[i] as int < 128
  }

  lemma {:induction false} JoinedIsPlain(parts: seq<string>)
    requires forall i :: 0 <= i < |parts| ==> PlainText(parts[i])
    ensures PlainText(Joined(parts))
  {
    if parts != [] {
      JoinedIsPlain(parts[1..]);
    }
  }

  lemma DecimalIsPlain(n: int)
    ensures PlainText(Decimal(n))
  {
    DigitsAreDigits(Abs(n));
  }

  lemma TenthsArePlain(n: int)
    ensures PlainText(Tenths(n))
  {
    DigitsAreDigits(Abs(n) / 10);
    DigitsAreDigits(Abs(n) % 10);
    assert Digits(Abs(n) % 10) == [Digit(Abs(n) % 10)];
  }

  lemma WordsArePlain(smart: bool)
    ensures PlainText("Ride Confirmed!") && PlainText(" Driver ID: ") && PlainText(" (Rating: ") && PlainText(", Dist: ")
    ensures PlainText(") [Mode: ") && PlainText(if smart then "SMART" else "BASIC") && PlainText("]")
  {}

  lemma NoDriversIsPlain()
    ensures PlainText("Error: No drivers available.")
  {}

  lemma ReplyTextIsPlain(r: Reply, dist: int -> string)
    requires forall n :: PlainText(dist(n))
    ensures PlainText(ReplyText(r, dist))
  {
    if r.Confirmed? {
      DecimalIsPlain(r.id);
      TenthsArePlain(r.rating);
      WordsArePlain(r.smart);
    } else {
      NoDriversIsPlain();
    }
    JoinedIsPlain(ReplyParts(r, dist));
  }

  // What is printed is as much of the text as goes into 255 characters.
  lemma PrintedIsPrefix(text: string)
    requires PlainText(text)
    ensures |Printed(text)| == if |text| <= 255 then |text| else 255
    ensures forall i :: 0 <= i < |Printed(text)| ==> Printed(text)[i] == text[i] as int
  {}

  lemma PrintedIsCText(text: string)
    requires PlainText(text)
    ensures CText(Printed(text))
  {}

  // The source prints the id, the rating and the mode from loads made one by one after the
  // unlock, each at a time of its own (positions i, j and m of the trace), and only the
  // distance from a local variable. The text is that of the reply as it was chosen.
  lemma LateReplyIsTheReply(g: Grid, s0: FleetState, trace: seq<Locking.System>, t: int, lo: nat, hi: nat,
                            i: nat, j: nat, m: nat, dist: int -> string)
    requires LateReads.Lingers(g, s0, trace, t, lo, hi) && lo <= i <= hi && lo <= j <= hi && lo <= m <= hi
    ensures var op, k, at := trace[lo].threads[t].op, trace[lo].threads[t].result.index, trace[lo].threads[t].at;
            && op.RideOp? && 0 <= k < MAX_DRIVERS && at < |trace[lo].log|
            && WellFormed(trace[i].shared) && WellFormed(trace[j].shared) && WellFormed(trace[m].shared)
            && var seen := Run(g, s0, trace[lo].log[..at]);
               ReplyText(Confirmed(trace[i].shared.drivers[k].id, trace[j].shared.drivers[k].rating, DistSq(seen.drivers[k]),
                                   trace[m].shared.mode == 1), dist)
               == ReplyText(RideReply(seen, op.client), dist)
  {
    LateReads.OwnSection(g, s0, trace, t, lo, hi, lo);
    LateReads.LoadsSeeTheSection(g, s0, trace, t, lo, hi, i);
    LateReads.LoadsSeeTheSection(g, s0, trace, t, lo, hi, j);
    LateReads.LoadsSeeTheSection(g, s0, trace, t, lo, hi, m);
  }

  // ---------------------------------------------------------------------------
  // The client's code for it
  // ---------------------------------------------------------------------------

  lemma {:induction false} ContainedBeginsSomewhere(text: seq<byte>, part: seq<byte>)
    requires Contains(text, part) && part != []
    ensures part[0] in text
  {
    if |part| <= |text| && text[..|part|] == part {
      assert text[0] == text[..|part|][0];
    } else {
      ContainedBeginsSomewhere(text[1..], part);
    }
  }

  lemma ConfirmedIsZero(text: seq<byte>)
    requires Ascii("Ride Confirmed!") <= text
    ensures CodeOf(text) == 0
  {}

  lemma AsciiLacks(text: string, c: char)
    requires PlainText(text) && c !in text && c as int < 128
    ensures c as int !in Ascii(text)
  {
    forall i | 0 <= i < |text|
      ensures Ascii(text)[i] != c as int
    {
      assert text[i] in text;
    }
  }

  lemma LacksBeginning(text: string, part: string)
    requires PlainText(text) && part != "" && part[0] as int < 128 && part[0] !in text
    ensures !Contains(Ascii(text), Ascii(part))
  {
    hide Contains;
    AsciiLacks(text, part[0]);
    if Contains(Ascii(text), Ascii(part)) {
      ContainedBeginsSomewhere(Ascii(text), Ascii(part));
    }
  }

  lemma NoDriversIsMinusOne()
    ensures CodeOf(Ascii("Error: No drivers available.")) == -1
  {
    hide Contains, Ascii;
    var text := "Error: No drivers available.";
    NoDriversIsPlain();
    assert 'R' !in text && 'B' !in text;
    LacksBeginning(text, "Ride Confirmed!");
    LacksBeginning(text, "Blocked.");
  }

  // A confirmation in full.
  lemma ConfirmedText(id: int, rating: int, distSq: int, smart: bool, dist: int -> string)
    ensures ReplyText(Confirmed(id, rating, distSq, smart), dist)
         == "Ride Confirmed! Driver ID: " + Decimal(id) + " (Rating: " + Tenths(rating)
            + (", Dist: " + dist(distSq) + ") [Mode: " + (if smart then "SMART" else "BASIC") + "]")
  {
    var parts := ReplyParts(Confirmed(id, rating, distSq, smart), dist);
    JoinedOfFive(parts[..5], parts[5..]);
    JoinedOfFive(parts[5..], []);
    assert parts == parts[..5] + parts[5..] && parts[5..] == parts[5..] + [];
    FirstWords();
  }

  lemma FirstWords()
    ensures "Ride Confirmed!" + " Driver ID: " == "Ride Confirmed! Driver ID: "
  {}

  lemma JoinedOfFive(p: seq<string>, rest: seq<string>)
    requires |p| == 5
    ensures Joined(p + rest) == p[0] + p[1] + p[2] + p[3] + p[4] + Joined(rest)
  {
    var all := p + rest;
    forall i | 0 <= i < 5
      ensures Joined(all[i..]) == p[i] + Joined(all[i + 1..])
    {
      assert all[i..][1..] == all[i + 1..];
    }
    assert all == all[0..] && rest == all[5..];
  }

  // A rating is printed as its whole part, a point and its tenth.
  lemma TenthsReadBack(n: int)
    ensures var text := if n < 0 then Tenths(n)[1..] else Tenths(n);
            && (n < 0 ==> Tenths(n)[..1] == "-")
            && |text| >= 3 && text[|text| - 2] == '.'
            && IsNumeral(text[..|text| - 2])
            && 10 * ReadDigits(text[..|text| - 2]) + (text[|text| - 1] as int - 48) == Abs(n)
  {
    DigitsReadBack(Abs(n) / 10);
    DigitCode(Abs(n) % 10);
    hide Digits, Digit, IsNumeral, ReadDigits;
    var text := if n < 0 then Tenths(n)[1..] else Tenths(n);
    assert text == Digits(Abs(n) / 10) + "." + [Digit(Abs(n) % 10)];
    assert text[..|text| - 2] == Digits(Abs(n) / 10);
  }

  lemma BlockedIsMinusTwo()
    ensures CodeOf(Ascii("Error: Blocked.")) == -2
  {
    hide Contains, Ascii;
    BlockedIsPlain();
    assert 'R' !in "Error: Blocked.";
    LacksBeginning("Error: Blocked.", "Ride Confirmed!");
    ContainedAt("Error: ", "Blocked.");
    assert "Error: " + "Blocked." == "Error: Blocked.";
  }

  lemma BlockedIsPlain()
    ensures PlainText("Error: Blocked.")
  {}

  lemma {:induction false} ContainedAt(before: string, part: string)
    ensures Contains(Ascii(before + part), Ascii(part))
  {
    if before == "" {
      assert before + part == part;
    } else {
      ContainedAt(before[1..], part);
      assert (before + part)[1..] == before[1..] + part;
      assert Ascii(before + part)[1..] == Ascii(before[1..] + part);
    }
  }

  // The client's code says which reply it was.
  lemma CodeOfReply(r: Reply, dist: int -> string)
    ensures CodeOf(Printed(ReplyText(r, dist))) == if r.Confirmed? then 0 else -1
  {
    var parts := ReplyParts(r, dist);
    assert Joined(parts) == parts[0] + Joined(parts[1..]);
    if r.Confirmed? {
      assert Ascii("Ride Confirmed!") <= Printed(ReplyText(r, dist));
      ConfirmedIsZero(Printed(ReplyText(r, dist)));
    } else {
      assert parts[1..] == [] && Joined(parts) == parts[0];
      NoDriversIsMinusOne();
    }
  }

  // ---------------------------------------------------------------------------
  // The session with the services in place
  // ---------------------------------------------------------------------------

  // What the dispatcher answers: the rate check at state s1 and clock reading `now`, and,
  // if it passes, the ride request at state s2.
  function Service(s1: FleetState, now: int, s2: FleetState, dist: int -> string): int -> ServiceReply
    requires WellFormed(s1) && WellFormed(s2)
  {
    (client: int) =>
      if Spam(RateCheck(s1, client, now), client) then Refused
      else ServiceReply.Reply(Printed(ReplyText(RideReply(s2, client), dist)))
  }

  // A whole session against the services, for every pair of states they find and however
  // the two ends are interleaved: the client ends with the text that the ride section
  // printed, and returns 0 if that section chose a driver and -1 if it did not; in a sound
  // state it returns 0 if and only if some driver was available with fuel.
  lemma RideOutcome(p: Setup, trace: seq<Net>, s1: FleetState, now: int, s2: FleetState, dist: int -> string, g: Grid)
    requires GoodSetup(p) && WellFormed(s1) && WellFormed(s2) && forall n :: PlainText(dist(n))
    requires p.svc == Service(s1, now, s2, dist) && !Spam(RateCheck(s1, p.client, now), p.client)
    requires Interleaving(p, trace) && Finished(trace[|trace| - 1])
    ensures var net, text := trace[|trace| - 1], Printed(ReplyText(RideReply(s2, p.client), dist));
            && net.server.events == [KeyAgreed(SessionKeyOf(p)), RideServed(p.client, RequestBody(p.client, p.coords))]
            && UpToNul(net.client.end.message) == text
            && net.client.end.code == (if Choose(s2, IsVip(p.client)) != -1 then 0 else -1)
            && (CitySized(g) && Sound(g, s2) ==>
                  (net.client.end.code == 0 <==> exists i :: 0 <= i < s2.count && Available(s2.drivers[i]) && s2.drivers[i].fuel > 0))
  {
    var r := RideReply(s2, p.client);
    var text := Printed(ReplyText(r, dist));
    ReplyTextIsPlain(r, dist);
    PrintedIsCText(ReplyText(r, dist));
    CodeOfReply(r, dist);
    assert text != [];
    ReplyArrives(p, trace, text);
    if CitySized(g) && Sound(g, s2) {
      NobodyFoundMeansNobodyFree(g, s2, IsVip(p.client));
    }
  }
}
