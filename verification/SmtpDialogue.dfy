/**
 The SMTP session as a client sees it (src/webmail/mailserver.cc:163-262; sections 3.3 and
 4.1.4 of RFC 5321): which replies each command draws, told by the commands and replies
 before it, and what a whole dialogue from the greeting on does.
 */
module SmtpDialogue {
  import opened Basics
  import opened SmtpSession

  // ------------------------------------------------------ commands and replies

  datatype Verb =
    | HELO(argument: string) | MAIL(argument: string) | RCPT(argument: string)
    | DATA | QUIT | RSET | NOOP | Unknown

  /** The command a line is, in upper or in lower case. */
  function VerbOf(line: string): Verb {
    if StartsWith(line, "HELO ") || StartsWith(line, "helo ") then HELO(line[5..])
    else if StartsWith(line, "MAIL FROM:") || StartsWith(line, "mail from:") then MAIL(line[10..])
    else if StartsWith(line, "RCPT TO:") || StartsWith(line, "rcpt to:") then RCPT(line[8..])
    else if StartsWith(line, "DATA") || StartsWith(line, "data") then DATA
    else if StartsWith(line, "QUIT") || StartsWith(line, "quit") then QUIT
    else if StartsWith(line, "RSET") || StartsWith(line, "rset") then RSET
    else if StartsWith(line, "NOOP") || StartsWith(line, "noop") then NOOP
    else Unknown
  }

  /** A command and the reply it drew, or the end of a message's data. */
  datatype Exchange = Exchange(verb: Verb, reply: Reply) | Ended

  /** What the client sees of its lines; data lines draw no reply. */
  function Dialogue(users: seq<string>, w: World, lines: seq<string>, clock: nat -> string): seq<Exchange> {
    if lines == [] then []
    else
      var n := |lines| - 1;
      var before, w' := Dialogue(users, w, lines[..n], clock), HandleAll(Server(users, clock), w, lines[..n]);
      if w'.session.closed then before
      else if w'.session.dataMode then (if StartsWith(lines[n], ".") then before + [Ended] else before)
      else before + [Exchange(VerbOf(lines[n]), LastReply(Handle(users, w', lines[n], clock(n))))]
  }

  function LastReply(w: World): Reply { if w.sent == [] then ServiceReady else w.sent[|w.sent| - 1] }

  // ------------------------------------------------ what the exchanges amount to

  /** Has a HELO been accepted, and neither an empty HELO nor a RSET since? */
  predicate Greeted(h: seq<Exchange>) {
    if h == [] then false
    else
      match h[|h| - 1]
      case Exchange(HELO(_), HeloAccepted) => true
      case Exchange(HELO(_), EmptyHelo) => false
      case Exchange(RSET, Okay) => false
      case _ => Greeted(h[..|h| - 1])
  }

  /** The address of the last MAIL FROM accepted since the last RSET. */
  function Sender(h: seq<Exchange>): Option<Address> {
    if h == [] then None
    else
      match h[|h| - 1]
      case Exchange(MAIL(argument), Okay) => ParseAddress(argument)
      case Exchange(RSET, Okay) => None
      case _ => Sender(h[..|h| - 1])
  }

  /** The addresses of the RCPT TOs accepted since the last RSET. */
  function Recipients(h: seq<Exchange>): seq<Address> {
    if h == [] then []
    else
      var front := Recipients(h[..|h| - 1]);
      match h[|h| - 1]
      case Exchange(RCPT(argument), Okay) => (match ParseAddress(argument) case Some(a) => front + [a] case None => front)
      case Exchange(RSET, Okay) => []
      case _ => front
  }

  /** Has no MAIL FROM been accepted since the last end of data or RSET? */
  predicate BetweenMails(h: seq<Exchange>) {
    if h == [] then true
    else
      match h[|h| - 1]
      case Ended => true
      case Exchange(RSET, Okay) => true
      case Exchange(MAIL(_), Okay) => false
      case _ => BetweenMails(h[..|h| - 1])
  }

  /** Are the lines now data? */
  predicate InData(h: seq<Exchange>) { h != [] && h[|h| - 1] == Exchange(DATA, AcceptingData) }

  predicate Over(h: seq<Exchange>) { h != [] && h[|h| - 1].Exchange? && h[|h| - 1].verb == QUIT }

  /** The session's variables say what the exchanges say. */
  ghost predicate ToldBy(s: Session, h: seq<Exchange>) {
    && (s.clientDomain != "" <==> Greeted(h))
    && (Sender(h) == if s.fromUser == "" && s.fromDomain == "" then None else Some(Address(s.fromUser, s.fromDomain)))
    && s.rcptTo == Recipients(h)
    && s.initialState == BetweenMails(h)
    && s.dataMode == InData(h)
    && s.closed == Over(h)
  }

  /** The reply a command is due. */
  function Due(users: seq<string>, h: seq<Exchange>, verb: Verb): Reply {
    match verb
    case HELO(argument) =>
      if !BetweenMails(h) then BadSequence else if argument == "" then EmptyHelo else HeloAccepted
    case MAIL(argument) =>
      if !Greeted(h) then HeloFirst
      else if Recipients(h) != [] then RcptToIssued
      else if ParseAddress(argument) == None then BadAddress else Okay
    case RCPT(argument) =>
      if Sender(h) == None then MailFromFirst
      else if ParseAddress(argument) == None then BadAddress
      else if Stranger(users, ParseAddress(argument).value) then NoSuchUser else Okay
    case DATA => if Recipients(h) == [] then RcptToFirst else AcceptingData
    case QUIT => Quitting
    case RSET => if Greeted(h) then Okay else HeloFirst
    case NOOP => if Greeted(h) then Okay else HeloFirst
    case Unknown => Unrecognized
  }

  /** A local address of nobody. */
  predicate Stranger(users: seq<string>, a: Address) { a.domain == "localhost" && a.user !in users }

  lemma ControlTold(w: World, h: seq<Exchange>, line: string, date: string, verb: Verb)
    requires ToldBy(w.session, h) && !w.session.dataMode && !w.session.closed
    requires verb == VerbOf(line) && !verb.HELO? && !verb.MAIL? && !verb.RCPT?
    ensures
      var w' := ControlLine(w, line, date);
      && w'.sent == w.sent + [Due([], h, verb)]
      && ToldBy(w'.session, h + [Exchange(verb, Due([], h, verb))])
  {
    var r := Due([], h, verb);
    assert (h + [Exchange(verb, r)])[..|h|] == h;
  }

  lemma HeloTold(w: World, h: seq<Exchange>, argument: string)
    requires ToldBy(w.session, h) && !w.session.dataMode && !w.session.closed
    ensures
      var r := Due([], h, HELO(argument));
      Helo(w, argument).sent == w.sent + [r] && ToldBy(Helo(w, argument).session, h + [Exchange(HELO(argument), r)])
  {
    assert (h + [Exchange(HELO(argument), Due([], h, HELO(argument)))])[..|h|] == h;
  }

  lemma MailTold(w: World, h: seq<Exchange>, argument: string)
    requires ToldBy(w.session, h) && !w.session.dataMode && !w.session.closed
    ensures
      var r := Due([], h, MAIL(argument));
      MailFrom(w, argument).sent == w.sent + [r] && ToldBy(MailFrom(w, argument).session, h + [Exchange(MAIL(argument), r)])
  {
    assert (h + [Exchange(MAIL(argument), Due([], h, MAIL(argument)))])[..|h|] == h;
  }

  lemma RcptTold(users: seq<string>, w: World, h: seq<Exchange>, argument: string)
    requires ToldBy(w.session, h) && !w.session.dataMode && !w.session.closed
    ensures
      var r := Due(users, h, RCPT(argument));
      RcptTo(users, w, argument).sent == w.sent + [r] && ToldBy(RcptTo(users, w, argument).session, h + [Exchange(RCPT(argument), r)])
  {
    var r := Due(users, h, RCPT(argument));
    RcptReply(users, w, h, argument);
    if r == Okay {
      RcptAdded(w.session, h, argument, ParseAddress(argument).value);
    } else {
      RcptRefused(w.session, h, argument, r);
    }
  }

  lemma RcptReply(users: seq<string>, w: World, h: seq<Exchange>, argument: string)
    requires Sender(h) == None <==> w.session.fromUser == "" && w.session.fromDomain == ""
    ensures
      var r, w' := Due(users, h, RCPT(argument)), RcptTo(users, w, argument);
      && w'.sent == w.sent + [r]
      && (r == Okay ==> ParseAddress(argument).Some?)
      && w'.session == if r == Okay then w.session.(rcptTo := w.session.rcptTo + [ParseAddress(argument).value]) else w.session
  {
  }

  lemma RcptAdded(s: Session, h: seq<Exchange>, argument: string, a: Address)
    requires ToldBy(s, h) && !s.dataMode && !s.closed && ParseAddress(argument) == Some(a)
    ensures ToldBy(s.(rcptTo := s.rcptTo + [a]), h + [Exchange(RCPT(argument), Okay)])
  {
    assert (h + [Exchange(RCPT(argument), Okay)])[..|h|] == h;
  }

  lemma RcptRefused(s: Session, h: seq<Exchange>, argument: string, r: Reply)
    requires ToldBy(s, h) && !s.dataMode && !s.closed && r != Okay
    ensures ToldBy(s, h + [Exchange(RCPT(argument), r)])
  {
    assert (h + [Exchange(RCPT(argument), r)])[..|h|] == h;
  }

  lemma CommandTold(users: seq<string>, w: World, h: seq<Exchange>, line: string, date: string)
    requires ToldBy(w.session, h) && !w.session.dataMode && !w.session.closed
    ensures
      var r := Due(users, h, VerbOf(line));
      var w' := CommandLine(users, w, line, date);
      w'.sent == w.sent + [r] && ToldBy(w'.session, h + [Exchange(VerbOf(line), r)])
  {
    var verb := VerbOf(line);
    match verb
    case HELO(argument) => HeloTold(w, h, argument);
    case MAIL(argument) => MailTold(w, h, argument);
    case RCPT(argument) => RcptTold(users, w, h, argument);
    case _ => ControlTold(w, h, line, date, verb);
  }

  lemma EndTold(users: seq<string>, w: World, h: seq<Exchange>, line: string)
    requires ToldBy(w.session, h) && w.session.dataMode && !w.session.closed && StartsWith(line, ".")
    ensures ToldBy(DataLine(users, w, line).session, h + [Ended])
  {
    var s := w.session;
    DeliverKeepsSession(users, w.(session := s.(dataMode := false, initialState := true)), s.rcptTo, s.data);
    assert (h + [Ended])[..|h|] == h;
  }

  lemma {:induction false} SessionTold(users: seq<string>, w: World, lines: seq<string>, clock: nat -> string)
    requires w.session == FRESH
    ensures ToldBy(HandleAll(Server(users, clock), w, lines).session, Dialogue(users, w, lines, clock))
  {
    if lines != [] {
      var n := |lines| - 1;
      SessionTold(users, w, lines[..n], clock);
      var w', h := HandleAll(Server(users, clock), w, lines[..n]), Dialogue(users, w, lines[..n], clock);
      if !w'.session.closed {
        LineNext(users, w, lines, clock);
        if !w'.session.dataMode {
          CommandTold(users, w', h, lines[n], clock(n));
        } else if StartsWith(lines[n], ".") {
          EndTold(users, w', h, lines[n]);
        } else {
          TextTold(users, w', h, lines[n]);
        }
      }
    }
  }

  lemma LineNext(users: seq<string>, w: World, lines: seq<string>, clock: nat -> string)
    requires lines != [] && !HandleAll(Server(users, clock), w, lines[..|lines| - 1]).session.closed
    ensures
      var n := |lines| - 1;
      HandleAll(Server(users, clock), w, lines) == Handle(users, HandleAll(Server(users, clock), w, lines[..n]), lines[n], clock(n))
  {
  }

  lemma TextTold(users: seq<string>, w: World, h: seq<Exchange>, line: string)
    requires ToldBy(w.session, h) && w.session.dataMode && !StartsWith(line, ".")
    ensures ToldBy(DataLine(users, w, line).session, h)
  {
  }

  /**
   Every command draws exactly one reply, and exactly the one due: whether HELO, MAIL FROM,
   RCPT TO, DATA, RSET and NOOP are accepted depends on the commands accepted before, as
   `Due` tabulates; QUIT always is.
   */
  lemma RepliesAreDue(users: seq<string>, w: World, lines: seq<string>, line: string, clock: nat -> string)
    requires w.session == FRESH
    requires !Over(Dialogue(users, w, lines, clock)) && !InData(Dialogue(users, w, lines, clock))
    ensures
      var r := Due(users, Dialogue(users, w, lines, clock), VerbOf(line));
      && HandleAll(Server(users, clock), w, lines + [line]).sent == HandleAll(Server(users, clock), w, lines).sent + [r]
      && Dialogue(users, w, lines + [line], clock) == Dialogue(users, w, lines, clock) + [Exchange(VerbOf(line), r)]
  {
    SessionTold(users, w, lines, clock);
    var w' := HandleAll(Server(users, clock), w, lines);
    HandleLast(Server(users, clock), w, lines, line);
    assert HandleAll(Server(users, clock), w, lines + [line]) == Handle(users, w', line, clock(|lines|));
    CommandTold(users, w', Dialogue(users, w, lines, clock), line, clock(|lines|));
    DialogueNext(users, w, lines, line, clock);
  }

  lemma DialogueNext(users: seq<string>, w: World, lines: seq<string>, line: string, clock: nat -> string)
    requires
      var w' := HandleAll(Server(users, clock), w, lines);
      !w'.session.closed && !w'.session.dataMode
    ensures
      var w' := HandleAll(Server(users, clock), w, lines);
      Dialogue(users, w, lines + [line], clock)
        == Dialogue(users, w, lines, clock) + [Exchange(VerbOf(line), LastReply(CommandLine(users, w', line, clock(|lines|))))]
  {
    assert (lines + [line])[..|lines|] == lines && (lines + [line])[|lines|] == line;
  }

  /** An address is accepted exactly if it is one of the form <user@domain>, and as that one. */
  lemma AddressExactly(argument: string, a: Address)
    ensures ParseAddress(argument) == Some(a) <==> argument == PrintAddress(a) && ValidPart(a.user) && ValidPart(a.domain)
  {
    ParsePrinted(a);
  }

  // ---------------------------------------------------- a whole dialogue

  function Shift(clock: nat -> string, n: nat): nat -> string { (k: nat) => clock(n + k) }

  /** A server some lines on is a server with its clock set forward. */
  lemma {:induction false} LaterServer(users: seq<string>, clock: nat -> string, n: nat, w: World, lines: seq<string>)
    ensures HandleAll(After(Server(users, clock), n), w, lines) == HandleAll(Server(users, Shift(clock, n)), w, lines)
  {
    if lines != [] {
      var k := |lines| - 1;
      LaterServer(users, clock, n, w, lines[..k]);
      var w' := HandleAll(Server(users, Shift(clock, n)), w, lines[..k]);
      assert After(Server(users, clock), n)(w', lines[k], k) == Handle(users, w', lines[k], clock(n + k));
    }
  }

  lemma HandleBoth(users: seq<string>, w: World, a: seq<string>, b: seq<string>, clock: nat -> string)
    ensures HandleAll(Server(users, clock), w, a + b)
         == HandleAll(Server(users, Shift(clock, |a|)), HandleAll(Server(users, clock), w, a), b)
  {
    HandleAllSplit(Server(users, clock), w, a, b);
    LaterServer(users, clock, |a|, HandleAll(Server(users, clock), w, a), b);
  }

  lemma HandleOneLine(users: seq<string>, w: World, line: string, clock: nat -> string)
    requires !w.session.closed && !w.session.dataMode
    ensures HandleAll(Server(users, clock), w, [line]) == CommandLine(users, w, line, clock(0))
  {
    HandleOne(Server(users, clock), w, line);
  }

  lemma HeloLine(users: seq<string>, w: World, domain: string, date: string)
    ensures CommandLine(users, w, "HELO " + domain, date) == Helo(w, domain)
  {
    var line := "HELO " + domain;
    assert line[..5] == "HELO " && line[5..] == domain;
  }

  lemma RcptLine(users: seq<string>, w: World, a: Address, date: string)
    ensures CommandLine(users, w, "RCPT TO:" + PrintAddress(a), date) == RcptTo(users, w, PrintAddress(a))
  {
    RcptArgument(users, w, PrintAddress(a), date);
  }

  lemma RcptArgument(users: seq<string>, w: World, argument: string, date: string)
    ensures CommandLine(users, w, "RCPT TO:" + argument, date) == RcptTo(users, w, argument)
  {
    var line := "RCPT TO:" + argument;
    assert line[0] == 'R' && line[..8] == "RCPT TO:" && line[8..] == argument;
  }

  function RcptLines(rcpts: seq<Address>): seq<string> {
    if rcpts == [] then [] else RcptLines(rcpts[..|rcpts| - 1]) + ["RCPT TO:" + PrintAddress(rcpts[|rcpts| - 1])]
  }

  function Okays(n: nat): (r: seq<Reply>)
    ensures |r| == n && forall i :: 0 <= i < n ==> r[i] == Okay
  {
    if n == 0 then [] else Okays(n - 1) + [Okay]
  }

  /** An address a sender or, unless it is a stranger's, a recipient can have. */
  predicate Valid(a: Address) { ValidPart(a.user) && ValidPart(a.domain) }

  ghost predicate Deliverable(users: seq<string>, rcpts: seq<Address>) {
    forall i :: 0 <= i < |rcpts| ==> Valid(rcpts[i]) && !Stranger(users, rcpts[i])
  }

  /** The session once a greeted client has named a sender and recipients. */
  function Addressed(domain: string, from: Address, rcpts: seq<Address>): Session {
    Session(domain, false, from.user, from.domain, rcpts, "", false, false)
  }

  /** HELO and MAIL FROM at the start of a connection. */
  lemma HeloThenMail(users: seq<string>, w: World, domain: string, from: Address, clock: nat -> string)
    requires w.session == FRESH && domain != "" && Valid(from)
    ensures HandleAll(Server(users, clock), w, ["HELO " + domain] + ["MAIL FROM:" + PrintAddress(from)])
         == World(Addressed(domain, from, []), w.boxes, w.sent + [HeloAccepted] + [Okay])
  {
    HandleBoth(users, w, ["HELO " + domain], ["MAIL FROM:" + PrintAddress(from)], clock);
    HandleOneLine(users, w, "HELO " + domain, clock);
    HeloLine(users, w, domain, clock(0));
    var w1 := Helo(w, domain);
    HandleOneLine(users, w1, "MAIL FROM:" + PrintAddress(from), Shift(clock, 1));
    MailFromCommand(users, w1, PrintAddress(from), Shift(clock, 1)(0));
    ParsePrinted(from);
  }

  lemma {:induction false} RcptsAccepted(users: seq<string>, w: World, rcpts: seq<Address>, clock: nat -> string)
    requires !w.session.closed && !w.session.dataMode && w.session.fromUser != "" && Deliverable(users, rcpts)
    ensures HandleAll(Server(users, clock), w, RcptLines(rcpts))
         == World(w.session.(rcptTo := w.session.rcptTo + rcpts), w.boxes, w.sent + Okays(|rcpts|))
  {
    if rcpts != [] {
      var n := |rcpts| - 1;
      var a := rcpts[n];
      RcptsAccepted(users, w, rcpts[..n], clock);
      HandleBoth(users, w, RcptLines(rcpts[..n]), ["RCPT TO:" + PrintAddress(a)], clock);
      var w' := HandleAll(Server(users, clock), w, RcptLines(rcpts[..n]));
      RcptAccepted(users, w', a, Shift(clock, |RcptLines(rcpts[..n])|));
      assert rcpts == rcpts[..n] + [a];
      assert w.session.rcptTo + rcpts[..n] + [a] == w.session.rcptTo + rcpts;
      assert w.sent + Okays(n) + [Okay] == w.sent + Okays(n + 1);
    }
  }

  lemma RcptAccepted(users: seq<string>, w: World, a: Address, clock: nat -> string)
    requires !w.session.closed && !w.session.dataMode && w.session.fromUser != "" && Valid(a) && !Stranger(users, a)
    ensures HandleAll(Server(users, clock), w, ["RCPT TO:" + PrintAddress(a)])
         == Say(w.(session := w.session.(rcptTo := w.session.rcptTo + [a])), Okay)
  {
    HandleOneLine(users, w, "RCPT TO:" + PrintAddress(a), clock);
    RcptLine(users, w, a, clock(0));
    ParsePrinted(a);
  }

  /** The lines of a dialogue up to its recipients. */
  function Opening(domain: string, from: Address, rcpts: seq<Address>): seq<string> {
    ["HELO " + domain] + ["MAIL FROM:" + PrintAddress(from)] + RcptLines(rcpts)
  }

  lemma OpeningAccepted(users: seq<string>, w: World, domain: string, from: Address, rcpts: seq<Address>, clock: nat -> string)
    requires w.session == FRESH && domain != "" && Valid(from) && Deliverable(users, rcpts)
    ensures HandleAll(Server(users, clock), w, Opening(domain, from, rcpts))
         == World(Addressed(domain, from, rcpts), w.boxes, w.sent + [HeloAccepted] + [Okay] + Okays(|rcpts|))
  {
    var two := ["HELO " + domain] + ["MAIL FROM:" + PrintAddress(from)];
    HeloThenMail(users, w, domain, from, clock);
    HandleBoth(users, w, two, RcptLines(rcpts), clock);
    RcptsAccepted(users, HandleAll(Server(users, clock), w, two), rcpts, Shift(clock, 2));
    assert [] + rcpts == rcpts;
  }

  lemma {:induction false} RcptLineCount(rcpts: seq<Address>)
    ensures |RcptLines(rcpts)| == |rcpts|
  {
    if rcpts != [] {
      RcptLineCount(rcpts[..|rcpts| - 1]);
    }
  }

  /**
   A whole dialogue from the greeting on delivers the mail: HELO, MAIL FROM, RCPT TO for
   each of any recipients that are known users or at other domains, DATA, any lines that do
   not start with ".", and ".".  The client hears 250, 250, a 250 for each recipient, 354,
   the complaints and 250; each local user's mailbox grows by the separator line with the
   sender and exactly those lines, once per occurrence of the user; no other mailbox changes.
   */
  lemma DialogueDelivers(users: seq<string>, w: World, domain: string, from: Address, rcpts: seq<Address>,
                         lines: seq<string>, clock: nat -> string, user: string)
    requires w.session == FRESH && domain != "" && Valid(from) && rcpts != [] && Deliverable(users, rcpts)
    requires forall i :: 0 <= i < |lines| ==> !StartsWith(lines[i], ".")
    ensures
      var text := "From <" + from.user + "@" + from.domain + "> " + clock(|rcpts| + 2) + Body(lines);
      var w' := HandleAll(Server(users, clock), w, Opening(domain, from, rcpts) + (["DATA"] + lines + ["."]));
      && w'.sent == w.sent + [HeloAccepted] + [Okay] + Okays(|rcpts|) + [AcceptingData] + Complaints(users, rcpts) + [Okay]
      && Box(w'.boxes, user) == Box(w.boxes, user) + Grown(users, text, rcpts, user)
      && w'.session == Session(domain, true, from.user, from.domain, rcpts, text, false, false)
  {
    var opening := Opening(domain, from, rcpts);
    var later := Shift(clock, |opening|);
    OpeningAccepted(users, w, domain, from, rcpts, clock);
    HandleBoth(users, w, opening, ["DATA"] + lines + ["."], clock);
    AddressedDelivers(users, HandleAll(Server(users, clock), w, opening), domain, from, rcpts, lines, later, user);
    OpeningCount(domain, from, rcpts);
    assert later(0) == clock(|rcpts| + 2);
  }

  lemma OpeningCount(domain: string, from: Address, rcpts: seq<Address>)
    ensures |Opening(domain, from, rcpts)| == |rcpts| + 2
  {
    RcptLineCount(rcpts);
  }

  /** The rest of the dialogue, once the sender and the recipients are named. */
  lemma AddressedDelivers(users: seq<string>, w: World, domain: string, from: Address, rcpts: seq<Address>,
                          lines: seq<string>, clock: nat -> string, user: string)
    requires w.session == Addressed(domain, from, rcpts) && rcpts != []
    requires forall i :: 0 <= i < |lines| ==> !StartsWith(lines[i], ".")
    ensures
      var text := "From <" + from.user + "@" + from.domain + "> " + clock(0) + Body(lines);
      var w' := HandleAll(Server(users, clock), w, ["DATA"] + lines + ["."]);
      && w'.sent == w.sent + [AcceptingData] + Complaints(users, rcpts) + [Okay]
      && Box(w'.boxes, user) == Box(w.boxes, user) + Grown(users, text, rcpts, user)
      && w'.session == Session(domain, true, from.user, from.domain, rcpts, text, false, false)
  {
    TransactionDelivers(users, w, lines, clock, user);
  }
}
