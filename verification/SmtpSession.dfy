/**
 The SMTP session of the mail server (src/webmail/mailserver.cc, worker): what one line
 does to the session, the mailboxes and the client.  See RFC 5321, sections 3.3 and 4.1.4;
 the code departs from them in keeping the recipients after the end of data, and in taking
 any line that starts with "." for the end of data.
 */
module SmtpSession {
  import opened Basics

  datatype Reply =
    | ServiceReady | HeloAccepted | Okay | AcceptingData | Quitting
    | BadSequence | EmptyHelo | HeloFirst | MailFromFirst | RcptToFirst | RcptToIssued
    | BadAddress | NoSuchUser | MailboxGone | Unrecognized | LengthExceeded

  function SequenceText(r: Reply): string {
    match r
    case BadSequence => "503 Bad sequence of commands\r\n"
    case HeloFirst => "503 Bad sequence of commands" + ": send HELO first.\r\n"
    case MailFromFirst => "503 Bad sequence of commands" + ": send MAIL FROM first.\r\n"
    case RcptToFirst => "503 Bad sequence of commands" + ": send RCPT TO first.\r\n"
    case _ => ""
  }

  function UserText(r: Reply): string {
    match r
    case NoSuchUser => "550 User not found in localhost\r\n"
    case MailboxGone => "550: user mailbox not found " + "(was probably deleted after server starts)!\r\n"
    case RcptToIssued =>
      "503 Bad sequence of commands" + ": You have already issued RCPT TO " + "so you cannot change MAIL FROM "
      + "(only RCPT TO or DATA allowed)\r\n"
    case _ => SequenceText(r)
  }

  function RefusalText(r: Reply): string {
    match r
    case EmptyHelo => "501 Syntax error: " + "argument of HELO cannot be empty!\r\n"
    case BadAddress => "501 Syntax error: " + "invalid email address, " + "must be <user@domain>\r\n"
    case Unrecognized => "500 Syntax error: " + "command unrecognized\r\n"
    case _ => UserText(r)
  }

  /** The bytes of each reply. */
  function Text(r: Reply): string {
    match r
    case ServiceReady => "220 localhost SMTP service ready\r\n"
    case HeloAccepted => "250 localhost\r\n"
    case Okay => "250 OK\r\n"
    case AcceptingData => "354 Accepting data.\r\n"
    case Quitting => "221 quiting\r\n"
    case LengthExceeded => "Command exceeded length limit! Close connection.\r\n"
    case _ => RefusalText(r)
  }

  /** RSP_LEN, the size of the buffer snprintf fills. */
  const REPLY_BUFFER := 128

  lemma SequenceFits(r: Reply)
    ensures |SequenceText(r)| < REPLY_BUFFER
  {
  }

  lemma UserFits(r: Reply)
    ensures |UserText(r)| < REPLY_BUFFER
  {
    SequenceFits(r);
  }

  lemma RefusalFits(r: Reply)
    ensures |RefusalText(r)| < REPLY_BUFFER
  {
    UserFits(r);
  }

  /** No reply is long enough for snprintf to cut it. */
  lemma RepliesFit(r: Reply)
    ensures |Text(r)| < 128
  {
    RefusalFits(r);
  }

  /** The code of each reply, by section 4.2.3 of RFC 5321; the cut-off message has none. */
  function ReplyCode(r: Reply): int {
    match r
    case ServiceReady => 220
    case Quitting => 221
    case HeloAccepted => 250
    case Okay => 250
    case AcceptingData => 354
    case Unrecognized => 500
    case EmptyHelo => 501
    case BadAddress => 501
    case NoSuchUser => 550
    case MailboxGone => 550
    case LengthExceeded => 0
    case _ => 503
  }

  function Digit(c: char): int { c as int - '0' as int }

  /** A reply line: three digits first, CRLF last. */
  ghost predicate IsReplyLine(text: string, code: int) {
    && |text| > 5
    && '0' <= text[0] <= '9' && '0' <= text[1] <= '9' && '0' <= text[2] <= '9'
    && code == 100 * Digit(text[0]) + 10 * Digit(text[1]) + Digit(text[2])
    && text[|text| - 2] == '\r' && text[|text| - 1] == '\n'
  }

  lemma SequenceLines(r: Reply)
    requires r == BadSequence || r == HeloFirst || r == MailFromFirst || r == RcptToFirst
    ensures IsReplyLine(SequenceText(r), ReplyCode(r))
  {
  }

  lemma IssuedLine()
    ensures IsReplyLine(UserText(RcptToIssued), 503)
  {
  }

  lemma MissingLines(r: Reply)
    requires r == NoSuchUser || r == MailboxGone
    ensures IsReplyLine(UserText(r), 550)
  {
  }

  lemma RefusalLines(r: Reply)
    requires r == EmptyHelo || r == BadAddress || r == Unrecognized
    ensures IsReplyLine(RefusalText(r), ReplyCode(r))
  {
  }

  lemma SuccessLines(r: Reply)
    requires r == ServiceReady || r == HeloAccepted || r == Okay || r == AcceptingData || r == Quitting
    ensures IsReplyLine(Text(r), ReplyCode(r))
  {
  }

  /** What the text of a refusal is, wherever it is kept. */
  lemma TextOfRefusal(r: Reply)
    requires ReplyCode(r) >= 500
    ensures Text(r) == RefusalText(r)
    ensures ReplyCode(r) == 550 || r == RcptToIssued ==> Text(r) == UserText(r)
    ensures ReplyCode(r) == 503 && r != RcptToIssued ==> Text(r) == SequenceText(r)
  {
  }

  /** Every reply starts with its code and ends with CRLF, but for the cut-off message, which has no code. */
  lemma RepliesAreLines(r: Reply)
    requires r != LengthExceeded
    ensures IsReplyLine(Text(r), ReplyCode(r))
  {
    if ReplyCode(r) < 500 {
      SuccessLines(r);
    } else {
      TextOfRefusal(r);
      match r
      case RcptToIssued => IssuedLine();
      case NoSuchUser => MissingLines(r);
      case MailboxGone => MissingLines(r);
      case EmptyHelo => RefusalLines(r);
      case BadAddress => RefusalLines(r);
      case Unrecognized => RefusalLines(r);
      case _ => SequenceLines(r);
    }
  }

  datatype Address = Address(user: string, domain: string)

  /** The worker's local variables. */
  datatype Session = Session(
    clientDomain: string, initialState: bool, fromUser: string, fromDomain: string,
    rcptTo: seq<Address>, data: string, dataMode: bool, closed: bool)

  /** A session, the mailbox files by user, and the responses sent. */
  datatype World = World(session: Session, boxes: map<string, string>, sent: seq<Reply>)

  const FRESH := Session("", true, "", "", [], "", false, false)

  predicate Command(line: string, upper: string, lower: string) {
    StartsWith(line, upper) || StartsWith(line, lower)
  }

  predicate AddressChar(c: char) {
    'a' <= c <= 'z' || 'A' <= c <= 'Z' || '0' <= c <= '9' || c == '.'
  }

  predicate ValidPart(s: string) {
    s != "" && forall i :: 0 <= i < |s| ==> AddressChar(s[i])
  }

  /** The pattern ^<([a-zA-Z0-9.]+)@([a-zA-Z0-9.]+)>$ and its two groups. */
  function ParseAddress(s: string): (r: Option<Address>)
    ensures r.Some? ==> ValidPart(r.value.user) && ValidPart(r.value.domain)
    ensures r.Some? ==> s == PrintAddress(r.value)
  {
    if |s| < 2 || s[0] != '<' || s[|s| - 1] != '>' then None
    else
      var m := s[1..|s| - 1];
      var i := IndexOf(m, '@', 0);
      if i == -1 || !ValidPart(m[..i]) || !ValidPart(m[i + 1..]) then None
      else Some(Address(m[..i], m[i + 1..]))
  }

  function PrintAddress(a: Address): string { "<" + a.user + "@" + a.domain + ">" }

  /** Every address of the accepted form is recognised as itself, and nothing else is. */
  lemma ParsePrinted(a: Address)
    ensures ParseAddress(PrintAddress(a)) == Some(a) <==> ValidPart(a.user) && ValidPart(a.domain)
  {
    var s := PrintAddress(a);
    var m := s[1..|s| - 1];
    assert m == a.user + "@" + a.domain;
    assert m[|a.user|] == '@';
    if ValidPart(a.user) && ValidPart(a.domain) {
      assert forall k :: 0 <= k < |a.user| ==> m[k] == a.user[k];
      assert IndexOf(m, '@', 0) == |a.user|;
      assert m[..|a.user|] == a.user && m[|a.user| + 1..] == a.domain;
    }
  }

  function Say(w: World, response: Reply): World { w.(sent := w.sent + [response]) }

  function Box(boxes: map<string, string>, user: string): string {
    if user in boxes then boxes[user] else ""
  }

  /** One recipient at the end of data: an unknown user draws a 550, a local one gets the text appended. */
  function DeliverOne(users: seq<string>, w: World, to: Address, text: string): World {
    if to.user !in users then Say(w, MailboxGone)
    else if to.domain == "localhost" then w.(boxes := w.boxes[to.user := Box(w.boxes, to.user) + text])
    else w
  }

  function DeliverAll(users: seq<string>, w: World, rcpts: seq<Address>, text: string): World
    decreases rcpts
  {
    if rcpts == [] then w
    else DeliverAll(users, DeliverOne(users, w, rcpts[0], text), rcpts[1..], text)
  }

  function DataLine(users: seq<string>, w: World, line: string): World {
    var s := w.session;
    if StartsWith(line, ".") then
      var w1 := w.(session := s.(dataMode := false, initialState := true));
      Say(DeliverAll(users, w1, s.rcptTo, s.data), Okay)
    else w.(session := s.(data := s.data + line + "\r\n"))
  }

  function Helo(w: World, argument: string): World {
    var s := w.session;
    if !s.initialState then Say(w, BadSequence)
    else
      var w1 := w.(session := s.(clientDomain := argument));
      if w1.session.clientDomain == "" then Say(w1, EmptyHelo)
      else Say(w1, HeloAccepted)
  }

  function MailFrom(w: World, argument: string): World {
    var s := w.session;
    if s.clientDomain == "" then Say(w, HeloFirst)
    else if s.rcptTo != [] then Say(w, RcptToIssued)
    else
      match ParseAddress(argument)
      case None => Say(w, BadAddress)
      case Some(a) => Say(w.(session := s.(fromUser := a.user, fromDomain := a.domain, initialState := false)), Okay)
  }

  function RcptTo(users: seq<string>, w: World, argument: string): World {
    var s := w.session;
    if s.fromUser == "" && s.fromDomain == "" then Say(w, MailFromFirst)
    else
      match ParseAddress(argument)
      case None => Say(w, BadAddress)
      case Some(a) =>
        if a.domain == "localhost" && a.user !in users then Say(w, NoSuchUser)
        else Say(w.(session := s.(rcptTo := s.rcptTo + [a])), Okay)
  }

  /** The mbox separator line; `date` is what ctime prints, newline included. */
  function FromLine(s: Session, date: string): string {
    "From <" + s.fromUser + "@" + s.fromDomain + "> " + date
  }

  function ControlLine(w: World, line: string, date: string): World {
    var s := w.session;
    if Command(line, "DATA", "data") then
      if s.rcptTo == [] then Say(w, RcptToFirst)
      else Say(w.(session := s.(dataMode := true, data := FromLine(s, date))), AcceptingData)
    else if Command(line, "QUIT", "quit") then Say(w.(session := s.(closed := true)), Quitting)
    else if Command(line, "RSET", "rset") then
      if s.clientDomain == "" then Say(w, HeloFirst) else Say(w.(session := FRESH.(closed := s.closed)), Okay)
    else if Command(line, "NOOP", "noop") then
      if s.clientDomain == "" then Say(w, HeloFirst) else Say(w, Okay)
    else Say(w, Unrecognized)
  }

  function CommandLine(users: seq<string>, w: World, line: string, date: string): World {
    if Command(line, "HELO ", "helo ") then Helo(w, line[5..])
    else if Command(line, "MAIL FROM:", "mail from:") then MailFrom(w, line[10..])
    else if Command(line, "RCPT TO:", "rcpt to:") then RcptTo(users, w, line[8..])
    else ControlLine(w, line, date)
  }

  /** One line, CRLF stripped. */
  function Handle(users: seq<string>, w: World, line: string, date: string): World {
    if w.session.dataMode then DataLine(users, w, line) else CommandLine(users, w, line, date)
  }

  /** What the k-th line does; `Server(users, clock)` is the mail server, with `clock(k)` the date when line k is handled. */
  type Handler = (World, string, nat) -> World

  function Server(users: seq<string>, clock: nat -> string): Handler {
    (w: World, line: string, k: nat) => Handle(users, w, line, clock(k))
  }

  /** Lines in order, up to the one that closes the connection. */
  function HandleAll(h: Handler, w: World, lines: seq<string>): World {
    if lines == [] then w
    else
      var w' := HandleAll(h, w, lines[..|lines| - 1]);
      if w'.session.closed then w' else h(w', lines[|lines| - 1], |lines| - 1)
  }

  // ----------------------------------------------------------- invariant

  ghost predicate SessionOk(users: seq<string>, s: Session) {
    && (s.dataMode ==> s.rcptTo != [])
    && (s.rcptTo != [] ==> ValidPart(s.fromUser) && ValidPart(s.fromDomain))
    && (s.fromUser != "" || s.fromDomain != "" ==> ValidPart(s.fromUser) && ValidPart(s.fromDomain))
    && (forall i :: 0 <= i < |s.rcptTo| ==>
          && ValidPart(s.rcptTo[i].user) && ValidPart(s.rcptTo[i].domain)
          && (s.rcptTo[i].domain == "localhost" ==> s.rcptTo[i].user in users))
    && (s.closed ==> !s.dataMode)
  }

  lemma DeliverKeepsSession(users: seq<string>, w: World, rcpts: seq<Address>, text: string)
    ensures DeliverAll(users, w, rcpts, text).session == w.session
    decreases rcpts
  {
    if rcpts != [] {
      DeliverKeepsSession(users, DeliverOne(users, w, rcpts[0], text), rcpts[1..], text);
    }
  }

  lemma MailFromKeepsOk(users: seq<string>, w: World, argument: string)
    requires SessionOk(users, w.session) && !w.session.dataMode
    ensures SessionOk(users, MailFrom(w, argument).session)
  {
  }

  lemma RcptToKeepsOk(users: seq<string>, w: World, argument: string)
    requires SessionOk(users, w.session) && !w.session.dataMode
    ensures SessionOk(users, RcptTo(users, w, argument).session)
  {
  }

  lemma ControlKeepsOk(users: seq<string>, w: World, line: string, date: string)
    requires SessionOk(users, w.session) && !w.session.dataMode && !w.session.closed
    ensures SessionOk(users, ControlLine(w, line, date).session)
  {
  }

  lemma HeloKeepsOk(users: seq<string>, w: World, argument: string)
    requires SessionOk(users, w.session)
    ensures SessionOk(users, Helo(w, argument).session)
  {
  }

  lemma CommandKeepsOk(users: seq<string>, w: World, line: string, date: string)
    requires SessionOk(users, w.session) && !w.session.dataMode && !w.session.closed
    ensures SessionOk(users, CommandLine(users, w, line, date).session)
  {
    if Command(line, "HELO ", "helo ") {
      HeloKeepsOk(users, w, line[5..]);
    } else if Command(line, "MAIL FROM:", "mail from:") {
      MailFromKeepsOk(users, w, line[10..]);
    } else if Command(line, "RCPT TO:", "rcpt to:") {
      RcptToKeepsOk(users, w, line[8..]);
    } else {
      ControlKeepsOk(users, w, line, date);
    }
  }

  lemma HandleKeepsOk(users: seq<string>, w: World, line: string, date: string)
    requires SessionOk(users, w.session) && !w.session.closed
    ensures SessionOk(users, Handle(users, w, line, date).session)
  {
    var s := w.session;
    if s.dataMode {
      DeliverKeepsSession(users, w.(session := s.(dataMode := false, initialState := true)), s.rcptTo, s.data);
    } else {
      CommandKeepsOk(users, w, line, date);
    }
  }

  /**
   In every state a client can bring the session to: data mode has a recipient, a
   recipient has a valid sender, and every local recipient is a known user.
   */
  lemma {:induction false} SessionAlwaysOk(users: seq<string>, w: World, lines: seq<string>, clock: nat -> string)
    requires w.session == FRESH
    ensures SessionOk(users, HandleAll(Server(users, clock), w, lines).session)
  {
    if lines != [] {
      SessionAlwaysOk(users, w, lines[..|lines| - 1], clock);
      var w' := HandleAll(Server(users, clock), w, lines[..|lines| - 1]);
      if !w'.session.closed {
        HandleKeepsOk(users, w', lines[|lines| - 1], clock(|lines| - 1));
      }
    }
  }

  // ------------------------------------------------------------ mailboxes

  /** A completed transaction: to whom, and the text. */
  datatype Transaction = Transaction(rcpts: seq<Address>, text: string)

  /** The transactions a line sequence completes, in order. */
  function Completed(users: seq<string>, w: World, lines: seq<string>, clock: nat -> string): seq<Transaction> {
    if lines == [] then []
    else
      var done := Completed(users, w, lines[..|lines| - 1], clock);
      var w' := HandleAll(Server(users, clock), w, lines[..|lines| - 1]);
      if !w'.session.closed && w'.session.dataMode && StartsWith(lines[|lines| - 1], ".")
      then done + [Transaction(w'.session.rcptTo, w'.session.data)] else done
  }

  function Repeat(text: string, n: nat): string {
    if n == 0 then "" else Repeat(text, n - 1) + text
  }

  /** How often `user` is a local recipient. */
  function Copies(rcpts: seq<Address>, user: string): nat {
    multiset(rcpts)[Address(user, "localhost")]
  }

  /** What a list of transactions puts into one mailbox. */
  function Mail(done: seq<Transaction>, user: string): string {
    if done == [] then ""
    else
      var t := done[|done| - 1];
      Mail(done[..|done| - 1], user) + Repeat(t.text, Copies(t.rcpts, user))
  }

  lemma {:induction false} RepeatFront(text: string, n: nat)
    ensures text + Repeat(text, n) == Repeat(text, n + 1)
  {
    if n > 0 {
      RepeatFront(text, n - 1);
      Assoc(text, Repeat(text, n - 1), text);
    }
  }

  /** Delivery appends the text to each mailbox once per occurrence of its user among the local recipients. */
  lemma {:induction false} DeliverAppends(users: seq<string>, w: World, rcpts: seq<Address>, text: string, user: string)
    requires user in users
    ensures Box(DeliverAll(users, w, rcpts, text).boxes, user) == Box(w.boxes, user) + Repeat(text, Copies(rcpts, user))
    decreases rcpts
  {
    if rcpts != [] {
      var w1 := DeliverOne(users, w, rcpts[0], text);
      DeliverAppends(users, w1, rcpts[1..], text, user);
      assert rcpts == [rcpts[0]] + rcpts[1..];
      assert Copies(rcpts, user) == Copies(rcpts[1..], user) + if rcpts[0] == Address(user, "localhost") then 1 else 0;
      if rcpts[0] == Address(user, "localhost") {
        RepeatFront(text, Copies(rcpts[1..], user));
        Assoc(Box(w.boxes, user), text, Repeat(text, Copies(rcpts[1..], user)));
      }
    }
  }

  /** The replies delivery sends: one per recipient whose user part is unknown, wherever the domain. */
  function Complaints(users: seq<string>, rcpts: seq<Address>): (r: seq<Reply>)
    ensures r == [] <==> forall i :: 0 <= i < |rcpts| ==> rcpts[i].user in users
    ensures forall i :: 0 <= i < |r| ==> r[i] == MailboxGone
  {
    if rcpts == [] then []
    else (if rcpts[0].user in users then [] else [MailboxGone]) + Complaints(users, rcpts[1..])
  }

  /** Delivery touches no other mailbox, and complains of the unknown users only. */
  lemma {:induction false} DeliverFrame(users: seq<string>, w: World, rcpts: seq<Address>, text: string)
    ensures forall u :: u !in users ==> Box(DeliverAll(users, w, rcpts, text).boxes, u) == Box(w.boxes, u)
    ensures DeliverAll(users, w, rcpts, text).sent == w.sent + Complaints(users, rcpts)
    decreases rcpts
  {
    if rcpts != [] {
      DeliverFrame(users, DeliverOne(users, w, rcpts[0], text), rcpts[1..], text);
    }
  }

  lemma ControlKeepsBoxes(w: World, line: string, date: string)
    ensures ControlLine(w, line, date).boxes == w.boxes
  {
  }

  lemma CommandKeepsBoxes(users: seq<string>, w: World, line: string, date: string)
    ensures CommandLine(users, w, line, date).boxes == w.boxes
  {
    ControlKeepsBoxes(w, line, date);
  }

  /**
   Mailbox history: after any lines from any session, each known user's mailbox is what it
   was followed by the text of every completed transaction, in order, once per occurrence
   of that user among its local recipients; no other mailbox changes.
   */
  lemma {:induction false} MailboxHistory(users: seq<string>, w: World, lines: seq<string>, clock: nat -> string, user: string)
    ensures Box(HandleAll(Server(users, clock), w, lines).boxes, user)
         == Box(w.boxes, user) + if user in users then Mail(Completed(users, w, lines, clock), user) else ""
  {
    if lines != [] {
      var front, last := lines[..|lines| - 1], lines[|lines| - 1];
      MailboxHistory(users, w, front, clock, user);
      var w' := HandleAll(Server(users, clock), w, front);
      var s := w'.session;
      if !s.closed {
        if !s.dataMode {
          CommandKeepsBoxes(users, w', last, clock(|lines| - 1));
        } else if StartsWith(last, ".") {
          var w1 := w'.(session := s.(dataMode := false, initialState := true));
          var done := Completed(users, w, front, clock);
          assert (done + [Transaction(s.rcptTo, s.data)])[..|done|] == done;
          DeliverFrame(users, w1, s.rcptTo, s.data);
          if user in users {
            DeliverAppends(users, w1, s.rcptTo, s.data, user);
            Assoc(Box(w.boxes, user), Mail(done, user), Repeat(s.data, Copies(s.rcptTo, user)));
          }
        }
      }
    }
  }

  // ------------------------------------------------- a whole mail transaction

  /** The text DATA collects: each line with its CRLF. */
  function Body(lines: seq<string>): string {
    if lines == [] then "" else Body(lines[..|lines| - 1]) + (lines[|lines| - 1] + "\r\n")
  }

  /** Data lines are collected unchanged, and nothing else happens. */
  lemma {:induction false} DataCollects(users: seq<string>, h: Handler, w: World, lines: seq<string>, clock: nat -> string, n: nat)
    requires h == After(Server(users, clock), n)
    requires w.session.dataMode && !w.session.closed
    requires forall i :: 0 <= i < |lines| ==> !StartsWith(lines[i], ".")
    ensures HandleAll(h, w, lines) == w.(session := w.session.(data := w.session.data + Body(lines)))
  {
    if lines == [] {
      assert w.session.data + "" == w.session.data;
    } else {
      var front, last := lines[..|lines| - 1], lines[|lines| - 1];
      DataCollects(users, h, w, front, clock, n);
      var w' := HandleAll(h, w, front);
      assert h(w', last, |lines| - 1) == Handle(users, w', last, clock(n + (|lines| - 1)));
      assert HandleAll(h, w, lines) == DataLine(users, w', last);
      Assoc(w.session.data + Body(front), last, "\r\n");
      Assoc(w.session.data, Body(front), last + "\r\n");
    }
  }

  /** The handler once `n` lines have gone by. */
  function After(h: Handler, n: nat): Handler { (w: World, line: string, k: nat) => h(w, line, n + k) }

  lemma {:induction false} HandleAllSplit(h: Handler, w: World, a: seq<string>, b: seq<string>)
    ensures HandleAll(h, w, a + b) == HandleAll(After(h, |a|), HandleAll(h, w, a), b)
    decreases |b|
  {
    if b == [] {
      assert a + b == a;
      assert HandleAll(After(h, |a|), HandleAll(h, w, a), b) == HandleAll(h, w, a);
    } else {
      assert (a + b)[..|a + b| - 1] == a + b[..|b| - 1];
      HandleAllSplit(h, w, a, b[..|b| - 1]);
      var w' := HandleAll(h, w, a + b[..|b| - 1]);
      var last := b[|b| - 1];
      assert (a + b)[|a + b| - 1] == last;
      assert After(h, |a|)(w', last, |b| - 1) == h(w', last, |a + b| - 1);
      assert |a| + (|b| - 1) == |a + b| - 1;
    }
  }

  lemma HandleLast(h: Handler, w: World, lines: seq<string>, line: string)
    requires !HandleAll(h, w, lines).session.closed
    ensures HandleAll(h, w, lines + [line]) == h(HandleAll(h, w, lines), line, |lines|)
  {
    assert (lines + [line])[..|lines|] == lines;
  }

  lemma LastDataLine(users: seq<string>, w: World, lines: seq<string>, line: string, clock: nat -> string)
    requires var c := HandleAll(Server(users, clock), w, lines); c.session.dataMode && !c.session.closed
    ensures HandleAll(Server(users, clock), w, lines + [line]) == DataLine(users, HandleAll(Server(users, clock), w, lines), line)
  {
    var h := Server(users, clock);
    HandleLast(h, w, lines, line);
    assert h(HandleAll(h, w, lines), line, |lines|) == Handle(users, HandleAll(h, w, lines), line, clock(|lines|));
  }

  lemma HandleOne(h: Handler, w: World, line: string)
    requires !w.session.closed
    ensures HandleAll(h, w, [line]) == h(w, line, 0)
  {
    assert [line][..0] == [];
    assert HandleAll(h, w, []) == w;
  }

  /** The session after DATA and the lines of a message. */
  function Collected(w: World, text: string): World {
    Say(w.(session := w.session.(dataMode := true, data := text)), AcceptingData)
  }

  lemma DataThenLines(users: seq<string>, w: World, lines: seq<string>, clock: nat -> string)
    requires !w.session.closed && !w.session.dataMode && w.session.rcptTo != []
    requires forall i :: 0 <= i < |lines| ==> !StartsWith(lines[i], ".")
    ensures HandleAll(Server(users, clock), w, ["DATA"] + lines)
         == Collected(w, FromLine(w.session, clock(0)) + Body(lines))
  {
    var h := Server(users, clock);
    HandleOne(h, w, "DATA");
    DataCommand(users, w, clock(0));
    HandleAllSplit(h, w, ["DATA"], lines);
    DataCollects(users, After(h, 1), Collected(w, FromLine(w.session, clock(0))), lines, clock, 1);
  }

  /** What a text adds to one mailbox: nothing to that of an unknown user. */
  function Grown(users: seq<string>, text: string, rcpts: seq<Address>, user: string): string {
    if user in users then Repeat(text, Copies(rcpts, user)) else ""
  }

  lemma EndOfData(users: seq<string>, w: World, user: string)
    requires w.session.dataMode
    ensures
      var s, w' := w.session, DataLine(users, w, ".");
      && w'.sent == w.sent + Complaints(users, s.rcptTo) + [Okay]
      && Box(w'.boxes, user) == Box(w.boxes, user) + Grown(users, s.data, s.rcptTo, user)
      && w'.session == s.(dataMode := false, initialState := true)
  {
    var s := w.session;
    var w1 := w.(session := s.(dataMode := false, initialState := true));
    DeliverKeepsSession(users, w1, s.rcptTo, s.data);
    DeliverFrame(users, w1, s.rcptTo, s.data);
    if user in users {
      DeliverAppends(users, w1, s.rcptTo, s.data, user);
    }
  }

  /**
   DATA, any lines that do not start with ".", and "." from any session with a recipient:
   the client hears 354 and 250, with a 550 between them for each recipient whose user
   part is not local (even at another domain), every local user's mailbox grows by the
   separator line and exactly those lines once per occurrence, and the session is back
   where it was before DATA but for the text; no other mailbox changes.
   */
  lemma TransactionDelivers(users: seq<string>, w: World, lines: seq<string>, clock: nat -> string, user: string)
    requires !w.session.closed && !w.session.dataMode && w.session.rcptTo != []
    requires forall i :: 0 <= i < |lines| ==> !StartsWith(lines[i], ".")
    ensures
      var s := w.session;
      var text := FromLine(s, clock(0)) + Body(lines);
      var w' := HandleAll(Server(users, clock), w, ["DATA"] + lines + ["."]);
      && w'.sent == w.sent + [AcceptingData] + Complaints(users, s.rcptTo) + [Okay]
      && Box(w'.boxes, user) == Box(w.boxes, user) + Grown(users, text, s.rcptTo, user)
      && w'.session == s.(data := text, initialState := true)
  {
    var collected := Collected(w, FromLine(w.session, clock(0)) + Body(lines));
    DataThenLines(users, w, lines, clock);
    LastDataLine(users, w, ["DATA"] + lines, ".", clock);
    EndOfData(users, collected, user);
  }

  /**
   The recipients outlive the transaction: right after it, another MAIL FROM is refused,
   and another DATA goes to the same recipients, until RSET.
   */
  lemma RecipientsOutliveData(users: seq<string>, w: World, line: string, argument: string, date: string)
    requires SessionOk(users, w.session) && w.session.dataMode && StartsWith(line, ".") && w.session.clientDomain != ""
    ensures
      var w' := Handle(users, w, line, date);
      && w'.session.rcptTo == w.session.rcptTo != []
      && Handle(users, w', "MAIL FROM:" + argument, date) == Say(w', RcptToIssued)
      && Handle(users, w', "DATA", date).session.dataMode
      && Handle(users, w', "RSET", date).session.rcptTo == []
  {
    var s := w.session;
    DeliverKeepsSession(users, w.(session := s.(dataMode := false, initialState := true)), s.rcptTo, s.data);
    var w' := Handle(users, w, line, date);
    MailFromCommand(users, w', argument, date);
    DataCommand(users, w', date);
    RsetCommand(users, w', date);
  }

  lemma DataCommand(users: seq<string>, w: World, date: string)
    requires w.session.rcptTo != []
    ensures CommandLine(users, w, "DATA", date)
         == Say(w.(session := w.session.(dataMode := true, data := FromLine(w.session, date))), AcceptingData)
  {
    assert "DATA"[0] == 'D';
  }

  lemma RsetCommand(users: seq<string>, w: World, date: string)
    requires w.session.clientDomain != ""
    ensures CommandLine(users, w, "RSET", date).session.rcptTo == []
  {
    assert "RSET"[0] == 'R' && "RSET"[1] == 'S';
  }

  lemma MailFromCommand(users: seq<string>, w: World, argument: string, date: string)
    ensures CommandLine(users, w, "MAIL FROM:" + argument, date) == MailFrom(w, argument)
  {
    var line := "MAIL FROM:" + argument;
    assert line[0] == 'M' && line[..10] == "MAIL FROM:" && line[10..] == argument;
  }
}
