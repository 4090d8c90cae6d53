/**
 The worker thread of the mail server as it runs (src/webmail/mailserver.cc, worker): one
 character buffer updated in place by memcpy, strstr and memmove, and local variables that
 the command handlers assign.  Every method is proved equal to the session and framing
 functions, so what is proved of them holds of the worker.
 */
module SmtpWorker {
  import opened Basics
  import opened SmtpSession
  import opened SmtpFraming

  class Worker {
    const users: seq<string>
    const msg: array<char>
    var msgLen: nat

    var clientDomain: string
    var initialState: bool
    var fromUser: string
    var fromDomain: string
    var rcptTo: seq<Address>
    var data: string
    var dataMode: bool
    var closed: bool
    var tooLong: bool

    /** The mailbox files, the bytes sent, and how many lines have been handled. */
    var boxes: map<string, string>
    var sent: seq<Reply>
    var count: nat

    ghost predicate Valid()
      reads this, msg
    {
      msg.Length == MAX_LEN + 1 && msgLen <= MAX_LEN && msg[msgLen] == '\0'
    }

    ghost function W(): World
      reads this
    {
      World(Session(clientDomain, initialState, fromUser, fromDomain, rcptTo, data, dataMode, closed), boxes, sent)
    }

    ghost function Pending(): string
      requires Valid()
      reads this, msg
    {
      msg[..msgLen]
    }

    ghost function State(): Conn
      requires Valid()
      reads this, msg
    {
      Conn(W(), Pending(), count, tooLong)
    }

    constructor (users: seq<string>, boxes: map<string, string>)
      ensures Valid() && fresh(msg) && msg.Length == 8193 && this.users == users
      ensures State() == Conn(World(FRESH, boxes, [ServiceReady]), "", 0, false)
    {
      this.users := users;
      msg := new char[MAX_LEN + 1](_ => '\0');
      msgLen, count, tooLong := 0, 0, false;
      clientDomain, initialState, fromUser, fromDomain := "", true, "", "";
      rcptTo, data, dataMode, closed := [], "", false, false;
      this.boxes := boxes;
      sent := [ServiceReady];
    }

    // ------------------------------------------------------------- the buffer

    /** strstr(msg, "\r\n"), with -1 for NULL. */
    method FindCrlf() returns (i: int)
      requires Valid()
      ensures i == FirstCrlf(Pending())
    {
      i := 0;
      while msg[i] != '\0' && !(msg[i] == '\r' && msg[i + 1] == '\n')
        invariant 0 <= i <= msgLen
        invariant FirstCrlf(Pending()) == if FirstCrlf(Pending()[i..]) == -1 then -1 else i + FirstCrlf(Pending()[i..])
        decreases msgLen - i
      {
        assert Pending()[i..][1..] == Pending()[i + 1..];
        i := i + 1;
      }
      if msg[i] == '\0' {
        i := -1;
      }
    }

    /** std::string(msg): the characters up to the first NUL, which is at n. */
    method Text(ghost n: nat) returns (s: string)
      requires n < msg.Length && msg[n] == '\0' && forall k :: 0 <= k < n ==> msg[k] != '\0'
      ensures s == msg[..n]
    {
      var i := 0;
      while msg[i] != '\0'
        invariant 0 <= i <= n
        decreases n - i
      {
        i := i + 1;
      }
      s := msg[..i];
    }

    /** memcpy(msg + msg_len, msg_buffer, read_size + 1). */
    method Append(chunk: string)
      requires Valid() && msgLen + |chunk| <= MAX_LEN
      modifies msg, `msgLen
      ensures Valid() && Pending() == old(Pending()) + chunk
    {
      var i := 0;
      while i < |chunk|
        invariant 0 <= i <= |chunk|
        invariant msgLen == old(msgLen)
        invariant msg[..msgLen] == old(msg[..msgLen])
        invariant forall k :: 0 <= k < i ==> msg[msgLen + k] == chunk[k]
      {
        msg[msgLen + i] := chunk[i];
        i := i + 1;
      }
      msg[msgLen + |chunk|] := '\0';
      assert msg[msgLen..msgLen + |chunk|] == chunk;
      msgLen := msgLen + |chunk|;
    }

    /** memmove(msg, cmd_end + 2, msg_len + 1), with msg_len already reduced. */
    method MoveOut(n: nat)
      requires msg.Length == MAX_LEN + 1 && n <= msgLen <= MAX_LEN && msg[msgLen] == '\0'
      modifies msg, `msgLen
      ensures Valid() && Pending() == old(msg[n..msgLen])
    {
      msgLen := msgLen - n;
      var i := 0;
      while i <= msgLen
        invariant 0 <= i <= msgLen + 1
        invariant msgLen == old(msgLen) - n
        invariant forall k :: 0 <= k < i ==> msg[k] == old(msg[n + k])
        invariant forall k :: i + n <= k <= old(msgLen) ==> msg[k] == old(msg[k])
      {
        msg[i] := msg[i + n];
        i := i + 1;
      }
    }

    // ------------------------------------------------------------ the commands

    method Send(response: Reply)
      modifies `sent
      ensures sent == old(sent) + [response]
    {
      sent := sent + [response];
    }

    method DeliverTo(to: Address)
      modifies `boxes, `sent
      ensures W() == DeliverOne(users, old(W()), to, data)
    {
      if to.user !in users {
        Send(MailboxGone);
      } else if to.domain == "localhost" {
        boxes := boxes[to.user := (if to.user in boxes then boxes[to.user] else "") + data];
      }
    }

    /** The end of data: each recipient in turn. */
    method Deliver()
      modifies `boxes, `sent
      ensures W() == DeliverAll(users, old(W()), rcptTo, data)
    {
      var i := 0;
      assert rcptTo[0..] == rcptTo;
      while i < |rcptTo|
        invariant 0 <= i <= |rcptTo|
        invariant DeliverAll(users, W(), rcptTo[i..], data) == DeliverAll(users, old(W()), rcptTo, data)
      {
        assert rcptTo[i..][1..] == rcptTo[i + 1..];
        DeliverTo(rcptTo[i]);
        i := i + 1;
      }
    }

    method DataMode(line: string)
      modifies `dataMode, `initialState, `boxes, `sent, `data
      ensures W() == DataLine(users, old(W()), line)
    {
      if StartsWith(line, ".") {
        dataMode := false;
        initialState := true;
        Deliver();
        DeliverKeepsSession(users, old(W()).(session := old(W()).session.(dataMode := false, initialState := true)), rcptTo, data);
        Send(Okay);
      } else {
        data := data + line + "\r\n";
      }
    }

    method HeloCommand(argument: string)
      modifies `clientDomain, `sent
      ensures W() == Helo(old(W()), argument)
    {
      if !initialState {
        Send(BadSequence);
      } else {
        clientDomain := argument;
        if clientDomain == "" {
          Send(EmptyHelo);
        } else {
          Send(HeloAccepted);
        }
      }
    }

    method MailFromCommand(argument: string)
      modifies `fromUser, `fromDomain, `initialState, `sent
      ensures W() == MailFrom(old(W()), argument)
    {
      if clientDomain == "" {
        Send(HeloFirst);
      } else if rcptTo == [] {
        match ParseAddress(argument) {
          case Some(a) =>
            fromUser, fromDomain := a.user, a.domain;
            Send(Okay);
            initialState := false;
          case None => Send(BadAddress);
        }
      } else {
        Send(RcptToIssued);
      }
    }

    method RcptToCommand(argument: string)
      modifies `rcptTo, `sent
      ensures W() == RcptTo(users, old(W()), argument)
    {
      if fromUser == "" && fromDomain == "" {
        Send(MailFromFirst);
      } else {
        match ParseAddress(argument) {
          case Some(a) =>
            if a.domain == "localhost" && a.user !in users {
              Send(NoSuchUser);
            } else {
              rcptTo := rcptTo + [a];
              Send(Okay);
            }
          case None => Send(BadAddress);
        }
      }
    }

    method DataCommand(date: string)
      requires rcptTo != []
      modifies `dataMode, `data, `sent
      ensures W() == Say(old(W()).(session := old(W()).session.(dataMode := true, data := FromLine(old(W()).session, date))), AcceptingData)
    {
      dataMode := true;
      data := "From <" + fromUser + "@" + fromDomain + "> " + date;
      Send(AcceptingData);
    }

    method Reset()
      modifies `clientDomain, `initialState, `fromUser, `fromDomain, `rcptTo, `data, `dataMode, `sent
      ensures W() == Say(old(W()).(session := FRESH.(closed := closed)), Okay)
    {
      clientDomain, initialState, fromUser, fromDomain := "", true, "", "";
      rcptTo, data, dataMode := [], "", false;
      Send(Okay);
    }

    method ControlCommand(line: string, date: string)
      modifies `clientDomain, `initialState, `fromUser, `fromDomain, `rcptTo, `data, `dataMode, `closed, `sent
      ensures W() == ControlLine(old(W()), line, date)
    {
      if Command(line, "DATA", "data") {
        if rcptTo == [] {
          Send(RcptToFirst);
        } else {
          DataCommand(date);
        }
      } else if Command(line, "QUIT", "quit") {
        Send(Quitting);
        closed := true;
      } else if Command(line, "RSET", "rset") {
        if clientDomain == "" {
          Send(HeloFirst);
        } else {
          Reset();
        }
      } else if Command(line, "NOOP", "noop") {
        Send(if clientDomain == "" then HeloFirst else Okay);
      } else {
        Send(Unrecognized);
      }
    }

    method CommandMode(line: string, date: string)
      modifies `clientDomain, `initialState, `fromUser, `fromDomain, `rcptTo, `data, `dataMode, `closed, `sent
      ensures W() == CommandLine(users, old(W()), line, date)
    {
      if Command(line, "HELO ", "helo ") {
        HeloCommand(line[5..]);
      } else if Command(line, "MAIL FROM:", "mail from:") {
        MailFromCommand(line[10..]);
      } else if Command(line, "RCPT TO:", "rcpt to:") {
        RcptToCommand(line[8..]);
      } else {
        ControlCommand(line, date);
      }
    }

    method HandleLine(line: string, date: string)
      modifies `clientDomain, `initialState, `fromUser, `fromDomain, `rcptTo, `data, `dataMode, `closed, `sent, `boxes
      ensures W() == Handle(users, old(W()), line, date)
    {
      if dataMode {
        DataMode(line);
      } else {
        CommandMode(line, date);
      }
    }

    /** The body of the inner loop, for the CRLF at `cmdEnd`; a line that ends the session leaves the buffer alone. */
    method HandleNext(cmdEnd: nat, clock: nat -> string)
      requires Valid() && !closed && !tooLong && cmdEnd == FirstCrlf(Pending())
      modifies this, msg
      ensures Valid() && tooLong == old(tooLong)
      ensures W() == OneLine(Server(users, clock), old(State()), cmdEnd).world && count == old(count) + 1
      ensures !closed ==> State() == OneLine(Server(users, clock), old(State()), cmdEnd)
      ensures !closed ==> msgLen < old(msgLen)
    {
      NoNulBefore(Pending());
      msg[cmdEnd] := '\0';
      var line := Text(cmdEnd);
      assert line == old(Pending())[..cmdEnd];
      HandleLine(line, clock(count));
      count := count + 1;
      if closed {
        return;
      }
      assert msg[cmdEnd + 2..msgLen] == old(Pending())[cmdEnd + 2..];
      MoveOut(cmdEnd + 2);
    }

    /** One read: the outer loop's body.  The buffer is never indexed outside its 8193 characters. */
    method Receive(chunk: string, clock: nat -> string)
      requires Valid() && !closed && !tooLong && 1 <= |chunk| <= READ_BUFFER
      modifies this, msg
      ensures Valid()
      ensures SameConn(State(), SmtpFraming.Receive(Server(users, clock), old(State()), chunk))
      ensures tooLong <==> old(msgLen) + |chunk| > 8192
    {
      if msgLen + |chunk| > MAX_LEN {
        Send(LengthExceeded);
        tooLong := true;
        return;
      }
      Append(chunk);
      ghost var start := State();
      var cmdEnd := FindCrlf();
      while cmdEnd != -1
        invariant Valid() && !closed && !tooLong
        invariant cmdEnd == FirstCrlf(Pending())
        invariant Drain(Server(users, clock), State()) == Drain(Server(users, clock), start)
        decreases msgLen
      {
        HandleNext(cmdEnd, clock);
        if closed {
          return;
        }
        cmdEnd := FindCrlf();
      }
    }
  }

  lemma {:induction false} NoNulBefore(p: string)
    requires FirstCrlf(p) != -1
    ensures forall k :: 0 <= k < FirstCrlf(p) ==> p[k] != '\0'
  {
    if FirstCrlf(p) > 0 {
      NoNulBefore(p[1..]);
      assert forall k :: 0 < k < FirstCrlf(p) ==> p[k] == p[1..][k - 1];
    }
  }
}
