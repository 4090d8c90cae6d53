/**
 How the mail server cuts the byte stream into lines (src/webmail/mailserver.cc:95-133,
 326-329): chunks of at most 1024 bytes are appended to a buffer of 8192, every complete
 line is handled and moved out, and a chunk that would overflow the buffer ends the
 connection.
 */
module SmtpFraming {
  import opened Basics
  import opened SmtpSession

  const READ_BUFFER := 1024
  const MAX_LEN := 8192

  /** `strstr(msg, "\r\n")` on the NUL-terminated buffer: nothing is found past a NUL. */
  function FirstCrlf(p: string): (i: int)
    ensures i == -1 || 0 <= i < |p| - 1
  {
    if |p| < 2 || p[0] == '\0' then -1
    else if p[0] == '\r' && p[1] == '\n' then 0
    else if FirstCrlf(p[1..]) == -1 then -1 else 1 + FirstCrlf(p[1..])
  }

  /** A connection: its world, the bytes not yet handled, the lines handled so far, and whether it was cut off for length. */
  datatype Conn = Conn(world: World, pending: string, count: nat, tooLong: bool)

  predicate Closed(c: Conn) { c.tooLong || c.world.session.closed }

  /** The connection once the line that ends at `i` has been handled and moved out. */
  function OneLine(h: Handler, c: Conn, i: nat): Conn
    requires i + 2 <= |c.pending|
  {
    Conn(h(c.world, c.pending[..i], c.count), c.pending[i + 2..], c.count + 1, false)
  }

  /** The inner loop: handles every complete line, in order, until none is left or the connection closes. */
  function Drain(h: Handler, c: Conn): Conn
    decreases |c.pending|
  {
    var i := FirstCrlf(c.pending);
    if Closed(c) || i == -1 then c
    else Drain(h, OneLine(h, c, i))
  }

  /** One turn of the outer loop: a chunk has arrived. */
  function Receive(h: Handler, c: Conn, chunk: string): Conn {
    if Closed(c) then c
    else if |c.pending| + |chunk| > MAX_LEN then c.(world := Say(c.world, LengthExceeded), tooLong := true)
    else Drain(h, c.(pending := c.pending + chunk))
  }

  function ReceiveAll(h: Handler, c: Conn, chunks: seq<string>): Conn {
    if chunks == [] then c
    else Receive(h, ReceiveAll(h, c, chunks[..|chunks| - 1]), chunks[|chunks| - 1])
  }

  function Concat(chunks: seq<string>): string {
    if chunks == [] then "" else Concat(chunks[..|chunks| - 1]) + chunks[|chunks| - 1]
  }

  /** What recv can return. */
  ghost predicate Chunks(chunks: seq<string>) {
    forall i :: 0 <= i < |chunks| ==> 1 <= |chunks[i]| <= READ_BUFFER
  }

  // ----------------------------------------------------- chunk independence

  lemma {:induction false} FirstCrlfAppend(p: string, q: string)
    requires FirstCrlf(p) != -1
    ensures FirstCrlf(p + q) == FirstCrlf(p)
  {
    assert (p + q)[0] == p[0] && (p + q)[1] == p[1];
    if !(p[0] == '\r' && p[1] == '\n') {
      assert (p + q)[1..] == p[1..] + q;
      FirstCrlfAppend(p[1..], q);
    }
  }

  /** Handling what is complete, then appending more and handling again, is appending first and handling once. */
  lemma {:induction false} DrainAppend(h: Handler, c: Conn, more: string)
    ensures
      var a, b := Drain(h, c), Drain(h, c.(pending := c.pending + more));
      if Closed(a) then Closed(b) && b.world == a.world && b.tooLong == a.tooLong && b.count == a.count
      else b == Drain(h, a.(pending := a.pending + more))
    decreases |c.pending|
  {
    var i := FirstCrlf(c.pending);
    if !Closed(c) && i != -1 {
      FirstCrlfAppend(c.pending, more);
      var c1 := OneLine(h, c, i);
      assert (c.pending + more)[..i] == c.pending[..i];
      assert (c.pending + more)[i + 2..] == c.pending[i + 2..] + more;
      DrainAppend(h, c1, more);
    }
  }

  lemma {:induction false} DrainLeavesNoLine(h: Handler, c: Conn)
    ensures !Closed(Drain(h, c)) ==> FirstCrlf(Drain(h, c).pending) == -1
    decreases |c.pending|
  {
    var i := FirstCrlf(c.pending);
    if !Closed(c) && i != -1 {
      DrainLeavesNoLine(h, OneLine(h, c, i));
    }
  }

  /**
   No chunking of this stream can overflow the buffer: at the start of every line handled,
   either all that is left fits, or the line with its CRLF is at most 7169 bytes.
   */
  predicate NeverTooLong(h: Handler, c: Conn)
    decreases |c.pending|
  {
    var i := FirstCrlf(c.pending);
    || Closed(c)
    || |c.pending| <= MAX_LEN
    || (&& i != -1 && i + 2 <= MAX_LEN - READ_BUFFER + 1
        && NeverTooLong(h, OneLine(h, c, i)))
  }

  /** Equal, or both closed with nothing but unread bytes to tell them apart. */
  predicate SameConn(a: Conn, b: Conn) {
    a == b || (Closed(a) && Closed(b) && a.world == b.world && a.tooLong == b.tooLong && a.count == b.count)
  }

  /** With no complete line pending, a line that is short enough when complete leaves room for a chunk. */
  lemma RoomWithinLine(p: string, more: string, chunk: string)
    requires |chunk| <= |more| && |chunk| <= READ_BUFFER && FirstCrlf(p) == -1
    requires
      var j := FirstCrlf(p + more);
      |p + more| <= MAX_LEN || (j != -1 && j + 2 <= MAX_LEN - READ_BUFFER + 1)
    ensures |p| + |chunk| <= MAX_LEN
  {
    var j := FirstCrlf(p + more);
    if |p + more| > MAX_LEN && |p| >= j + 2 {
      assert (p + more)[..|p|] == p;
      FirstCrlfCut(p + more, |p|);
    }
  }

  /** A stream that never overflows stays one as lines are handled: what is pending before a chunk leaves room for it. */
  lemma {:induction false} RoomForChunk(h: Handler, c: Conn, more: string, chunk: string)
    requires |chunk| <= |more| && |chunk| <= READ_BUFFER
    requires NeverTooLong(h, c.(pending := c.pending + more))
    requires !Closed(Drain(h, c))
    ensures |Drain(h, c).pending| + |chunk| <= MAX_LEN
    decreases |c.pending|
  {
    var i := FirstCrlf(c.pending);
    if |c.pending + more| <= MAX_LEN {
      DrainShrinks(h, c);
    } else if i == -1 {
      RoomWithinLine(c.pending, more, chunk);
    } else {
      FirstCrlfAppend(c.pending, more);
      assert (c.pending + more)[..i] == c.pending[..i];
      assert (c.pending + more)[i + 2..] == c.pending[i + 2..] + more;
      RoomForChunk(h, OneLine(h, c, i), more, chunk);
    }
  }

  lemma {:induction false} DrainShrinks(h: Handler, c: Conn)
    ensures |Drain(h, c).pending| <= |c.pending|
    decreases |c.pending|
  {
    var i := FirstCrlf(c.pending);
    if !Closed(c) && i != -1 {
      DrainShrinks(h, OneLine(h, c, i));
    }
  }

  /** A first CRLF that lies within a prefix is found in the prefix. */
  lemma {:induction false} FirstCrlfCut(p: string, n: nat)
    requires n <= |p| && FirstCrlf(p) != -1 && FirstCrlf(p) + 2 <= n
    ensures FirstCrlf(p[..n]) == FirstCrlf(p)
  {
    if !(p[0] == '\r' && p[1] == '\n') {
      FirstCrlfCut(p[1..], n - 1);
      assert p[..n][1..] == p[1..][..n - 1];
    }
  }

  lemma {:induction false} DrainNotTooLong(h: Handler, c: Conn)
    ensures Drain(h, c).tooLong == c.tooLong
    decreases |c.pending|
  {
    var i := FirstCrlf(c.pending);
    if !Closed(c) && i != -1 {
      DrainNotTooLong(h, OneLine(h, c, i));
    }
  }

  /** However the bytes arrive, the connection is cut off for length or ends up as if they had arrived at once. */
  lemma {:induction false} CutOffOrSame(h: Handler, c: Conn, chunks: seq<string>)
    requires !Closed(c) && FirstCrlf(c.pending) == -1
    ensures
      var r := ReceiveAll(h, c, chunks);
      r.tooLong || SameConn(r, Drain(h, c.(pending := c.pending + Concat(chunks))))
    decreases |chunks|
  {
    if chunks == [] {
      assert c.pending + "" == c.pending;
    } else {
      var front, last := chunks[..|chunks| - 1], chunks[|chunks| - 1];
      CutOffOrSame(h, c, front);
      DrainAppend(h, c.(pending := c.pending + Concat(front)), last);
      Assoc(c.pending, Concat(front), last);
    }
  }

  lemma {:induction false} NoOverflow(h: Handler, c: Conn, chunks: seq<string>, rest: string)
    requires Chunks(chunks) && !Closed(c) && FirstCrlf(c.pending) == -1
    requires NeverTooLong(h, c.(pending := c.pending + (Concat(chunks) + rest)))
    ensures !ReceiveAll(h, c, chunks).tooLong
    decreases |chunks|
  {
    if chunks != [] {
      var front, last := chunks[..|chunks| - 1], chunks[|chunks| - 1];
      Assoc(Concat(front), last, rest);
      NoOverflow(h, c, front, last + rest);
      CutOffOrSame(h, c, front);
      var c0, a := c.(pending := c.pending + Concat(front)), ReceiveAll(h, c, front);
      if !Closed(a) {
        Assoc(c.pending, Concat(front), last + rest);
        RoomForChunk(h, c0, last + rest, last);
        DrainNotTooLong(h, a.(pending := a.pending + last));
      }
    }
  }

  /**
   Framing does not depend on chunking.  A stream that cannot overflow the buffer is
   handled, however recv cuts it (even inside a CRLF), exactly as if it had arrived and
   been split at once: same lines, same responses, same mailboxes, never cut off.
   */
  lemma ChunkingIrrelevant(h: Handler, w: World, chunks: seq<string>)
    requires Chunks(chunks) && !w.session.closed && NeverTooLong(h, Conn(w, Concat(chunks), 0, false))
    ensures !ReceiveAll(h, Conn(w, "", 0, false), chunks).tooLong
    ensures SameConn(ReceiveAll(h, Conn(w, "", 0, false), chunks), Drain(h, Conn(w, Concat(chunks), 0, false)))
  {
    var c := Conn(w, "", 0, false);
    assert "" + (Concat(chunks) + "") == Concat(chunks) == "" + Concat(chunks);
    NoOverflow(h, c, chunks, "");
    CutOffOrSame(h, c, chunks);
  }

  // ------------------------------------- exactly which streams are ever cut off

  const FATAL := MAX_LEN - READ_BUFFER + 1

  /** Where a stream that can overflow does: after k bytes, 7169 of them are pending and 1024 are still to come. */
  lemma {:induction false} OverflowPoint(h: Handler, c: Conn) returns (k: nat)
    requires !NeverTooLong(h, c)
    ensures k + READ_BUFFER <= |c.pending|
    ensures var d := Drain(h, c.(pending := c.pending[..k])); !Closed(d) && |d.pending| == FATAL
    decreases |c.pending|
  {
    var i := FirstCrlf(c.pending);
    if i != -1 && i + 2 <= FATAL {
      var k1 := OverflowPoint(h, OneLine(h, c, i));
      k := i + 2 + k1;
      FirstCrlfCut(c.pending, k);
      assert c.pending[..k][..i] == c.pending[..i];
      assert c.pending[..k][i + 2..] == c.pending[i + 2..][..k1];
    } else {
      k := FATAL;
      NoLineBefore(c.pending, k);
    }
  }

  lemma NoLineBefore(p: string, n: nat)
    requires n <= |p|
    ensures FirstCrlf(p[..n]) != -1 ==> FirstCrlf(p[..n]) == FirstCrlf(p)
  {
    if FirstCrlf(p[..n]) != -1 {
      FirstCrlfAppend(p[..n], p[n..]);
      assert p[..n] + p[n..] == p;
    }
  }

  /** One byte at a time. */
  function Bytes(p: string): (chunks: seq<string>)
    ensures |chunks| == |p| && forall i :: 0 <= i < |p| ==> |chunks[i]| == 1
    ensures Concat(chunks) == p
  {
    if p == "" then [] else
      var chunks := Bytes(p[..|p| - 1]) + [[p[|p| - 1]]];
      assert chunks[..|chunks| - 1] == Bytes(p[..|p| - 1]);
      assert p[..|p| - 1] + [p[|p| - 1]] == p;
      chunks
  }

  lemma {:induction false} ConcatAppend(a: seq<string>, b: seq<string>)
    ensures Concat(a + b) == Concat(a) + Concat(b)
    decreases |b|
  {
    if b == [] {
      assert a + b == a;
    } else {
      assert (a + b)[..|a + b| - 1] == a + b[..|b| - 1];
      ConcatAppend(a, b[..|b| - 1]);
      Assoc(Concat(a), Concat(b[..|b| - 1]), b[|b| - 1]);
    }
  }

  lemma {:induction false} CutOffForGood(h: Handler, c: Conn, a: seq<string>, b: seq<string>)
    requires ReceiveAll(h, c, a).tooLong
    ensures ReceiveAll(h, c, a + b).tooLong
    decreases |b|
  {
    if b == [] {
      assert a + b == a;
    } else {
      assert (a + b)[..|a + b| - 1] == a + b[..|b| - 1];
      CutOffForGood(h, c, a, b[..|b| - 1]);
    }
  }

  lemma ConcatThree(a: seq<string>, big: string, b: seq<string>)
    ensures Concat(a + [big] + b) == Concat(a) + big + Concat(b)
  {
    ConcatAppend(a + [big], b);
    assert (a + [big])[..|a|] == a;
  }

  lemma FatalChunk(h: Handler, c: Conn, a: seq<string>, big: string)
    requires !Closed(c) && FirstCrlf(c.pending) == -1
    requires var d := Drain(h, c.(pending := c.pending + Concat(a))); !Closed(d) && |d.pending| + |big| > MAX_LEN
    ensures ReceiveAll(h, c, a + [big]).tooLong
  {
    CutOffOrSame(h, c, a);
    if ReceiveAll(h, c, a).tooLong {
      CutOffForGood(h, c, a, [big]);
    } else {
      assert (a + [big])[..|a|] == a;
    }
  }

  lemma FatalAt(h: Handler, w: World, stream: string, k: nat)
    requires k + READ_BUFFER <= |stream|
    requires var d := Drain(h, Conn(w, stream[..k], 0, false)); !Closed(d) && |d.pending| == FATAL
    requires !w.session.closed
    ensures ReceiveAll(h, Conn(w, "", 0, false), Bytes(stream[..k]) + [stream[k..k + READ_BUFFER]]).tooLong
  {
    var c := Conn(w, "", 0, false);
    assert "" + stream[..k] == stream[..k];
    assert c.(pending := "" + stream[..k]) == Conn(w, stream[..k], 0, false);
    FatalChunk(h, c, Bytes(stream[..k]), stream[k..k + READ_BUFFER]);
  }

  /** Bytes one at a time, except for one full read at k. */
  function ChunkedAt(stream: string, k: nat): (chunks: seq<string>)
    requires k + READ_BUFFER <= |stream|
  {
    Bytes(stream[..k]) + [stream[k..k + READ_BUFFER]] + Bytes(stream[k + READ_BUFFER..])
  }

  lemma ChunkedAtConcat(stream: string, k: nat)
    requires k + READ_BUFFER <= |stream|
    ensures Chunks(ChunkedAt(stream, k)) && Concat(ChunkedAt(stream, k)) == stream
  {
    var a, big, b := stream[..k], stream[k..k + READ_BUFFER], stream[k + READ_BUFFER..];
    ConcatThree(Bytes(a), big, Bytes(b));
    assert a + big + b == stream;
  }

  lemma SomeChunkingIsFatal(h: Handler, w: World, stream: string) returns (chunks: seq<string>)
    requires !NeverTooLong(h, Conn(w, stream, 0, false))
    ensures Chunks(chunks) && Concat(chunks) == stream
    ensures ReceiveAll(h, Conn(w, "", 0, false), chunks).tooLong
  {
    var k := OverflowPoint(h, Conn(w, stream, 0, false));
    FatalAt(h, w, stream, k);
    CutOffForGood(h, Conn(w, "", 0, false), Bytes(stream[..k]) + [stream[k..k + READ_BUFFER]], Bytes(stream[k + READ_BUFFER..]));
    chunks := ChunkedAt(stream, k);
    ChunkedAtConcat(stream, k);
  }

  /** A stream is never cut off, however it is chunked, exactly when it cannot overflow the buffer. */
  lemma NeverCutOffExactly(h: Handler, w: World, stream: string)
    requires !w.session.closed
    ensures NeverTooLong(h, Conn(w, stream, 0, false))
       <==> (forall chunks :: Chunks(chunks) && Concat(chunks) == stream ==> !ReceiveAll(h, Conn(w, "", 0, false), chunks).tooLong)
  {
    if NeverTooLong(h, Conn(w, stream, 0, false)) {
      forall chunks | Chunks(chunks) && Concat(chunks) == stream
        ensures !ReceiveAll(h, Conn(w, "", 0, false), chunks).tooLong
      {
        ChunkingIrrelevant(h, w, chunks);
      }
    } else {
      var chunks := SomeChunkingIsFatal(h, w, stream);
    }
  }

  lemma {:induction false} DrainSaysNoCut(users: seq<string>, clock: nat -> string, c: Conn)
    requires LengthExceeded !in c.world.sent
    ensures LengthExceeded !in Drain(Server(users, clock), c).world.sent
    decreases |c.pending|
  {
    var h, i := Server(users, clock), FirstCrlf(c.pending);
    if !Closed(c) && i != -1 {
      HandleSaysNoCut(users, c.world, c.pending[..i], clock(c.count));
      assert OneLine(h, c, i).world == Handle(users, c.world, c.pending[..i], clock(c.count));
      DrainSaysNoCut(users, clock, OneLine(h, c, i));
    }
  }

  lemma HandleSaysNoCut(users: seq<string>, w: World, line: string, date: string)
    requires LengthExceeded !in w.sent
    ensures LengthExceeded !in Handle(users, w, line, date).sent
  {
    var s := w.session;
    if s.dataMode {
      DeliverFrame(users, w.(session := s.(dataMode := false, initialState := true)), s.rcptTo, s.data);
    } else {
      ControlSaysNoCut(w, line, date);
    }
  }

  lemma ControlSaysNoCut(w: World, line: string, date: string)
    requires LengthExceeded !in w.sent
    ensures LengthExceeded !in ControlLine(w, line, date).sent
  {
  }

  /** A client is told that it was cut off for length exactly if it was, and then last of all. */
  lemma {:induction false} CutOffIsTold(users: seq<string>, w: World, chunks: seq<string>, clock: nat -> string)
    requires LengthExceeded !in w.sent
    ensures
      var c := ReceiveAll(Server(users, clock), Conn(w, "", 0, false), chunks);
      && (c.tooLong <==> LengthExceeded in c.world.sent)
      && (c.tooLong ==> c.world.sent[|c.world.sent| - 1] == LengthExceeded && LengthExceeded !in c.world.sent[..|c.world.sent| - 1])
  {
    if chunks != [] {
      var n := |chunks| - 1;
      CutOffIsTold(users, w, chunks[..n], clock);
      var c := ReceiveAll(Server(users, clock), Conn(w, "", 0, false), chunks[..n]);
      if !Closed(c) && |c.pending| + |chunks[n]| <= MAX_LEN {
        var full := c.(pending := c.pending + chunks[n]);
        DrainSaysNoCut(users, clock, full);
        DrainNotTooLong(Server(users, clock), full);
      }
    }
  }

  // ------------------------------------------ splitting the whole stream at CRLF

  /** A line: no CRLF inside, no NUL. */
  predicate Line(l: string) {
    && (forall i :: 0 <= i < |l| ==> l[i] != '\0')
    && (forall i :: 0 <= i < |l| - 1 ==> !(l[i] == '\r' && l[i + 1] == '\n'))
  }

  ghost predicate Lines(lines: seq<string>) {
    forall i :: 0 <= i < |lines| ==> Line(lines[i])
  }

  lemma {:induction false} FirstCrlfOfLine(l: string, rest: string)
    requires Line(l)
    ensures FirstCrlf(l + "\r\n" + rest) == |l|
  {
    var p := l + "\r\n" + rest;
    if l == "" {
      assert p[0] == '\r' && p[1] == '\n';
    } else {
      assert p[1..] == l[1..] + "\r\n" + rest;
      FirstCrlfOfLine(l[1..], rest);
      assert p[0] == l[0] && p[1] == if |l| > 1 then l[1] else '\r';
    }
  }

  lemma {:induction false} FirstCrlfOfTail(l: string)
    requires Line(l)
    ensures FirstCrlf(l) == -1
  {
    if |l| >= 2 {
      FirstCrlfOfTail(l[1..]);
    }
  }

  lemma {:induction false} BodyFront(lines: seq<string>)
    requires lines != []
    ensures Body(lines) == lines[0] + "\r\n" + Body(lines[1..])
  {
    if |lines| == 1 {
      assert lines[..0] == [] && lines[1..] == [];
      assert Body(lines) == "" + (lines[0] + "\r\n");
    } else {
      var front, last := lines[..|lines| - 1], lines[|lines| - 1] + "\r\n";
      BodyFront(front);
      assert front[1..] == lines[1..][..|lines| - 2];
      Assoc(lines[0] + "\r\n", Body(front[1..]), last);
    }
  }

  /** Where the first line of a stream ends, and what follows it. */
  lemma FirstLine(lines: seq<string>, tail: string)
    requires Lines(lines) && Line(tail)
    ensures
      var p := Body(lines) + tail;
      if lines == [] then FirstCrlf(p) == -1
      else
        && FirstCrlf(p) == |lines[0]| && |lines[0]| + 2 <= |p|
        && p[..|lines[0]|] == lines[0] && p[|lines[0]| + 2..] == Body(lines[1..]) + tail
  {
    if lines == [] {
      assert Body(lines) + tail == tail;
      FirstCrlfOfTail(tail);
    } else {
      BodyFront(lines);
      Assoc(lines[0] + "\r\n", Body(lines[1..]), tail);
      FirstCrlfOfLine(lines[0], Body(lines[1..]) + tail);
      CutAtCrlf(lines[0], Body(lines[1..]) + tail);
    }
  }

  lemma CutAtCrlf(l: string, rest: string)
    ensures (l + "\r\n" + rest)[..|l|] == l
    ensures (l + "\r\n" + rest)[|l| + 2..] == rest
  {
  }

  /** A stream is lines each with its CRLF and an incomplete one in at most one way. */
  lemma {:induction false} SplitIsUnique(lines: seq<string>, tail: string, others: seq<string>, end: string)
    requires Lines(lines) && Line(tail) && Lines(others) && Line(end)
    requires Body(lines) + tail == Body(others) + end
    ensures lines == others && tail == end
    decreases |lines|
  {
    FirstLine(lines, tail);
    FirstLine(others, end);
    if lines == [] {
      assert Body(lines) + tail == tail && Body(others) + end == end;
    } else {
      SplitIsUnique(lines[1..], tail, others[1..], end);
      assert lines == [lines[0]] + lines[1..] && others == [others[0]] + others[1..];
    }
  }

  /** Every NUL-free stream is a sequence of lines each with its CRLF and an incomplete one. */
  lemma {:induction false} StreamSplits(stream: string) returns (lines: seq<string>, tail: string)
    requires forall i :: 0 <= i < |stream| ==> stream[i] != '\0'
    ensures stream == Body(lines) + tail && Lines(lines) && Line(tail)
  {
    if stream == "" {
      lines, tail := [], "";
    } else {
      var front, c := stream[..|stream| - 1], stream[|stream| - 1];
      lines, tail := StreamSplits(front);
      assert stream == Body(lines) + (tail + [c]);
      if c == '\n' && tail != "" && tail[|tail| - 1] == '\r' {
        var l := tail[..|tail| - 1];
        assert tail + [c] == l + "\r\n";
        assert (lines + [l])[..|lines|] == lines;
        assert Body(lines + [l]) == Body(lines) + (l + "\r\n");
        lines, tail := lines + [l], "";
      } else {
        tail := tail + [c];
      }
    }
  }

  /** The worker's loop on the lines still pending, when those in `done` have been handled. */
  lemma {:induction false} DrainHandlesRest(h: Handler, w: World, done: seq<string>, lines: seq<string>, tail: string)
    requires Lines(lines) && Line(tail)
    ensures
      var c := Drain(h, Conn(HandleAll(h, w, done), Body(lines) + tail, |done|, false));
      && c.world == HandleAll(h, w, done + lines)
      && (!c.world.session.closed ==> c.pending == tail && c.count == |done + lines|)
    decreases |lines|
  {
    var w' := HandleAll(h, w, done);
    var c := Conn(w', Body(lines) + tail, |done|, false);
    FirstLine(lines, tail);
    if lines == [] {
      assert done + lines == done && Body(lines) + tail == tail;
    } else if w'.session.closed {
      ClosedForGood(h, w, done, lines);
    } else {
      assert (done + [lines[0]])[..|done|] == done;
      assert done + [lines[0]] + lines[1..] == done + lines;
      DrainHandlesRest(h, w, done + [lines[0]], lines[1..], tail);
    }
  }

  lemma {:induction false} ClosedForGood(h: Handler, w: World, done: seq<string>, lines: seq<string>)
    requires HandleAll(h, w, done).session.closed
    ensures HandleAll(h, w, done + lines) == HandleAll(h, w, done)
    decreases |lines|
  {
    if lines == [] {
      assert done + lines == done;
    } else {
      assert (done + lines)[..|done + lines| - 1] == done + lines[..|lines| - 1];
      ClosedForGood(h, w, done, lines[..|lines| - 1]);
    }
  }

  /** Lines that are short enough with their CRLF cannot overflow the buffer. */
  lemma {:induction false} ShortLinesFit(h: Handler, w: World, lines: seq<string>, tail: string, n: nat)
    requires Lines(lines) && Line(tail) && |tail| <= MAX_LEN
    requires forall i :: 0 <= i < |lines| ==> |lines[i]| + 2 <= 7169
    ensures NeverTooLong(h, Conn(w, Body(lines) + tail, n, false))
    decreases |lines|
  {
    if lines == [] {
      assert Body(lines) + tail == tail;
    } else {
      BodyFront(lines);
      var l, rest := lines[0], Body(lines[1..]) + tail;
      assert Body(lines) + tail == l + "\r\n" + rest;
      FirstCrlfOfLine(l, rest);
      assert (l + "\r\n" + rest)[..|l|] == l;
      assert (l + "\r\n" + rest)[|l| + 2..] == rest;
      ShortLinesFit(h, h(w, l, n), lines[1..], tail, n + 1);
    }
  }

  /**
   The worker refines splitting the whole stream at CRLF.  Whatever lines a client sends,
   none longer with its CRLF than 7169 bytes (those of section 4.5.3.1 of RFC 5321 are
   well below), and however recv cuts the bytes: the lines are handled in order, each once,
   up to the first that closes the connection, nothing is cut off for length, and an
   incomplete last line stays pending.
   */
  lemma WorkerSplitsAtCrlf(h: Handler, w: World, lines: seq<string>, tail: string, chunks: seq<string>)
    requires Lines(lines) && Line(tail) && |tail| <= MAX_LEN && !w.session.closed
    requires forall i :: 0 <= i < |lines| ==> |lines[i]| + 2 <= 7169
    requires Chunks(chunks) && Concat(chunks) == Body(lines) + tail
    ensures
      var c := ReceiveAll(h, Conn(w, "", 0, false), chunks);
      && !c.tooLong
      && c.world == HandleAll(h, w, lines)
      && (!c.world.session.closed ==> c.pending == tail && c.count == |lines|)
  {
    ShortLinesFit(h, w, lines, tail, 0);
    ChunkingIrrelevant(h, w, chunks);
    DrainHandlesRest(h, w, [], lines, tail);
    assert [] + lines == lines && HandleAll(h, w, []) == w;
  }

  /**
   The same from the stream to the mailboxes: whatever the chunking, each known user's
   mailbox has grown by exactly the texts of the transactions the lines complete, in order,
   and the session is in a state the invariant allows.
   */
  lemma MailByAnyChunking(users: seq<string>, w: World, lines: seq<string>, tail: string, chunks: seq<string>, clock: nat -> string, user: string)
    requires Lines(lines) && Line(tail) && |tail| <= MAX_LEN && w.session == FRESH && user in users
    requires forall i :: 0 <= i < |lines| ==> |lines[i]| + 2 <= 7169
    requires Chunks(chunks) && Concat(chunks) == Body(lines) + tail
    ensures
      var c := ReceiveAll(Server(users, clock), Conn(w, "", 0, false), chunks);
      && Box(c.world.boxes, user) == Box(w.boxes, user) + Mail(Completed(users, w, lines, clock), user)
      && SessionOk(users, c.world.session)
  {
    WorkerSplitsAtCrlf(Server(users, clock), w, lines, tail, chunks);
    MailboxHistory(users, w, lines, clock, user);
    SessionAlwaysOk(users, w, lines, clock);
  }

  // ------------------------------------------------------------------- NUL

  lemma {:induction false} NothingPastNul(p: string, n: nat)
    requires n < |p| && p[n] == '\0' && Line(p[..n])
    ensures FirstCrlf(p) == -1
  {
    if n > 0 && |p| >= 2 {
      assert p[..n][0] == p[0];
      assert n > 1 ==> p[..n][1] == p[1];
      assert p[1..][..n - 1] == p[..n][1..];
      NothingPastNul(p[1..], n - 1);
    }
  }

  /** A NUL byte inside a line ends the session's progress: nothing after it is ever handled, whatever arrives. */
  lemma {:induction false} NulStalls(h: Handler, c: Conn, n: nat, chunks: seq<string>)
    requires !Closed(c) && n < |c.pending| && c.pending[n] == '\0' && Line(c.pending[..n])
    ensures
      var r := ReceiveAll(h, c, chunks);
      if r.tooLong then r.world == Say(c.world, LengthExceeded)
      else r == c.(pending := c.pending + Concat(chunks))
    decreases |chunks|
  {
    if chunks == [] {
      assert c.pending + "" == c.pending;
    } else {
      var front, last := chunks[..|chunks| - 1], chunks[|chunks| - 1];
      NulStalls(h, c, n, front);
      Assoc(c.pending, Concat(front), last);
      var p := c.pending + Concat(front) + last;
      assert p[..n] == c.pending[..n];
      NothingPastNul(p, n);
    }
  }
}
