/**
 The checkpoint file and the append log of a storage node, byte for byte
 (src/kv/KVClass.h, src/common/common_util.h).  A `string` is a byte string, one char per
 byte; nothing below restricts the chars, so every result holds for arbitrary bytes.

 Readers and writers take a `Build`, because the shipped code departs from its own
 format in three places:
   - get_token fills its result only under a local debug flag that is false, so every
     token is "" (common_util.h:20-26);
   - the PUT writer puts row and column on the header line, the reader wants them on
     lines of their own (KVClass.h:500 against 375-383);
   - replay skips one byte too many after a DELETE (KVClass.h:407).
 `SHIPPED` is the code as it stands and `REPAIRED` the code with the three repaired.
 */
module Records {
  import opened Basics
  import opened Tablets

  datatype Build = Build(tokenFilled: bool, putInline: bool, deleteSkip: nat)

  const SHIPPED := Build(false, true, 1)
  const REPAIRED := Build(true, false, 0)

  datatype Record =
    | Data(row: string, col: string, value: string)
    | Put(row: string, col: string, value: string)
    | Delete(row: string, col: string)

  // ----------------------------------------------------------------- writing

  predicate IsDigit(c: char) { '0' <= c <= '9' }

  function DigitOf(d: nat): char
    requires d < 10
  {
    "0123456789"[d]
  }

  /** `fmt::format("{}", n)`. */
  function Decimal(n: nat): string {
    if n < 10 then [DigitOf(n)] else Decimal(n / 10) + [DigitOf(n % 10)]
  }

  function Header3(keyword: string, a: string, b: string, c: string): string {
    keyword + " " + Decimal(|a|) + " " + Decimal(|b|) + " " + Decimal(|c|)
  }

  function Header2(keyword: string, a: string, b: string): string {
    keyword + " " + Decimal(|a|) + " " + Decimal(|b|)
  }

  function Triple(kw: string, rk: string, ck: string, v: string): string {
    Header3(kw, rk, ck, v) + "\n" + rk + "\n" + ck + "\n" + v + "\n"
  }

  function Encode(b: Build, r: Record): string {
    match r
    case Data(rk, ck, v) => Triple("DATA", rk, ck, v)
    case Put(rk, ck, v) =>
      if b.putInline then Header3("PUT", rk, ck, v) + " " + rk + " " + ck + "\n" + v + "\n"
      else Triple("PUT", rk, ck, v)
    case Delete(rk, ck) => Header2("DELETE", rk, ck) + "\n" + rk + "\n" + ck + "\n"
  }

  function EncodeAll(b: Build, rs: seq<Record>): string {
    if rs == [] then "" else Encode(b, rs[0]) + EncodeAll(b, rs[1..])
  }

  lemma {:induction false} EncodeAllAppend(b: Build, rs: seq<Record>, r: Record)
    ensures EncodeAll(b, rs + [r]) == EncodeAll(b, rs) + Encode(b, r)
  {
    if rs == [] {
      assert [r][1..] == [];
      assert [] + [r] == [r];
    } else {
      EncodeAllAppend(b, rs[1..], r);
      var all := rs + [r];
      assert all[1..] == rs[1..] + [r] && all[0] == rs[0];
      Assoc(Encode(b, rs[0]), EncodeAll(b, rs[1..]), Encode(b, r));
    }
  }

  // ------------------------------------------------------------ input stream

  /** A `std::ifstream`: the unread bytes and the eof and fail bits. */
  datatype Stream = Stream(rest: string, eof: bool, fail: bool) {
    predicate Good() { !eof && !fail }
  }

  function Open(bytes: string): Stream { Stream(bytes, false, false) }

  /** `std::getline`: at the end of input a last line without newline is still a line. */
  function GetLine(s: Stream): (r: Option<(string, Stream)>)
    ensures r.Some? ==> |r.value.1.rest| < |s.rest|
  {
    if !s.Good() || s.rest == "" then None
    else
      var i := IndexOf(s.rest, '\n', 0);
      if i == -1 then Some((s.rest, Stream("", true, false)))
      else Some((s.rest[..i], s.(rest := s.rest[i + 1..])))
  }

  /** `read(p, n)` into a string of n NULs: a short read keeps the NULs and fails the stream. */
  function Read(s: Stream, n: nat): (r: (string, Stream))
    ensures |r.0| == n && |r.1.rest| <= |s.rest|
  {
    if !s.Good() then (Nuls(n), s.(fail := true))
    else if n <= |s.rest| then (s.rest[..n], s.(rest := s.rest[n..]))
    else (s.rest + Nuls(n - |s.rest|), Stream("", true, true))
  }

  function Nuls(n: nat): (r: string)
    ensures |r| == n
  {
    seq(n, _ => '\0')
  }

  /** `seekg(n, cur)`: clears eof, does nothing on a failed stream, may run past the end. */
  function Seek(s: Stream, n: nat): (r: Stream)
    ensures |r.rest| <= |s.rest|
  {
    if s.fail then s.(eof := false)
    else Stream(if n <= |s.rest| then s.rest[n..] else "", false, false)
  }

  // ------------------------------------------------------------------ tokens

  predicate IsBreak(c: char) { c == ' ' || c == '\r' || c == '\n' }

  function FindBreak(line: string, from: nat): (i: int)
    requires from <= |line|
    ensures i == -1 ==> forall k :: from <= k < |line| ==> !IsBreak(line[k])
    ensures i != -1 ==> from <= i < |line| && IsBreak(line[i]) && forall k :: from <= k < i ==> !IsBreak(line[k])
    decreases |line| - from
  {
    if from == |line| then -1 else if IsBreak(line[from]) then from else FindBreak(line, from + 1)
  }

  /** The token at `from` and the position of the break after it (-1 when there is none). */
  function GetToken(b: Build, line: string, from: nat): (r: (string, int))
    requires from <= |line|
    ensures -1 <= r.1 < |line|
  {
    var gap := FindBreak(line, from);
    (if b.tokenFilled then line[from..if gap == -1 then |line| else gap] else "", gap)
  }

  /** A filled token is everything up to the next space, carriage return or newline, or to the end. */
  lemma TokenExactly(b: Build, line: string, from: nat)
    requires b.tokenFilled && from <= |line|
    ensures
      var (tok, gap) := GetToken(b, line, from);
      && from + |tok| <= |line| && tok == line[from..from + |tok|]
      && ' ' !in tok && '\r' !in tok && '\n' !in tok
      && (if from + |tok| == |line| then gap == -1 else gap == from + |tok| && line[gap] in [' ', '\r', '\n'])
  {
    var tok := GetToken(b, line, from).0;
    assert forall k :: 0 <= k < |tok| ==> tok[k] == line[from + k];
  }

  predicate IsSpace(c: char) {
    c == ' ' || c == '\t' || c == '\n' || c == '\r' || c == '\U{000B}' || c == '\U{000C}'
  }

  function SkipSpaces(s: string): string {
    if s != "" && IsSpace(s[0]) then SkipSpaces(s[1..]) else s
  }

  /** The value of the digits at the front of `s`, read after `acc`. */
  function RunValue(s: string, acc: nat): nat {
    if s == "" || !IsDigit(s[0]) then acc
    else RunValue(s[1..], acc * 10 + (s[0] as int - '0' as int))
  }

  /** `std::stoi`: `None` is the exception for no digits or for a value outside 32 bits. */
  function Stoi(s: string): Option<int> {
    var t := SkipSpaces(s);
    var negative := t != "" && t[0] == '-';
    var u := if t != "" && (t[0] == '-' || t[0] == '+') then t[1..] else t;
    if u == "" || !IsDigit(u[0]) then None
    else
      var n: int := RunValue(u, 0);
      if negative then (if n <= INT_MAX + 1 then Some(-n) else None)
      else (if n <= INT_MAX then Some(n) else None)
  }

  /** One length field after position `gap`; a negative length cannot size a string. */
  function SizeField(b: Build, line: string, gap: int): (r: (Option<nat>, int))
    requires -1 <= gap < |line|
    ensures -1 <= r.1 < |line|
  {
    var (tok, next) := GetToken(b, line, gap + 1);
    match Stoi(tok)
    case Some(n) => (if n >= 0 then Some(n) else None, next)
    case None => (None, next)
  }

  // ----------------------------------------------------------------- reading

  /** Three strings of known sizes, each followed by one byte to skip. */
  function ReadSized(s: Stream, rb: nat, cb: nat, db: nat): (string, string, string, Stream) {
    var (rk, s1) := Read(s, rb);
    var (ck, s2) := Read(Seek(s1, 1), cb);
    var (v, s3) := Read(Seek(s2, 1), db);
    (rk, ck, v, Seek(s3, 1))
  }

  /** The three keys and values after a DATA or PUT header; `None` is an exception that ends the process. */
  function ReadTriple(b: Build, line: string, gap: int, s: Stream): (r: Option<(string, string, string, Stream)>)
    requires -1 <= gap < |line|
    ensures r.Some? ==> |r.value.3.rest| <= |s.rest|
  {
    var (rb, g1) := SizeField(b, line, gap);
    var (cb, g2) := SizeField(b, line, g1);
    var (db, _) := SizeField(b, line, g2);
    if rb.None? || cb.None? || db.None? then None
    else Some(ReadSized(s, rb.value, cb.value, db.value))
  }

  function ReadPair(b: Build, line: string, gap: int, s: Stream): (r: Option<(string, string, Stream)>)
    requires -1 <= gap < |line|
    ensures r.Some? ==> |r.value.2.rest| <= |s.rest|
  {
    var (rb, g1) := SizeField(b, line, gap);
    var (cb, _) := SizeField(b, line, g1);
    if rb.None? || cb.None? then None
    else
      var (rk, s1) := Read(s, rb.value);
      var (ck, s2) := Read(Seek(s1, 1), cb.value);
      Some((rk, ck, Seek(s2, 1)))
  }

  /** What a reader made of its input: the records it took, and whether it ended the process. */
  datatype Parse = Parse(records: seq<Record>, aborted: bool)

  function Prepend(r: Record, p: Parse): Parse {
    Parse([r] + p.records, p.aborted)
  }

  /** One turn of a read loop. */
  datatype Turn = Took(record: Record, next: Stream) | Ignored(next: Stream) | Died | Finished

  function FileTurn(b: Build, s: Stream): (r: Turn)
    ensures r.Took? || r.Ignored? ==> |r.next.rest| < |s.rest|
  {
    match GetLine(s)
    case None => Finished
    case Some((line, s1)) =>
      var (tok, gap) := GetToken(b, line, 0);
      if tok != "DATA" then Died
      else
        match ReadTriple(b, line, gap, s1)
        case None => Died
        case Some((rk, ck, v, s2)) => Took(Data(rk, ck, v), s2)
  }

  function LogTurn(b: Build, s: Stream): (r: Turn)
    ensures r.Took? || r.Ignored? ==> |r.next.rest| < |s.rest|
  {
    match GetLine(s)
    case None => Finished
    case Some((line, s1)) =>
      var (tok, gap) := GetToken(b, line, 0);
      if tok == "PUT" then
        match ReadTriple(b, line, gap, s1)
        case None => Died
        case Some((rk, ck, v, s2)) => Took(Put(rk, ck, v), s2)
      else if tok == "DELETE" then
        match ReadPair(b, line, gap, s1)
        case None => Died
        case Some((rk, ck, s2)) => Took(Delete(rk, ck), Seek(s2, b.deleteSkip))
      else Ignored(s1)
  }

  /** The read loop of `tbl_lding` (`log == false`) or `log_operation` (`log == true`). */
  function ParseStream(b: Build, log: bool, s: Stream): Parse
    decreases |s.rest|
  {
    match if log then LogTurn(b, s) else FileTurn(b, s)
    case Took(r, s') => Prepend(r, ParseStream(b, log, s'))
    case Ignored(s') => ParseStream(b, log, s')
    case Died => Parse([], true)
    case Finished => Parse([], false)
  }

  // ------------------------------------------------------ decimal round trip

  lemma {:induction false} RunValueSnoc(a: string, d: nat, acc: nat)
    requires d < 10
    requires forall k :: 0 <= k < |a| ==> IsDigit(a[k])
    ensures RunValue(a + [DigitOf(d)], acc) == RunValue(a, acc) * 10 + d
  {
    if a == "" {
      assert a + [DigitOf(d)] == [DigitOf(d)];
      assert [DigitOf(d)][1..] == "";
      assert RunValue("", acc * 10 + d) == acc * 10 + d;
    } else {
      RunValueSnoc(a[1..], d, acc * 10 + (a[0] as int - '0' as int));
      assert (a + [DigitOf(d)])[1..] == a[1..] + [DigitOf(d)];
    }
  }

  /** A printed number is nonempty, all digits, and reads back as itself. */
  lemma {:induction false} DecimalReadsBack(n: nat)
    ensures |Decimal(n)| > 0
    ensures forall k :: 0 <= k < |Decimal(n)| ==> IsDigit(Decimal(n)[k])
    ensures RunValue(Decimal(n), 0) == n
  {
    if n < 10 {
      assert [DigitOf(n)][1..] == "";
      assert RunValue("", n) == n;
    } else {
      DecimalReadsBack(n / 10);
      RunValueSnoc(Decimal(n / 10), n % 10, 0);
    }
  }

  lemma StoiDecimal(n: nat)
    ensures Stoi(Decimal(n)) == if n <= 2147483647 then Some(n) else None
  {
    DecimalReadsBack(n);
    assert IsDigit(Decimal(n)[0]);
    assert SkipSpaces(Decimal(n)) == Decimal(n);
  }

  lemma {:induction false} SpacesSkipped(ws: string, s: string)
    requires forall i :: 0 <= i < |ws| ==> IsSpace(ws[i])
    requires s == "" || !IsSpace(s[0])
    ensures SkipSpaces(ws + s) == s
  {
    if ws == "" {
      assert ws + s == s;
    } else {
      assert (ws + s)[1..] == ws[1..] + s;
      SpacesSkipped(ws[1..], s);
    }
  }

  lemma {:induction false} RunValueThen(a: string, rest: string, acc: nat)
    requires rest == "" || !IsDigit(rest[0])
    ensures (forall i :: 0 <= i < |a| ==> IsDigit(a[i])) ==> RunValue(a + rest, acc) == RunValue(a, acc)
  {
    if a == "" {
      assert a + rest == rest;
    } else if IsDigit(a[0]) {
      assert (a + rest)[1..] == a[1..] + rest;
      RunValueThen(a[1..], rest, acc * 10 + (a[0] as int - '0' as int));
    }
  }

  lemma StoiUnsigned(n: nat, rest: string)
    requires rest == "" || !IsDigit(rest[0])
    ensures
      var u := Decimal(n) + rest;
      u != "" && IsDigit(u[0]) && !IsSpace(u[0]) && RunValue(u, 0) == n
  {
    DecimalReadsBack(n);
    RunValueThen(Decimal(n), rest, 0);
    assert (Decimal(n) + rest)[0] == Decimal(n)[0];
  }

  /**
   stoi on any printed number with white space and a sign before it and anything but a digit
   after it: the number if it fits 32 bits, an exception otherwise.
   */
  lemma StoiReads(ws: string, sign: string, n: int, rest: string)
    requires n >= 0
    requires forall i :: 0 <= i < |ws| ==> ws[i] in [' ', '\t', '\n', '\r', '\U{000B}', '\U{000C}']
    requires sign == "" || sign == "+" || sign == "-"
    requires rest == "" || !('0' <= rest[0] <= '9')
    ensures Stoi(ws + (sign + (Decimal(n) + rest))) ==
      if sign == "-" then (if n <= 2147483648 then Some(-n) else None)
      else (if n <= 2147483647 then Some(n) else None)
  {
    var u := Decimal(n) + rest;
    StoiUnsigned(n, rest);
    if sign == "" {
      assert sign + u == u;
    } else {
      assert (sign + u)[0] == sign[0] && (sign + u)[1..] == u;
    }
    SpacesSkipped(ws, sign + u);
  }

  // ------------------------------------------------------- record round trip

  lemma TokenAt(b: Build, line: string, pre: string, tok: string, suf: string)
    requires b.tokenFilled
    requires line == pre + tok + suf
    requires forall k :: 0 <= k < |tok| ==> !IsBreak(tok[k])
    requires suf == "" || IsBreak(suf[0])
    ensures GetToken(b, line, |pre|) == (tok, if suf == "" then -1 else |pre| + |tok|)
  {
    var gap := FindBreak(line, |pre|);
    forall k | |pre| <= k < |pre| + |tok|
      ensures !IsBreak(line[k])
    {
      assert line[k] == tok[k - |pre|];
    }
    if suf != "" {
      assert line[|pre| + |tok|] == suf[0];
    }
    assert line[|pre|..|pre| + |tok|] == tok;
  }

  lemma SizeFieldAt(b: Build, line: string, pre: string, n: nat, suf: string)
    requires b.tokenFilled
    requires line == pre + " " + Decimal(n) + suf
    requires suf == "" || IsBreak(suf[0])
    ensures SizeField(b, line, |pre|)
         == (if n <= INT_MAX then Some(n) else None, if suf == "" then -1 else |pre| + 1 + |Decimal(n)|)
  {
    DecimalReadsBack(n);
    StoiDecimal(n);
    TokenAt(b, line, pre + " ", Decimal(n), suf);
  }

  lemma NoNewlineInDecimal(n: nat)
    ensures '\n' !in Decimal(n)
  {
    DecimalReadsBack(n);
  }

  lemma GetLineAt(header: string, tail: string)
    requires '\n' !in header
    ensures GetLine(Open(header + "\n" + tail)) == Some((header, Open(tail)))
  {
    var s := header + "\n" + tail;
    assert s[|header|] == '\n';
    forall k | 0 <= k < |header|
      ensures s[k] != '\n'
    {
      assert s[k] == header[k];
    }
    assert s[..|header|] == header;
    assert s[|header| + 1..] == tail;
  }

  lemma ReadAt(x: string, tail: string)
    ensures Read(Open(x + "\n" + tail), |x|) == (x, Open("\n" + tail))
    ensures Seek(Open("\n" + tail), 1) == Open(tail)
  {
    var s := x + "\n" + tail;
    assert s[..|x|] == x;
    assert s[|x|..] == "\n" + tail;
    assert ("\n" + tail)[1..] == tail;
  }

  predicate Fits(r: Record) {
    |r.row| <= INT_MAX && |r.col| <= INT_MAX && (!r.Delete? ==> |r.value| <= INT_MAX)
  }

  lemma Header3Splits(line: string, kw: string, d1: string, d2: string, d3: string)
    requires line == kw + " " + d1 + " " + d2 + " " + d3
    ensures line == kw + " " + d1 + (" " + d2 + (" " + d3))
    ensures line == kw + " " + d1 + " " + d2 + (" " + d3)
    ensures line == kw + " " + d1 + " " + d2 + " " + d3 + ""
  {
    var p1 := kw + " " + d1;
    Assoc(p1 + " " + d2, " ", d3);
    Assoc(p1, " " + d2, " " + d3);
    Assoc(p1, " ", d2);
  }

  /** The three length fields of a header, read one after the other. */
  lemma Header3Sizes(b: Build, kw: string, rk: string, ck: string, v: string)
    requires b.tokenFilled
    ensures
      var line := Header3(kw, rk, ck, v);
      var f1 := SizeField(b, line, |kw|);
      var f2 := SizeField(b, line, f1.1);
      var f3 := SizeField(b, line, f2.1);
      && f1.0 == (if |rk| <= INT_MAX then Some(|rk|) else None)
      && f2.0 == (if |ck| <= INT_MAX then Some(|ck|) else None)
      && f3.0 == (if |v| <= INT_MAX then Some(|v|) else None)
      && f1.1 >= 0 && f2.1 >= 0
  {
    var line := Header3(kw, rk, ck, v);
    var d1, d2, d3 := Decimal(|rk|), Decimal(|ck|), Decimal(|v|);
    var p1 := kw + " " + d1;
    var p2 := p1 + " " + d2;
    var s2 := " " + d3;
    var s1 := " " + d2 + s2;
    Header3Splits(line, kw, d1, d2, d3);
    SizeFieldAt(b, line, kw, |rk|, s1);
    SizeFieldAt(b, line, p1, |ck|, s2);
    SizeFieldAt(b, line, p2, |v|, "");
  }

  lemma Header2Sizes(b: Build, kw: string, rk: string, ck: string)
    requires b.tokenFilled
    ensures
      var line := Header2(kw, rk, ck);
      var f1 := SizeField(b, line, |kw|);
      var f2 := SizeField(b, line, f1.1);
      && f1.0 == (if |rk| <= INT_MAX then Some(|rk|) else None)
      && f2.0 == (if |ck| <= INT_MAX then Some(|ck|) else None)
  {
    var line := Header2(kw, rk, ck);
    var d1, d2 := Decimal(|rk|), Decimal(|ck|);
    var p1 := kw + " " + d1;
    var s1 := " " + d2;
    assert line == p1 + " " + d2 + "" == kw + " " + d1 + s1;
    SizeFieldAt(b, line, kw, |rk|, s1);
    SizeFieldAt(b, line, p1, |ck|, "");
  }

  lemma ReadTripleAt(b: Build, kw: string, rk: string, ck: string, v: string, tail: string)
    requires b.tokenFilled
    ensures ReadTriple(b, Header3(kw, rk, ck, v), |kw|, Open(rk + "\n" + (ck + "\n" + (v + "\n" + tail))))
         == if Fits(Data(rk, ck, v)) then Some((rk, ck, v, Open(tail))) else None
  {
    Header3Sizes(b, kw, rk, ck, v);
    ReadAt(rk, ck + "\n" + (v + "\n" + tail));
    ReadAt(ck, v + "\n" + tail);
    ReadAt(v, tail);
  }

  lemma ReadPairAt(b: Build, kw: string, rk: string, ck: string, tail: string)
    requires b.tokenFilled
    ensures ReadPair(b, Header2(kw, rk, ck), |kw|, Open(rk + "\n" + (ck + "\n" + tail)))
         == if Fits(Delete(rk, ck)) then Some((rk, ck, Open(tail))) else None
  {
    Header2Sizes(b, kw, rk, ck);
    ReadAt(rk, ck + "\n" + tail);
    ReadAt(ck, tail);
  }

  lemma HeaderTokens(b: Build, kw: string, rk: string, ck: string, v: string)
    requires b.tokenFilled
    requires forall k :: 0 <= k < |kw| ==> !IsBreak(kw[k])
    ensures GetToken(b, Header3(kw, rk, ck, v), 0) == (kw, |kw|)
    ensures GetToken(b, Header2(kw, rk, ck), 0) == (kw, |kw|)
    ensures '\n' !in Header3(kw, rk, ck, v) && '\n' !in Header2(kw, rk, ck)
  {
    NoNewlineInDecimal(|rk|);
    NoNewlineInDecimal(|ck|);
    NoNewlineInDecimal(|v|);
    TokenAt(b, Header3(kw, rk, ck, v), "", kw, " " + Decimal(|rk|) + " " + Decimal(|ck|) + " " + Decimal(|v|));
    TokenAt(b, Header2(kw, rk, ck), "", kw, " " + Decimal(|rk|) + " " + Decimal(|ck|));
  }

  lemma TripleLine(b: Build, kw: string, rk: string, ck: string, v: string, tail: string)
    requires b.tokenFilled
    requires forall k :: 0 <= k < |kw| ==> !IsBreak(kw[k])
    ensures
      var l := GetLine(Open(Triple(kw, rk, ck, v) + tail));
      && l.Some?
      && GetToken(b, l.value.0, 0) == (kw, |kw|)
      && ReadTriple(b, l.value.0, |kw|, l.value.1)
         == if Fits(Data(rk, ck, v)) then Some((rk, ck, v, Open(tail))) else None
  {
    HeaderTokens(b, kw, rk, ck, v);
    var body := rk + "\n" + (ck + "\n" + (v + "\n" + tail));
    assert Triple(kw, rk, ck, v) + tail == Header3(kw, rk, ck, v) + "\n" + body;
    GetLineAt(Header3(kw, rk, ck, v), body);
    ReadTripleAt(b, kw, rk, ck, v, tail);
  }

  /** Is the record one the reader takes: DATA in the tablet file, PUT and DELETE in the log? */
  predicate BelongsTo(log: bool, r: Record) { r.Data? <==> !log }

  lemma DeleteTurn(b: Build, rk: string, ck: string, tail: string)
    requires b.tokenFilled
    ensures LogTurn(b, Open(Encode(b, Delete(rk, ck)) + tail))
         == if Fits(Delete(rk, ck)) then Took(Delete(rk, ck), Seek(Open(tail), b.deleteSkip)) else Died
  {
    HeaderTokens(b, "DELETE", rk, ck, "");
    var body := rk + "\n" + (ck + "\n" + tail);
    assert Encode(b, Delete(rk, ck)) + tail == Header2("DELETE", rk, ck) + "\n" + body;
    GetLineAt(Header2("DELETE", rk, ck), body);
    ReadPairAt(b, "DELETE", rk, ck, tail);
  }

  /** Where one turn on an encoded record leaves the stream: past the record, and past the extra skip of a DELETE. */
  function After(b: Build, r: Record, tail: string): Stream {
    if r.Delete? then Seek(Open(tail), b.deleteSkip) else Open(tail)
  }

  /** One turn on an encoded record takes exactly that record, or dies if a length overflows. */
  lemma TurnThenSkip(b: Build, log: bool, r: Record, tail: string)
    requires b.tokenFilled && !b.putInline
    requires BelongsTo(log, r)
    ensures (if log then LogTurn(b, Open(Encode(b, r) + tail)) else FileTurn(b, Open(Encode(b, r) + tail)))
         == if Fits(r) then Took(r, After(b, r, tail)) else Died
  {
    match r
    case Delete(rk, ck) => DeleteTurn(b, rk, ck, tail);
    case Data(rk, ck, v) =>
      TripleLine(b, "DATA", rk, ck, v, tail);
      assert Encode(b, r) == Triple("DATA", rk, ck, v);
    case Put(rk, ck, v) =>
      TripleLine(b, "PUT", rk, ck, v, tail);
      assert Encode(b, r) == Triple("PUT", rk, ck, v);
  }

  /** Without the extra skip it takes exactly the record's bytes. */
  lemma TurnAt(b: Build, log: bool, r: Record, tail: string)
    requires b.tokenFilled && !b.putInline && b.deleteSkip == 0
    requires BelongsTo(log, r)
    ensures (if log then LogTurn(b, Open(Encode(b, r) + tail)) else FileTurn(b, Open(Encode(b, r) + tail)))
         == if Fits(r) then Took(r, Open(tail)) else Died
  {
    TurnThenSkip(b, log, r, tail);
  }

  /**
   Record files parse back exactly.  For every sequence of records, over arbitrary byte
   strings, reading the concatenated encoding returns that sequence and ends normally
   if and only if every length fits the reader's 32-bit `int`.
   */
  lemma {:induction false} RecordsParseBack(log: bool, rs: seq<Record>)
    requires forall r :: r in rs ==> BelongsTo(log, r)
    ensures ParseStream(REPAIRED, log, Open(EncodeAll(REPAIRED, rs))) == Parse(rs, false)
       <==> forall r :: r in rs ==> Fits(r)
  {
    if rs != [] {
      RecordsParseBack(log, rs[1..]);
      OneMoreParsesBack(log, rs);
      FitsFirstAndRest(rs);
    }
  }

  lemma OneMoreParsesBack(log: bool, rs: seq<Record>)
    requires rs != [] && BelongsTo(log, rs[0])
    ensures ParseStream(REPAIRED, log, Open(EncodeAll(REPAIRED, rs))) == Parse(rs, false)
       <==> Fits(rs[0]) && ParseStream(REPAIRED, log, Open(EncodeAll(REPAIRED, rs[1..]))) == Parse(rs[1..], false)
  {
    var tail := EncodeAll(REPAIRED, rs[1..]);
    ParseStreamAt(log, rs[0], tail);
    PrependIsThatRecord(rs[0], ParseStream(REPAIRED, log, Open(tail)), rs);
  }

  lemma FitsFirstAndRest(rs: seq<Record>)
    requires rs != []
    ensures (forall r :: r in rs ==> Fits(r)) <==> Fits(rs[0]) && forall r :: r in rs[1..] ==> Fits(r)
  {
    assert rs == [rs[0]] + rs[1..];
  }

  lemma ParseStreamAt(log: bool, r: Record, tail: string)
    requires BelongsTo(log, r)
    ensures ParseStream(REPAIRED, log, Open(Encode(REPAIRED, r) + tail))
         == if Fits(r) then Prepend(r, ParseStream(REPAIRED, log, Open(tail))) else Parse([], true)
  {
    TurnAt(REPAIRED, log, r, tail);
  }

  lemma PrependIsThatRecord(r: Record, p: Parse, rs: seq<Record>)
    requires rs != [] && rs[0] == r
    ensures Prepend(r, p) == Parse(rs, false) <==> p == Parse(rs[1..], false)
  {
    assert ([r] + p.records)[1..] == p.records;
    assert rs == [rs[0]] + rs[1..];
  }

  // ------------------------------------------------------ the shipped reader

  /**
   As shipped, no restart restores anything: replay ignores every line of every log, and
   loading a tablet file ends the process exactly when the file is not empty.
   */
  lemma {:induction false} ShippedReaderRestoresNothing(s: Stream)
    requires s.Good()
    ensures ParseStream(SHIPPED, true, s) == Parse([], false)
    ensures ParseStream(SHIPPED, false, s) == Parse([], s.rest != "")
    decreases |s.rest|
  {
    match GetLine(s)
    case None =>
    case Some((line, s1)) =>
      assert GetToken(SHIPPED, line, 0).0 == "";
      assert LogTurn(SHIPPED, s) == Ignored(s1);
      if s1.Good() {
        ShippedReaderRestoresNothing(s1);
      } else {
        assert LogTurn(SHIPPED, s1) == Finished;
      }
  }

  // ------------------------------------------------ the extra skip on its own

  /**
   With only the extra skip left as shipped, a DELETE is read back exactly if and only if
   it ends the log.
   */
  lemma SkippingDeleteReadsBackOnlyLast(b: Build, rk: string, ck: string, tail: string)
    requires b == Build(true, false, 1)
    requires Fits(Delete(rk, ck))
    ensures LogTurn(b, Open(Encode(b, Delete(rk, ck)) + tail)) == Took(Delete(rk, ck), Open(tail)) <==> tail == ""
  {
    TurnThenSkip(b, true, Delete(rk, ck), tail);
  }
}
