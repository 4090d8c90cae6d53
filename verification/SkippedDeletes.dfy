/**
 Replay with only its extra skip after a DELETE left as shipped (src/kv/KVClass.h:407), over
 whole logs: exactly which logs are read back.  A reader that has lost a byte can fall back
 into step on bytes inside a value, and a short read fills up with NULs, so that a log cut
 at the front is never read back as the whole is a matter of the bytes, not of their number.
 */
module SkippedDeletes {
  import opened Basics
  import opened Tablets
  import opened Records

  // ------------------------------------------- what one record costs at least

  lemma {:induction false} RunValueLength(s: string, acc: nat)
    ensures |Decimal(RunValue(s, acc))| <= |Decimal(acc)| + |s|
  {
    if s != "" && IsDigit(s[0]) {
      var d := s[0] as int - '0' as int;
      OneDigitMore(acc, d);
      RunValueLength(s[1..], acc * 10 + d);
    }
  }

  lemma OneDigitMore(acc: nat, d: nat)
    requires d < 10
    ensures |Decimal(acc * 10 + d)| <= |Decimal(acc)| + 1
  {
    assert (acc * 10 + d) / 10 == acc;
  }

  lemma {:induction false} SkipSpacesShortens(s: string)
    ensures |SkipSpaces(s)| <= |s|
  {
    if s != "" && IsSpace(s[0]) {
      SkipSpacesShortens(s[1..]);
    }
  }

  /** No text of a number is shorter than the printed number. */
  lemma StoiLength(s: string)
    requires Stoi(s).Some? && Stoi(s).value >= 0
    ensures |Decimal(Stoi(s).value)| <= |s|
  {
    var t := SkipSpaces(s);
    var u := if t != "" && (t[0] == '-' || t[0] == '+') then t[1..] else t;
    SkipSpacesShortens(s);
    RunValueLength(u[1..], u[0] as int - '0' as int);
  }

  /** The end of the token that ends at `gap`. */
  function EndOf(line: string, gap: int): int { if gap == -1 then |line| else gap }

  lemma SizeFieldLength(b: Build, line: string, gap: int)
    requires b.tokenFilled && -1 <= gap < |line| && SizeField(b, line, gap).0.Some?
    ensures gap + 1 + |Decimal(SizeField(b, line, gap).0.value)| <= EndOf(line, SizeField(b, line, gap).1)
  {
    StoiLength(GetToken(b, line, gap + 1).0);
  }

  /** The keyword is no length: a header that ends early ends the process. */
  lemma KeywordIsNoSize(b: Build, line: string)
    requires GetToken(b, line, 0).0 == "PUT" || GetToken(b, line, 0).0 == "DELETE"
    ensures SizeField(b, line, -1).0 == None
    ensures GetToken(b, line, 0).1 != -1 ==> GetToken(b, line, 0).1 == |GetToken(b, line, 0).0|
  {
    var tok := GetToken(b, line, 0).0;
    assert SkipSpaces(tok) == tok;
  }

  lemma TripleHeaderLength(b: Build, line: string, s: Stream)
    requires b.tokenFilled && GetToken(b, line, 0).0 == "PUT"
    requires ReadTriple(b, line, GetToken(b, line, 0).1, s).Some?
    ensures
      var (rk, ck, v, next) := ReadTriple(b, line, GetToken(b, line, 0).1, s).value;
      |Header3("PUT", rk, ck, v)| <= |line|
      && ReadSized(s, |rk|, |ck|, |v|) == (rk, ck, v, next)
  {
    var gap := GetToken(b, line, 0).1;
    var (f1, g1) := SizeField(b, line, gap);
    var (f2, g2) := SizeField(b, line, g1);
    KeywordIsNoSize(b, line);
    SizeFieldLength(b, line, gap);
    SizeFieldLength(b, line, g1);
    SizeFieldLength(b, line, g2);
  }

  lemma PairHeaderLength(b: Build, line: string, s: Stream)
    requires b.tokenFilled && GetToken(b, line, 0).0 == "DELETE"
    requires ReadPair(b, line, GetToken(b, line, 0).1, s).Some?
    ensures
      var (rk, ck, next) := ReadPair(b, line, GetToken(b, line, 0).1, s).value;
      |Header2("DELETE", rk, ck)| <= |line|
      && ReadTwo(s, |rk|, |ck|) == (rk, ck, next)
  {
    var gap := GetToken(b, line, 0).1;
    var (f1, g1) := SizeField(b, line, gap);
    KeywordIsNoSize(b, line);
    SizeFieldLength(b, line, gap);
    SizeFieldLength(b, line, g1);
  }

  /** Two strings of known sizes, each followed by one byte to skip. */
  function ReadTwo(s: Stream, rb: nat, cb: nat): (string, string, Stream) {
    var (rk, s1) := Read(s, rb);
    var (ck, s2) := Read(Seek(s1, 1), cb);
    (rk, ck, Seek(s2, 1))
  }

  /** A read and the skip after it, when something is left. */
  lemma ReadThenSkip(y: string, n: nat)
    ensures
      var next := Seek(Read(Open(y), n).1, 1);
      next.Good() && next.rest != "" ==> n + 1 < |y| && next == Open(y[n + 1..])
    ensures Seek(Read(Open(y), n).1, 1).Good() ==> Seek(Read(Open(y), n).1, 1) == Open(Seek(Read(Open(y), n).1, 1).rest)
  {
    if n <= |y| {
      assert n + 1 <= |y| ==> y[n..][1..] == y[n + 1..];
    }
  }

  lemma TwoReadsThenSkip(y: string, a: nat, c: nat)
    ensures
      var next := ReadTwo(Open(y), a, c).2;
      next.Good() && next.rest != "" ==> a + c + 2 < |y| && next == Open(y[a + c + 2..])
  {
    var s := Seek(Read(Open(y), a).1, 1);
    ReadThenSkip(y, a);
    ReadThenSkip(s.rest, c);
    if s.Good() && s.rest != "" && c + 1 <= |s.rest| {
      assert y[a + 1..][c + 1..] == y[a + c + 2..];
    }
  }

  lemma ThreeReadsThenSkip(y: string, a: nat, c: nat, d: nat)
    ensures
      var next := ReadSized(Open(y), a, c, d).3;
      next.Good() && next.rest != "" ==> a + c + d + 3 < |y| && next == Open(y[a + c + d + 3..])
  {
    var s := ReadTwo(Open(y), a, c).2;
    TwoReadsThenSkip(y, a, c);
    ReadThenSkip(s.rest, d);
    if s.Good() && s.rest != "" && d + 1 <= |s.rest| {
      assert y[a + c + 2..][d + 1..] == y[a + c + d + 3..];
    }
  }

  /** The stream left at byte `j` of `x`. */
  ghost predicate LeftAt(x: string, j: int, next: Stream) {
    0 <= j < |x| && next == Open(x[j..])
  }

  lemma LeftLater(x: string, i: nat, y: string, j: int, next: Stream)
    requires i <= |x| && y == x[i..] && LeftAt(y, j, next)
    ensures LeftAt(x, i + j, next)
  {
    assert y[j..] == x[i + j..];
  }

  lemma TripleConsumes(x: string, s1: Stream, a: nat, c: nat, d: nat)
    requires GetLine(Open(x)).Some? && s1 == GetLine(Open(x)).value.1
    requires ReadSized(s1, a, c, d).3.Good() && ReadSized(s1, a, c, d).3.rest != ""
    ensures LeftAt(x, |GetLine(Open(x)).value.0| + 1 + a + c + d + 3, ReadSized(s1, a, c, d).3)
  {
    var i := IndexOf(x, '\n', 0);
    if i >= 0 {
      ThreeReadsThenSkip(x[i + 1..], a, c, d);
      LeftLater(x, i + 1, x[i + 1..], a + c + d + 3, ReadSized(s1, a, c, d).3);
    }
  }

  lemma PairConsumes(x: string, s1: Stream, a: nat, c: nat)
    requires GetLine(Open(x)).Some? && s1 == GetLine(Open(x)).value.1
    requires ReadTwo(s1, a, c).2.Good() && ReadTwo(s1, a, c).2.rest != ""
    ensures LeftAt(x, |GetLine(Open(x)).value.0| + 1 + a + c + 2, ReadTwo(s1, a, c).2)
  {
    var i := IndexOf(x, '\n', 0);
    if i >= 0 {
      TwoReadsThenSkip(x[i + 1..], a, c);
      LeftLater(x, i + 1, x[i + 1..], a + c + 2, ReadTwo(s1, a, c).2);
    }
  }

  lemma PutLength(b: Build, rk: string, ck: string, v: string)
    requires !b.putInline
    ensures |Encode(b, Put(rk, ck, v))| == |Header3("PUT", rk, ck, v)| + 1 + |rk| + |ck| + |v| + 3
  {
  }

  lemma DeleteLength(b: Build, rk: string, ck: string)
    ensures |Encode(b, Delete(rk, ck))| == |Header2("DELETE", rk, ck)| + 1 + |rk| + |ck| + 2
  {
  }

  /** The line and the reads of a turn that takes a record. */
  lemma TookPut(b: Build, s: Stream, r: Record, next: Stream)
    requires b.tokenFilled && LogTurn(b, s) == Took(r, next) && r.Put?
    ensures GetLine(s).Some?
    ensures |Header3("PUT", r.row, r.col, r.value)| <= |GetLine(s).value.0|
    ensures ReadSized(GetLine(s).value.1, |r.row|, |r.col|, |r.value|) == (r.row, r.col, r.value, next)
  {
    var (line, s1) := GetLine(s).value;
    TripleHeaderLength(b, line, s1);
  }

  lemma TookDelete(b: Build, s: Stream, r: Record, next: Stream)
    requires b.tokenFilled && LogTurn(b, s) == Took(r, next) && r.Delete?
    ensures GetLine(s).Some?
    ensures |Header2("DELETE", r.row, r.col)| <= |GetLine(s).value.0|
    ensures
      var (rk, ck, s2) := ReadTwo(GetLine(s).value.1, |r.row|, |r.col|);
      rk == r.row && ck == r.col && next == Seek(s2, b.deleteSkip)
  {
    var (line, s1) := GetLine(s).value;
    PairHeaderLength(b, line, s1);
  }

  lemma SkipLeft(x: string, j: int, s: Stream, skip: nat)
    requires LeftAt(x, j, s) && Seek(s, skip).rest != ""
    ensures LeftAt(x, j + skip, Seek(s, skip))
  {
    assert x[j..][skip..] == x[j + skip..];
  }

  lemma PutConsumes(b: Build, x: string, line: string, s1: Stream, r: Record, next: Stream)
    requires !b.putInline && r.Put? && GetLine(Open(x)) == Some((line, s1))
    requires |Header3("PUT", r.row, r.col, r.value)| <= |line|
    requires ReadSized(s1, |r.row|, |r.col|, |r.value|) == (r.row, r.col, r.value, next)
    requires next.Good() && next.rest != ""
    ensures ConsumedWhole(b, x, r, next)
  {
    TripleConsumes(x, s1, |r.row|, |r.col|, |r.value|);
    PutLength(b, r.row, r.col, r.value);
    assert LeftAt(x, |line| + 1 + |r.row| + |r.col| + |r.value| + 3, next);
  }

  lemma DeleteConsumes(b: Build, x: string, line: string, s1: Stream, r: Record, s2: Stream)
    requires r.Delete? && GetLine(Open(x)) == Some((line, s1))
    requires |Header2("DELETE", r.row, r.col)| <= |line|
    requires ReadTwo(s1, |r.row|, |r.col|) == (r.row, r.col, s2)
    requires Seek(s2, b.deleteSkip).Good() && Seek(s2, b.deleteSkip).rest != ""
    ensures ConsumedWhole(b, x, r, Seek(s2, b.deleteSkip))
  {
    var j := |line| + 1 + |r.row| + |r.col| + 2;
    PairConsumes(x, s1, |r.row|, |r.col|);
    SkipLeft(x, j, s2, b.deleteSkip);
    DeleteLength(b, r.row, r.col);
    assert LeftAt(x, j + b.deleteSkip, Seek(s2, b.deleteSkip));
  }

  /** The stream is left in `x`, past at least the encoding of `r`. */
  ghost predicate ConsumedWhole(b: Build, x: string, r: Record, next: Stream) {
    exists j :: LeftAt(x, j, next) && |Encode(b, r)| <= j
  }

  /** A record the reader takes before another one costs at least its own encoding. */
  lemma TookConsumes(b: Build, x: string, r: Record, next: Stream)
    requires b.tokenFilled && !b.putInline
    requires LogTurn(b, Open(x)) == Took(r, next) && next.Good() && next.rest != ""
    ensures ConsumedWhole(b, x, r, next)
  {
    var (line, s1) := GetLine(Open(x)).value;
    if r.Put? {
      TookPut(b, Open(x), r, next);
      PutConsumes(b, x, line, s1, r, next);
    } else {
      TookDelete(b, Open(x), r, next);
      DeleteConsumes(b, x, line, s1, r, ReadTwo(s1, |r.row|, |r.col|).2);
    }
  }

  // ------------------------------------- the last record cannot be read late

  /** Byte `j` of what is read, the missing ones NUL. */
  function At(y: string, j: nat): char { if j < |y| then y[j] else '\0' }

  /** Bytes that are their own shift cannot hold anything but newlines and NULs. */
  lemma {:induction false} NoEcho(body: string, d: nat, j: nat)
    requires 0 < d <= |body| && j < |body|
    requires forall i :: 0 <= i < |body| && body[i] != '\n' ==> body[i] == At(body[d..], i)
    ensures body[j] == '\n' || body[j] == '\0'
    decreases |body| - j
  {
    if body[j] != '\n' && j + d < |body| {
      assert body[j] == body[j + d];
      NoEcho(body, d, j + d);
    }
  }

  lemma ReadChars(s: Stream, y: string, m: nat, n: nat)
    requires (s.fail && m >= |y|) || (!s.eof && !s.fail && s.rest == if m <= |y| then y[m..] else "")
    ensures forall j :: 0 <= j < n ==> Read(s, n).0[j] == At(y, m + j)
    ensures
      var next := Seek(Read(s, n).1, 1);
      (next.fail && m + n + 1 >= |y|) || (!next.eof && !next.fail && next.rest == if m + n + 1 <= |y| then y[m + n + 1..] else "")
  {
    if s.Good() && n + 1 <= |s.rest| {
      assert y[m..][n..][1..] == y[m + n + 1..];
    }
  }

  lemma TwoChars(y: string, a: nat, c: nat)
    ensures
      var (rk, ck, _) := ReadTwo(Open(y), a, c);
      && (forall j :: 0 <= j < a ==> rk[j] == At(y, j))
      && (forall j :: 0 <= j < c ==> ck[j] == At(y, a + 1 + j))
  {
    ReadChars(Open(y), y, 0, a);
    ReadChars(Seek(Read(Open(y), a).1, 1), y, a + 1, c);
  }

  lemma ThreeChars(y: string, a: nat, c: nat, d: nat)
    ensures
      var (rk, ck, v, _) := ReadSized(Open(y), a, c, d);
      && (forall j :: 0 <= j < a ==> rk[j] == At(y, j))
      && (forall j :: 0 <= j < c ==> ck[j] == At(y, a + 1 + j))
      && (forall j :: 0 <= j < d ==> v[j] == At(y, a + 1 + c + 1 + j))
  {
    ReadChars(Open(y), y, 0, a);
    ReadChars(Seek(Read(Open(y), a).1, 1), y, a + 1, c);
    ReadChars(ReadTwo(Open(y), a, c).2, y, a + 1 + c + 1, d);
  }

  lemma PairBody(y: string, rk: string, ck: string)
    requires ReadTwo(Open(y), |rk|, |ck|).0 == rk && ReadTwo(Open(y), |rk|, |ck|).1 == ck
    ensures Echoes(rk + "\n" + ck + "\n", y)
  {
    TwoChars(y, |rk|, |ck|);
  }

  lemma TripleBody(y: string, rk: string, ck: string, v: string, next: Stream)
    requires ReadSized(Open(y), |rk|, |ck|, |v|) == (rk, ck, v, next)
    ensures Echoes(rk + "\n" + ck + "\n" + v + "\n", y)
  {
    ThreeChars(y, |rk|, |ck|, |v|);
    var body := rk + "\n" + ck + "\n" + v + "\n";
    forall i | 0 <= i < |body| && body[i] != '\n'
      ensures body[i] == At(y, i)
    {
      TripleByte(rk, ck, v, i);
    }
  }

  lemma TripleByte(rk: string, ck: string, v: string, i: nat)
    requires i < |rk| + |ck| + |v| + 3
    ensures
      var c := (rk + "\n" + ck + "\n" + v + "\n")[i];
      || c == '\n'
      || (i < |rk| && c == rk[i])
      || (|rk| + 1 <= i < |rk| + 1 + |ck| && c == ck[i - |rk| - 1])
      || (|rk| + |ck| + 2 <= i < |rk| + |ck| + 2 + |v| && c == v[i - |rk| - |ck| - 2])
  {
  }

  /** Every byte of `body` but the newlines is the one read from `y`. */
  ghost predicate Echoes(body: string, y: string) {
    forall i :: 0 <= i < |body| && body[i] != '\n' ==> body[i] == At(y, i)
  }

  /** `x` has a first line, and `body` is not what is read after it. */
  ghost predicate NextLineFails(body: string, x: string) {
    var i := IndexOf(x, '\n', 0);
    i >= 0 && !Echoes(body, x[i + 1..])
  }

  lemma LateInBody(header: string, body: string, k: nat, c: char)
    requires 1 <= k < |header| + 1 + |body| && c != '\n'
    requires forall i :: 1 <= i < |header| ==> header[i] != c
    requires (header + "\n" + body)[k] == c
    ensures k > |header| && body[k - |header| - 1] == c
    ensures (header + "\n" + body)[k..] == body[k - |header| - 1..]
  {
  }

  /**
   A record read from a later position in its own encoding: the keyword's first letter, which
   can only stand in the body, would have to come again and again.
   */
  lemma NotLate(body: string, j: nat, c: char)
    requires j < |body| && body[j] == c && c != '\n' && c != '\0'
    requires body[|body| - 1] == '\n'
    ensures NextLineFails(body, body[j..])
  {
    var i := IndexOf(body[j..], '\n', 0);
    HasNewline(body[j..]);
    DropTwice(body, j, i + 1);
    ShiftFails(body, j + i + 1, j);
  }

  lemma HasNewline(x: string)
    requires x != "" && x[|x| - 1] == '\n'
    ensures 0 <= IndexOf(x, '\n', 0) < |x|
  {
  }

  lemma DropTwice(s: string, j: nat, m: nat)
    requires j + m <= |s|
    ensures s[j..][m..] == s[j + m..]
  {
  }

  lemma ShiftFails(body: string, d: nat, j: nat)
    requires 0 < d <= |body| && j < |body| && body[j] != '\n' && body[j] != '\0'
    ensures !Echoes(body, body[d..])
  {
    if Echoes(body, body[d..]) {
      NoEcho(body, d, j);
    }
  }

  lemma HeaderBytes(kw: string, d1: string, d2: string, d3: string, c: char)
    requires kw != "" && c !in kw[1..] && c != ' '
    requires c !in d1 && c !in d2 && c !in d3
    ensures forall i :: 1 <= i < |kw + " " + d1 + " " + d2 + " " + d3| ==> (kw + " " + d1 + " " + d2 + " " + d3)[i] != c
    ensures forall i :: 1 <= i < |kw + " " + d1 + " " + d2| ==> (kw + " " + d1 + " " + d2)[i] != c
  {
    assert forall i :: 1 <= i < |kw| ==> kw[i] == kw[1..][i - 1];
  }

  lemma NoLetterInDecimal(n: nat, c: char)
    requires !IsDigit(c)
    ensures c !in Decimal(n)
  {
    DecimalReadsBack(n);
  }

  lemma HeadersFree(rk: string, ck: string, v: string)
    ensures forall i :: 1 <= i < |Header3("PUT", rk, ck, v)| ==> Header3("PUT", rk, ck, v)[i] != 'P'
    ensures forall i :: 1 <= i < |Header2("DELETE", rk, ck)| ==> Header2("DELETE", rk, ck)[i] != 'D'
  {
    forall n: nat, c | c == 'P' || c == 'D'
      ensures c !in Decimal(n)
    {
      NoLetterInDecimal(n, c);
    }
    HeaderBytes("PUT", Decimal(|rk|), Decimal(|ck|), Decimal(|v|), 'P');
    HeaderBytes("DELETE", Decimal(|rk|), Decimal(|ck|), Decimal(|v|), 'D');
  }

  lemma FirstLetter(b: Build, s: Stream, r: Record, next: Stream)
    requires b.tokenFilled && LogTurn(b, s) == Took(r, next)
    ensures s.rest != "" && s.rest[0] == if r.Put? then 'P' else 'D'
  {
    var line := GetLine(s).value.0;
    var tok := GetToken(b, line, 0).0;
    assert tok == "PUT" || tok == "DELETE";
    assert tok[0] == line[0] == s.rest[0];
  }

  /** No record is read from a later position in its own encoding. */
  lemma LateRecord(b: Build, r: Record, k: nat, next: Stream)
    requires b.tokenFilled && !b.putInline && !r.Data? && 1 <= k < |Encode(b, r)|
    ensures LogTurn(b, Open(Encode(b, r)[k..])) != Took(r, next)
  {
    var x := Encode(b, r)[k..];
    if LogTurn(b, Open(x)) == Took(r, next) {
      FirstLetter(b, Open(x), r, next);
      HeadersFree(r.row, r.col, if r.Put? then r.value else "");
      if r.Put? {
        TookPut(b, Open(x), r, next);
        LatePut(Header3("PUT", r.row, r.col, r.value), r.row, r.col, r.value, k, next);
      } else {
        TookDelete(b, Open(x), r, next);
        LateDelete(Header2("DELETE", r.row, r.col), r.row, r.col, k);
      }
    }
  }

  lemma LatePut(header: string, rk: string, ck: string, v: string, k: nat, next: Stream)
    requires forall i :: 1 <= i < |header| ==> header[i] != 'P'
    requires 1 <= k < |header + "\n" + rk + "\n" + ck + "\n" + v + "\n"|
    requires (header + "\n" + rk + "\n" + ck + "\n" + v + "\n")[k] == 'P'
    ensures
      var l := GetLine(Open((header + "\n" + rk + "\n" + ck + "\n" + v + "\n")[k..]));
      l.Some? && ReadSized(l.value.1, |rk|, |ck|, |v|) != (rk, ck, v, next)
  {
    var body := rk + "\n" + ck + "\n" + v + "\n";
    assert header + "\n" + rk + "\n" + ck + "\n" + v + "\n" == header + "\n" + body;
    LateInBody(header, body, k, 'P');
    NotLate(body, k - |header| - 1, 'P');
    TripleFails(body[k - |header| - 1..], rk, ck, v, next);
  }

  lemma TripleFails(x: string, rk: string, ck: string, v: string, next: Stream)
    requires NextLineFails(rk + "\n" + ck + "\n" + v + "\n", x)
    ensures
      var l := GetLine(Open(x));
      l.Some? && ReadSized(l.value.1, |rk|, |ck|, |v|) != (rk, ck, v, next)
  {
    SecondLine(x);
    var y := x[IndexOf(x, '\n', 0) + 1..];
    if ReadSized(Open(y), |rk|, |ck|, |v|) == (rk, ck, v, next) {
      TripleBody(y, rk, ck, v, next);
    }
  }

  lemma SecondLine(x: string)
    requires IndexOf(x, '\n', 0) >= 0
    ensures GetLine(Open(x)) == Some((x[..IndexOf(x, '\n', 0)], Open(x[IndexOf(x, '\n', 0) + 1..])))
  {
  }

  lemma LateDelete(header: string, rk: string, ck: string, k: nat)
    requires forall i :: 1 <= i < |header| ==> header[i] != 'D'
    requires 1 <= k < |header + "\n" + rk + "\n" + ck + "\n"|
    requires (header + "\n" + rk + "\n" + ck + "\n")[k] == 'D'
    ensures
      var l := GetLine(Open((header + "\n" + rk + "\n" + ck + "\n")[k..]));
      l.Some? && !(ReadTwo(l.value.1, |rk|, |ck|).0 == rk && ReadTwo(l.value.1, |rk|, |ck|).1 == ck)
  {
    var body := rk + "\n" + ck + "\n";
    assert header + "\n" + rk + "\n" + ck + "\n" == header + "\n" + body;
    LateInBody(header, body, k, 'D');
    NotLate(body, k - |header| - 1, 'D');
    PairFails(body[k - |header| - 1..], rk, ck);
  }

  lemma PairFails(x: string, rk: string, ck: string)
    requires NextLineFails(rk + "\n" + ck + "\n", x)
    ensures
      var l := GetLine(Open(x));
      l.Some? && !(ReadTwo(l.value.1, |rk|, |ck|).0 == rk && ReadTwo(l.value.1, |rk|, |ck|).1 == ck)
  {
    var y := x[IndexOf(x, '\n', 0) + 1..];
    if ReadTwo(Open(y), |rk|, |ck|).0 == rk && ReadTwo(Open(y), |rk|, |ck|).1 == ck {
      PairBody(y, rk, ck);
    }
  }

  // ------------------------------------------------------------- whole logs

  lemma DropBoth(a: string, t: string, m: nat)
    requires |a| <= m <= |a| + |t|
    ensures (a + t)[m..] == t[m - |a|..]
  {
  }

  /** The stream is what is left of the encoding of `rs` without its first `k` bytes. */
  ghost predicate Late(b: Build, rs: seq<Record>, k: nat, s: Stream) {
    1 <= k <= |EncodeAll(b, rs)| && s == Open(EncodeAll(b, rs)[k..])
  }

  lemma NextIsLate(b: Build, rs: seq<Record>, k: nat, x: string, next: Stream) returns (k': nat)
    requires rs != [] && Late(b, rs, k, Open(x)) && ConsumedWhole(b, x, rs[0], next)
    ensures Late(b, rs[1..], k', next)
  {
    var a, t := Encode(b, rs[0]), EncodeAll(b, rs[1..]);
    var j :| LeftAt(x, j, next) && |a| <= j;
    k' := k + j - |a|;
    LeftLater(a + t, k, x, j, next);
    DropBoth(a, t, k + j);
  }

  lemma LateLine(b: Build, rs: seq<Record>, k: nat, x: string) returns (k': nat)
    requires Late(b, rs, k, Open(x)) && GetLine(Open(x)).Some? && GetLine(Open(x)).value.1.Good()
    ensures k < k' && Late(b, rs, k', GetLine(Open(x)).value.1)
  {
    var i := IndexOf(x, '\n', 0);
    k' := k + i + 1;
    assert EncodeAll(b, rs)[k..][i + 1..] == EncodeAll(b, rs)[k'..];
  }

  lemma FailedEnds(b: Build, s: Stream)
    requires !s.Good() || s.rest == ""
    ensures ParseStream(b, true, s) == Parse([], false)
  {
  }

  lemma MoreToCome(b: Build, rs: seq<Record>, s: Stream)
    requires rs != [] && ParseStream(b, true, s) == Parse(rs, false)
    ensures s.Good() && s.rest != ""
  {
    if !s.Good() || s.rest == "" {
      FailedEnds(b, s);
    }
  }

  lemma LateForTheLast(b: Build, rs: seq<Record>, k: nat, x: string, next: Stream)
    requires b.tokenFilled && !b.putInline && rs != [] && !rs[0].Data?
    requires Late(b, rs, k, Open(x)) && LogTurn(b, Open(x)) == Took(rs[0], next)
    ensures rs[1..] != []
  {
    if rs[1..] == [] {
      assert EncodeAll(b, rs) == Encode(b, rs[0]);
      FirstLetter(b, Open(x), rs[0], next);
      LateRecord(b, rs[0], k, next);
    }
  }

  /** A late reader that takes the first record and is to take more after it is late for those. */
  lemma LateTook(b: Build, rs: seq<Record>, k: nat, x: string, next: Stream) returns (k': nat)
    requires b.tokenFilled && !b.putInline && rs != [] && !rs[0].Data?
    requires Late(b, rs, k, Open(x)) && LogTurn(b, Open(x)) == Took(rs[0], next)
    requires ParseStream(b, true, next) == Parse(rs[1..], false)
    ensures rs[1..] != [] && Late(b, rs[1..], k', next)
  {
    LateForTheLast(b, rs, k, x, next);
    MoreToCome(b, rs[1..], next);
    TookConsumes(b, x, rs[0], next);
    k' := NextIsLate(b, rs, k, x, next);
  }

  /** A log that has lost bytes at its front is never read back as the whole. */
  lemma {:induction false} LateLog(b: Build, rs: seq<Record>, k: nat, x: string)
    requires b.tokenFilled && !b.putInline && rs != []
    requires forall r :: r in rs ==> BelongsTo(true, r)
    requires Late(b, rs, k, Open(x))
    ensures ParseStream(b, true, Open(x)) != Parse(rs, false)
    decreases |rs|, |EncodeAll(b, rs)| - k
  {
    match LogTurn(b, Open(x))
    case Ignored(next) =>
      if next.Good() {
        var k' := LateLine(b, rs, k, x);
        LateLog(b, rs, k', next.rest);
      } else {
        FailedEnds(b, next);
      }
    case Took(r, next) =>
      if Prepend(r, ParseStream(b, true, next)) == Parse(rs, false) {
        PrependIsThatRecord(r, ParseStream(b, true, next), rs);
        var k' := LateTook(b, rs, k, x, next);
        LateLog(b, rs[1..], k', next.rest);
      }
    case Died =>
    case Finished =>
  }

  /** No DELETE precedes another record. */
  ghost predicate DeleteOnlyLast(rs: seq<Record>) {
    forall i :: 0 <= i < |rs| - 1 ==> !rs[i].Delete?
  }

  lemma AfterDelete(b: Build, rs: seq<Record>)
    requires b.tokenFilled && !b.putInline && b.deleteSkip > 0
    requires forall r :: r in rs ==> BelongsTo(true, r)
    ensures ParseStream(b, true, Seek(Open(EncodeAll(b, rs)), b.deleteSkip)) == Parse(rs, false) <==> rs == []
  {
    var e := EncodeAll(b, rs);
    if rs != [] && b.deleteSkip <= |e| {
      LateLog(b, rs, b.deleteSkip, e[b.deleteSkip..]);
    }
  }

  /**
   With only the extra skip left as shipped, replay gives back a whole log exactly if every
   length fits the reader's `int` and no DELETE precedes another record.
   */
  lemma {:induction false} SkippingLogReadsBackExactly(b: Build, rs: seq<Record>)
    requires b.tokenFilled && !b.putInline && b.deleteSkip > 0
    requires forall r :: r in rs ==> BelongsTo(true, r)
    ensures ParseStream(b, true, Open(EncodeAll(b, rs))) == Parse(rs, false)
       <==> DeleteOnlyLast(rs) && forall r :: r in rs ==> Fits(r)
  {
    if rs != [] {
      var r, rest := rs[0], rs[1..];
      var next := After(b, r, EncodeAll(b, rest));
      TurnThenSkip(b, true, r, EncodeAll(b, rest));
      PrependIsThatRecord(r, ParseStream(b, true, next), rs);
      OnlyLast(rs);
      FitsFirstAndRest(rs);
      if r.Delete? {
        AfterDelete(b, rest);
      } else {
        SkippingLogReadsBackExactly(b, rest);
      }
    }
  }

  lemma OnlyLast(rs: seq<Record>)
    requires rs != []
    ensures DeleteOnlyLast(rs) <==> (rs[0].Delete? ==> rs[1..] == []) && DeleteOnlyLast(rs[1..])
  {
    var rest := rs[1..];
    assert forall i :: 0 <= i < |rest| ==> rest[i] == rs[i + 1];
    assert forall i :: 1 <= i < |rs| ==> rs[i] == rest[i - 1];
  }
}
