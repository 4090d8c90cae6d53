/**
 The shipped PUT layout (src/kv/KVClass.h:499-501) on its own: row and column stand on the
 header line, while the reader (src/kv/KVClass.h:375-383) takes them from the bytes after
 that line.  Exactly which records are read back all the same.
 */
module ShippedPuts {
  import opened Basics
  import opened Records

  /** In the shipped layout the header line runs at least one byte past the lengths. */
  lemma InlineHeaderLine(b: Build, rk: string, ck: string, v: string, tail: string)
    requires b.putInline
    ensures
      var all := Encode(b, Put(rk, ck, v)) + tail;
      var n := |Header3("PUT", rk, ck, v)|;
      var i := IndexOf(all, '\n', 0);
      && n < i
      && |all| == n + 1 + |rk| + 1 + |ck| + 1 + |v| + 1 + |tail|
      && all[n + 1..n + 1 + |rk| + 1] == rk + " "
  {
    var header := Header3("PUT", rk, ck, v);
    HeaderLine("PUT", rk, ck, v);
    InlineSlices(header, rk, ck, v, tail);
    assert Encode(b, Put(rk, ck, v)) == header + " " + rk + " " + ck + "\n" + v + "\n";
  }

  lemma HeaderLine(kw: string, rk: string, ck: string, v: string)
    requires '\n' !in kw
    ensures '\n' !in Header3(kw, rk, ck, v)
  {
    NoNewlineInDecimal(|rk|);
    NoNewlineInDecimal(|ck|);
    NoNewlineInDecimal(|v|);
  }

  lemma InlineSlices(header: string, rk: string, ck: string, v: string, tail: string)
    requires '\n' !in header
    ensures
      var all := header + " " + rk + " " + ck + "\n" + v + "\n" + tail;
      var n := |header|;
      && n < IndexOf(all, '\n', 0)
      && |all| == n + 1 + |rk| + 1 + |ck| + 1 + |v| + 1 + |tail|
      && all[n + 1..n + 1 + |rk| + 1] == rk + " "
  {
    var all := header + " " + rk + " " + ck + "\n" + v + "\n" + tail;
    assert all == header + " " + (rk + " ") + (ck + "\n" + v + "\n" + tail);
    assert all[|header| + 1 + |rk| + 1 + |ck|] == '\n';
    forall k | 0 <= k <= |header|
      ensures all[k] != '\n'
    {
      assert all[k] == (header + " ")[k];
    }
  }

  /**
   With only the header layout left as shipped, a PUT with a value, or with anything after
   it in the log, is never read back: whatever the keys, the reader does not end up with
   that record and the rest of the log.
   */
  lemma InlinePutNeverReadsBack(b: Build, rk: string, ck: string, v: string, tail: string)
    requires b.tokenFilled && b.putInline
    requires v != "" || tail != ""
    ensures LogTurn(b, Open(Encode(b, Put(rk, ck, v)) + tail)) != Took(Put(rk, ck, v), Open(tail))
  {
    var all := Encode(b, Put(rk, ck, v)) + tail;
    InlineHeaderLine(b, rk, ck, v, tail);
    InlineTurn(b, all, |Header3("PUT", rk, ck, v)|, rk, ck, v, tail);
  }

  lemma InlineTurn(b: Build, all: string, n: nat, rk: string, ck: string, v: string, tail: string)
    requires (v != "" || tail != "") && n < IndexOf(all, '\n', 0)
    requires |all| == n + 1 + |rk| + 1 + |ck| + 1 + |v| + 1 + |tail|
    requires all[n + 1..n + 1 + |rk| + 1] == rk + " "
    ensures LogTurn(b, Open(all)) != Took(Put(rk, ck, v), Open(tail))
  {
    if LogTurn(b, Open(all)) == Took(Put(rk, ck, v), Open(tail)) {
      TookPutShape(b, Open(all), rk, ck, v, Open(tail));
      ShiftedRow(all, n, IndexOf(all, '\n', 0), rk, |ck|, |v|, |tail|);
    }
  }

  lemma ShiftedRow(all: string, n: nat, i: int, rk: string, c: nat, v: nat, t: nat)
    requires n < i < |all| && all[i] == '\n'
    requires |all| == n + 1 + |rk| + 1 + c + 1 + v + 1 + t
    requires all[n + 1..n + 1 + |rk| + 1] == rk + " "
    ensures
      var rest := all[i + 1..];
      !(&& |rk| <= |rest| && rest[..|rk|] == rk
        && (|rest| == |rk| + c + v + 3 + t || (t == 0 && |rest| == |rk| + c + v + 2)))
  {
    var rest := all[i + 1..];
    if |rk| <= |rest| && rest[..|rk|] == rk && i == n + 1 {
      var w := all[n + 1..n + 1 + |rk| + 1];
      assert all[i] == w[0];
      if rk != "" {
        assert rest[..|rk|] == w[1..];
        AllAlike(rk);
      }
    }
  }

  /** If a turn took a PUT and left a good stream, it consumed the line, the three strings and their separators. */
  lemma TookPutShape(b: Build, s: Stream, rk: string, ck: string, v: string, next: Stream)
    requires s.Good() && next.Good() && (v != "" || next.rest != "")
    requires LogTurn(b, s) == Took(Put(rk, ck, v), next)
    requires IndexOf(s.rest, '\n', 0) >= 0
    ensures
      var rest := s.rest[IndexOf(s.rest, '\n', 0) + 1..];
      && |rk| <= |rest| && rest[..|rk|] == rk
      && (|rest| == |rk| + |ck| + |v| + 3 + |next.rest|
          || (next.rest == "" && |rest| == |rk| + |ck| + |v| + 2))
  {
    var i := IndexOf(s.rest, '\n', 0);
    var line, s1 := s.rest[..i], Open(s.rest[i + 1..]);
    assert GetLine(s) == Some((line, s1));
    var (tok, gap) := GetToken(b, line, 0);
    assert ReadTriple(b, line, gap, s1) == Some((rk, ck, v, next));
    TripleShape(s1, |rk|, |ck|, |v|);
  }

  /** The reads of one triple, by length. */
  lemma TripleShape(s: Stream, rb: nat, cb: nat, db: nat)
    requires s.Good()
    ensures
      var (rk, _, _, next) := ReadSized(s, rb, cb, db);
      next.Good() && (db > 0 || next.rest != "") ==>
        && rb <= |s.rest| && s.rest[..rb] == rk
        && (|s.rest| == rb + cb + db + 3 + |next.rest| || (next.rest == "" && |s.rest| == rb + cb + db + 2))
  {
    var (rk, s1) := Read(s, rb);
    var (ck, s2) := Read(Seek(s1, 1), cb);
    var (v, s3) := Read(Seek(s2, 1), db);
    if Seek(s3, 1).Good() {
      assert !s3.fail && !s2.fail && !s1.fail;
      assert db <= |Seek(s2, 1).rest|;
    }
  }

  /** A nonempty string that starts with a newline is not its own shift by one with a space appended. */
  lemma {:induction false} AllAlike(x: string)
    requires x != "" && x[0] == '\n'
    ensures (x + " ")[1..] != x
  {
    if |x| == 1 {
      assert (x + " ")[1..] == " ";
    } else if x[1] == '\n' {
      AllAlike(x[1..]);
      assert (x + " ")[1..][1..] == (x[1..] + " ")[1..];
    } else {
      assert (x + " ")[1..][0] == x[1];
    }
  }

  // -------------------------------------------- the empty value that ends the log

  predicate AllNewlines(s: string) { forall k :: 0 <= k < |s| ==> s[k] == '\n' }

  /** A space and a newline, any number of times. */
  predicate SpaceNewlines(s: string) {
    |s| % 2 == 0 && forall k :: 0 <= k < |s| ==> s[k] == if k % 2 == 0 then ' ' else '\n'
  }

  /** What follows the lengths and their space: row, column, the empty value and the end of the log. */
  function Rest(rk: string, ck: string): string { rk + " " + ck + "\n\n" }

  /** What is left once a string of m bytes and the byte after it have been read. */
  function Past(s: string, m: nat): string { if m + 1 <= |s| then s[m + 1..] else "" }

  /** Reading two strings and an empty one. */
  lemma ReadsEmptyValue(rest: string, m: nat, q: nat)
    ensures
      var r := ReadSized(Open(rest), m, q, 0);
      if m <= |rest| && q <= |Past(rest, m)| then
        r == (rest[..m], Past(rest, m)[..q], "", Open(Past(Past(Past(rest, m), q), 0)))
      else !r.3.Good()
  {
    if m <= |rest| {
      var s1 := Open(rest[m..]);
      assert Read(Open(rest), m) == (rest[..m], s1);
      assert Seek(s1, 1) == Open(Past(rest, m));
      if q <= |Past(rest, m)| {
        var s2 := Open(Past(rest, m)[q..]);
        assert Read(Open(Past(rest, m)), q) == (Past(rest, m)[..q], s2);
        assert Seek(s2, 1) == Open(Past(Past(rest, m), q));
        assert Past(Past(rest, m), q)[..0] == "" && Past(Past(rest, m), q)[0..] == Past(Past(rest, m), q);
      }
    }
  }

  /** Where each byte of the rest comes from. */
  lemma RestAt(rk: string, ck: string, k: nat)
    requires k < |Rest(rk, ck)|
    ensures |Rest(rk, ck)| == |rk| + |ck| + 3
    ensures Rest(rk, ck)[k] ==
      if k < |rk| then rk[k] else if k == |rk| then ' ' else if k < |rk| + 1 + |ck| then ck[k - |rk| - 1] else '\n'
  {
  }

  /** If the line breaks at j, the reader takes the row and column from where they are only if they reappear j + 1 bytes on. */
  ghost predicate Reappear(rk: string, ck: string, j: nat)
    requires j < |Rest(rk, ck)|
  {
    var rest := Rest(rk, ck)[j + 1..];
    && |rk| <= |rest| && rest[..|rk|] == rk
    && |ck| <= |Past(rest, |rk|)| && Past(rest, |rk|)[..|ck|] == ck
  }

  lemma RowReappears(rk: string, ck: string, j: nat, k: nat)
    requires j < |Rest(rk, ck)| && Reappear(rk, ck, j) && k < |rk|
    ensures j + 1 + k < |Rest(rk, ck)| && Rest(rk, ck)[j + 1 + k] == rk[k]
  {
    var rest := Rest(rk, ck)[j + 1..];
    assert rest[..|rk|][k] == rest[k];
  }

  lemma ColumnReappears(rk: string, ck: string, j: nat, k: nat)
    requires j < |Rest(rk, ck)| && Reappear(rk, ck, j) && k < |ck|
    ensures |rk| + j + 2 + k < |Rest(rk, ck)| && Rest(rk, ck)[|rk| + j + 2 + k] == ck[k]
  {
    var rest := Rest(rk, ck)[j + 1..];
    assert Past(rest, |rk|)[..|ck|][k] == Past(rest, |rk|)[k] == rest[|rk| + 1 + k];
  }

  /** The row is its own continuation j + 1 bytes on, except where the space and the column follow it. */
  lemma RowShifts(rk: string, ck: string, j: nat, k: nat)
    requires j < |Rest(rk, ck)| && Reappear(rk, ck, j) && k < |rk|
    ensures rk[k] ==
      if k + j + 1 < |rk| then rk[k + j + 1]
      else if k + j + 1 == |rk| then ' '
      else if k + j < |rk| + |ck| then ck[k + j - |rk|] else '\n'
  {
    RowReappears(rk, ck, j, k);
    RestAt(rk, ck, j + 1 + k);
  }

  /** k modulo p, by taking p away. */
  function Residue(k: nat, p: nat): (r: nat)
    requires p > 0
    ensures r < p && r <= k
  {
    if k < p then k else Residue(k - p, p)
  }

  lemma {:induction false} ResidueIsModulo(k: nat, p: nat)
    requires p == 2 || p == 3
    ensures Residue(k, p) == k % p
  {
    if k >= p {
      ResidueIsModulo(k - p, p);
    }
  }

  /** The row repeats itself every `p` bytes. */
  ghost predicate Repeats(rk: string, p: nat) {
    forall k :: p <= k < |rk| ==> rk[k] == rk[k - p]
  }

  lemma RowRepeats(rk: string, ck: string, j: nat)
    requires j < |Rest(rk, ck)| && Reappear(rk, ck, j)
    ensures Repeats(rk, j + 1)
  {
    forall k | j + 1 <= k < |rk|
      ensures rk[k] == rk[k - (j + 1)]
    {
      RowShifts(rk, ck, j, k - (j + 1));
    }
  }

  /** A byte of such a row is the one as many steps back as fit. */
  lemma {:induction false} ByteRepeats(rk: string, p: nat, k: nat)
    requires p > 0 && Repeats(rk, p) && k < |rk|
    ensures rk[k] == rk[Residue(k, p)]
  {
    if k >= p {
      ByteRepeats(rk, p, k - p);
    }
  }

  /** Where the line can break: at the second byte, or the third if the column is empty. */
  lemma BreaksEarly(rk: string, ck: string, j: nat)
    requires j < |Rest(rk, ck)| && Reappear(rk, ck, j)
    ensures j <= 1 || (j == 2 && ck == "")
  {
    RestAt(rk, ck, j);
  }

  lemma NotAtFirst(rk: string, ck: string)
    requires Rest(rk, ck)[0] == '\n'
    ensures !Reappear(rk, ck, 0)
  {
    RestAt(rk, ck, 0);
    if Reappear(rk, ck, 0) {
      RowRepeats(rk, ck, 0);
      ByteRepeats(rk, 1, |rk| - 1);
      RowShifts(rk, ck, 0, |rk| - 1);
    }
  }

  lemma NotAtThird(rk: string)
    requires |Rest(rk, "")| > 2 && Rest(rk, "")[0] != '\n' && Rest(rk, "")[1] != '\n' && Rest(rk, "")[2] == '\n'
    ensures !Reappear(rk, "", 2)
  {
    RestAt(rk, "", 0);
    RestAt(rk, "", 1);
    RestAt(rk, "", 2);
    if Reappear(rk, "", 2) {
      RowRepeats(rk, "", 2);
      RowShifts(rk, "", 2, |rk| - 1);
      ByteRepeats(rk, 3, |rk| - 1);
      ResidueIsModulo(|rk| - 1, 3);
      if |rk| >= 3 {
        ResidueIsModulo(|rk| - 2, 3);
        RowShifts(rk, "", 2, |rk| - 2);
        ByteRepeats(rk, 3, |rk| - 2);
      }
    }
  }

  lemma {:induction false} ColumnAllNewlines(rk: string, ck: string, k: nat)
    requires |Rest(rk, ck)| > 1 && Reappear(rk, ck, 1) && k < |ck|
    ensures ck[k] == '\n'
    decreases |ck| - k
  {
    ColumnReappears(rk, ck, 1, k);
    RestAt(rk, ck, |rk| + 3 + k);
    if k + 2 < |ck| {
      ColumnAllNewlines(rk, ck, k + 2);
    }
  }

  lemma RowEnds(rk: string, ck: string)
    requires |Rest(rk, ck)| > 1 && Rest(rk, ck)[0] != '\n' && Rest(rk, ck)[1] == '\n' && Reappear(rk, ck, 1)
    requires rk != ""
    ensures |rk| >= 2 && |rk| % 2 == 0 && rk[0] == ' ' && rk[1] == '\n'
  {
    RestAt(rk, ck, 0);
    RestAt(rk, ck, 1);
    assert |rk| >= 2 && rk[1] == '\n';
    RowShifts(rk, ck, 1, |rk| - 2);
    RowRepeats(rk, ck, 1);
    ByteRepeats(rk, 2, |rk| - 2);
    ResidueIsModulo(|rk| - 2, 2);
    assert rk[Residue(|rk| - 2, 2)] == ' ';
  }

  lemma AtSecond(rk: string, ck: string)
    requires |Rest(rk, ck)| > 1 && Rest(rk, ck)[0] != '\n' && Rest(rk, ck)[1] == '\n' && Reappear(rk, ck, 1)
    ensures AllNewlines(ck) && SpaceNewlines(rk)
  {
    forall k | 0 <= k < |ck| ensures ck[k] == '\n' {
      ColumnAllNewlines(rk, ck, k);
    }
    if rk != "" {
      RowEnds(rk, ck);
      RowRepeats(rk, ck, 1);
      RowAlternates(rk);
    }
  }

  lemma RowAlternates(rk: string)
    requires Repeats(rk, 2) && |rk| >= 2 && |rk| % 2 == 0 && rk[0] == ' ' && rk[1] == '\n'
    ensures SpaceNewlines(rk)
  {
    forall k | 0 <= k < |rk| ensures rk[k] == if k % 2 == 0 then ' ' else '\n' {
      ByteRepeats(rk, 2, k);
      ResidueIsModulo(k, 2);
    }
  }

  /** Conversely such a row and column do reappear, two bytes on. */
  lemma SuchReappear(rk: string, ck: string)
    requires AllNewlines(ck) && SpaceNewlines(rk)
    ensures Rest(rk, ck)[0] == ' ' && Rest(rk, ck)[1] == '\n' && Reappear(rk, ck, 1)
  {
    var w := Rest(rk, ck);
    RestAt(rk, ck, 0);
    RestAt(rk, ck, 1);
    var rest := w[2..];
    forall k | 0 <= k < |rk| ensures rest[k] == rk[k] {
      RestAt(rk, ck, k + 2);
    }
    assert rest[..|rk|] == rk;
    forall k | 0 <= k < |ck| ensures Past(rest, |rk|)[k] == ck[k] {
      RestAt(rk, ck, |rk| + 3 + k);
    }
    assert Past(rest, |rk|)[..|ck|] == ck;
  }

  lemma ReappearExactly(rk: string, ck: string)
    ensures
      var j := IndexOf(Rest(rk, ck), '\n', 0);
      0 <= j < |Rest(rk, ck)| && (Reappear(rk, ck, j) <==> AllNewlines(ck) && SpaceNewlines(rk))
  {
    var w := Rest(rk, ck);
    assert w[|w| - 1] == '\n';
    var j := IndexOf(w, '\n', 0);
    if AllNewlines(ck) && SpaceNewlines(rk) {
      SuchReappear(rk, ck);
    } else if j == 0 {
      NotAtFirst(rk, ck);
    } else if j == 2 && ck == "" {
      NotAtThird(rk);
    } else if Reappear(rk, ck, j) {
      BreaksEarly(rk, ck, j);
      AtSecond(rk, ck);
    }
  }

  // ------------------------------------------------------- the whole turn

  lemma FindBreakThen(line: string, suf: string, from: nat)
    requires from <= |line| && (suf == "" || IsBreak(suf[0]))
    ensures FindBreak(line, from) != -1 ==> FindBreak(line + suf, from) == FindBreak(line, from)
    ensures FindBreak(line, from) == -1 ==> FindBreak(line + suf, from) == if suf == "" then -1 else |line|
    decreases |line| - from
  {
    if from < |line| {
      assert (line + suf)[from] == line[from];
      FindBreakThen(line, suf, from + 1);
    } else if suf != "" {
      assert (line + suf)[from] == suf[0];
    }
  }

  /** A token does not change when the line goes on after a break. */
  lemma TokenThen(b: Build, line: string, suf: string, from: nat)
    requires from <= |line| && (suf == "" || IsBreak(suf[0]))
    ensures GetToken(b, line + suf, from).0 == GetToken(b, line, from).0
    ensures GetToken(b, line, from).1 != -1 ==> GetToken(b, line + suf, from).1 == GetToken(b, line, from).1
  {
    FindBreakThen(line, suf, from);
    var next := FindBreak(line, from);
    if next == -1 {
      assert (line + suf)[from..|line|] == line[from..];
      assert suf == "" ==> line + suf == line;
    } else {
      assert (line + suf)[from..next] == line[from..next];
    }
  }

  lemma SizeFieldThen(b: Build, line: string, suf: string, gap: nat)
    requires gap < |line| && suf != "" && IsBreak(suf[0])
    ensures SizeField(b, line + suf, gap).0 == SizeField(b, line, gap).0
    ensures SizeField(b, line, gap).1 != -1 ==> SizeField(b, line + suf, gap).1 == SizeField(b, line, gap).1
  {
    TokenThen(b, line, suf, gap + 1);
  }

  lemma ReadTripleThen(b: Build, line: string, suf: string, gap: nat, s: Stream)
    requires gap < |line| && suf != "" && IsBreak(suf[0])
    requires SizeField(b, line, gap).1 != -1 && SizeField(b, line, SizeField(b, line, gap).1).1 != -1
    ensures ReadTriple(b, line + suf, gap, s) == ReadTriple(b, line, gap, s)
  {
    var g1 := SizeField(b, line, gap).1;
    SizeFieldThen(b, line, suf, gap);
    SizeFieldThen(b, line, suf, g1);
    SizeFieldThen(b, line, suf, SizeField(b, line, g1).1);
  }

  /** The lengths of a header are read alike when the line goes on. */
  lemma InlineLengths(b: Build, rk: string, ck: string, v: string, suf: string, s: Stream)
    requires b.tokenFilled && suf != "" && IsBreak(suf[0])
    ensures ReadTriple(b, Header3("PUT", rk, ck, v) + suf, |"PUT"|, s)
         == if Fits(Data(rk, ck, v)) then Some(ReadSized(s, |rk|, |ck|, |v|)) else None
    ensures GetToken(b, Header3("PUT", rk, ck, v) + suf, 0) == ("PUT", |"PUT"|)
  {
    HeaderTokens(b, "PUT", rk, ck, v);
    Header3Sizes(b, "PUT", rk, ck, v);
    TokenThen(b, Header3("PUT", rk, ck, v), suf, 0);
    ReadTripleThen(b, Header3("PUT", rk, ck, v), suf, |"PUT"|, s);
  }

  /** The whole encoding of a PUT of the empty value at the end of the log. */
  lemma InlineBytes(b: Build, rk: string, ck: string)
    requires b.putInline
    ensures Encode(b, Put(rk, ck, "")) == Header3("PUT", rk, ck, "") + " " + Rest(rk, ck)
  {
    var h := Header3("PUT", rk, ck, "");
    assert h + " " + (rk + " " + ck + "\n\n") == h + " " + rk + " " + ck + "\n" + "" + "\n";
  }

  lemma InlineFirstLine(h: string, w: string, j: nat)
    requires '\n' !in h && j < |w| && IndexOf(w, '\n', 0) == j
    ensures GetLine(Open(h + " " + w)) == Some((h + (" " + w[..j]), Open(w[j + 1..])))
  {
    var line := h + (" " + w[..j]);
    assert '\n' !in w[..j];
    assert '\n' !in line;
    HeaderThenLine(h, w, j);
    GetLineAt(line, w[j + 1..]);
  }

  lemma HeaderThenLine(h: string, w: string, j: nat)
    requires j < |w| && w[j] == '\n'
    ensures h + " " + w == h + (" " + w[..j]) + "\n" + w[j + 1..]
  {
    assert w == w[..j] + "\n" + w[j + 1..];
  }

  /** One turn on such a record, when it ends the log. */
  lemma InlineEmptyTurn(b: Build, rk: string, ck: string)
    requires b.tokenFilled && b.putInline
    ensures
      var w := Rest(rk, ck);
      var j := IndexOf(w, '\n', 0);
      && 0 <= j < |w|
      && LogTurn(b, Open(Encode(b, Put(rk, ck, "")))) ==
           if Fits(Data(rk, ck, "")) then
             var r := ReadSized(Open(w[j + 1..]), |rk|, |ck|, 0);
             Took(Put(r.0, r.1, r.2), r.3)
           else Died
  {
    ReappearExactly(rk, ck);
    var w, h := Rest(rk, ck), Header3("PUT", rk, ck, "");
    var j := IndexOf(w, '\n', 0);
    HeaderLine("PUT", rk, ck, "");
    InlineBytes(b, rk, ck);
    InlineFirstLine(h, w, j);
    InlineLengths(b, rk, ck, "", " " + w[..j], Open(w[j + 1..]));
    PutTurn(b, Open(h + " " + w), h + (" " + w[..j]), Open(w[j + 1..]));
  }

  lemma PutTurn(b: Build, s: Stream, line: string, s1: Stream)
    requires GetLine(s) == Some((line, s1)) && GetToken(b, line, 0) == ("PUT", |"PUT"|) && |"PUT"| < |line|
    ensures LogTurn(b, s) ==
      match ReadTriple(b, line, |"PUT"|, s1)
      case None => Died
      case Some((rk, ck, v, next)) => Took(Put(rk, ck, v), next)
  {
  }

  /**
   Exactly which PUTs are read back with only the header layout left as shipped: the last
   of the log, of the empty value, with a column of newlines only and a row that is a space
   and a newline any number of times (both possibly empty), and lengths that fit.
   */
  lemma InlinePutReadsBackExactly(b: Build, rk: string, ck: string, v: string, tail: string)
    requires b.tokenFilled && b.putInline
    ensures LogTurn(b, Open(Encode(b, Put(rk, ck, v)) + tail)) == Took(Put(rk, ck, v), Open(tail))
       <==> v == "" && tail == "" && AllNewlines(ck) && SpaceNewlines(rk) && Fits(Put(rk, ck, v))
  {
    if v != "" || tail != "" {
      InlinePutNeverReadsBack(b, rk, ck, v, tail);
    } else {
      assert Encode(b, Put(rk, ck, v)) + tail == Encode(b, Put(rk, ck, ""));
      InlineEmptyTurn(b, rk, ck);
      ReappearExactly(rk, ck);
      ReadsBackWhereItReappears(rk, ck, IndexOf(Rest(rk, ck), '\n', 0));
    }
  }

  lemma ReadsBackWhereItReappears(rk: string, ck: string, j: nat)
    requires j < |Rest(rk, ck)|
    ensures ReadSized(Open(Rest(rk, ck)[j + 1..]), |rk|, |ck|, 0) == (rk, ck, "", Open("")) <==> Reappear(rk, ck, j)
  {
    ReadsEmptyValue(Rest(rk, ck)[j + 1..], |rk|, |ck|);
    NothingLeft(rk, ck, j);
  }

  /** After a row and column that reappear nothing is left of the log. */
  lemma NothingLeft(rk: string, ck: string, j: nat)
    requires j < |Rest(rk, ck)|
    ensures Past(Past(Past(Rest(rk, ck)[j + 1..], |rk|), |ck|), 0) == ""
  {
    RestAt(rk, ck, j);
  }

  /** For keys without a newline, as the front end's are: only the PUT of three empty strings that ends the log. */
  lemma InlinePutOfPlainKeys(b: Build, rk: string, ck: string, v: string, tail: string)
    requires b.tokenFilled && b.putInline && '\n' !in rk && '\n' !in ck
    ensures LogTurn(b, Open(Encode(b, Put(rk, ck, v)) + tail)) == Took(Put(rk, ck, v), Open(tail))
       <==> rk == "" && ck == "" && v == "" && tail == ""
  {
    InlinePutReadsBackExactly(b, rk, ck, v, tail);
    NewlineFreeIsEmpty(rk, ck);
  }

  lemma NewlineFreeIsEmpty(rk: string, ck: string)
    requires '\n' !in rk && '\n' !in ck
    ensures AllNewlines(ck) && SpaceNewlines(rk) <==> rk == "" && ck == ""
  {
    assert ck != "" ==> ck[0] in ck;
    assert |rk| >= 2 ==> rk[1] in rk;
  }
}
