/**
 Comma-separated lists as the front end keeps them in one cell
 (src/frontend_servers/req_handling.cc): splitting, joining, the in-place comma clean-up,
 and removing an entry by substring.
 */
module Lists {
  import opened Basics

  // --------------------------------------------------------- split and join

  /** `split`: the pieces between delimiters; a string without one is a single piece. */
  function Split(s: string, d: char): (parts: seq<string>)
    ensures |parts| >= 1
    decreases |s|
  {
    var i := IndexOf(s, d, 0);
    if i == -1 then [s] else [s[..i]] + Split(s[i + 1..], d)
  }

  /** `join`. */
  function Join(parts: seq<string>, d: char): string {
    if parts == [] then ""
    else if |parts| == 1 then parts[0]
    else parts[0] + [d] + Join(parts[1..], d)
  }

  /** The pieces a `getline` loop keeps when it drops empty ones. */
  function NonEmpty(parts: seq<string>): (r: seq<string>)
    ensures forall p :: p in r <==> p in parts && p != ""
  {
    if parts == [] then []
    else if parts[0] == "" then NonEmpty(parts[1..])
    else [parts[0]] + NonEmpty(parts[1..])
  }

  /** The pieces found so far and those of what is left make up the whole. */
  ghost predicate SplitSoFar(s: string, d: char, parts: seq<string>, rest: string) {
    parts + Split(rest, d) == Split(s, d)
  }

  method SplitLoop(s: string, d: char) returns (parts: seq<string>)
    ensures parts == Split(s, d)
  {
    parts := [];
    var pos := 0;
    SplitStarts(s, d);
    while true
      invariant 0 <= pos <= |s|
      invariant SplitSoFar(s, d, parts, s[pos..])
      decreases |s| - pos
    {
      var next := IndexOf(s, d, pos);
      if next == -1 {
        SplitEnds(s, d, parts, pos);
        parts := parts + [s[pos..]];
        return;
      }
      SplitOnwards(s, d, parts, pos, next);
      parts := parts + [s[pos..next]];
      pos := next + 1;
    }
  }

  lemma SplitStarts(s: string, d: char)
    ensures SplitSoFar(s, d, [], s[0..])
  {
    assert s[0..] == s && [] + Split(s, d) == Split(s, d);
  }

  lemma SplitEnds(s: string, d: char, parts: seq<string>, pos: nat)
    requires pos <= |s| && forall k :: pos <= k < |s| ==> s[k] != d
    requires SplitSoFar(s, d, parts, s[pos..])
    ensures parts + [s[pos..]] == Split(s, d)
  {
    NotInDrop(s, d, pos);
    SplitLast(s, d, parts, s[pos..]);
  }

  lemma SplitLast(s: string, d: char, parts: seq<string>, rest: string)
    requires SplitSoFar(s, d, parts, rest) && d !in rest
    ensures parts + [rest] == Split(s, d)
  {
    SplitNone(rest, d);
  }

  lemma SplitOnwards(s: string, d: char, parts: seq<string>, pos: nat, next: nat)
    requires pos <= next < |s| && s[next] == d && forall k :: pos <= k < next ==> s[k] != d
    requires SplitSoFar(s, d, parts, s[pos..])
    ensures SplitSoFar(s, d, parts + [s[pos..next]], s[next + 1..])
  {
    NotInSlice(s, d, pos, next);
    CutAt(s, pos, next);
    SplitOneMore(s, d, parts, s[pos..], s[pos..next], s[next + 1..]);
  }

  lemma SplitOneMore(s: string, d: char, parts: seq<string>, rest: string, a: string, b: string)
    requires SplitSoFar(s, d, parts, rest) && rest == a + [d] + b && d !in a
    ensures SplitSoFar(s, d, parts + [a], b)
  {
    SplitFirst(rest, d, a, b);
    Regroup(parts, a, Split(b, d));
  }

  lemma Regroup(a: seq<string>, p: string, b: seq<string>)
    ensures a + ([p] + b) == a + [p] + b
  {
  }

  lemma NotInDrop(s: string, d: char, pos: nat)
    requires pos <= |s| && forall k :: pos <= k < |s| ==> s[k] != d
    ensures d !in s[pos..]
  {
    var u := s[pos..];
    forall k | 0 <= k < |u| ensures u[k] != d {
      assert u[k] == s[pos + k];
    }
  }

  lemma NotInSlice(s: string, d: char, pos: nat, next: nat)
    requires pos <= next <= |s| && forall k :: pos <= k < next ==> s[k] != d
    ensures d !in s[pos..next]
  {
    var a := s[pos..next];
    forall k | 0 <= k < |a| ensures a[k] != d {
      assert a[k] == s[pos + k];
    }
  }

  lemma CutAt(s: string, pos: nat, next: nat)
    requires pos <= next < |s|
    ensures s[pos..] == s[pos..next] + [s[next]] + s[next + 1..]
  {
  }

  method JoinLoop(parts: seq<string>, d: char) returns (s: string)
    ensures s == Join(parts, d)
  {
    s := "";
    if parts == [] {
      return;
    }
    s := parts[0];
    var i := 1;
    assert parts[..1] == [parts[0]];
    while i < |parts|
      invariant 1 <= i <= |parts|
      invariant s == Join(parts[..i], d)
    {
      JoinSnoc(parts[..i], parts[i], d);
      assert parts[..i + 1] == parts[..i] + [parts[i]];
      s := s + [d] + parts[i];
      i := i + 1;
    }
    assert parts[..i] == parts;
  }

  lemma {:induction false} JoinSnoc(parts: seq<string>, p: string, d: char)
    requires parts != []
    ensures Join(parts + [p], d) == Join(parts, d) + [d] + p
  {
    if |parts| == 1 {
      assert (parts + [p])[1..] == [p];
    } else {
      assert (parts + [p])[1..] == parts[1..] + [p];
      JoinSnoc(parts[1..], p, d);
    }
  }

  lemma SplitFirst(s: string, d: char, a: string, b: string)
    requires s == a + [d] + b && d !in a
    ensures Split(s, d) == [a] + Split(b, d)
  {
    assert s[|a|] == d;
    assert forall k :: 0 <= k < |a| ==> s[k] == a[k];
    assert s[..|a|] == a && s[|a| + 1..] == b;
  }

  lemma SplitNone(s: string, d: char)
    requires d !in s
    ensures Split(s, d) == [s]
  {
  }

  lemma AssocAround(x: string, d: char, y: string, b: string)
    ensures x + [d] + y + [d] + b == x + [d] + (y + [d] + b)
  {
    assert x + [d] + y + [d] == x + [d] + (y + [d]);
    Assoc(x + [d], y + [d], b);
  }

  /** A delimiter splits a string into the pieces before it and the pieces after it. */
  lemma {:induction false} SplitAt(a: string, b: string, d: char)
    ensures Split(a + [d] + b, d) == Split(a, d) + Split(b, d)
    decreases |a|
  {
    var i := IndexOf(a, d, 0);
    if i == -1 {
      SplitFirst(a + [d] + b, d, a, b);
    } else {
      var x, y := a[..i], a[i + 1..];
      Reassemble(a, i);
      SplitAt(y, b, d);
      AssocAround(x, d, y, b);
      SplitFirst(a + [d] + b, d, x, y + [d] + b);
      RegroupFront(x, Split(y, d), Split(b, d));
    }
  }

  lemma RegroupFront(p: string, a: seq<string>, b: seq<string>)
    ensures [p] + a + b == [p] + (a + b)
  {
  }

  lemma JoinCons(a: string, rest: seq<string>, d: char)
    requires rest != []
    ensures Join([a] + rest, d) == a + [d] + Join(rest, d)
  {
    assert ([a] + rest)[1..] == rest;
  }

  lemma Reassemble(s: string, i: nat)
    requires i < |s|
    ensures s == s[..i] + [s[i]] + s[i + 1..]
  {
  }

  /** Joining what was split gives the string back. */
  lemma {:induction false} JoinSplit(s: string, d: char)
    ensures Join(Split(s, d), d) == s
    decreases |s|
  {
    var i := IndexOf(s, d, 0);
    if i != -1 {
      var a, b := s[..i], s[i + 1..];
      JoinSplit(b, d);
      JoinCons(a, Split(b, d), d);
      Reassemble(s, i);
    }
  }

  ghost predicate Free(parts: seq<string>, d: char) {
    forall i :: 0 <= i < |parts| ==> d !in parts[i]
  }

  ghost predicate NoneEmpty(parts: seq<string>) {
    forall i :: 0 <= i < |parts| ==> parts[i] != ""
  }

  /** Splitting what was joined gives the pieces back, when there is one at least and none contains the delimiter. */
  lemma {:induction false} SplitJoin(parts: seq<string>, d: char)
    requires parts != [] && Free(parts, d)
    ensures Split(Join(parts, d), d) == parts
  {
    if |parts| == 1 {
      SplitNone(parts[0], d);
    } else {
      SplitJoin(parts[1..], d);
      SplitFirst(Join(parts, d), d, parts[0], Join(parts[1..], d));
    }
  }

  /** Splitting always yields delimiter-free pieces. */
  lemma {:induction false} SplitFree(s: string, d: char)
    ensures Free(Split(s, d), d)
    decreases |s|
  {
    var i := IndexOf(s, d, 0);
    if i != -1 {
      SplitFree(s[i + 1..], d);
      assert d !in s[..i];
      var parts := Split(s, d);
      forall k | 0 <= k < |parts|
        ensures d !in parts[k]
      {
        if k > 0 {
          assert parts[k] == Split(s[i + 1..], d)[k - 1];
        }
      }
    }
  }

  lemma {:induction false} NonEmptyConcat(a: seq<string>, b: seq<string>)
    ensures NonEmpty(a + b) == NonEmpty(a) + NonEmpty(b)
  {
    if a == [] {
      assert a + b == b;
    } else {
      assert (a + b)[1..] == a[1..] + b;
      NonEmptyConcat(a[1..], b);
    }
  }

  lemma {:induction false} NonEmptyOfNoneEmpty(parts: seq<string>)
    requires NoneEmpty(parts)
    ensures NonEmpty(parts) == parts
  {
    if parts != [] {
      NonEmptyOfNoneEmpty(parts[1..]);
    }
  }

  /** The entries of a stored list: an empty cell has none. */
  function Entries(s: string): seq<string> { NonEmpty(Split(s, ',')) }

  lemma EntriesAt(a: string, b: string)
    ensures Entries(a + "," + b) == Entries(a) + Entries(b)
  {
    SplitAt(a, b, ',');
    NonEmptyConcat(Split(a, ','), Split(b, ','));
  }

  lemma EmptyCell()
    ensures Entries("") == []
  {
    assert Split("", ',') == [""] && [""][1..] == [];
  }

  lemma OneEntry(a: string)
    requires a != "" && ',' !in a
    ensures Entries(a) == [a]
  {
    SplitNone(a, ',');
    NonEmptyOfNoneEmpty([a]);
  }

  /** A list of nonempty comma-free entries is stored as their join, and read back. */
  lemma EntriesOfJoin(parts: seq<string>)
    requires Free(parts, ',') && NoneEmpty(parts)
    ensures Entries(Join(parts, ',')) == parts
  {
    if parts == [] {
      EmptyCell();
    } else {
      SplitJoin(parts, ',');
      NonEmptyOfNoneEmpty(parts);
    }
  }

  // -------------------------------------------------------- comma clean-up

  /** `std::string::find`: the first occurrence of `pat` at or after `from`, or -1. */
  function Find(s: string, pat: string, from: nat): (i: int)
    requires from <= |s|
    ensures i == -1 ==> forall k :: from <= k <= |s| - |pat| ==> !OccursAt(s, pat, k)
    ensures i != -1 ==> from <= i <= |s| - |pat| && OccursAt(s, pat, i) && forall k :: from <= k < i ==> !OccursAt(s, pat, k)
    decreases |s| - from
  {
    if OccursAt(s, pat, from) then from
    else if from == |s| then -1
    else Find(s, pat, from + 1)
  }

  predicate OccursAt(s: string, pat: string, k: nat) {
    k + |pat| <= |s| && s[k..k + |pat|] == pat
  }

  /** No two adjacent commas. */
  ghost predicate NoDouble(s: string) {
    forall k :: 0 <= k < |s| - 1 ==> s[k] != ',' || s[k + 1] != ','
  }

  lemma NotFoundNoDouble(s: string)
    requires Find(s, ",,", 0) == -1
    ensures NoDouble(s)
  {
    forall k | 0 <= k < |s| - 1
      ensures s[k] != ',' || s[k + 1] != ','
    {
      assert !OccursAt(s, ",,", k);
      assert s[k..k + 2] == [s[k], s[k + 1]];
    }
  }

  /** One turn of the clean-up: the entries do not change. */
  lemma CollapseKeepsEntries(a: string, b: string)
    ensures Entries(a + ",," + b) == Entries(a + "," + b)
  {
    assert a + ",," + b == a + "," + ("" + "," + b);
    EntriesAt(a, "" + "," + b);
    EntriesAt("", b);
    EntriesAt(a, b);
    EmptyCell();
  }

  /** A string with no two adjacent commas and none at either end is the join of its entries. */
  lemma {:induction false} CleanIsJoin(s: string)
    requires NoDouble(s)
    requires s != "" ==> s[0] != ',' && s[|s| - 1] != ','
    ensures s == Join(Entries(s), ',')
    decreases |s|
  {
    if s == "" {
      EmptyCell();
      return;
    }
    var i := IndexOf(s, ',', 0);
    if i == -1 {
      OneEntry(s);
      return;
    }
    var a, b := s[..i], s[i + 1..];
    assert s == a + "," + b;
    assert b[0] != ',' && b[|b| - 1] == s[|s| - 1];
    CleanIsJoin(b);
    EntriesAt(a, b);
    OneEntry(a);
    SplitNonTrivial(b);
    JoinCons(a, Entries(b), ',');
  }

  /** A string that does not start with a comma and is not empty has an entry. */
  lemma SplitNonTrivial(b: string)
    requires b != "" && b[0] != ','
    ensures Entries(b) != []
  {
    var i := IndexOf(b, ',', 0);
    assert Split(b, ',')[0] != "";
  }

  /** The loop over ",,". */
  method CollapseCommas(list: string) returns (s: string)
    ensures Entries(s) == Entries(list) && NoDouble(s)
  {
    s := list;
    var pos := Find(s, ",,", 0);
    while pos != -1
      invariant pos == Find(s, ",,", 0)
      invariant Entries(s) == Entries(list)
      decreases |s|
    {
      var a, b := s[..pos], s[pos + 2..];
      SplitOccurrence(s, ",,", pos);
      CollapseKeepsEntries(a, b);
      s := a + "," + b;
      pos := Find(s, ",,", 0);
    }
    NotFoundNoDouble(s);
  }

  lemma SplitOccurrence(s: string, pat: string, pos: nat)
    requires OccursAt(s, pat, pos)
    ensures s == s[..pos] + pat + s[pos + |pat|..]
  {
  }

  /** The loop over ",," and the two trims: the stored list becomes the join of its entries. */
  method CleanUp(list: string) returns (s: string)
    ensures s == Join(Entries(list), ',')
  {
    s := CollapseCommas(list);
    if s != "" {
      if s[0] == ',' {
        TrimFront(s);
        s := s[1..];
      }
      if s != "" && s[|s| - 1] == ',' {
        TrimBack(s);
        s := s[..|s| - 1];
      }
    }
    CleanIsJoin(s);
  }

  lemma TrimFront(s: string)
    requires s != "" && s[0] == ',' && NoDouble(s)
    ensures Entries(s[1..]) == Entries(s) && NoDouble(s[1..])
    ensures s[1..] != "" ==> s[1..][0] != ','
  {
    assert s == "" + "," + s[1..];
    EntriesAt("", s[1..]);
    EmptyCell();
  }

  lemma TrimBack(s: string)
    requires s != "" && s[|s| - 1] == ',' && NoDouble(s)
    ensures
      var t := s[..|s| - 1];
      Entries(t) == Entries(s) && NoDouble(t) && (t != "" ==> t[|t| - 1] != ',' && t[0] == s[0])
  {
    var t := s[..|s| - 1];
    assert s == t + "," + "";
    EntriesAt(t, "");
    EmptyCell();
  }

  // ------------------------------------------------- removal by substring

  predicate Contains(p: string, pat: string) { Find(p, pat, 0) != -1 }

  /** `p` without the `n` bytes at `i`. */
  function Cut(p: string, n: nat, i: int): string
    requires i == -1 || 0 <= i <= |p| - n
  {
    if i == -1 then p else p[..i] + p[i + n..]
  }

  function Erase(p: string, pat: string): string { Cut(p, |pat|, Find(p, pat, 0)) }

  /** The pieces with `pat` erased once, from the first piece that contains it. */
  function EraseInFirst(parts: seq<string>, pat: string): seq<string> {
    if parts == [] then []
    else if Contains(parts[0], pat) then [Erase(parts[0], pat)] + parts[1..]
    else [parts[0]] + EraseInFirst(parts[1..], pat)
  }

  function RemoveFirst(parts: seq<string>, x: string): seq<string> {
    if parts == [] then []
    else if parts[0] == x then parts[1..]
    else [parts[0]] + RemoveFirst(parts[1..], x)
  }

  /** No piece contains `x`, or the first that does is `x` itself. */
  predicate FirstHitExact(parts: seq<string>, x: string) {
    parts == [] || (if Contains(parts[0], x) then parts[0] == x else FirstHitExact(parts[1..], x))
  }

  lemma FindIs(s: string, pat: string, i: nat)
    requires OccursAt(s, pat, i) && forall k: nat :: k < i ==> !OccursAt(s, pat, k)
    ensures Find(s, pat, 0) == i
  {
  }

  lemma FindPrefix(a: string, b: string, pat: string)
    requires pat != "" && ',' !in pat
    ensures Find(a + "," + b, pat, 0) ==
            if Find(a, pat, 0) != -1 then Find(a, pat, 0)
            else if Find(b, pat, 0) != -1 then |a| + 1 + Find(b, pat, 0) else -1
  {
    var s, i, j := a + "," + b, Find(a, pat, 0), Find(b, pat, 0);
    forall k: nat
      ensures OccursAt(s, pat, k) <==> OccursAt(a, pat, k) || (k > |a| && OccursAt(b, pat, k - |a| - 1))
    {
      OccursAcross(a, b, pat, k);
    }
    if i != -1 {
      FindIs(s, pat, i);
    } else if j != -1 {
      assert OccursAt(b, pat, |a| + 1 + j - |a| - 1);
      FindIs(s, pat, |a| + 1 + j);
    }
  }

  lemma OccursAcross(a: string, b: string, pat: string, k: nat)
    requires pat != "" && ',' !in pat
    ensures OccursAt(a + "," + b, pat, k) <==> OccursAt(a, pat, k) || (k > |a| && OccursAt(b, pat, k - |a| - 1))
  {
    var s := a + "," + b;
    if k + |pat| <= |a| {
      assert s[k..k + |pat|] == a[k..k + |pat|];
    } else if k > |a| {
      if k + |pat| <= |s| {
        assert s[k..k + |pat|] == b[k - |a| - 1..k - |a| - 1 + |pat|];
      }
    } else if k + |pat| <= |s| {
      assert s[k..k + |pat|][|a| - k] == ',';
    }
  }

  lemma EraseAcross(a: string, b: string, pat: string)
    requires pat != "" && ',' !in pat
    ensures Erase(a + "," + b, pat) == if Contains(a, pat) then Erase(a, pat) + "," + b else a + "," + Erase(b, pat)
  {
    FindPrefix(a, b, pat);
    CutAcross(a, b, |pat|, Find(a, pat, 0), Find(b, pat, 0));
  }

  lemma CutAcross(a: string, b: string, n: nat, i: int, j: int)
    requires i == -1 || 0 <= i <= |a| - n
    requires j == -1 || 0 <= j <= |b| - n
    ensures i != -1 ==> Cut(a + "," + b, n, i) == Cut(a, n, i) + "," + b
    ensures j != -1 ==> Cut(a + "," + b, n, |a| + 1 + j) == a + "," + Cut(b, n, j)
  {
    if i != -1 {
      CutLeft(a, ",", n, i);
      CutLeft(a + ",", b, n, i);
    }
    if j != -1 {
      CutRight(a + ",", b, n, j);
    }
  }

  lemma CutLeft(a: string, b: string, n: nat, i: nat)
    requires i + n <= |a|
    ensures Cut(a + b, n, i) == Cut(a, n, i) + b
  {
    assert (a + b)[i + n..] == a[i + n..] + b;
    Assoc(a[..i], a[i + n..], b);
  }

  lemma CutRight(a: string, b: string, n: nat, j: nat)
    requires j + n <= |b|
    ensures Cut(a + b, n, |a| + j) == a + Cut(b, n, j)
  {
    assert (a + b)[..|a| + j] == a + b[..j];
    assert (a + b)[|a| + j + n..] == b[j + n..];
    Assoc(a, b[..j], b[j + n..]);
  }

  /** Erasing a comma-free substring from a stored list erases it from the first piece that contains it. */
  lemma {:induction false} EraseInJoin(parts: seq<string>, pat: string)
    requires parts != [] && pat != "" && ',' !in pat
    ensures Erase(Join(parts, ','), pat) == Join(EraseInFirst(parts, pat), ',')
    ensures |EraseInFirst(parts, pat)| == |parts|
  {
    if |parts| > 1 {
      var a, rest := parts[0], parts[1..];
      EraseInJoin(rest, pat);
      EraseAcross(a, Join(rest, ','), pat);
      if Contains(a, pat) {
        JoinCons(Erase(a, pat), rest, ',');
      } else {
        JoinCons(a, EraseInFirst(rest, pat), ',');
      }
    } else {
      assert parts[1..] == [] && EraseInFirst([], pat) == [];
    }
  }

  lemma ContainsBySize(p: string, x: string)
    requires Contains(p, x)
    ensures |p| >= |x| && |Erase(p, x)| == |p| - |x| && (|p| == |x| ==> p == x)
  {
    if |p| == |x| {
      assert p[0..|x|] == p;
    }
  }

  lemma ContainsItself(x: string)
    ensures Contains(x, x)
  {
    assert OccursAt(x, x, 0);
  }

  lemma {:induction false} EraseInFirstFree(parts: seq<string>, pat: string)
    requires Free(parts, ',')
    ensures Free(EraseInFirst(parts, pat), ',')
  {
    if parts != [] && !Contains(parts[0], pat) {
      EraseInFirstFree(parts[1..], pat);
    }
  }

  /** On pieces: erasing the substring is removing the entry, if and only if the first hit is exact. */
  lemma {:induction false} EraseIsRemoveExactly(parts: seq<string>, x: string)
    requires x != "" && NoneEmpty(parts)
    ensures NonEmpty(EraseInFirst(parts, x)) == RemoveFirst(parts, x) <==> FirstHitExact(parts, x)
  {
    if parts != [] {
      NonEmptyOfNoneEmpty(parts[1..]);
      ContainsItself(x);
      if Contains(parts[0], x) {
        var e := Erase(parts[0], x);
        ContainsBySize(parts[0], x);
        assert ([e] + parts[1..])[1..] == parts[1..];
        if parts[0] != x {
          assert NonEmpty(EraseInFirst(parts, x))[0] == e;
          assert RemoveFirst(parts, x)[0] == parts[0];
        }
      } else {
        EraseIsRemoveExactly(parts[1..], x);
        var l, r := NonEmpty(EraseInFirst(parts[1..], x)), RemoveFirst(parts[1..], x);
        assert ([parts[0]] + EraseInFirst(parts[1..], x))[1..] == EraseInFirst(parts[1..], x);
        assert ([parts[0]] + l)[1..] == l && ([parts[0]] + r)[1..] == r;
      }
    }
  }

  /** The body of the inbox update: erase the UID's first occurrence as a substring, then clean up. */
  method DeleteUid(list: string, uid: string) returns (s: string)
    ensures s == Join(Entries(Erase(list, uid)), ',')
  {
    s := list;
    var pos := Find(s, uid, 0);
    if pos != -1 {
      s := s[..pos] + s[pos + |uid|..];
      assert s == Cut(list, |uid|, pos);
    }
    assert s == Erase(list, uid);
    s := CleanUp(s);
  }

  /**
   Deleting a UID by substring removes exactly that entry, the first one equal to it, if
   and only if no entry before it (or at all, when it is not there) has the UID as a
   proper part.
   */
  lemma DeleteUidExact(uids: seq<string>, uid: string)
    requires Free(uids, ',') && NoneEmpty(uids) && uid != "" && ',' !in uid
    ensures Join(Entries(Erase(Join(uids, ','), uid)), ',') == Join(RemoveFirst(uids, uid), ',') <==> FirstHitExact(uids, uid)
  {
    if uids == [] {
      EmptyCell();
    } else {
      var e := EraseInFirst(uids, uid);
      EraseInJoin(uids, uid);
      EraseInFirstFree(uids, uid);
      SplitJoin(e, ',');
      EraseIsRemoveExactly(uids, uid);
      RemoveFirstSub(uids, uid);
      NonEmptyFree(e);
      EntriesOfJoin(NonEmpty(e));
      EntriesOfJoin(RemoveFirst(uids, uid));
    }
  }

  lemma {:induction false} RemoveFirstSub(parts: seq<string>, x: string)
    ensures forall p :: p in RemoveFirst(parts, x) ==> p in parts
    ensures Free(parts, ',') ==> Free(RemoveFirst(parts, x), ',')
    ensures NoneEmpty(parts) ==> NoneEmpty(RemoveFirst(parts, x))
  {
    if parts != [] && parts[0] != x {
      RemoveFirstSub(parts[1..], x);
    }
  }

  lemma NonEmptyFree(parts: seq<string>)
    requires Free(parts, ',')
    ensures Free(NonEmpty(parts), ',') && NoneEmpty(NonEmpty(parts))
  {
    forall i | 0 <= i < |NonEmpty(parts)|
      ensures ',' !in NonEmpty(parts)[i] && NonEmpty(parts)[i] != ""
    {
      assert NonEmpty(parts)[i] in NonEmpty(parts);
    }
  }

  /** UIDs of one length never contain each other, so deletion by substring is right for them. */
  lemma {:induction false} SameLengthHitsExactly(uids: seq<string>, uid: string)
    requires forall i :: 0 <= i < |uids| ==> |uids[i]| == |uid|
    ensures FirstHitExact(uids, uid)
  {
    if uids != [] {
      SameLengthHitsExactly(uids[1..], uid);
      if Contains(uids[0], uid) {
        ContainsBySize(uids[0], uid);
      }
    }
  }

  /** The pieces other than x, in order. */
  function Without(parts: seq<string>, x: string): (r: seq<string>)
    ensures forall p :: p in r <==> p in parts && p != x
  {
    if parts == [] then []
    else (if parts[0] == x then [] else [parts[0]]) + Without(parts[1..], x)
  }

  lemma {:induction false} WithoutAbsent(parts: seq<string>, x: string)
    requires x !in parts
    ensures Without(parts, x) == parts
  {
    if parts != [] {
      assert parts[0] in parts;
      assert parts == [parts[0]] + parts[1..];
      WithoutAbsent(parts[1..], x);
    }
  }

  /** Among distinct entries, removing the first equal one is filtering it out, and the order stays. */
  lemma {:induction false} RemoveFirstFilters(parts: seq<string>, x: string)
    requires Distinct(parts)
    ensures RemoveFirst(parts, x) == Without(parts, x)
    ensures multiset(RemoveFirst(parts, x)) == multiset(parts) - multiset{x}
  {
    if parts != [] {
      assert parts == [parts[0]] + parts[1..];
      if parts[0] != x {
        RemoveFirstFilters(parts[1..], x);
      } else {
        assert x !in parts[1..];
        WithoutAbsent(parts[1..], x);
      }
    }
  }

  /**
   The inbox after a deletion, for what the mail server stores there: distinct nonempty
   comma-free UIDs of one length.  It is the list without that UID, in the same order.
   */
  lemma InboxDeletion(uids: seq<string>, uid: string)
    requires Distinct(uids) && Free(uids, ',') && uid != "" && ',' !in uid
    requires forall i :: 0 <= i < |uids| ==> |uids[i]| == |uid|
    ensures Join(Entries(Erase(Join(uids, ','), uid)), ',') == Join(Without(uids, uid), ',')
  {
    SameLengthHitsExactly(uids, uid);
    DeleteUidExact(uids, uid);
    RemoveFirstFilters(uids, uid);
  }
}
