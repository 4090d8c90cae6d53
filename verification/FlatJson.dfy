/**
 The front end's scanner for flat JSON objects (src/frontend_servers/req_handling.cc:1171-1222)
 and the object text of section 4 of RFC 8259 it is fed: string members, printed compactly
 and without escapes.
 */
module FlatJson {
  import opened Basics

  datatype Scanner = Scanner(params: map<string, string>, key: string, value: string, isKey: bool, inQuotes: bool, isValue: bool)

  const START := Scanner(map[], "", "", true, false, false)

  function Scan(s: Scanner, c: char): Scanner {
    if c == '{' || c == '}' || c == '\t' || c == '\n' then s
    else if c == ':' then
      if s.inQuotes then (if s.isValue then s.(value := s.value + [c]) else s)
      else s.(isKey := false, isValue := true)
    else if c == ',' then
      if s.inQuotes then (if s.isValue then s.(value := s.value + [c]) else s)
      else Scanner(s.params[s.key := s.value], "", "", true, false, false)
    else if c == '"' then s.(inQuotes := !s.inQuotes)
    else if !s.inQuotes then s
    else if s.isKey then s.(key := s.key + [c])
    else if s.isValue then s.(value := s.value + [c])
    else s
  }

  function ScanAll(s: Scanner, body: string): Scanner
    decreases |body|
  {
    if body == "" then s else ScanAll(Scan(s, body[0]), body[1..])
  }

  /** The last pair is kept only if neither part is empty. */
  function Finish(s: Scanner): map<string, string> {
    if s.key != "" && s.value != "" then s.params[s.key := s.value] else s.params
  }

  function Parse(body: string): map<string, string> { Finish(ScanAll(START, body)) }

  method ParseJson(body: string) returns (params: map<string, string>)
    ensures params == Parse(body)
  {
    params := map[];
    var isKey, inQuotes, isValue := true, false, false;
    var key, value := "", "";
    var i := 0;
    assert body[0..] == body;
    while i < |body|
      invariant 0 <= i <= |body|
      invariant ScanAll(Scanner(params, key, value, isKey, inQuotes, isValue), body[i..]) == ScanAll(START, body)
    {
      var c := body[i];
      assert body[i..][1..] == body[i + 1..];
      i := i + 1;
      if c == '{' || c == '}' || c == '\t' || c == '\n' {
        continue;
      } else if c == ':' {
        if inQuotes {
          if isValue {
            value := value + [c];
          }
        } else {
          isKey := false;
          isValue := true;
        }
      } else if c == ',' {
        if inQuotes {
          if isValue {
            value := value + [c];
          }
        } else {
          params := params[key := value];
          key, value, isKey, isValue := "", "", true, false;
        }
      } else if c == '"' {
        inQuotes := !inQuotes;
      } else if inQuotes {
        if isKey {
          key := key + [c];
        } else if isValue {
          value := value + [c];
        }
      }
    }
    if key != "" && value != "" {
      params := params[key := value];
    }
  }

  // ------------------------------------------------------------- the printer

  datatype Member = Member(name: string, value: string)

  function PrintMember(m: Member): string { "\"" + m.name + "\":\"" + m.value + "\"" }

  function PrintMembers(ms: seq<Member>): string {
    if ms == [] then ""
    else if |ms| == 1 then PrintMember(ms[0])
    else PrintMembers(ms[..|ms| - 1]) + "," + PrintMember(ms[|ms| - 1])
  }

  function Print(ms: seq<Member>): string { "{" + PrintMembers(ms) + "}" }

  /** The members as a map, the last of equal names winning. */
  function AsMap(ms: seq<Member>): map<string, string> {
    if ms == [] then map[] else AsMap(ms[..|ms| - 1])[ms[|ms| - 1].name := ms[|ms| - 1].value]
  }

  predicate Dropped(c: char) { c == '{' || c == '}' || c == '\t' || c == '\n' }

  function KeepInName(c: char): string { if Dropped(c) || c == ':' || c == ',' then "" else [c] }

  function KeepInValue(c: char): string { if Dropped(c) then "" else [c] }

  /** What the scanner keeps of a name, and of a value. */
  function CleanName(s: string): string {
    if s == "" then "" else KeepInName(s[0]) + CleanName(s[1..])
  }

  function CleanValue(s: string): string {
    if s == "" then "" else KeepInValue(s[0]) + CleanValue(s[1..])
  }

  function Clean(ms: seq<Member>): (r: seq<Member>)
    ensures |r| == |ms| && forall i :: 0 <= i < |ms| ==> r[i] == Member(CleanName(ms[i].name), CleanValue(ms[i].value))
  {
    if ms == [] then []
    else
      var last := ms[|ms| - 1];
      Clean(ms[..|ms| - 1]) + [Member(CleanName(last.name), CleanValue(last.value))]
  }

  predicate QuoteFree(s: string) { forall i :: 0 <= i < |s| ==> s[i] != '"' }

  ghost predicate QuotesFree(ms: seq<Member>) {
    forall i :: 0 <= i < |ms| ==> QuoteFree(ms[i].name) && QuoteFree(ms[i].value)
  }

  // ------------------------------------------------------------ proofs

  lemma {:induction false} ScanAppend(s: Scanner, a: string, b: string)
    ensures ScanAll(s, a + b) == ScanAll(ScanAll(s, a), b)
    decreases |a|
  {
    if a == "" {
      assert a + b == b;
    } else {
      assert (a + b)[1..] == a[1..] + b;
      ScanAppend(Scan(s, a[0]), a[1..], b);
    }
  }

  /** The scanner inside a name that began as `key`. */
  function InName(params: map<string, string>, key: string): Scanner { Scanner(params, key, "", true, true, false) }

  function InValue(params: map<string, string>, key: string, value: string): Scanner {
    Scanner(params, key, value, false, true, true)
  }

  lemma ScanNameChar(params: map<string, string>, key: string, c: char)
    requires c != '"'
    ensures Scan(InName(params, key), c) == InName(params, key + KeepInName(c))
  {
    assert key + "" == key;
  }

  lemma ScanValueChar(params: map<string, string>, key: string, value: string, c: char)
    requires c != '"'
    ensures Scan(InValue(params, key, value), c) == InValue(params, key, value + KeepInValue(c))
  {
    assert value + "" == value;
  }

  lemma {:induction false} ScanName(params: map<string, string>, key: string, name: string)
    requires QuoteFree(name)
    ensures ScanAll(InName(params, key), name) == InName(params, key + CleanName(name))
    decreases |name|
  {
    if name == "" {
      assert key + "" == key;
    } else {
      var c := name[0];
      ScanNameChar(params, key, c);
      ScanName(params, key + KeepInName(c), name[1..]);
      Assoc(key, KeepInName(c), CleanName(name[1..]));
    }
  }

  lemma {:induction false} ScanValue(params: map<string, string>, key: string, value: string, text: string)
    requires QuoteFree(text)
    ensures ScanAll(InValue(params, key, value), text) == InValue(params, key, value + CleanValue(text))
    decreases |text|
  {
    if text == "" {
      assert value + "" == value;
    } else {
      var c := text[0];
      ScanValueChar(params, key, value, c);
      ScanValue(params, key, value + KeepInValue(c), text[1..]);
      Assoc(value, KeepInValue(c), CleanValue(text[1..]));
    }
  }

  lemma ScanOne(s: Scanner, c: char)
    ensures ScanAll(s, [c]) == Scan(s, c)
  {
    assert [c][1..] == "";
  }

  lemma ScanColon(params: map<string, string>, key: string)
    ensures ScanAll(InName(params, key), "\":\"") == InValue(params, key, "")
  {
    var s := InName(params, key);
    ScanOne(s, '"');
    ScanOne(Scan(s, '"'), ':');
    ScanOne(Scan(Scan(s, '"'), ':'), '"');
    ScanAppend(s, "\"", ":");
    ScanAppend(s, "\"" + ":", "\"");
    assert "\"" + ":" + "\"" == "\":\"";
  }

  lemma ScanMember(params: map<string, string>, m: Member)
    requires QuoteFree(m.name) && QuoteFree(m.value)
    ensures ScanAll(Scanner(params, "", "", true, false, false), PrintMember(m))
         == Scanner(params, CleanName(m.name), CleanValue(m.value), false, false, true)
  {
    var s, k, v := Scanner(params, "", "", true, false, false), CleanName(m.name), CleanValue(m.value);
    assert "" + k == k && "" + v == v;
    ScanOne(s, '"');
    ScanAppend(s, "\"", m.name);
    ScanName(params, "", m.name);
    ScanColon(params, k);
    ScanAppend(s, "\"" + m.name, "\":\"");
    ScanValue(params, k, "", m.value);
    ScanAppend(s, "\"" + m.name + "\":\"", m.value);
    ScanOne(InValue(params, k, v), '"');
    ScanAppend(s, "\"" + m.name + "\":\"" + m.value, "\"");
  }

  lemma {:induction false} ScanMembers(ms: seq<Member>)
    requires ms != [] && QuotesFree(ms)
    ensures
      var r := Clean(ms);
      var last := r[|ms| - 1];
      ScanAll(START, PrintMembers(ms)) == Scanner(AsMap(r[..|ms| - 1]), last.name, last.value, false, false, true)
  {
    var front, last := ms[..|ms| - 1], ms[|ms| - 1];
    assert Clean(ms)[..|ms| - 1] == Clean(front);
    if |ms| == 1 {
      ScanMember(map[], last);
    } else {
      ScanMembers(front);
      var params := AsMap(Clean(front));
      var s := ScanAll(START, PrintMembers(front));
      ScanOne(s, ',');
      ScanAppend(START, PrintMembers(front), ",");
      ScanMember(params, last);
      ScanAppend(START, PrintMembers(front) + ",", PrintMember(last));
    }
  }

  lemma ScanBraces(ms: seq<Member>)
    ensures ScanAll(START, Print(ms)) == ScanAll(START, PrintMembers(ms))
  {
    ScanOne(START, '{');
    ScanAppend(START, "{", PrintMembers(ms));
    var s := ScanAll(START, PrintMembers(ms));
    ScanOne(s, '}');
    ScanAppend(START, "{" + PrintMembers(ms), "}");
  }

  /**
   What the scanner makes of any object without quotes in its strings: every member with
   the structural characters gone from its name and value, the last of equal names
   winning, except that a last member with an empty name or value is lost.
   */
  lemma ParsePrinted(ms: seq<Member>)
    requires QuotesFree(ms)
    ensures
      var r := Clean(ms);
      Parse(Print(ms)) ==
        if ms == [] then map[]
        else if r[|ms| - 1].name == "" || r[|ms| - 1].value == "" then AsMap(r[..|ms| - 1])
        else AsMap(r)
  {
    ScanBraces(ms);
    if ms != [] {
      FinishMembers(ms);
    }
  }

  lemma FinishMembers(ms: seq<Member>)
    requires ms != [] && QuotesFree(ms)
    ensures
      var r := Clean(ms);
      Finish(ScanAll(START, PrintMembers(ms))) ==
        if r[|ms| - 1].name == "" || r[|ms| - 1].value == "" then AsMap(r[..|ms| - 1]) else AsMap(r)
  {
    ScanMembers(ms);
  }

  // ------------------------------------------------- other texts of an object

  function Quotes(s: string): nat {
    if s == "" then 0 else Quotes(s[..|s| - 1]) + if s[|s| - 1] == '"' then 1 else 0
  }

  lemma {:induction false} InQuotesExactly(s: string)
    ensures ScanAll(START, s).inQuotes <==> Quotes(s) % 2 == 1
  {
    if s != "" {
      var front, c := s[..|s| - 1], s[|s| - 1];
      InQuotesExactly(front);
      assert s == front + [c];
      ScanAppend(START, front, [c]);
      ScanOne(ScanAll(START, front), c);
    }
  }

  /**
   Spacing means nothing: braces, tabs and newlines anywhere, and outside quotes every
   character but ':', ',' and '"', can be put in or left out of any text.
   */
  lemma SpacingIgnored(before: string, c: char, after: string)
    requires Dropped(c) || (Quotes(before) % 2 == 0 && c != ':' && c != ',' && c != '"')
    ensures Parse(before + [c] + after) == Parse(before + after)
  {
    InQuotesExactly(before);
    ScanAppend(START, before, [c]);
    ScanOne(ScanAll(START, before), c);
    ScanAppend(START, before + [c], after);
    ScanAppend(START, before, after);
  }

  predicate PlainName(s: string) { forall i :: 0 <= i < |s| ==> !Dropped(s[i]) && s[i] != ':' && s[i] != ',' }

  predicate PlainValue(s: string) { forall i :: 0 <= i < |s| ==> !Dropped(s[i]) }

  lemma {:induction false} CleanNameExactly(s: string)
    ensures CleanName(s) == s <==> PlainName(s)
    ensures |CleanName(s)| <= |s|
  {
    if s != "" {
      CleanNameExactly(s[1..]);
      assert PlainName(s) <==> !Dropped(s[0]) && s[0] != ':' && s[0] != ',' && PlainName(s[1..]);
      assert s == [s[0]] + s[1..];
    }
  }

  lemma {:induction false} CleanValueExactly(s: string)
    ensures CleanValue(s) == s <==> PlainValue(s)
    ensures |CleanValue(s)| <= |s|
  {
    if s != "" {
      CleanValueExactly(s[1..]);
      assert PlainValue(s) <==> !Dropped(s[0]) && PlainValue(s[1..]);
      assert s == [s[0]] + s[1..];
    }
  }

  /** The scanner inverts the printer on plain strings, though values may contain ':' and ','. */
  lemma PlainObjectsRoundTrip(ms: seq<Member>)
    requires QuotesFree(ms)
    requires forall i :: 0 <= i < |ms| ==> PlainName(ms[i].name) && PlainValue(ms[i].value)
    requires ms != [] ==> ms[|ms| - 1].name != "" && ms[|ms| - 1].value != ""
    ensures Parse(Print(ms)) == AsMap(ms)
  {
    ParsePrinted(ms);
    forall i | 0 <= i < |ms| ensures Clean(ms)[i] == ms[i] {
      CleanNameExactly(ms[i].name);
      CleanValueExactly(ms[i].value);
    }
    assert Clean(ms) == ms;
  }

  /** For one member the round trip holds exactly when both strings are plain and not empty. */
  lemma OneMemberExactly(m: Member)
    requires QuoteFree(m.name) && QuoteFree(m.value)
    ensures Parse(Print([m])) == AsMap([m]) <==> PlainName(m.name) && PlainValue(m.value) && m.name != "" && m.value != ""
  {
    ParsePrinted([m]);
    CleanNameExactly(m.name);
    CleanValueExactly(m.value);
    var r := Clean([m]);
    assert r == [Member(CleanName(m.name), CleanValue(m.value))] && r[..0] == [] && [m][..0] == [];
    assert AsMap([m]) == map[m.name := m.value];
    assert AsMap(r) == map[r[0].name := r[0].value];
    assert m.name in AsMap([m]);
    if Parse(Print([m])) == AsMap([m]) {
      assert m.name in Parse(Print([m]));
      assert r[0].name == m.name && r[0].value == m.value;
    }
  }
}
