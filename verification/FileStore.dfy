/**
 Files in the key-value store (src/frontend_servers/req_handling.cc:535-590, 819-872): a
 user's `storage` cell lists "path:key+key+..." entries, and each key names a chunk in the
 row "user:path".  One client at a time; `Lookup` answering None is KVNotFound.
 */
module FileStore {
  import opened Basics
  import opened Lists
  import opened Tablets
  import Records

  const SEGMENT := 2000000
  const UNTITLED := "untitled"

  function ListCell(user: string): Cell { Cell(user, "storage") }

  function ChunkRow(user: string, path: string): string { user + ":" + path }

  function ListOf(st: Contents, user: string): string {
    if ListCell(user) in st then st[ListCell(user)] else ""
  }

  /**
   A compare-and-put as the store decides it.  One that is refused leaves the contents
   alone, and so does one that takes the storage node down.
   */
  function CPutCell(checkedAt: bool, st: Contents, c: Cell, v1: string, v2: string): Contents {
    if CellVerdict(Lookup(st, c), v1, checkedAt) == Commit then st[c := v2] else st
  }

  function ColonAt(entry: string): int { IndexOf(entry, ':', 0) }

  /** An entry for a file; entries without a colon are folders. */
  predicate IsFile(entry: string) { ColonAt(entry) != -1 }

  function PathOf(entry: string): string
    requires IsFile(entry)
  {
    entry[..ColonAt(entry)]
  }

  function KeysOf(entry: string): seq<string>
    requires IsFile(entry)
  {
    Split(entry[ColonAt(entry) + 1..], '+')
  }

  // -------------------------------------------------------------- download

  /** The chunks read so far, and whether every one was found; the first missing one ends the download. */
  datatype Fetched = Fetched(text: string, ok: bool)

  function FetchKeys(st: Contents, row: string, keys: seq<string>): Fetched {
    if keys == [] then Fetched("", true)
    else
      var f, c := FetchKeys(st, row, keys[..|keys| - 1]), Cell(row, keys[|keys| - 1]);
      if !f.ok then f else if c in st then Fetched(f.text + st[c], true) else Fetched(f.text, false)
  }

  /** What is fetched once an entry that is for the file, if it is, has been fetched after `before`. */
  function AfterEntry(st: Contents, user: string, path: string, before: string, entry: string): Fetched {
    if !IsFile(entry) || PathOf(entry) != path then Fetched(before, true)
    else
      var g := FetchKeys(st, ChunkRow(user, path), KeysOf(entry));
      Fetched(before + g.text, g.ok)
  }

  function FetchEntries(st: Contents, user: string, path: string, entries: seq<string>): Fetched {
    if entries == [] then Fetched("", true)
    else
      var f := FetchEntries(st, user, path, entries[..|entries| - 1]);
      if f.ok then AfterEntry(st, user, path, f.text, entries[|entries| - 1]) else f
  }

  function Download(st: Contents, user: string, path: string): string {
    FetchEntries(st, user, path, Split(ListOf(st, user), ',')).text
  }

  // ---------------------------------------------------------------- upload

  function KeyAt(k: nat): string { "k" + Records.Decimal(k * SEGMENT) }

  function Keys(n: nat): (keys: seq<string>)
    ensures |keys| == n
  {
    if n == 0 then [] else Keys(n - 1) + [KeyAt(n - 1)]
  }

  /** How many segments a body has. */
  function Segments(size: nat): nat { (size + SEGMENT - 1) / SEGMENT }

  function Upto(body: string, k: nat): nat { if k * SEGMENT < |body| then k * SEGMENT else |body| }

  function Segment(body: string, k: nat): string { body[Upto(body, k)..Upto(body, k + 1)] }

  /** The store with the first k segments of the body put, each under its key. */
  function PutSegments(st: Contents, row: string, keys: seq<string>, body: string, k: nat): Contents
    requires k <= |keys|
  {
    if k == 0 then st else PutSegments(st, row, keys, body, k - 1)[Cell(row, keys[k - 1]) := Segment(body, k - 1)]
  }

  function UntitledEntry(size: nat): string { UNTITLED + ":" + Join(Keys(Segments(size)), '+') }

  function Listed(list: string, entry: string): string { if list == "" then entry else list + "," + entry }

  /** The store after an upload; the existing-file check looks for the bare name only. */
  function Upload(checkedAt: bool, st: Contents, user: string, body: string): Contents {
    var list := ListOf(st, user);
    if UNTITLED in Split(list, ',') then st
    else CPutCell(checkedAt, PutSegments(st, ChunkRow(user, UNTITLED), Keys(Segments(|body|)), body, Segments(|body|)),
                  ListCell(user), list, Listed(list, UntitledEntry(|body|)))
  }

  /** One user's requests; `up` says whether the storage node still runs. */
  class Storage {
    const user: string
    const checkedAt: bool
    var store: Contents
    var up: bool

    constructor (user: string, checkedAt: bool, store: Contents)
      ensures this.user == user && this.checkedAt == checkedAt && this.store == store && up
    {
      this.user, this.checkedAt := user, checkedAt;
      this.store, up := store, true;
    }

    /** `cput`. */
    method CompareAndPut(c: Cell, v1: string, v2: string)
      requires up
      modifies `store, `up
      ensures store == CPutCell(checkedAt, old(store), c, v1, v2)
      ensures up <==> CellVerdict(Lookup(old(store), c), v1, checkedAt) != Abort
    {
      match CellVerdict(Lookup(store, c), v1, checkedAt) {
        case Commit => store := store[c := v2];
        case Refuse(_) =>
        case Abort => up := false;
      }
    }

    method DownloadFrom(entries: seq<string>, path: string) returns (content: string)
      ensures content == FetchEntries(store, user, path, entries).text
    {
      content := "";
      var i := 0;
      while i < |entries|
        invariant 0 <= i <= |entries|
        invariant FetchEntries(store, user, path, entries[..i]) == Fetched(content, true)
      {
        FetchEntriesNext(store, user, path, entries, i);
        var found;
        content, found := DownloadEntry(content, entries[i], path);
        if !found {
          FetchStops(store, user, path, entries, i + 1);
          return;
        }
        i := i + 1;
      }
      assert entries[..i] == entries;
    }

    /** One entry of the list: its chunks if it is for the file. */
    method DownloadEntry(before: string, entry: string, path: string) returns (content: string, found: bool)
      ensures Fetched(content, found) == AfterEntry(store, user, path, before, entry)
    {
      content, found := before, true;
      if IsFile(entry) && PathOf(entry) == path {
        var keys := SplitLoop(entry[ColonAt(entry) + 1..], '+');
        content, found := FetchAll(content, ChunkRow(user, path), keys);
      }
    }

    method DownloadFile(path: string) returns (content: string)
      ensures content == Download(store, user, path)
    {
      var list := if ListCell(user) in store then store[ListCell(user)] else "";
      var entries := SplitLoop(list, ',');
      content := DownloadFrom(entries, path);
    }

    method FetchAll(before: string, row: string, keys: seq<string>) returns (content: string, found: bool)
      ensures content == before + FetchKeys(store, row, keys).text && found == FetchKeys(store, row, keys).ok
    {
      content := before;
      var i := 0;
      while i < |keys|
        invariant 0 <= i <= |keys|
        invariant FetchKeys(store, row, keys[..i]).ok && content == before + FetchKeys(store, row, keys[..i]).text
      {
        assert keys[..i + 1][..i] == keys[..i];
        if Cell(row, keys[i]) !in store {
          FetchKeysStops(store, row, keys, i + 1);
          return content, false;
        }
        Assoc(before, FetchKeys(store, row, keys[..i]).text, store[Cell(row, keys[i])]);
        content := content + store[Cell(row, keys[i])];
        i := i + 1;
      }
      assert keys[..i] == keys;
      found := true;
    }

    /** One turn of the segment loop. */
    method PutSegment(body: string, offset: nat, entry: string, ghost k: nat) returns (entry': string)
      requires offset == k * SEGMENT < |body| && entry == Spelled(k)
      modifies `store
      ensures store == old(store)[Cell(ChunkRow(user, UNTITLED), KeyAt(k)) := Segment(body, k)]
      ensures entry' == Spelled(k + 1) && k < Segments(|body|)
    {
      var key := "k" + Records.Decimal(offset);
      var length := if offset + SEGMENT < |body| then SEGMENT else |body| - offset;
      SegmentSlice(body, k);
      store := store[Cell(ChunkRow(user, UNTITLED), key) := body[offset..offset + length]];
      KeyAppended(k);
      entry' := entry + (key + "+");
    }

    /** The segment loop: puts every segment and spells the entry. */
    method PutBody(body: string) returns (entry: string)
      requires |body| <= INT_MAX - SEGMENT
      modifies `store
      ensures store == PutSegments(old(store), ChunkRow(user, UNTITLED), Keys(Segments(|body|)), body, Segments(|body|))
      ensures entry == UntitledEntry(|body|)
    {
      entry := UNTITLED + ":";
      var offset := 0;
      ghost var k, keys := 0, Keys(Segments(|body|));
      while offset < |body|
        invariant offset == k * SEGMENT && k <= Segments(|body|)
        invariant store == PutSegments(old(store), ChunkRow(user, UNTITLED), keys, body, k)
        invariant entry == Spelled(k)
        decreases |body| - offset
      {
        entry := PutSegment(body, offset, entry, k);
        KeyIs(Segments(|body|), k);
        offset := offset + SEGMENT;
        k := k + 1;
      }
      SegmentsDone(|body|, k);
      DropPlus(k);
      if entry[|entry| - 1] == '+' {
        entry := entry[..|entry| - 1];
      }
    }

    method UploadFile(body: string) returns (done: bool)
      requires up && |body| <= INT_MAX - SEGMENT
      modifies `store, `up
      ensures store == Upload(checkedAt, old(store), user, body)
      ensures done <==> UNTITLED !in Split(ListOf(old(store), user), ',')
      ensures !done ==> store == old(store)
      ensures up <==> !done || checkedAt || ListCell(user) in old(store)
    {
      var list := if ListCell(user) in store then store[ListCell(user)] else "";
      var files := SplitLoop(list, ',');
      done := UNTITLED !in files;
      if done {
        var entry := PutBody(body);
        ListCellApart(old(store), user, Keys(Segments(|body|)), body);
        CompareAndPut(ListCell(user), list, if list == "" then entry else list + "," + entry);
      }
    }
  }

  // ------------------------------------------------------------ loop helpers

  lemma FetchEntriesNext(st: Contents, user: string, path: string, entries: seq<string>, i: nat)
    requires i < |entries| && FetchEntries(st, user, path, entries[..i]).ok
    ensures FetchEntries(st, user, path, entries[..i + 1])
         == AfterEntry(st, user, path, FetchEntries(st, user, path, entries[..i]).text, entries[i])
  {
    assert entries[..i + 1][..i] == entries[..i];
  }

  /** The segment that starts at the k-th offset, as the loop cuts it. */
  lemma SegmentSlice(body: string, k: nat)
    requires k * SEGMENT < |body|
    ensures
      var offset := k * SEGMENT;
      var length := if offset + SEGMENT < |body| then SEGMENT else |body| - offset;
      k < Segments(|body|) && Segment(body, k) == body[offset..offset + length]
  {
  }

  lemma SegmentsDone(size: nat, k: nat)
    requires size <= k * SEGMENT && k <= Segments(size)
    ensures k == Segments(size)
  {
  }

  lemma {:induction false} FetchKeysStops(st: Contents, row: string, keys: seq<string>, n: nat)
    requires n <= |keys| && !FetchKeys(st, row, keys[..n]).ok
    ensures FetchKeys(st, row, keys) == FetchKeys(st, row, keys[..n])
    decreases |keys|
  {
    if n == |keys| {
      assert keys[..n] == keys;
    } else {
      assert keys[..|keys| - 1][..n] == keys[..n];
      FetchKeysStops(st, row, keys[..|keys| - 1], n);
    }
  }

  lemma {:induction false} FetchStops(st: Contents, user: string, path: string, entries: seq<string>, n: nat)
    requires n <= |entries| && !FetchEntries(st, user, path, entries[..n]).ok
    ensures FetchEntries(st, user, path, entries) == FetchEntries(st, user, path, entries[..n])
    decreases |entries|
  {
    if n == |entries| {
      assert entries[..n] == entries;
    } else {
      assert entries[..|entries| - 1][..n] == entries[..n];
      FetchStops(st, user, path, entries[..|entries| - 1], n);
    }
  }

  /** The entry as the segment loop leaves it, with the '+' after each key. */
  function Spelled(k: nat): string {
    if k == 0 then UNTITLED + ":" else UNTITLED + ":" + (Join(Keys(k), '+') + "+")
  }

  lemma {:induction false} KeyIs(n: nat, i: nat)
    requires i < n
    ensures Keys(n)[i] == KeyAt(i)
  {
    if i < n - 1 {
      KeyIs(n - 1, i);
    }
  }

  lemma KeyAppended(k: nat)
    ensures Spelled(k) + (KeyAt(k) + "+") == Spelled(k + 1)
  {
    if k > 0 {
      JoinSnoc(Keys(k), KeyAt(k), '+');
      assert Join(Keys(k), '+') + "+" + (KeyAt(k) + "+") == Join(Keys(k + 1), '+') + "+";
      Assoc(UNTITLED + ":", Join(Keys(k), '+') + "+", KeyAt(k) + "+");
    } else {
      assert Keys(1) == [KeyAt(0)];
    }
  }

  lemma DropPlus(k: nat)
    ensures
      var e := Spelled(k);
      (if e[|e| - 1] == '+' then e[..|e| - 1] else e) == UNTITLED + ":" + Join(Keys(k), '+')
  {
    if k > 0 {
      assert Spelled(k) == UNTITLED + ":" + Join(Keys(k), '+') + "+";
    }
  }

  // --------------------------------------------------------------- proofs

  lemma {:induction false} PutSegmentsFrame(st: Contents, row: string, keys: seq<string>, body: string, k: nat, c: Cell)
    requires k <= |keys| && (c.row != row || c.col !in keys)
    ensures Lookup(PutSegments(st, row, keys, body, k), c) == Lookup(st, c)
  {
    if k > 0 {
      PutSegmentsFrame(st, row, keys, body, k - 1, c);
    }
  }

  lemma RowsApart(user: string, p: string, q: string)
    ensures ChunkRow(user, p) != user
    ensures p != q ==> ChunkRow(user, p) != ChunkRow(user, q)
  {
    assert |ChunkRow(user, p)| > |user|;
    if ChunkRow(user, p) == ChunkRow(user, q) {
      assert p == ChunkRow(user, p)[|user| + 1..] == q;
    }
  }

  lemma ListCellApart(st: Contents, user: string, keys: seq<string>, body: string)
    ensures Lookup(PutSegments(st, ChunkRow(user, UNTITLED), keys, body, |keys|), ListCell(user)) == Lookup(st, ListCell(user))
  {
    RowsApart(user, UNTITLED, UNTITLED);
    PutSegmentsFrame(st, ChunkRow(user, UNTITLED), keys, body, |keys|, ListCell(user));
  }

  lemma KeyAtDistinct(i: nat, j: nat)
    ensures KeyAt(i) == KeyAt(j) ==> i == j
  {
    Records.DecimalReadsBack(i * SEGMENT);
    Records.DecimalReadsBack(j * SEGMENT);
    assert KeyAt(i)[1..] == Records.Decimal(i * SEGMENT);
    assert KeyAt(j)[1..] == Records.Decimal(j * SEGMENT);
  }

  lemma KeysDistinct(n: nat)
    ensures Distinct(Keys(n))
  {
    forall i, j | 0 <= i < j < n
      ensures Keys(n)[i] != Keys(n)[j]
    {
      KeyIs(n, i);
      KeyIs(n, j);
      KeyAtDistinct(i, j);
    }
  }

  lemma {:induction false} SegmentStored(st: Contents, row: string, keys: seq<string>, body: string, k: nat, i: nat)
    requires i < k <= |keys| && Distinct(keys)
    ensures Lookup(PutSegments(st, row, keys, body, k), Cell(row, keys[i])) == Some(Segment(body, i))
  {
    if i < k - 1 {
      SegmentStored(st, row, keys, body, k - 1, i);
    }
  }

  /** Each key's chunk is the body's segment. */
  ghost predicate Holds(st: Contents, row: string, keys: seq<string>, body: string) {
    forall i :: 0 <= i < |keys| ==> Lookup(st, Cell(row, keys[i])) == Some(Segment(body, i))
  }

  /** Reading back what was put. */
  lemma {:induction false} FetchSegments(st: Contents, row: string, keys: seq<string>, body: string, k: nat)
    requires k <= |keys| && Holds(st, row, keys, body)
    ensures FetchKeys(st, row, keys[..k]) == Fetched(body[..Upto(body, k)], true)
  {
    if k > 0 {
      FetchSegments(st, row, keys, body, k - 1);
      assert keys[..k][..k - 1] == keys[..k - 1];
      assert Lookup(st, Cell(row, keys[k - 1])) == Some(Segment(body, k - 1));
      assert body[..Upto(body, k - 1)] + Segment(body, k - 1) == body[..Upto(body, k)];
    }
  }

  lemma KeyPlain(k: nat)
    ensures KeyAt(k) != "" && '+' !in KeyAt(k) && ',' !in KeyAt(k)
  {
    Records.DecimalReadsBack(k * SEGMENT);
  }

  lemma JoinPlain(n: nat)
    ensures ',' !in Join(Keys(n), '+')
    ensures n > 0 ==> Split(Join(Keys(n), '+'), '+') == Keys(n)
    ensures "" !in Keys(n)
  {
    forall i | 0 <= i < n ensures '+' !in Keys(n)[i] && ',' !in Keys(n)[i] && Keys(n)[i] != "" {
      KeyIs(n, i);
      KeyPlain(i);
    }
    JoinCharacters(Keys(n), '+', ',');
    if n > 0 {
      SplitJoin(Keys(n), '+');
    }
  }

  lemma {:induction false} JoinCharacters(parts: seq<string>, d: char, c: char)
    requires c != d && Free(parts, c)
    ensures c !in Join(parts, d)
  {
    if |parts| > 1 {
      JoinCharacters(parts[1..], d, c);
    }
  }

  /** The entry of an upload, taken apart. */
  lemma EntryParts(size: nat)
    ensures
      var e := UntitledEntry(size);
      && IsFile(e) && PathOf(e) == UNTITLED && ',' !in e && e != ""
      && KeysOf(e) == if size == 0 then [""] else Keys(Segments(size))
  {
    var e, j := UntitledEntry(size), Join(Keys(Segments(size)), '+');
    JoinPlain(Segments(size));
    PathThenColon(UNTITLED, j);
    if size == 0 {
      SplitNone("", '+');
    }
  }

  lemma PathThenColon(path: string, rest: string)
    requires ':' !in path
    ensures var e := path + ":" + rest; IsFile(e) && PathOf(e) == path && e[ColonAt(e) + 1..] == rest
  {
    var e := path + ":" + rest;
    assert e[|path|] == ':';
    assert forall k :: 0 <= k < |path| ==> e[k] == path[k];
  }

  /** No entry names the path. */
  ghost predicate Unlisted(entries: seq<string>, path: string) {
    forall i :: 0 <= i < |entries| ==> !(IsFile(entries[i]) && PathOf(entries[i]) == path)
  }

  lemma {:induction false} FetchUnlisted(st: Contents, user: string, path: string, entries: seq<string>)
    requires Unlisted(entries, path)
    ensures FetchEntries(st, user, path, entries) == Fetched("", true)
  {
    if entries != [] {
      FetchUnlisted(st, user, path, entries[..|entries| - 1]);
    }
  }

  /** Adding an entry to the list adds it to the entries, but for the empty piece of an empty list. */
  lemma FetchListed(st: Contents, user: string, path: string, list: string, entry: string)
    requires ',' !in entry && entry != ""
    ensures
      var f := FetchEntries(st, user, path, Split(list, ','));
      FetchEntries(st, user, path, Split(Listed(list, entry), ',')) ==
        if !f.ok || !IsFile(entry) || PathOf(entry) != path then f
        else
          var g := FetchKeys(st, ChunkRow(user, path), KeysOf(entry));
          Fetched(f.text + g.text, g.ok)
  {
    SplitNone(entry, ',');
    if list == "" {
      assert Split(list, ',') == [""] && [""][..0] == [] && [entry][..0] == [];
    } else {
      SplitAt(list, entry, ',');
      assert list + [','] + entry == list + "," + entry;
      var es := Split(list, ',');
      assert (es + [entry])[..|es|] == es;
    }
  }

  lemma {:induction false} FetchKeysFrame(st: Contents, st': Contents, row: string, keys: seq<string>)
    requires forall c: Cell :: c.row == row ==> Lookup(st', c) == Lookup(st, c)
    ensures FetchKeys(st', row, keys) == FetchKeys(st, row, keys)
  {
    if keys != [] {
      FetchKeysFrame(st, st', row, keys[..|keys| - 1]);
      assert Lookup(st', Cell(row, keys[|keys| - 1])) == Lookup(st, Cell(row, keys[|keys| - 1]));
    }
  }

  lemma {:induction false} FetchFrame(st: Contents, st': Contents, user: string, path: string, entries: seq<string>)
    requires forall c: Cell :: c.row == ChunkRow(user, path) ==> Lookup(st', c) == Lookup(st, c)
    ensures FetchEntries(st', user, path, entries) == FetchEntries(st, user, path, entries)
  {
    if entries != [] {
      FetchFrame(st, st', user, path, entries[..|entries| - 1]);
      var e := entries[|entries| - 1];
      if IsFile(e) {
        FetchKeysFrame(st, st', ChunkRow(user, path), KeysOf(e));
      }
    }
  }

  /** The cells an upload writes. */
  lemma UploadCells(checkedAt: bool, st: Contents, user: string, body: string)
    requires UNTITLED !in Split(ListOf(st, user), ',')
    ensures
      var st', keys := Upload(checkedAt, st, user, body), Keys(Segments(|body|));
      && Holds(st', ChunkRow(user, UNTITLED), keys, body)
      && Lookup(st', ListCell(user)) == (if checkedAt || ListCell(user) in st then Some(Listed(ListOf(st, user), UntitledEntry(|body|))) else None)
      && (forall c: Cell :: (c.row != ChunkRow(user, UNTITLED) || c.col !in keys) && c != ListCell(user) ==> Lookup(st', c) == Lookup(st, c))
  {
    var row, keys := ChunkRow(user, UNTITLED), Keys(Segments(|body|));
    var st' := Upload(checkedAt, st, user, body);
    RowsApart(user, UNTITLED, UNTITLED);
    ListCellApart(st, user, keys, body);
    KeysDistinct(|keys|);
    forall i | 0 <= i < |keys|
      ensures Lookup(st', Cell(row, keys[i])) == Some(Segment(body, i))
    {
      SegmentStored(st, row, keys, body, |keys|, i);
    }
    forall c: Cell | (c.row != row || c.col !in keys) && c != ListCell(user)
      ensures Lookup(st', c) == Lookup(st, c)
    {
      PutSegmentsFrame(st, row, keys, body, |keys|, c);
    }
  }

  lemma FetchUploaded(st: Contents, row: string, body: string)
    requires body != "" && Holds(st, row, Keys(Segments(|body|)), body)
    ensures FetchKeys(st, row, Keys(Segments(|body|))) == Fetched(body, true)
  {
    var keys := Keys(Segments(|body|));
    FetchSegments(st, row, keys, body, |keys|);
    assert keys[..|keys|] == keys && body[..Upto(body, |keys|)] == body;
  }

  lemma FetchEmptyKey(st: Contents, row: string)
    requires Cell(row, "") !in st
    ensures FetchKeys(st, row, [""]) == Fetched("", false)
  {
    assert [""][..0] == [];
  }

  /**
   Upload then download.  For every body the segment loop can count, with no entry for the
   path before: the body comes back exactly when the compare-and-put is the repaired one,
   or the user's list cell exists (nothing but the list makes a file reachable), or the
   body is empty.  So with the repair it is the identity, on a user's first upload too.
   */
  lemma UploadDownloadExactly(checkedAt: bool, st: Contents, user: string, body: string)
    requires |body| <= INT_MAX - SEGMENT
    requires UNTITLED !in Split(ListOf(st, user), ',') && Unlisted(Split(ListOf(st, user), ','), UNTITLED)
    requires Cell(ChunkRow(user, UNTITLED), "") !in st
    ensures Download(Upload(checkedAt, st, user, body), user, UNTITLED) == body <==> checkedAt || ListCell(user) in st || body == ""
  {
    var st', row, list := Upload(checkedAt, st, user, body), ChunkRow(user, UNTITLED), ListOf(st, user);
    UploadCells(checkedAt, st, user, body);
    FetchUnlisted(st', user, UNTITLED, Split(list, ','));
    if checkedAt || ListCell(user) in st {
      assert ListOf(st', user) == Listed(list, UntitledEntry(|body|));
      EntryParts(|body|);
      FetchListed(st', user, UNTITLED, list, UntitledEntry(|body|));
      if body == "" {
        EmptyKeyStays(checkedAt, st, user, body);
        FetchEmptyKey(st', row);
      } else {
        FetchUploaded(st', row, body);
      }
    } else {
      assert ListOf(st', user) == "" == list;
    }
  }

  /**
   What an upload leaves in the store: at every multiple of 2000000 within the body, under
   the key that spells that offset, the body from there on, up to the next one.
   */
  lemma UploadStores(checkedAt: bool, st: Contents, user: string, body: string, offset: nat)
    requires UNTITLED !in Split(ListOf(st, user), ',')
    requires offset % 2000000 == 0 && offset < |body|
    ensures
      var end := if offset + 2000000 < |body| then offset + 2000000 else |body|;
      Lookup(Upload(checkedAt, st, user, body), Cell(user + ":untitled", "k" + Records.Decimal(offset))) == Some(body[offset..end])
  {
    var i, keys := offset / SEGMENT, Keys(Segments(|body|));
    UploadCells(checkedAt, st, user, body);
    OffsetSegment(|body|, i);
    KeyIs(|keys|, i);
    RowIs(user);
    assert Lookup(Upload(checkedAt, st, user, body), Cell(ChunkRow(user, UNTITLED), keys[i])) == Some(Segment(body, i));
  }

  /** And in the user's `storage` cell, if it can be written, the old list and the new entry. */
  lemma UploadLists(checkedAt: bool, st: Contents, user: string, body: string)
    requires UNTITLED !in Split(ListOf(st, user), ',') && (checkedAt || Cell(user, "storage") in st)
    ensures
      var entry := "untitled:" + Join(Keys(Segments(|body|)), '+');
      Lookup(Upload(checkedAt, st, user, body), Cell(user, "storage"))
        == Some(if ListOf(st, user) == "" then entry else ListOf(st, user) + "," + entry)
  {
    UploadCells(checkedAt, st, user, body);
    EntryIs(|body|);
  }

  lemma OffsetSegment(size: nat, i: nat)
    requires i * SEGMENT < size
    ensures i < Segments(size)
  {
  }

  lemma EntryIs(size: nat)
    ensures UntitledEntry(size) == "untitled:" + Join(Keys(Segments(size)), '+')
  {
    assert "untitled" + ":" == "untitled:";
  }

  lemma RowIs(user: string)
    ensures ChunkRow(user, UNTITLED) == user + ":untitled"
  {
    assert ":" + "untitled" == ":untitled";
    Assoc(user, ":", "untitled");
  }

  /** The strings one after the other. */
  function Concatenated(parts: seq<string>): string {
    if parts == [] then "" else parts[0] + Concatenated(parts[1..])
  }

  lemma {:induction false} ConcatenatedSnoc(parts: seq<string>, last: string)
    ensures Concatenated(parts + [last]) == Concatenated(parts) + last
  {
    if parts == [] {
      assert Concatenated([last]) == last + "" == last;
      assert [] + [last] == [last];
    } else {
      ConcatenatedSnoc(parts[1..], last);
      assert (parts + [last])[1..] == parts[1..] + [last];
      Assoc(parts[0], Concatenated(parts[1..]), last);
    }
  }

  ghost predicate AllThere(st: Contents, row: string, keys: seq<string>) {
    forall i :: 0 <= i < |keys| ==> Cell(row, keys[i]) in st
  }

  function ChunksOf(st: Contents, row: string, keys: seq<string>): (r: seq<string>)
    requires forall i :: 0 <= i < |keys| ==> Cell(row, keys[i]) in st
    ensures |r| == |keys| && forall i :: 0 <= i < |keys| ==> r[i] == st[Cell(row, keys[i])]
  {
    seq(|keys|, i requires 0 <= i < |keys| => st[Cell(row, keys[i])])
  }

  /**
   What the chunk loop of a download gives: the chunks one after the other, up to the first
   that is missing; what was read before it is kept.
   */
  lemma {:induction false} FetchExactly(st: Contents, row: string, keys: seq<string>, n: nat)
    requires n <= |keys| && AllThere(st, row, keys[..n])
    requires n < |keys| ==> Cell(row, keys[n]) !in st
    ensures FetchKeys(st, row, keys) == Fetched(Concatenated(ChunksOf(st, row, keys[..n])), n == |keys|)
  {
    var front := keys[..|keys| - if keys == [] then 0 else 1];
    if n < |keys| {
      if n == |keys| - 1 {
        assert front[..n] == keys[..n] && keys[..n] == front;
      } else {
        assert front[..n] == keys[..n] && front[n] == keys[n];
      }
      FetchExactly(st, row, front, n);
    } else if keys != [] {
      assert keys[..n] == keys && front[..n - 1] == front;
      AllThereFront(st, row, keys);
      FetchExactly(st, row, front, n - 1);
      assert ChunksOf(st, row, keys) == ChunksOf(st, row, front) + [st[Cell(row, keys[n - 1])]];
      ConcatenatedSnoc(ChunksOf(st, row, front), st[Cell(row, keys[n - 1])]);
    }
  }

  lemma AllThereFront(st: Contents, row: string, keys: seq<string>)
    requires keys != [] && AllThere(st, row, keys)
    ensures AllThere(st, row, keys[..|keys| - 1])
  {
    assert forall i :: 0 <= i < |keys| - 1 ==> keys[..|keys| - 1][i] == keys[i];
  }

  /** No other file's content changes, nor any cell of another row. */
  lemma UploadFrame(checkedAt: bool, st: Contents, user: string, body: string, path: string)
    requires path != UNTITLED
    ensures Download(Upload(checkedAt, st, user, body), user, path) == Download(st, user, path)
    ensures forall c: Cell :: c.row != ChunkRow(user, UNTITLED) && c != ListCell(user) ==>
              Lookup(Upload(checkedAt, st, user, body), c) == Lookup(st, c)
  {
    var list := ListOf(st, user);
    if UNTITLED !in Split(list, ',') {
      var st' := Upload(checkedAt, st, user, body);
      UploadCells(checkedAt, st, user, body);
      RowsApart(user, path, UNTITLED);
      FetchFrame(st, st', user, path, Split(list, ','));
      EntryParts(|body|);
      FetchListed(st', user, path, list, UntitledEntry(|body|));
      assert ListOf(st', user) == if checkedAt || ListCell(user) in st then Listed(list, UntitledEntry(|body|)) else list;
    }
  }

  lemma {:induction false} FetchPresent(st: Contents, row: string, keys: seq<string>)
    requires keys != [] && forall i :: 0 <= i < |keys| ==> Cell(row, keys[i]) in st
    requires st[Cell(row, keys[0])] != ""
    ensures FetchKeys(st, row, keys).ok && FetchKeys(st, row, keys).text != ""
  {
    if |keys| == 1 {
      assert FetchKeys(st, row, keys[..0]) == Fetched("", true);
    } else {
      FetchPresent(st, row, keys[..|keys| - 1]);
    }
  }

  /** The first segment of a nonempty body is not empty. */
  lemma FirstSegment(body: string)
    requires body != ""
    ensures Segments(|body|) > 0 && Segment(body, 0) != ""
  {
  }

  /** A key beyond those of n segments is not one of them. */
  lemma KeyBeyond(n: nat, i: nat)
    requires n <= i
    ensures KeyAt(i) !in Keys(n)
  {
    forall j | 0 <= j < n ensures Keys(n)[j] != KeyAt(i) {
      KeyIs(n, j);
      KeyAtDistinct(i, j);
    }
  }

  /** A chunk of the first upload after the second: overwritten, or still there. */
  lemma ChunkAfterSecond(st2: Contents, st1: Contents, row: string, n1: nat, n2: nat, i: nat)
    requires i < n1
    requires n2 <= i ==> forall c: Cell :: c.row == row && c.col !in Keys(n2) ==> Lookup(st2, c) == Lookup(st1, c)
    ensures i < n2 ==> Keys(n1)[i] == Keys(n2)[i]
    ensures n2 <= i ==> Lookup(st2, Cell(row, Keys(n1)[i])) == Lookup(st1, Cell(row, Keys(n1)[i]))
  {
    KeyIs(n1, i);
    if i < n2 {
      KeyIs(n2, i);
    } else {
      KeyBeyond(n2, i);
    }
  }

  /** What two uploads leave under the chunk keys of the first. */
  lemma ChunksStay(checkedAt: bool, st: Contents, user: string, b1: string, b2: string)
    requires b1 != "" && UNTITLED !in Split(ListOf(st, user), ',')
    requires UNTITLED !in Split(ListOf(Upload(checkedAt, st, user, b1), user), ',')
    ensures
      var f := FetchKeys(Upload(checkedAt, Upload(checkedAt, st, user, b1), user, b2), ChunkRow(user, UNTITLED), Keys(Segments(|b1|)));
      f.ok && f.text != ""
  {
    var st1, row, keys, keys2 := Upload(checkedAt, st, user, b1), ChunkRow(user, UNTITLED), Keys(Segments(|b1|)), Keys(Segments(|b2|));
    var st2 := Upload(checkedAt, st1, user, b2);
    RowsApart(user, UNTITLED, UNTITLED);
    UploadCells(checkedAt, st, user, b1);
    UploadCells(checkedAt, st1, user, b2);
    FirstSegment(b1);
    if b2 != "" {
      FirstSegment(b2);
    }
    forall i | 0 <= i < |keys|
      ensures Cell(row, keys[i]) in st2 && (i == 0 ==> st2[Cell(row, keys[i])] != "")
    {
      ChunkAfterSecond(st2, st1, row, |keys|, |keys2|, i);
      assert Lookup(st1, Cell(row, keys[i])) == Some(Segment(b1, i));
      assert i < |keys2| ==> Lookup(st2, Cell(row, keys2[i])) == Some(Segment(b2, i));
    }
    FetchPresent(st2, row, keys);
  }

  lemma ListedUntitled(list: string, size: nat)
    requires UNTITLED !in Split(list, ',')
    ensures UNTITLED !in Split(Listed(list, UntitledEntry(size)), ',')
  {
    EntryParts(size);
    SplitNone(UntitledEntry(size), ',');
    assert UNTITLED != UntitledEntry(size) by {
      assert UntitledEntry(size)[|UNTITLED|] == ':';
    }
    if list != "" {
      SplitAt(list, UntitledEntry(size), ',');
      assert list + [','] + UntitledEntry(size) == list + "," + UntitledEntry(size);
    }
  }

  /**
   A second upload is not refused, because the check looks for the bare name, and then both
   entries name the same chunks: what is downloaded is the second body only if both bodies
   are empty.  (Where neither upload could be listed it is nothing.)
   */
  lemma SecondUploadExactly(checkedAt: bool, st: Contents, user: string, b1: string, b2: string)
    requires UNTITLED !in Split(ListOf(st, user), ',')
    requires Unlisted(Split(ListOf(st, user), ','), UNTITLED) && Cell(ChunkRow(user, UNTITLED), "") !in st
    ensures Download(Upload(checkedAt, Upload(checkedAt, st, user, b1), user, b2), user, UNTITLED) == b2
       <==> b2 == "" && (checkedAt || ListCell(user) in st ==> b1 == "")
  {
    var st1, row, list := Upload(checkedAt, st, user, b1), ChunkRow(user, UNTITLED), ListOf(st, user);
    UploadCells(checkedAt, st, user, b1);
    if checkedAt || ListCell(user) in st {
      var list1 := Listed(list, UntitledEntry(|b1|));
      assert ListOf(st1, user) == list1;
      ListedUntitled(list, |b1|);
      var st2 := Upload(checkedAt, st1, user, b2);
      UploadCells(checkedAt, st1, user, b2);
      assert ListOf(st2, user) == Listed(list1, UntitledEntry(|b2|));
      TwiceListed(checkedAt, st, st2, user, b1, b2);
    } else {
      assert ListOf(st1, user) == "" == list;
      UploadCells(checkedAt, st1, user, b2);
      FetchUnlisted(Upload(checkedAt, st1, user, b2), user, UNTITLED, Split("", ','));
    }
  }

  /** What is downloaded when both uploads are listed. */
  lemma TwiceListed(checkedAt: bool, st: Contents, st2: Contents, user: string, b1: string, b2: string)
    requires UNTITLED !in Split(ListOf(st, user), ',') && UNTITLED !in Split(ListOf(Upload(checkedAt, st, user, b1), user), ',')
    requires Unlisted(Split(ListOf(st, user), ','), UNTITLED) && Cell(ChunkRow(user, UNTITLED), "") !in st
    requires st2 == Upload(checkedAt, Upload(checkedAt, st, user, b1), user, b2)
    requires ListOf(st2, user) == Listed(Listed(ListOf(st, user), UntitledEntry(|b1|)), UntitledEntry(|b2|))
    ensures Download(st2, user, UNTITLED) == b2 <==> b1 == "" && b2 == ""
  {
    var st1, row, list := Upload(checkedAt, st, user, b1), ChunkRow(user, UNTITLED), ListOf(st, user);
    UploadCells(checkedAt, st1, user, b2);
    FetchUnlisted(st2, user, UNTITLED, Split(list, ','));
    EntryParts(|b1|);
    EntryParts(|b2|);
    FetchListed(st2, user, UNTITLED, list, UntitledEntry(|b1|));
    FetchListed(st2, user, UNTITLED, Listed(list, UntitledEntry(|b1|)), UntitledEntry(|b2|));
    EmptyKeyStays(checkedAt, st, user, b1);
    EmptyKeyStays(checkedAt, st1, user, b2);
    FetchEmptyKey(st2, row);
    if b1 != "" {
      ChunksStay(checkedAt, st, user, b1, b2);
      if b2 != "" {
        FetchUploaded(st2, row, b2);
      }
    }
  }

  lemma EmptyKeyStays(checkedAt: bool, st: Contents, user: string, body: string)
    requires Cell(ChunkRow(user, UNTITLED), "") !in st
    ensures Cell(ChunkRow(user, UNTITLED), "") !in Upload(checkedAt, st, user, body)
  {
    var keys := Keys(Segments(|body|));
    RowsApart(user, UNTITLED, UNTITLED);
    JoinPlain(|keys|);
    PutSegmentsFrame(st, ChunkRow(user, UNTITLED), keys, body, |keys|, Cell(ChunkRow(user, UNTITLED), ""));
  }
}
