/**
 What moving preserves: seen as paths and contents, a move renames and changes nothing
 else (src/frontend_servers/req_handling.cc:657-815).
 */
module FileSystems {
  import opened Basics
  import opened Lists
  import opened Tablets
  import opened FileStore
  import opened FileMoves

  // ---------------------------------------------------------- the file system

  datatype Entry = Folder(path: string) | File(path: string, keys: seq<string>)

  function PrintEntry(e: Entry): string {
    match e
    case Folder(path) => path
    case File(path, keys) => path + ":" + Join(keys, '+')
  }

  function PrintEntries(es: seq<Entry>): (r: seq<string>)
    ensures |r| == |es| && forall i :: 0 <= i < |es| ==> r[i] == PrintEntry(es[i])
  {
    seq(|es|, i requires 0 <= i < |es| => PrintEntry(es[i]))
  }

  predicate Plain(path: string) { ',' !in path && ':' !in path }

  ghost predicate PlainKeys(keys: seq<string>) {
    && (forall i :: 0 <= i < |keys| ==> keys[i] != "" && '+' !in keys[i] && ',' !in keys[i])
    && (forall i, j :: 0 <= i < j < |keys| ==> keys[i] != keys[j])
  }

  ghost predicate PlainEntry(e: Entry) { Plain(e.path) && (e.File? ==> PlainKeys(e.keys)) }

  ghost predicate DistinctPaths(es: seq<Entry>) {
    forall i, j :: 0 <= i < j < |es| ==> es[i].path != es[j].path
  }

  ghost predicate PlainEntries(es: seq<Entry>) {
    DistinctPaths(es) && forall i :: 0 <= i < |es| ==> PlainEntry(es[i])
  }

  ghost predicate ChunksPresent(st: Contents, user: string, e: Entry) {
    e.File? ==> forall k :: k in e.keys ==> Cell(ChunkRow(user, e.path), k) in st
  }

  /** The list cell spells the entries, with distinct paths, and every chunk a file names is there. */
  ghost predicate FileSystem(st: Contents, user: string, es: seq<Entry>) {
    && es != [] && PlainEntries(es)
    && Lookup(st, ListCell(user)) == Some(Join(PrintEntries(es), ','))
    && (forall i :: 0 <= i < |es| ==> ChunksPresent(st, user, es[i]))
    && (forall c: Cell :: c in st ==> c.col != "")
  }

  function ContentOf(st: Contents, user: string, e: Entry): string {
    match e
    case Folder(_) => ""
    case File(path, keys) => FetchKeys(st, ChunkRow(user, path), keys).text
  }

  /** A user downloads each listed file as its content, and nothing else. */
  ghost predicate Serves(st: Contents, user: string, es: seq<Entry>) {
    && (forall i :: 0 <= i < |es| && es[i].File? ==> Download(st, user, es[i].path) == ContentOf(st, user, es[i]))
    && (forall p :: NoFile(es, p) ==> Download(st, user, p) == "")
  }

  // -------------------------------------------------------- printed entries

  lemma KeysPrinted(keys: seq<string>)
    requires PlainKeys(keys)
    ensures ',' !in Join(keys, '+')
    ensures Split(Join(keys, '+'), '+') == if keys == [] then [""] else keys
  {
    JoinCharacters(keys, '+', ',');
    if keys == [] {
      SplitNone("", '+');
    } else {
      SplitJoin(keys, '+');
    }
  }

  lemma FilePrinted(path: string, keys: seq<string>)
    requires Plain(path) && PlainKeys(keys)
    ensures
      var s := PrintEntry(File(path, keys));
      && IsFile(s) && PathOf(s) == path && ',' !in s
      && KeysOf(s) == (if keys == [] then [""] else keys) && LineKeys(s) == keys
  {
    KeysPrinted(keys);
    PathThenColon(path, Join(keys, '+'));
  }

  lemma EntryPrinted(e: Entry)
    requires PlainEntry(e)
    ensures IsFile(PrintEntry(e)) == e.File? && ',' !in PrintEntry(e)
    ensures e.File? ==> PathOf(PrintEntry(e)) == e.path
  {
    if e.File? {
      FilePrinted(e.path, e.keys);
    }
  }

  lemma ListSplits(es: seq<Entry>)
    requires es != [] && PlainEntries(es)
    ensures Split(Join(PrintEntries(es), ','), ',') == PrintEntries(es)
  {
    forall i | 0 <= i < |es| ensures ',' !in PrintEntries(es)[i] {
      EntryPrinted(es[i]);
    }
    SplitJoin(PrintEntries(es), ',');
  }

  // --------------------------------------------------------------- download

  lemma PlainFront(es: seq<Entry>, n: nat)
    requires n <= |es| && PlainEntries(es)
    ensures PlainEntries(es[..n])
  {
    forall i | 0 <= i < n ensures PlainEntry(es[..n][i]) {
      assert es[..n][i] == es[i];
    }
  }

  lemma PrintedFront(es: seq<Entry>, n: nat)
    requires n <= |es|
    ensures PrintEntries(es)[..n] == PrintEntries(es[..n])
  {
  }

  /** No file of the list has the path. */
  ghost predicate NoFile(es: seq<Entry>, p: string) {
    forall i :: 0 <= i < |es| && es[i].File? ==> es[i].path != p
  }

  /** An entry that is not the wanted file adds nothing. */
  lemma FetchSkips(st: Contents, user: string, es: seq<Entry>, p: string)
    requires es != [] && PlainEntry(es[|es| - 1]) && !(es[|es| - 1].File? && es[|es| - 1].path == p)
    ensures FetchEntries(st, user, p, PrintEntries(es)) == FetchEntries(st, user, p, PrintEntries(es[..|es| - 1]))
  {
    PrintedFront(es, |es| - 1);
    EntryPrinted(es[|es| - 1]);
  }

  lemma {:induction false} FetchAbsent(st: Contents, user: string, es: seq<Entry>, p: string)
    requires PlainEntries(es) && NoFile(es, p)
    ensures FetchEntries(st, user, p, PrintEntries(es)) == Fetched("", true)
  {
    if es != [] {
      PlainFront(es, |es| - 1);
      FetchAbsent(st, user, es[..|es| - 1], p);
      FetchSkips(st, user, es, p);
    }
  }

  lemma FetchLastFile(st: Contents, user: string, es: seq<Entry>)
    requires es != [] && PlainEntries(es)
    ensures
      var e := es[|es| - 1];
      e.File? && Cell(ChunkRow(user, e.path), "") !in st ==>
        FetchEntries(st, user, e.path, PrintEntries(es)).text == ContentOf(st, user, e)
  {
    var n, e := |es| - 1, es[|es| - 1];
    if e.File? {
      PlainFront(es, n);
      PrintedFront(es, n);
      assert NoFile(es[..n], e.path);
      FetchAbsent(st, user, es[..n], e.path);
      FilePrinted(e.path, e.keys);
      if Cell(ChunkRow(user, e.path), "") !in st {
        FetchEmptyKey(st, ChunkRow(user, e.path));
      }
    }
  }

  lemma {:induction false} FetchPresentFile(st: Contents, user: string, es: seq<Entry>, i: nat)
    requires PlainEntries(es) && i < |es| && es[i].File?
    requires Cell(ChunkRow(user, es[i].path), "") !in st
    ensures FetchEntries(st, user, es[i].path, PrintEntries(es)).text == ContentOf(st, user, es[i])
  {
    var n := |es| - 1;
    if i == n {
      FetchLastFile(st, user, es);
    } else {
      PlainFront(es, n);
      FetchPresentFile(st, user, es[..n], i);
      assert es[n].path != es[i].path;
      FetchSkips(st, user, es, es[i].path);
    }
  }

  lemma FileSystemServes(st: Contents, user: string, es: seq<Entry>)
    requires FileSystem(st, user, es)
    ensures Serves(st, user, es)
  {
    ListSplits(es);
    forall i | 0 <= i < |es| && es[i].File?
      ensures Download(st, user, es[i].path) == ContentOf(st, user, es[i])
    {
      FetchPresentFile(st, user, es, i);
    }
    forall p | NoFile(es, p)
      ensures Download(st, user, p) == ""
    {
      FetchAbsent(st, user, es, p);
    }
  }

  // -------------------------------------------------------------- relocation

  /** The chunks that leave `e`'s row when its path changes. */
  ghost predicate Touched(user: string, e: Entry, e': Entry, c: Cell) {
    && e'.path != e.path && e.File? && c.col in e.keys
    && (c.row == ChunkRow(user, e.path) || c.row == ChunkRow(user, e'.path))
  }

  /** Entry `e`, become `e'`, has its chunks where they belong, and none under its old row. */
  ghost predicate Settled(st: Contents, st': Contents, user: string, e: Entry, e': Entry) {
    e.File? && e'.path != e.path ==>
      forall k :: k in e.keys ==>
        && Lookup(st', Cell(ChunkRow(user, e'.path), k)) == Lookup(st, Cell(ChunkRow(user, e.path), k))
        && Cell(ChunkRow(user, e.path), k) !in st'
  }

  /** The first n entries have moved, and nothing else has. */
  ghost predicate Relocated(st: Contents, st': Contents, user: string, es: seq<Entry>, es': seq<Entry>, n: nat)
    requires n <= |es| == |es'|
  {
    && (forall i :: 0 <= i < n ==> Settled(st, st', user, es[i], es'[i]))
    && (forall c: Cell :: (forall i :: 0 <= i < n ==> !Touched(user, es[i], es'[i], c)) ==> Lookup(st', c) == Lookup(st, c))
  }

  /** Same entries in the same order under new paths, none of which was anyone's before. */
  ghost predicate Renaming(es: seq<Entry>, es': seq<Entry>) {
    && |es'| == |es| && PlainEntries(es')
    && (forall i :: 0 <= i < |es| ==> es'[i] == es[i].(path := es'[i].path))
    && (forall i, j :: 0 <= i < |es| && 0 <= j < |es| && es'[i].path != es[i].path ==> es'[i].path != es[j].path)
  }

  lemma {:induction false} MoveKeysEffect(st: Contents, from: string, to: string, keys: seq<string>)
    requires from != to && forall i :: 0 <= i < |keys| ==> Cell(from, keys[i]) in st
    requires forall i, j :: 0 <= i < j < |keys| ==> keys[i] != keys[j]
    ensures
      var m := MoveKeys(st, from, to, keys);
      && m.end == Complete
      && (forall k :: k in keys ==> Lookup(m.st, Cell(to, k)) == Lookup(st, Cell(from, k)) && Cell(from, k) !in m.st)
      && (forall c: Cell :: !(c.col in keys && (c.row == from || c.row == to)) ==> Lookup(m.st, c) == Lookup(st, c))
  {
    if keys != [] {
      var front, last := keys[..|keys| - 1], keys[|keys| - 1];
      MoveKeysEffect(st, from, to, front);
      var m := MoveKeys(st, from, to, front);
      assert last !in front;
      assert Lookup(m.st, Cell(from, last)) == Lookup(st, Cell(from, last));
      assert forall k :: k in keys <==> k in front || k == last;
    }
  }

  /**
   A listed chunk that is missing stops a move half way: the chunks listed before it have
   moved, it and the rest have not, and the list still names the old path.
   */
  lemma MissingChunkStops(checkedAt: bool, st: Contents, user: string, path: string, target: string, i: nat, n: nat)
    requires
      var paths := Split(ListOf(st, user), ',');
      && i == FirstFile(paths, path) < |paths| && !Taken(paths, target) && path != target
      && n < |KeysOf(paths[i])| && Cell(ChunkRow(user, path), KeysOf(paths[i])[n]) !in st
      && (forall k :: 0 <= k < n ==> Cell(ChunkRow(user, path), KeysOf(paths[i])[k]) in st)
      && (forall j, k :: 0 <= j < k < n ==> KeysOf(paths[i])[j] != KeysOf(paths[i])[k])
      && KeysOf(paths[i])[n] !in KeysOf(paths[i])[..n]
    ensures
      var st', moved := MoveFile(checkedAt, st, user, path, target), KeysOf(Split(ListOf(st, user), ',')[i])[..n];
      var from, to := ChunkRow(user, path), ChunkRow(user, target);
      && (forall k :: k in moved ==> Lookup(st', Cell(to, k)) == Lookup(st, Cell(from, k)) && Cell(from, k) !in st')
      && (forall c: Cell :: !(c.col in moved && (c.row == from || c.row == to)) ==> Lookup(st', c) == Lookup(st, c))
      && ListOf(st', user) == ListOf(st, user)
  {
    var keys := KeysOf(Split(ListOf(st, user), ',')[i]);
    RowsApart(user, path, target);
    MissingKeyStops(st, ChunkRow(user, path), ChunkRow(user, target), keys, n);
    KeysKeepList(st, user, path, target, keys);
  }

  lemma MissingKeyStops(st: Contents, from: string, to: string, keys: seq<string>, n: nat)
    requires from != to && n < |keys| && Cell(from, keys[n]) !in st && keys[n] !in keys[..n]
    requires forall i :: 0 <= i < n ==> Cell(from, keys[i]) in st
    requires forall i, j :: 0 <= i < j < n ==> keys[i] != keys[j]
    ensures MoveKeys(st, from, to, keys) == Moved(MoveKeys(st, from, to, keys[..n]).st, ChunkMissing)
    ensures
      var m, moved := MoveKeys(st, from, to, keys), keys[..n];
      && (forall k :: k in moved ==> Lookup(m.st, Cell(to, k)) == Lookup(st, Cell(from, k)) && Cell(from, k) !in m.st)
      && (forall c: Cell :: !(c.col in moved && (c.row == from || c.row == to)) ==> Lookup(m.st, c) == Lookup(st, c))
  {
    MoveKeysEffect(st, from, to, keys[..n]);
    var m := MoveKeys(st, from, to, keys[..n]);
    assert Lookup(m.st, Cell(from, keys[n])) == Lookup(st, Cell(from, keys[n]));
    assert keys[..n + 1][..n] == keys[..n];
    MoveKeysStop(st, from, to, keys, n + 1);
  }

  /** A renaming's moved rows are nobody else's, before or after. */
  lemma RowsOfRenaming(user: string, es: seq<Entry>, es': seq<Entry>, i: nat, j: nat)
    requires PlainEntries(es) && Renaming(es, es') && i < |es| && j < |es|
    ensures i != j ==> ChunkRow(user, es[i].path) != ChunkRow(user, es[j].path)
    ensures i != j ==> ChunkRow(user, es'[i].path) != ChunkRow(user, es'[j].path)
    ensures es'[i].path != es[i].path ==> ChunkRow(user, es'[i].path) != ChunkRow(user, es[j].path)
  {
    RowsApart(user, es[i].path, es[j].path);
    RowsApart(user, es'[i].path, es'[j].path);
    RowsApart(user, es'[i].path, es[j].path);
  }

  /** No moved entry touches the chunks of one that stays. */
  lemma StayingUntouched(user: string, es: seq<Entry>, es': seq<Entry>, i: nat, k: string)
    requires PlainEntries(es) && Renaming(es, es') && i < |es| && es'[i].path == es[i].path
    ensures forall j :: 0 <= j < |es| ==> !Touched(user, es[j], es'[j], Cell(ChunkRow(user, es[i].path), k))
  {
    forall j | 0 <= j < |es|
      ensures !Touched(user, es[j], es'[j], Cell(ChunkRow(user, es[i].path), k))
    {
      RowsOfRenaming(user, es, es', j, i);
    }
  }

  /** An entry still to move has not been touched by the ones before it. */
  lemma WaitingUntouched(user: string, es: seq<Entry>, es': seq<Entry>, n: nat, k: string)
    requires PlainEntries(es) && Renaming(es, es') && n < |es|
    ensures forall j :: 0 <= j < n ==> !Touched(user, es[j], es'[j], Cell(ChunkRow(user, es[n].path), k))
  {
    forall j | 0 <= j < n
      ensures !Touched(user, es[j], es'[j], Cell(ChunkRow(user, es[n].path), k))
    {
      RowsOfRenaming(user, es, es', j, n);
    }
  }

  lemma {:induction false} FetchSame(st: Contents, st': Contents, row: string, row': string, keys: seq<string>)
    requires forall k :: k in keys ==> Lookup(st', Cell(row', k)) == Lookup(st, Cell(row, k))
    ensures FetchKeys(st', row', keys) == FetchKeys(st, row, keys)
  {
    if keys != [] {
      FetchSame(st, st', row, row', keys[..|keys| - 1]);
      var k := keys[|keys| - 1];
      assert Lookup(st', Cell(row', k)) == Lookup(st, Cell(row, k));
    }
  }

  /** The list rewritten once everything has moved. */
  function Relisted(st: Contents, user: string, es: seq<Entry>): Contents {
    st[ListCell(user) := Join(PrintEntries(es), ',')]
  }

  lemma ChunksFollow(st: Contents, st': Contents, user: string, es: seq<Entry>, es': seq<Entry>, i: nat)
    requires FileSystem(st, user, es) && Renaming(es, es') && Relocated(st, st', user, es, es', |es|)
    requires i < |es| && es[i].File?
    ensures
      var st2 := Relisted(st', user, es');
      && (forall k :: k in es[i].keys ==> Lookup(st2, Cell(ChunkRow(user, es'[i].path), k)) == Lookup(st, Cell(ChunkRow(user, es[i].path), k)))
      && ChunksPresent(st2, user, es'[i])
      && ContentOf(st2, user, es'[i]) == ContentOf(st, user, es[i])
  {
    var st2, row, row' := Relisted(st', user, es'), ChunkRow(user, es[i].path), ChunkRow(user, es'[i].path);
    RowsApart(user, es'[i].path, es'[i].path);
    assert ChunksPresent(st, user, es[i]) && Settled(st, st', user, es[i], es'[i]);
    forall k | k in es[i].keys
      ensures Lookup(st2, Cell(row', k)) == Lookup(st, Cell(row, k)) && Cell(row', k) in st2
    {
      assert Lookup(st, Cell(row, k)).Some?;
      if es'[i].path == es[i].path {
        StayingUntouched(user, es, es', i, k);
      }
    }
    FetchSame(st, st2, row, row', es[i].keys);
  }

  lemma ColumnsStayNonEmpty(st: Contents, st': Contents, user: string, es: seq<Entry>, es': seq<Entry>, c: Cell)
    requires FileSystem(st, user, es) && Renaming(es, es') && Relocated(st, st', user, es, es', |es|)
    requires c in st'
    ensures c.col != ""
  {
    if j: nat :| j < |es| && Touched(user, es[j], es'[j], c) {
      assert PlainEntry(es[j]);
    } else {
      assert Lookup(st', c) == Lookup(st, c);
    }
  }

  /** What a whole relocation leaves behind. */
  ghost predicate Preserved(st: Contents, st2: Contents, user: string, es: seq<Entry>, es': seq<Entry>)
    requires |es'| == |es|
  {
    && FileSystem(st2, user, es')
    && (forall i :: 0 <= i < |es| ==> ContentOf(st2, user, es'[i]) == ContentOf(st, user, es[i]))
    && (forall i, k :: 0 <= i < |es| && es[i].File? && es'[i].path != es[i].path && k in es[i].keys ==> Cell(ChunkRow(user, es[i].path), k) !in st2)
    && (forall c: Cell :: c != ListCell(user) && (forall i :: 0 <= i < |es| ==> !Touched(user, es[i], es'[i], c)) ==> Lookup(st2, c) == Lookup(st, c))
  }

  lemma RelocationPreserves(st: Contents, st': Contents, user: string, es: seq<Entry>, es': seq<Entry>)
    requires FileSystem(st, user, es) && Renaming(es, es') && Relocated(st, st', user, es, es', |es|)
    ensures Preserved(st, Relisted(st', user, es'), user, es, es')
  {
    var st2 := Relisted(st', user, es');
    forall i | 0 <= i < |es|
      ensures ChunksPresent(st2, user, es'[i]) && ContentOf(st2, user, es'[i]) == ContentOf(st, user, es[i])
    {
      if es[i].File? {
        ChunksFollow(st, st', user, es, es', i);
      }
    }
    forall c: Cell | c in st2
      ensures c.col != ""
    {
      if c != ListCell(user) {
        ColumnsStayNonEmpty(st, st', user, es, es', c);
      }
    }
    forall i, k | 0 <= i < |es| && es[i].File? && es'[i].path != es[i].path && k in es[i].keys
      ensures Cell(ChunkRow(user, es[i].path), k) !in st2
    {
      assert Settled(st, st', user, es[i], es'[i]);
      RowsApart(user, es[i].path, es[i].path);
    }
  }

  // ------------------------------------------------------------- the moves

  lemma StartsPrinted(e: Entry, prefix: string)
    requires ':' !in prefix
    ensures StartsWith(PrintEntry(e), prefix) <==> StartsWith(e.path, prefix)
  {
    if e.File? {
      var s := PrintEntry(e);
      assert s[|e.path|] == ':' && s[..|e.path|] == e.path;
      if |prefix| <= |e.path| {
        assert s[..|prefix|] == e.path[..|prefix|];
      } else {
        assert |prefix| <= |s| ==> s[..|prefix|][|e.path|] == ':';
      }
    }
  }

  function Renamed(e: Entry, path: string, target: string): Entry {
    if StartsWith(e.path, path) then e.(path := Replaced(e.path, |path|, target)) else e
  }

  function RenameAll(es: seq<Entry>, path: string, target: string): (r: seq<Entry>)
    ensures |r| == |es| && forall i :: 0 <= i < |es| ==> r[i] == Renamed(es[i], path, target)
  {
    seq(|es|, i requires 0 <= i < |es| => Renamed(es[i], path, target))
  }

  lemma NewEntryPrinted(e: Entry, path: string, target: string)
    requires ':' !in path
    ensures NewEntry(PrintEntry(e), path, target) == PrintEntry(Renamed(e, path, target))
  {
    StartsPrinted(e, path);
    if StartsWith(e.path, path) && e.File? {
      assert PrintEntry(e)[|path|..] == e.path[|path|..] + ":" + Join(e.keys, '+');
      assert target + (e.path[|path|..] + ":" + Join(e.keys, '+')) == target + e.path[|path|..] + ":" + Join(e.keys, '+');
    }
  }

  /** Nothing is listed under the target. */
  ghost predicate Unused(es: seq<Entry>, target: string) {
    forall i :: 0 <= i < |es| ==> !StartsWith(es[i].path, target)
  }

  lemma RenamedPath(e: Entry, path: string, target: string)
    requires PlainEntry(e) && Plain(target)
    ensures PlainEntry(Renamed(e, path, target))
    ensures StartsWith(e.path, path) ==> StartsWith(Renamed(e, path, target).path, target)
  {
    if StartsWith(e.path, path) {
      assert Replaced(e.path, |path|, target)[..|target|] == target;
    }
  }

  lemma RenamedApart(a: Entry, b: Entry, path: string, target: string)
    requires a.path != b.path && !StartsWith(a.path, target) && !StartsWith(b.path, target)
    ensures Renamed(a, path, target).path != Renamed(b, path, target).path
  {
    if StartsWith(a.path, path) {
      assert Replaced(a.path, |path|, target)[..|target|] == target;
      assert Replaced(a.path, |path|, target)[|target|..] == a.path[|path|..];
      assert a.path == path + a.path[|path|..];
    }
    if StartsWith(b.path, path) {
      assert Replaced(b.path, |path|, target)[..|target|] == target;
      assert Replaced(b.path, |path|, target)[|target|..] == b.path[|path|..];
      assert b.path == path + b.path[|path|..];
    }
  }

  lemma RenameAllIsRenaming(es: seq<Entry>, path: string, target: string)
    requires PlainEntries(es) && Plain(target) && Unused(es, target)
    ensures Renaming(es, RenameAll(es, path, target))
  {
    var es' := RenameAll(es, path, target);
    forall i | 0 <= i < |es|
      ensures PlainEntry(es'[i])
      ensures es'[i].path != es[i].path ==> StartsWith(es'[i].path, target)
    {
      RenamedPath(es[i], path, target);
    }
    forall i, j | 0 <= i < j < |es|
      ensures es'[i].path != es'[j].path
    {
      RenamedApart(es[i], es[j], path, target);
    }
  }

  /** Moving the next entry's chunks. */
  lemma StepRelocates(st: Contents, stn: Contents, user: string, es: seq<Entry>, es': seq<Entry>, n: nat)
    requires FileSystem(st, user, es) && Renaming(es, es') && n < |es|
    requires Relocated(st, stn, user, es, es', n) && es[n].File? && es'[n].path != es[n].path
    ensures
      var m := MoveKeys(stn, ChunkRow(user, es[n].path), ChunkRow(user, es'[n].path), es[n].keys);
      m.end == Complete && Relocated(st, m.st, user, es, es', n + 1)
  {
    var from, to, keys := ChunkRow(user, es[n].path), ChunkRow(user, es'[n].path), es[n].keys;
    assert ChunksPresent(st, user, es[n]) && PlainEntry(es[n]);
    forall k
      ensures Lookup(stn, Cell(from, k)) == Lookup(st, Cell(from, k))
    {
      WaitingUntouched(user, es, es', n, k);
    }
    RowsApart(user, es[n].path, es'[n].path);
    forall i | 0 <= i < |keys| ensures Cell(from, keys[i]) in stn {
      assert keys[i] in keys;
      assert Lookup(stn, Cell(from, keys[i])) == Lookup(st, Cell(from, keys[i]));
    }
    MoveKeysEffect(stn, from, to, keys);
    var m := MoveKeys(stn, from, to, keys);
    forall i | 0 <= i < n + 1
      ensures Settled(st, m.st, user, es[i], es'[i])
    {
      if i < n {
        RowsOfRenaming(user, es, es', i, n);
        RowsOfRenaming(user, es, es', n, i);
        assert Settled(st, stn, user, es[i], es'[i]);
      }
    }
    forall c: Cell | forall i :: 0 <= i < n + 1 ==> !Touched(user, es[i], es'[i], c)
      ensures Lookup(m.st, c) == Lookup(st, c)
    {
      assert !Touched(user, es[n], es'[n], c);
    }
  }

  /** An entry that keeps its path, or is a folder, relocates by itself. */
  lemma StepStays(st: Contents, stn: Contents, user: string, es: seq<Entry>, es': seq<Entry>, n: nat)
    requires |es'| == |es| && n < |es| && Relocated(st, stn, user, es, es', n)
    requires es[n].File? ==> es'[n].path == es[n].path
    ensures Relocated(st, stn, user, es, es', n + 1)
  {
    forall c: Cell | forall i :: 0 <= i < n + 1 ==> !Touched(user, es[i], es'[i], c)
      ensures Lookup(stn, c) == Lookup(st, c)
    {
    }
  }

  lemma MoveEntryIs(st: Contents, user: string, e: Entry, path: string, target: string)
    requires PlainEntry(e) && Plain(path)
    ensures MoveEntry(st, user, PrintEntry(e), path, target) ==
      if e.File? && StartsWith(e.path, path)
      then MoveKeys(st, ChunkRow(user, e.path), ChunkRow(user, Renamed(e, path, target).path), e.keys)
      else Moved(st, Complete)
  {
    StartsPrinted(e, path);
    EntryPrinted(e);
    if e.File? {
      FilePrinted(e.path, e.keys);
      assert StartsWith(e.path, path) ==> |path| <= |PathOf(PrintEntry(e))|;
    }
  }

  lemma NextEntryRelocates(st: Contents, stn: Contents, user: string, es: seq<Entry>, path: string, target: string, n: nat)
    requires FileSystem(st, user, es) && Plain(path) && Plain(target) && Unused(es, target) && n < |es|
    requires Relocated(st, stn, user, es, RenameAll(es, path, target), n)
    ensures
      var m := MoveEntry(stn, user, PrintEntry(es[n]), path, target);
      m.end == Complete && Relocated(st, m.st, user, es, RenameAll(es, path, target), n + 1)
  {
    var e, es' := es[n], RenameAll(es, path, target);
    assert PlainEntry(e);
    MoveEntryIs(stn, user, e, path, target);
    RenamedPath(e, path, target);
    if e.File? && StartsWith(e.path, path) {
      RenameAllIsRenaming(es, path, target);
      StepRelocates(st, stn, user, es, es', n);
    } else {
      StepStays(st, stn, user, es, es', n);
    }
  }

  lemma MoveEntriesNext(st: Contents, user: string, paths: seq<string>, path: string, target: string, n: nat)
    requires n < |paths| && MoveEntries(st, user, paths[..n], path, target).end == Complete
    ensures
      var p := MoveEntries(st, user, paths[..n], path, target);
      var m := MoveEntry(p.st, user, paths[n], path, target);
      MoveEntries(st, user, paths[..n + 1], path, target) == Pass(m.st, p.paths + [NewEntry(paths[n], path, target)], m.end)
  {
    assert paths[..n + 1][..n] == paths[..n];
  }

  lemma RenamedPrinted(es: seq<Entry>, path: string, target: string, n: nat)
    requires n < |es| && ':' !in path
    ensures PrintEntries(RenameAll(es, path, target))[..n + 1]
         == PrintEntries(RenameAll(es, path, target))[..n] + [NewEntry(PrintEntries(es)[n], path, target)]
  {
    NewEntryPrinted(es[n], path, target);
    TakeNext(PrintEntries(RenameAll(es, path, target)), n);
  }

  lemma TakeNext(s: seq<string>, n: nat)
    requires n < |s|
    ensures s[..n + 1] == s[..n] + [s[n]]
  {
  }

  /** The folder loop after n entries. */
  ghost predicate Reached(st: Contents, p: Pass, user: string, es: seq<Entry>, es': seq<Entry>, n: nat)
    requires n <= |es| == |es'|
  {
    p.end == Complete && p.paths == PrintEntries(es')[..n] && Relocated(st, p.st, user, es, es', n)
  }

  lemma ReachesNext(st: Contents, p: Pass, user: string, es: seq<Entry>, path: string, target: string, n: nat)
    requires FileSystem(st, user, es) && Plain(path) && Plain(target) && Unused(es, target) && n < |es|
    requires Reached(st, p, user, es, RenameAll(es, path, target), n)
    ensures
      var m := MoveEntry(p.st, user, PrintEntry(es[n]), path, target);
      Reached(st, Pass(m.st, p.paths + [NewEntry(PrintEntry(es[n]), path, target)], m.end), user, es, RenameAll(es, path, target), n + 1)
  {
    NextEntryRelocates(st, p.st, user, es, path, target, n);
    RenamedPrinted(es, path, target, n);
  }

  lemma {:induction false} MoveEntriesRelocates(st: Contents, user: string, es: seq<Entry>, path: string, target: string, n: nat)
    requires FileSystem(st, user, es) && Plain(path) && Plain(target) && Unused(es, target) && n <= |es|
    ensures Reached(st, MoveEntries(st, user, PrintEntries(es)[..n], path, target), user, es, RenameAll(es, path, target), n)
  {
    var paths := PrintEntries(es);
    if n == 0 {
      assert paths[..0] == [];
    } else {
      MoveEntriesRelocates(st, user, es, path, target, n - 1);
      ReachesNext(st, MoveEntries(st, user, paths[..n - 1], path, target), user, es, path, target, n - 1);
      MoveEntriesNext(st, user, paths, path, target, n - 1);
    }
  }

  lemma ListUntouched(st: Contents, st': Contents, user: string, es: seq<Entry>, es': seq<Entry>, n: nat)
    requires |es'| == |es| && n <= |es| && Relocated(st, st', user, es, es', n)
    ensures Lookup(st', ListCell(user)) == Lookup(st, ListCell(user))
  {
    forall i | 0 <= i < n ensures !Touched(user, es[i], es'[i], ListCell(user)) {
      RowsApart(user, es[i].path, es'[i].path);
      RowsApart(user, es'[i].path, es[i].path);
    }
  }

  /** An unused target is not an entry, and no entry starts with it. */
  lemma UnusedPrinted(es: seq<Entry>, target: string)
    requires Plain(target) && Unused(es, target)
    ensures target !in PrintEntries(es) && !Taken(PrintEntries(es), target)
  {
    forall i | 0 <= i < |es| ensures !StartsWith(PrintEntries(es)[i], target) {
      StartsPrinted(es[i], target);
    }
    assert StartsWith(target, target);
  }

  lemma MoveFolderInIs(checkedAt: bool, st: Contents, user: string, es: seq<Entry>, path: string, target: string, list: string)
    requires FileSystem(st, user, es) && Plain(path) && Plain(target) && Unused(es, target)
    requires Lookup(st, ListCell(user)) == Some(list)
    ensures
      var es', p := RenameAll(es, path, target), MoveEntries(st, user, PrintEntries(es), path, target);
      Relocated(st, p.st, user, es, es', |es|) && MoveFolderIn(checkedAt, st, user, list, PrintEntries(es), path, target) == Relisted(p.st, user, es')
  {
    var es', paths := RenameAll(es, path, target), PrintEntries(es);
    UnusedPrinted(es, target);
    MoveEntriesRelocates(st, user, es, path, target, |es|);
    assert paths[..|es|] == paths && PrintEntries(es')[..|es|] == PrintEntries(es');
    ListUntouched(st, MoveEntries(st, user, paths, path, target).st, user, es, es', |es|);
  }

  lemma MoveFolderIs(checkedAt: bool, st: Contents, user: string, es: seq<Entry>, path: string, target: string)
    requires FileSystem(st, user, es) && Plain(path) && Plain(target) && Unused(es, target)
    ensures
      var es', p := RenameAll(es, path, target), MoveEntries(st, user, PrintEntries(es), path, target);
      Relocated(st, p.st, user, es, es', |es|) && MoveFolder(checkedAt, st, user, path, target) == Relisted(p.st, user, es')
  {
    ListSplits(es);
    MoveFolderInIs(checkedAt, st, user, es, path, target, Join(PrintEntries(es), ','));
  }

  /**
   Moving a folder to a place nothing is listed under: every entry whose path starts with
   the old path is renamed, the old prefix replaced by the target, the others and the order
   stay; every file is downloaded under its new name with its old content; no listed chunk
   remains under an old row; and no other cell of the store changes.
   */
  lemma MoveFolderPreserves(checkedAt: bool, st: Contents, user: string, es: seq<Entry>, path: string, target: string)
    requires FileSystem(st, user, es) && Plain(path) && Plain(target) && Unused(es, target)
    ensures
      var es', st2 := RenameAll(es, path, target), MoveFolder(checkedAt, st, user, path, target);
      Preserved(st, st2, user, es, es') && Serves(st, user, es) && Serves(st2, user, es')
  {
    var es', p := RenameAll(es, path, target), MoveEntries(st, user, PrintEntries(es), path, target);
    MoveFolderIs(checkedAt, st, user, es, path, target);
    RenameAllIsRenaming(es, path, target);
    RelocationPreserves(st, p.st, user, es, es');
    FileSystemServes(st, user, es);
    FileSystemServes(Relisted(p.st, user, es'), user, es');
  }

  lemma {:induction false} StaysThroughout(st: Contents, st': Contents, user: string, es: seq<Entry>, es': seq<Entry>, n: nat, m: nat)
    requires |es'| == |es| && n <= m <= |es| && Relocated(st, st', user, es, es', n)
    requires forall i :: n <= i < m ==> es'[i] == es[i]
    ensures Relocated(st, st', user, es, es', m)
    decreases m
  {
    if n < m {
      StaysThroughout(st, st', user, es, es', n, m - 1);
      StepStays(st, st', user, es, es', m - 1);
    }
  }

  lemma OneRenamed(es: seq<Entry>, i: nat, target: string)
    requires PlainEntries(es) && i < |es| && es[i].File? && Plain(target) && Unused(es, target)
    ensures Renaming(es, es[i := es[i].(path := target)])
  {
    var es' := es[i := es[i].(path := target)];
    assert target[..|target|] == target;
    assert forall j :: 0 <= j < |es| ==> es[j].path != target;
    assert PlainEntry(es[i]);
    forall j | 0 <= j < |es| ensures PlainEntry(es'[j]) {
      assert PlainEntry(es[j]);
    }
  }

  lemma FirstFilePrinted(es: seq<Entry>, i: nat)
    requires PlainEntries(es) && i < |es| && es[i].File?
    ensures FirstFile(PrintEntries(es), es[i].path) == i
  {
    forall k | 0 <= k <= i ensures IsFile(PrintEntries(es)[k]) == es[k].File? && (es[k].File? ==> PathOf(PrintEntries(es)[k]) == es[k].path) {
      assert PlainEntry(es[k]);
      EntryPrinted(es[k]);
    }
    FirstFileIs(PrintEntries(es), es[i].path, i);
  }

  lemma EntryReplaced(es: seq<Entry>, i: nat, target: string)
    requires i < |es| && es[i].File?
    ensures |es[i].path| <= |PrintEntries(es)[i]|
    ensures PrintEntries(es)[i := Replaced(PrintEntries(es)[i], |es[i].path|, target)] == PrintEntries(es[i := es[i].(path := target)])
  {
    var e := es[i];
    assert PrintEntry(e)[|e.path|..] == ":" + Join(e.keys, '+');
    assert target + (":" + Join(e.keys, '+')) == target + ":" + Join(e.keys, '+');
  }

  lemma MoveFileInIs(checkedAt: bool, st: Contents, user: string, es: seq<Entry>, i: nat, target: string, list: string)
    requires PlainEntries(es) && i < |es| && es[i].File? && Plain(target) && Unused(es, target)
    ensures
      var e, es' := es[i], es[i := es[i].(path := target)];
      var m := MoveKeys(st, ChunkRow(user, e.path), ChunkRow(user, target), if e.keys == [] then [""] else e.keys);
      MoveFileIn(checkedAt, st, user, list, PrintEntries(es), e.path, target) == Relist(checkedAt, m, user, list, PrintEntries(es'))
  {
    UnusedPrinted(es, target);
    FirstFilePrinted(es, i);
    assert PlainEntry(es[i]);
    FilePrinted(es[i].path, es[i].keys);
    EntryReplaced(es, i, target);
  }

  /** What the handler does to a well-formed store when the file is listed at position i. */
  lemma MoveFileIs(checkedAt: bool, st: Contents, user: string, es: seq<Entry>, i: nat, target: string)
    requires FileSystem(st, user, es) && i < |es| && es[i].File? && Plain(target) && Unused(es, target)
    ensures
      var e, es' := es[i], es[i := es[i].(path := target)];
      var m := MoveKeys(st, ChunkRow(user, e.path), ChunkRow(user, target), if e.keys == [] then [""] else e.keys);
      MoveFile(checkedAt, st, user, e.path, target) == Relist(checkedAt, m, user, ListOf(st, user), PrintEntries(es'))
  {
    ListSplits(es);
    MoveFileInIs(checkedAt, st, user, es, i, target, ListOf(st, user));
  }

  /**
   Moving a file to a name nothing listed starts with.  A file with chunks is renamed: same
   content under the new name, nothing else changed, no chunk left under the old row.  An
   empty file does not move at all, because its key list splits into one empty key, which
   no chunk has.
   */
  lemma MoveFilePreservesExactly(checkedAt: bool, st: Contents, user: string, es: seq<Entry>, i: nat, target: string)
    requires FileSystem(st, user, es) && i < |es| && es[i].File? && Plain(target) && Unused(es, target)
    ensures
      var es', st2 := es[i := es[i].(path := target)], MoveFile(checkedAt, st, user, es[i].path, target);
      if es[i].keys == [] then st2 == st
      else Preserved(st, st2, user, es, es') && Serves(st, user, es) && Serves(st2, user, es')
  {
    var e, es' := es[i], es[i := es[i].(path := target)];
    MoveFileIs(checkedAt, st, user, es, i, target);
    if e.keys == [] {
      assert [""][..0] == [];
    } else {
      OneRenamed(es, i, target);
      assert target[..|target|] == target;
      StaysThroughout(st, st, user, es, es', 0, i);
      StepRelocates(st, st, user, es, es', i);
      var m := MoveKeys(st, ChunkRow(user, e.path), ChunkRow(user, target), e.keys);
      StaysThroughout(st, m.st, user, es, es', i + 1, |es|);
      ListUntouched(st, m.st, user, es, es', |es|);
      RelocationPreserves(st, m.st, user, es, es');
      assert MoveFile(checkedAt, st, user, e.path, target) == Relisted(m.st, user, es');
      FileSystemServes(st, user, es);
      FileSystemServes(MoveFile(checkedAt, st, user, e.path, target), user, es');
    }
  }

  // ---------------------------------------------------------------- uploads

  lemma KeysArePlain(n: nat)
    ensures PlainKeys(Keys(n))
  {
    KeysDistinct(n);
    forall i | 0 <= i < n
      ensures Keys(n)[i] != "" && '+' !in Keys(n)[i] && ',' !in Keys(n)[i]
    {
      KeyIs(n, i);
      KeyPlain(i);
    }
  }

  function Uploaded(size: nat): Entry { File(UNTITLED, Keys(Segments(size))) }

  /** The entries once the upload is listed; the empty list's one empty entry gives way. */
  function WithUpload(es: seq<Entry>, size: nat): seq<Entry> {
    if es == [Folder("")] then [Uploaded(size)] else es + [Uploaded(size)]
  }

  lemma {:induction false} JoinedEmpty(parts: seq<string>)
    ensures parts != [] && Join(parts, ',') == "" ==> parts == [""]
  {
    if |parts| > 1 {
      assert |Join(parts, ',')| >= 1;
    }
  }

  lemma OnlyEmptyEntry(es: seq<Entry>)
    ensures PrintEntries(es) == [""] <==> es == [Folder("")]
  {
    if |es| == 1 {
      assert es == [es[0]] && PrintEntries(es) == [PrintEntry(es[0])];
      assert es[0].File? ==> |PrintEntry(es[0])| >= 1;
    } else {
      assert |PrintEntries(es)| != 1;
    }
  }

  lemma ListWithUpload(es: seq<Entry>, size: nat)
    requires es != []
    ensures Listed(Join(PrintEntries(es), ','), UntitledEntry(size)) == Join(PrintEntries(WithUpload(es, size)), ',')
  {
    var ps, e := PrintEntries(es), UntitledEntry(size);
    assert PrintEntry(Uploaded(size)) == e;
    JoinedEmpty(ps);
    OnlyEmptyEntry(es);
    if es == [Folder("")] {
      assert PrintEntries([Uploaded(size)]) == [e];
    } else {
      assert PrintEntries(es + [Uploaded(size)]) == ps + [e];
      JoinSnoc(ps, e, ',');
    }
  }

  lemma NotListedYet(es: seq<Entry>)
    requires PlainEntries(es) && forall i :: 0 <= i < |es| ==> es[i].path != UNTITLED
    ensures UNTITLED !in PrintEntries(es)
  {
    forall i | 0 <= i < |es| ensures PrintEntries(es)[i] != UNTITLED {
      if es[i].File? {
        assert PrintEntries(es)[i][|es[i].path|] == ':';
        assert ':' !in UNTITLED;
      }
    }
  }

  /** Every chunk listed before is still there, and the new file's are. */
  lemma UploadChunksPresent(checkedAt: bool, st: Contents, user: string, es: seq<Entry>, body: string, i: nat)
    requires FileSystem(st, user, es) && UNTITLED !in Split(ListOf(st, user), ',')
    requires i < |es| && es[i].path != UNTITLED
    ensures ChunksPresent(Upload(checkedAt, st, user, body), user, es[i])
  {
    var st', e := Upload(checkedAt, st, user, body), es[i];
    UploadCells(checkedAt, st, user, body);
    RowsApart(user, e.path, UNTITLED);
    assert ChunksPresent(st, user, e);
    if e.File? {
      forall k | k in e.keys ensures Cell(ChunkRow(user, e.path), k) in st' {
        assert Lookup(st', Cell(ChunkRow(user, e.path), k)) == Lookup(st, Cell(ChunkRow(user, e.path), k));
      }
    }
  }

  lemma UploadedPresent(checkedAt: bool, st: Contents, user: string, body: string)
    requires UNTITLED !in Split(ListOf(st, user), ',')
    ensures ChunksPresent(Upload(checkedAt, st, user, body), user, Uploaded(|body|))
    ensures ContentOf(Upload(checkedAt, st, user, body), user, Uploaded(|body|)) == body
  {
    var st', row, keys := Upload(checkedAt, st, user, body), ChunkRow(user, UNTITLED), Keys(Segments(|body|));
    UploadCells(checkedAt, st, user, body);
    forall k | k in keys ensures Cell(row, k) in st' {
      var i :| 0 <= i < |keys| && keys[i] == k;
      assert Lookup(st', Cell(row, keys[i])) == Some(Segment(body, i));
    }
    if body != "" {
      FetchUploaded(st', row, body);
    }
  }

  lemma UploadColumns(checkedAt: bool, st: Contents, user: string, body: string, c: Cell)
    requires UNTITLED !in Split(ListOf(st, user), ',') && c in Upload(checkedAt, st, user, body)
    requires forall c': Cell :: c' in st ==> c'.col != ""
    ensures c.col != ""
  {
    var st', keys := Upload(checkedAt, st, user, body), Keys(Segments(|body|));
    UploadCells(checkedAt, st, user, body);
    JoinPlain(|keys|);
    if c != ListCell(user) && (c.row != ChunkRow(user, UNTITLED) || c.col !in keys) {
      assert Lookup(st', c) == Lookup(st, c);
    }
  }

  /** An upload into a well-formed store, with nothing listed as "untitled", leaves it well-formed with one file more. */
  lemma UploadKeepsFileSystem(checkedAt: bool, st: Contents, user: string, es: seq<Entry>, body: string)
    requires FileSystem(st, user, es) && forall i :: 0 <= i < |es| ==> es[i].path != UNTITLED
    ensures FileSystem(Upload(checkedAt, st, user, body), user, WithUpload(es, |body|))
    ensures ContentOf(Upload(checkedAt, st, user, body), user, Uploaded(|body|)) == body
  {
    var st', es' := Upload(checkedAt, st, user, body), WithUpload(es, |body|);
    ListSplits(es);
    NotListedYet(es);
    UploadCells(checkedAt, st, user, body);
    ListWithUpload(es, |body|);
    UploadEntriesPlain(es, |body|);
    UploadedPresent(checkedAt, st, user, body);
    forall i | 0 <= i < |es'| ensures ChunksPresent(st', user, es'[i]) {
      if es'[i] != Uploaded(|body|) {
        UploadChunksPresent(checkedAt, st, user, es, body, i);
      }
    }
    forall c: Cell | c in st' ensures c.col != "" {
      UploadColumns(checkedAt, st, user, body, c);
    }
  }

  lemma OneFile(st: Contents, user: string, e: Entry)
    requires PlainEntries([e]) && Lookup(st, ListCell(user)) == Some(PrintEntry(e)) && ChunksPresent(st, user, e)
    requires forall c: Cell :: c in st ==> c.col != ""
    ensures FileSystem(st, user, [e])
  {
    assert PrintEntries([e]) == [PrintEntry(e)];
  }

  lemma NothingListed(st: Contents, user: string)
    requires ListCell(user) !in st
    ensures ListOf(st, user) == "" && UNTITLED !in Split(ListOf(st, user), ',')
  {
    SplitNone("", ',');
  }

  /** A user's first upload, under the repaired compare-and-put: the list comes into being with that one file. */
  lemma FirstUploadMakesFileSystem(st: Contents, user: string, body: string)
    requires ListCell(user) !in st && forall c: Cell :: c in st ==> c.col != ""
    ensures FileSystem(Upload(true, st, user, body), user, [Uploaded(|body|)])
    ensures ContentOf(Upload(true, st, user, body), user, Uploaded(|body|)) == body
  {
    var st' := Upload(true, st, user, body);
    NothingListed(st, user);
    UploadCells(true, st, user, body);
    UploadedPresent(true, st, user, body);
    UploadEntriesPlain([], |body|);
    assert WithUpload([], |body|) == [Uploaded(|body|)];
    forall c: Cell | c in st' ensures c.col != "" {
      UploadColumns(true, st, user, body, c);
    }
    OneFile(st', user, Uploaded(|body|));
  }

  lemma UploadEntriesPlain(es: seq<Entry>, size: nat)
    requires PlainEntries(es) && forall i :: 0 <= i < |es| ==> es[i].path != UNTITLED
    ensures PlainEntries(WithUpload(es, size))
  {
    var es' := WithUpload(es, size);
    KeysArePlain(Segments(size));
    assert PlainEntry(Uploaded(size));
    forall i | 0 <= i < |es'| ensures PlainEntry(es'[i]) {
      if es'[i] != Uploaded(size) {
        assert PlainEntry(es[i]);
      }
    }
  }
}
