/**
 Moving files and folders (src/frontend_servers/req_handling.cc:657-815): chunks go from
 row to row one key at a time, then the list is rewritten by one compare-and-put.
 */
module FileMoves {
  import opened Basics
  import opened Lists
  import opened Tablets
  import opened FileStore

  // ------------------------------------------------------------- the handlers

  /** How far a request got: a missing chunk ends it, and so does a substr out of range, whose exception the handler does not catch. */
  datatype End = Complete | ChunkMissing | OutOfRange

  datatype Moved = Moved(st: Contents, end: End)

  function MoveKey(st: Contents, from: string, to: string, key: string): Moved {
    if Cell(from, key) !in st then Moved(st, ChunkMissing)
    else Moved(st[Cell(to, key) := st[Cell(from, key)]] - {Cell(from, key)}, Complete)
  }

  function MoveKeys(st: Contents, from: string, to: string, keys: seq<string>): Moved {
    if keys == [] then Moved(st, Complete)
    else
      var m := MoveKeys(st, from, to, keys[..|keys| - 1]);
      if m.end == Complete then MoveKey(m.st, from, to, keys[|keys| - 1]) else m
  }

  /** `path.replace(0, n, target)`. */
  function Replaced(path: string, n: nat, target: string): string
    requires n <= |path|
  {
    target + path[n..]
  }

  /** The first entry for the file, or the number of entries. */
  function FirstFile(paths: seq<string>, path: string): (i: nat)
    ensures i <= |paths| && (i < |paths| ==> IsFile(paths[i]) && PathOf(paths[i]) == path)
    ensures forall k :: 0 <= k < i ==> !(IsFile(paths[k]) && PathOf(paths[k]) == path)
  {
    if paths == [] || (IsFile(paths[0]) && PathOf(paths[0]) == path) then 0 else 1 + FirstFile(paths[1..], path)
  }

  predicate Taken(paths: seq<string>, target: string) {
    exists i :: 0 <= i < |paths| && StartsWith(paths[i], target)
  }

  /** The list is rewritten only if every chunk was moved. */
  function Relist(checkedAt: bool, m: Moved, user: string, list: string, paths: seq<string>): Contents {
    if m.end == Complete then CPutCell(checkedAt, m.st, ListCell(user), list, Join(paths, ',')) else m.st
  }

  /** On the list and its pieces. */
  function MoveFileIn(checkedAt: bool, st: Contents, user: string, list: string, paths: seq<string>, path: string, target: string): Contents {
    var i := FirstFile(paths, path);
    if Taken(paths, target) then st
    else if i == |paths| then CPutCell(checkedAt, st, ListCell(user), list, Join(paths, ','))
    else
      Relist(checkedAt, MoveKeys(st, ChunkRow(user, path), ChunkRow(user, target), KeysOf(paths[i])),
             user, list, paths[i := Replaced(paths[i], |path|, target)])
  }

  function MoveFile(checkedAt: bool, st: Contents, user: string, path: string, target: string): Contents {
    MoveFileIn(checkedAt, st, user, ListOf(st, user), Split(ListOf(st, user), ','), path, target)
  }

  /** A `getline` loop over keys: no piece after a final delimiter. */
  function LineKeys(entry: string): seq<string>
    requires IsFile(entry)
  {
    var keys := KeysOf(entry);
    if keys[|keys| - 1] == "" then keys[..|keys| - 1] else keys
  }

  datatype Pass = Pass(st: Contents, paths: seq<string>, end: End)

  /** One entry of a folder move; `base_file_path.substr(old_path.size())` throws when the path is the longer. */
  function MoveEntry(st: Contents, user: string, entry: string, path: string, target: string): Moved {
    if !StartsWith(entry, path) || !IsFile(entry) then Moved(st, Complete)
    else if |path| > |PathOf(entry)| then Moved(st, OutOfRange)
    else
      MoveKeys(st, ChunkRow(user, PathOf(entry)), ChunkRow(user, Replaced(PathOf(entry), |path|, target)), LineKeys(entry))
  }

  lemma ColonBeyond(entry: string, path: string)
    requires ':' !in path && StartsWith(entry, path) && IsFile(entry)
    ensures |path| <= |PathOf(entry)|
  {
    assert forall k :: 0 <= k < |path| ==> entry[k] == path[k] != ':';
  }

  function NewEntry(entry: string, path: string, target: string): string {
    if StartsWith(entry, path) then Replaced(entry, |path|, target) else entry
  }

  function MoveEntries(st: Contents, user: string, paths: seq<string>, path: string, target: string): Pass
  {
    if paths == [] then Pass(st, [], Complete)
    else
      var p, e := MoveEntries(st, user, paths[..|paths| - 1], path, target), paths[|paths| - 1];
      if p.end != Complete then p
      else
        var m := MoveEntry(p.st, user, e, path, target);
        Pass(m.st, p.paths + [NewEntry(e, path, target)], m.end)
  }

  function MoveFolderIn(checkedAt: bool, st: Contents, user: string, list: string, paths: seq<string>, path: string, target: string): Contents
  {
    if target in paths then st
    else
      var p := MoveEntries(st, user, paths, path, target);
      Relist(checkedAt, Moved(p.st, p.end), user, list, p.paths)
  }

  function MoveFolder(checkedAt: bool, st: Contents, user: string, path: string, target: string): Contents
  {
    MoveFolderIn(checkedAt, st, user, ListOf(st, user), Split(ListOf(st, user), ','), path, target)
  }

  method MoveAll(s: Storage, from: string, to: string, keys: seq<string>) returns (end: End)
    modifies s`store
    ensures Moved(s.store, end) == MoveKeys(old(s.store), from, to, keys)
  {
    var i := 0;
    while i < |keys|
      invariant 0 <= i <= |keys|
      invariant Moved(s.store, Complete) == MoveKeys(old(s.store), from, to, keys[..i])
    {
      assert keys[..i + 1][..i] == keys[..i];
      if Cell(from, keys[i]) !in s.store {
        MoveKeysStop(old(s.store), from, to, keys, i + 1);
        return ChunkMissing;
      }
      var value := s.store[Cell(from, keys[i])];
      s.store := s.store[Cell(to, keys[i]) := value];
      s.store := s.store - {Cell(from, keys[i])};
      i := i + 1;
    }
    assert keys[..i] == keys;
    end := Complete;
  }

  method IsTaken(paths: seq<string>, target: string) returns (taken: bool)
    ensures taken == Taken(paths, target)
  {
    var i := 0;
    while i < |paths|
      invariant 0 <= i <= |paths|
      invariant forall k :: 0 <= k < i ==> !StartsWith(paths[k], target)
    {
      if StartsWith(paths[i], target) {
        return true;
      }
      i := i + 1;
    }
    taken := false;
  }

  /** The loop that finds the file and moves its chunks; it stops at the first match. */
  method MoveFirst(s: Storage, paths: seq<string>, path: string, target: string) returns (paths': seq<string>, end: End)
    modifies s`store
    ensures
      var i := FirstFile(paths, path);
      if i == |paths| then end == Complete && s.store == old(s.store) && paths' == paths
      else
        && Moved(s.store, end) == MoveKeys(old(s.store), ChunkRow(s.user, path), ChunkRow(s.user, target), KeysOf(paths[i]))
        && (end == Complete ==> paths' == paths[i := Replaced(paths[i], |path|, target)])
  {
    paths', end := paths, Complete;
    var i := 0;
    while i < |paths|
      invariant 0 <= i <= |paths| && s.store == old(s.store)
      invariant forall k :: 0 <= k < i ==> !(IsFile(paths[k]) && PathOf(paths[k]) == path)
    {
      if IsFile(paths[i]) && PathOf(paths[i]) == path {
        FirstFileIs(paths, path, i);
        var keys := SplitLoop(paths[i][ColonAt(paths[i]) + 1..], '+');
        end := MoveAll(s, ChunkRow(s.user, path), ChunkRow(s.user, target), keys);
        if end == Complete {
          paths' := paths[i := target + paths[i][|path|..]];
        }
        return;
      }
      i := i + 1;
    }
    FirstFileIs(paths, path, i);
  }

  /** What the handlers take for the target: a file's loses a final '/', a folder's gains one. */
  function FileTarget(target: string): string
    requires target != ""
  {
    if target[|target| - 1] == '/' then target[..|target| - 1] else target
  }

  function FolderTarget(target: string): string
    requires target != ""
  {
    if target[|target| - 1] == '/' then target else target + "/"
  }

  /** The chunks of the first entry for the file, moved; nothing if there is none. */
  function FileMoved(st: Contents, user: string, paths: seq<string>, path: string, target: string): Moved {
    var i := FirstFile(paths, path);
    if i == |paths| then Moved(st, Complete)
    else MoveKeys(st, ChunkRow(user, path), ChunkRow(user, target), KeysOf(paths[i]))
  }

  /** The targets with and without the final '/' mean the same. */
  lemma TargetsNormalised(target: string)
    requires target != "" && target[|target| - 1] != '/'
    ensures FileTarget(target) == FileTarget(target + "/") == target
    ensures FolderTarget(target) == FolderTarget(target + "/") == target + "/"
  {
    assert (target + "/")[..|target|] == target;
  }

  /** Does the compare-and-put that ends a move find an absent list where the shipped compare indexes? */
  predicate Aborts(checkedAt: bool, m: Moved, user: string, list: string) {
    m.end == Complete && CellVerdict(Lookup(m.st, ListCell(user)), list, checkedAt) == Abort
  }

  method MoveFileOnList(s: Storage, list: string, paths: seq<string>, path: string, target: string)
    requires s.up
    modifies s`store, s`up
    ensures s.store == MoveFileIn(s.checkedAt, old(s.store), s.user, list, paths, path, target)
    ensures !s.up <==> !Taken(paths, target)
                       && Aborts(s.checkedAt, FileMoved(old(s.store), s.user, paths, path, target), s.user, list)
  {
    var taken := IsTaken(paths, target);
    if taken {
      return;
    }
    var moved, end := MoveFirst(s, paths, path, target);
    if end == Complete {
      var updated := JoinLoop(moved, ',');
      s.CompareAndPut(ListCell(s.user), list, updated);
    }
  }

  method HandleMoveFile(s: Storage, oldPath: string, targetPath: string)
    requires s.up && targetPath != ""
    modifies s`store, s`up
    ensures s.store == MoveFile(s.checkedAt, old(s.store), s.user, oldPath, FileTarget(targetPath))
    ensures !s.up <==> !s.checkedAt && ListCell(s.user) !in old(s.store) && FileTarget(targetPath) != ""
    ensures
      var paths := Split(ListOf(old(s.store), s.user), ',');
      (exists i :: 0 <= i < |paths| && StartsWith(paths[i], FileTarget(targetPath))) ==> s.store == old(s.store)
  {
    var list := if ListCell(s.user) in s.store then s.store[ListCell(s.user)] else "";
    var paths := SplitLoop(list, ',');
    var target := targetPath;
    if target[|target| - 1] == '/' {
      target := target[..|target| - 1];
    }
    FileMoveAborts(s.checkedAt, s.store, s.user, oldPath, target);
    MoveFileOnList(s, list, paths, oldPath, target);
  }

  method MoveOne(s: Storage, entry: string, path: string, target: string) returns (entry': string, end: End)
    modifies s`store
    ensures Moved(s.store, end) == MoveEntry(old(s.store), s.user, entry, path, target)
    ensures end == Complete ==> entry' == NewEntry(entry, path, target)
  {
    entry', end := entry, Complete;
    if StartsWith(entry, path) {
      if IsFile(entry) {
        var base := PathOf(entry);
        if |path| > |base| {
          return entry, OutOfRange;
        }
        end := MoveAll(s, ChunkRow(s.user, base), ChunkRow(s.user, target + base[|path|..]), LineKeys(entry));
      }
      entry' := target + entry[|path|..];
    }
  }

  method MoveEach(s: Storage, paths: seq<string>, path: string, target: string) returns (paths': seq<string>, end: End)
    modifies s`store
    ensures
      var p := MoveEntries(old(s.store), s.user, paths, path, target);
      s.store == p.st && end == p.end && (end == Complete ==> paths' == p.paths)
  {
    paths', end := [], Complete;
    var i := 0;
    while i < |paths|
      invariant 0 <= i <= |paths| && end == Complete
      invariant Pass(s.store, paths', Complete) == MoveEntries(old(s.store), s.user, paths[..i], path, target)
    {
      assert paths[..i + 1][..i] == paths[..i];
      var entry;
      entry, end := MoveOne(s, paths[i], path, target);
      if end != Complete {
        MoveEntriesStop(old(s.store), s.user, paths, path, target, i + 1);
        return;
      }
      paths' := paths' + [entry];
      i := i + 1;
    }
    assert paths[..i] == paths;
  }

  function FolderMoved(st: Contents, user: string, paths: seq<string>, path: string, target: string): Moved {
    var p := MoveEntries(st, user, paths, path, target);
    Moved(p.st, p.end)
  }

  /** `threw` says that the handler let an exception out. */
  method MoveFolderOnList(s: Storage, list: string, paths: seq<string>, path: string, target: string) returns (threw: bool)
    requires s.up
    modifies s`store, s`up
    ensures s.store == MoveFolderIn(s.checkedAt, old(s.store), s.user, list, paths, path, target)
    ensures !s.up <==> target !in paths
                       && Aborts(s.checkedAt, FolderMoved(old(s.store), s.user, paths, path, target), s.user, list)
    ensures threw <==> target !in paths && MoveEntries(old(s.store), s.user, paths, path, target).end == OutOfRange
  {
    threw := false;
    if target !in paths {
      var moved, end := MoveEach(s, paths, path, target);
      threw := end == OutOfRange;
      if end == Complete {
        var updated := JoinLoop(moved, ',');
        s.CompareAndPut(ListCell(s.user), list, updated);
      }
    }
  }

  /** An exception takes an old path with a colon. */
  method HandleMoveFolder(s: Storage, oldPath: string, targetPath: string) returns (threw: bool)
    requires s.up && targetPath != ""
    modifies s`store, s`up
    ensures s.store == MoveFolder(s.checkedAt, old(s.store), s.user, oldPath, FolderTarget(targetPath))
    ensures !s.up <==> !s.checkedAt && ListCell(s.user) !in old(s.store)
    ensures
      var paths := Split(ListOf(old(s.store), s.user), ',');
      threw <==> FolderTarget(targetPath) !in paths
                 && MoveEntries(old(s.store), s.user, paths, oldPath, FolderTarget(targetPath)).end == OutOfRange
    ensures
      var paths, target := Split(ListOf(old(s.store), s.user), ','), FolderTarget(targetPath);
      threw <==> target !in paths
                 && exists n :: 0 <= n < |paths| && Beyond(paths[n], oldPath)
                                && MoveEntries(old(s.store), s.user, paths[..n], oldPath, target).end == Complete
    ensures threw ==> ':' in oldPath
    ensures FolderTarget(targetPath) in Split(ListOf(old(s.store), s.user), ',') ==> s.store == old(s.store)
  {
    var list := if ListCell(s.user) in s.store then s.store[ListCell(s.user)] else "";
    var paths := SplitLoop(list, ',');
    var target := targetPath;
    if target[|target| - 1] != '/' {
      target := target + "/";
    }
    OnlyColonsThrow(s.store, s.user, paths, oldPath, target);
    ThrowsExactly(s.store, s.user, paths, oldPath, target);
    FolderMoveAborts(s.checkedAt, s.store, s.user, oldPath, target);
    threw := MoveFolderOnList(s, list, paths, oldPath, target);
  }

  // --------------------------------------- when the storage node goes down

  /** Chunks stand in rows of their own: moving them never touches the list. */
  lemma {:induction false} KeysKeepList(st: Contents, user: string, a: string, b: string, keys: seq<string>)
    ensures Lookup(MoveKeys(st, ChunkRow(user, a), ChunkRow(user, b), keys).st, ListCell(user)) == Lookup(st, ListCell(user))
  {
    if keys != [] {
      KeysKeepList(st, user, a, b, keys[..|keys| - 1]);
      assert |ChunkRow(user, a)| > |user| && |ChunkRow(user, b)| > |user|;
    }
  }

  lemma EntryKeepsList(st: Contents, user: string, entry: string, path: string, target: string)
    ensures Lookup(MoveEntry(st, user, entry, path, target).st, ListCell(user)) == Lookup(st, ListCell(user))
  {
    if StartsWith(entry, path) && IsFile(entry) && |path| <= |PathOf(entry)| {
      KeysKeepList(st, user, PathOf(entry), Replaced(PathOf(entry), |path|, target), LineKeys(entry));
    }
  }

  lemma {:induction false} EntriesKeepList(st: Contents, user: string, paths: seq<string>, path: string, target: string)
    ensures Lookup(MoveEntries(st, user, paths, path, target).st, ListCell(user)) == Lookup(st, ListCell(user))
  {
    if paths != [] {
      var front := paths[..|paths| - 1];
      EntriesKeepList(st, user, front, path, target);
      EntryKeepsList(MoveEntries(st, user, front, path, target).st, user, paths[|paths| - 1], path, target);
    }
  }

  lemma NoFileInNoList(st: Contents, user: string)
    requires ListCell(user) !in st
    ensures ListOf(st, user) == "" && Split(ListOf(st, user), ',') == [""] && !IsFile("")
  {
  }

  lemma FileMoveAborts(checkedAt: bool, st: Contents, user: string, path: string, target: string)
    ensures
      var list := ListOf(st, user);
      var paths := Split(list, ',');
      !Taken(paths, target) && Aborts(checkedAt, FileMoved(st, user, paths, path, target), user, list)
      <==> !checkedAt && ListCell(user) !in st && target != ""
  {
    var paths := Split(ListOf(st, user), ',');
    if ListCell(user) in st {
      var i := FirstFile(paths, path);
      if i < |paths| {
        KeysKeepList(st, user, path, target, KeysOf(paths[i]));
      }
    } else {
      NoFileInNoList(st, user);
      assert Taken([""], target) <==> StartsWith([""][0], target);
      assert FirstFile([""], path) == 1;
    }
  }

  lemma FolderMoveAborts(checkedAt: bool, st: Contents, user: string, path: string, target: string)
    requires target != ""
    ensures
      var list := ListOf(st, user);
      var paths := Split(list, ',');
      target !in paths && Aborts(checkedAt, FolderMoved(st, user, paths, path, target), user, list)
      <==> !checkedAt && ListCell(user) !in st
  {
    var paths := Split(ListOf(st, user), ',');
    EntriesKeepList(st, user, paths, path, target);
    if ListCell(user) !in st {
      NoFileInNoList(st, user);
      assert [""][..0] == [];
      assert MoveEntries(st, user, [], path, target) == Pass(st, [], Complete);
    }
  }

  lemma {:induction false} KeysDoNotThrow(st: Contents, from: string, to: string, keys: seq<string>)
    ensures MoveKeys(st, from, to, keys).end != OutOfRange
  {
    if keys != [] {
      KeysDoNotThrow(st, from, to, keys[..|keys| - 1]);
    }
  }

  lemma EntryDoesNotThrow(p: Pass, user: string, entry: string, path: string, target: string)
    requires ':' !in path
    ensures MoveEntry(p.st, user, entry, path, target).end != OutOfRange
  {
    if StartsWith(entry, path) && IsFile(entry) {
      ColonBeyond(entry, path);
      KeysDoNotThrow(p.st, ChunkRow(user, PathOf(entry)), ChunkRow(user, Replaced(PathOf(entry), |path|, target)), LineKeys(entry));
    }
  }

  lemma {:induction false} OnlyColonsThrow(st: Contents, user: string, paths: seq<string>, path: string, target: string)
    ensures MoveEntries(st, user, paths, path, target).end == OutOfRange ==> ':' in path
  {
    if paths != [] {
      OnlyColonsThrow(st, user, paths[..|paths| - 1], path, target);
      if ':' !in path {
        EntryDoesNotThrow(MoveEntries(st, user, paths[..|paths| - 1], path, target), user, paths[|paths| - 1], path, target);
      }
    }
  }

  /** The substr of the old path's length on this entry's path is out of range. */
  predicate Beyond(entry: string, path: string) {
    StartsWith(entry, path) && IsFile(entry) && |path| > |PathOf(entry)|
  }

  /** A folder move throws exactly if it comes to an entry like that: all entries before it could be moved. */
  lemma {:induction false} ThrowsExactly(st: Contents, user: string, paths: seq<string>, path: string, target: string)
    ensures MoveEntries(st, user, paths, path, target).end == OutOfRange
       <==> exists n :: 0 <= n < |paths| && MoveEntries(st, user, paths[..n], path, target).end == Complete && Beyond(paths[n], path)
  {
    if paths != [] {
      var n := |paths| - 1;
      var front := paths[..n];
      ThrowsExactly(st, user, front, path, target);
      forall k | 0 <= k < n
        ensures paths[..k] == front[..k] && paths[k] == front[k]
      {
      }
      EntryThrowsExactly(MoveEntries(st, user, front, path, target).st, user, paths[n], path, target);
      if MoveEntries(st, user, front, path, target).end != Complete {
        MoveEntriesStop(st, user, paths, path, target, n);
      } else {
        assert paths[..n] == front;
        NoThrowBefore(st, user, paths, path, target);
      }
    }
  }

  lemma EntryThrowsExactly(st: Contents, user: string, entry: string, path: string, target: string)
    ensures MoveEntry(st, user, entry, path, target).end == OutOfRange <==> Beyond(entry, path)
  {
    if StartsWith(entry, path) && IsFile(entry) && |path| <= |PathOf(entry)| {
      KeysDoNotThrow(st, ChunkRow(user, PathOf(entry)), ChunkRow(user, Replaced(PathOf(entry), |path|, target)), LineKeys(entry));
    }
  }

  /** Moving a file that is not listed changes nothing, but that the repaired compare-and-put leaves an empty list where there was none. */
  lemma UnlistedFileStays(checkedAt: bool, st: Contents, user: string, path: string, target: string, c: Cell)
    requires Unlisted(Split(ListOf(st, user), ','), path)
    ensures Lookup(MoveFile(checkedAt, st, user, path, target), c) ==
      if c == ListCell(user) && c !in st && checkedAt && target != "" then Some("") else Lookup(st, c)
  {
    var paths := Split(ListOf(st, user), ',');
    FirstFileIs(paths, path, |paths|);
    JoinSplit(ListOf(st, user), ',');
    if ListCell(user) !in st {
      NoFileInNoList(st, user);
      assert Taken([""], target) <==> StartsWith([""][0], target);
    }
  }

  /** Where all entries but the last could be moved, none of them throws. */
  lemma NoThrowBefore(st: Contents, user: string, paths: seq<string>, path: string, target: string)
    requires paths != [] && MoveEntries(st, user, paths[..|paths| - 1], path, target).end == Complete
    ensures forall k :: 0 <= k < |paths| - 1 && MoveEntries(st, user, paths[..k], path, target).end == Complete ==> !Beyond(paths[k], path)
  {
    var front := paths[..|paths| - 1];
    forall k | 0 <= k < |paths| - 1 && MoveEntries(st, user, paths[..k], path, target).end == Complete
      ensures !Beyond(paths[k], path)
    {
      assert front[..k + 1][..k] == paths[..k] && front[k] == paths[k];
      EntryThrowsExactly(MoveEntries(st, user, paths[..k], path, target).st, user, paths[k], path, target);
      if Beyond(paths[k], path) {
        MoveEntriesStop(st, user, front, path, target, k + 1);
      }
    }
  }

  lemma {:induction false} MoveKeysStop(st: Contents, from: string, to: string, keys: seq<string>, n: nat)
    requires n <= |keys| && MoveKeys(st, from, to, keys[..n]).end != Complete
    ensures MoveKeys(st, from, to, keys) == MoveKeys(st, from, to, keys[..n])
    decreases |keys|
  {
    if n == |keys| {
      assert keys[..n] == keys;
    } else {
      assert keys[..|keys| - 1][..n] == keys[..n];
      MoveKeysStop(st, from, to, keys[..|keys| - 1], n);
    }
  }

  lemma {:induction false} MoveEntriesStop(st: Contents, user: string, paths: seq<string>, path: string, target: string, n: nat)
    requires n <= |paths| && MoveEntries(st, user, paths[..n], path, target).end != Complete
    ensures MoveEntries(st, user, paths, path, target) == MoveEntries(st, user, paths[..n], path, target)
    decreases |paths|
  {
    if n == |paths| {
      assert paths[..n] == paths;
    } else {
      assert paths[..|paths| - 1][..n] == paths[..n];
      MoveEntriesStop(st, user, paths[..|paths| - 1], path, target, n);
    }
  }

  lemma {:induction false} FirstFileIs(paths: seq<string>, path: string, i: nat)
    requires i <= |paths| && (i < |paths| ==> IsFile(paths[i]) && PathOf(paths[i]) == path)
    requires forall k :: 0 <= k < i ==> !(IsFile(paths[k]) && PathOf(paths[k]) == path)
    ensures FirstFile(paths, path) == i
  {
  }
}
