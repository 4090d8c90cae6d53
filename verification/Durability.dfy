/**
 Durability of one storage node: what the checkpoint file and the append log give back
 after a crash (src/kv/KVClass.h, tbl_saving, tbl_lding, log_operation, start_initialize).
 */
module Durability {
  import opened Basics
  import opened Tablets
  import opened Records

  // ------------------------------------------------------------ restart

  function ApplyRecord(t: Tablet, r: Record): Tablet {
    match r
    case Data(rk, ck, v) => ConductPut(t, rk, ck, v)
    case Put(rk, ck, v) => ConductPut(t, rk, ck, v)
    case Delete(rk, ck) => ConductDelete(t, rk, ck)
  }

  function ApplyAll(t: Tablet, rs: seq<Record>): Tablet
    decreases rs
  {
    if rs == [] then t else ApplyAll(ApplyRecord(t, rs[0]), rs[1..])
  }

  function CellOf(r: Record): Cell { Cell(r.row, r.col) }

  function EffectOf(r: Record): Option<string> {
    if r.Delete? then None else Some(r.value)
  }

  /** The effect of the last record of `rs` on cell `c`, if one is there. */
  function LastEffect(rs: seq<Record>, c: Cell): Option<Option<string>> {
    if rs == [] then None
    else if CellOf(rs[|rs| - 1]) == c then Some(EffectOf(rs[|rs| - 1]))
    else LastEffect(rs[..|rs| - 1], c)
  }

  /** Cell `c` of `m` once the last effect of `rs`, if any, is in place. */
  function Replayed(m: Contents, rs: seq<Record>, c: Cell): Option<string> {
    match LastEffect(rs, c) case Some(e) => e case None => Lookup(m, c)
  }

  lemma {:induction false} ApplyAllSnoc(t: Tablet, rs: seq<Record>, r: Record)
    ensures ApplyAll(t, rs + [r]) == ApplyRecord(ApplyAll(t, rs), r)
    decreases rs
  {
    if rs == [] {
      assert [r][1..] == [] && [] + [r] == [r];
    } else {
      ApplyAllSnoc(ApplyRecord(t, rs[0]), rs[1..], r);
      assert (rs + [r])[1..] == rs[1..] + [r];
    }
  }

  lemma RecordContents(t: Tablet, r: Record)
    ensures ContentsOf(ApplyRecord(t, r)) == Update(ContentsOf(t), CellOf(r), EffectOf(r))
  {
    if r.Delete? {
      DeleteContents(t, r.row, r.col);
    } else {
      PutContents(t, r.row, r.col, r.value);
    }
  }

  /** Replay gives every cell the effect of the last record on it, and leaves the other cells alone. */
  lemma {:induction false} ReplayIsLastEffect(t: Tablet, rs: seq<Record>, c: Cell)
    ensures Lookup(ContentsOf(ApplyAll(t, rs)), c) == Replayed(ContentsOf(t), rs, c)
  {
    if rs != [] {
      ReplayIsLastEffect(t, rs[..|rs| - 1], c);
      LastRecordApplied(t, rs);
    }
  }

  lemma LastRecordApplied(t: Tablet, rs: seq<Record>)
    requires rs != []
    ensures
      var front, r := rs[..|rs| - 1], rs[|rs| - 1];
      ContentsOf(ApplyAll(t, rs)) == Update(ContentsOf(ApplyAll(t, front)), CellOf(r), EffectOf(r))
  {
    var front, r := rs[..|rs| - 1], rs[|rs| - 1];
    assert rs == front + [r];
    ApplyAllSnoc(t, front, r);
    RecordContents(ApplyAll(t, front), r);
  }

  /** replay(L, replay(L, t)) = replay(L, t), for every log and every tablet. */
  lemma ReplayIdempotent(t: Tablet, rs: seq<Record>)
    ensures ContentsOf(ApplyAll(ApplyAll(t, rs), rs)) == ContentsOf(ApplyAll(t, rs))
  {
    forall c
      ensures Lookup(ContentsOf(ApplyAll(ApplyAll(t, rs), rs)), c) == Lookup(ContentsOf(ApplyAll(t, rs)), c)
    {
      ReplayIsLastEffect(t, rs, c);
      ReplayIsLastEffect(ApplyAll(t, rs), rs, c);
    }
    SameLookupsSameMap(ContentsOf(ApplyAll(ApplyAll(t, rs), rs)), ContentsOf(ApplyAll(t, rs)));
  }

  /** `start_initialize` up to the peer sync: `None` when a reader ends the process. */
  function Restart(b: Build, file: string, log: string): Option<Tablet> {
    var f := ParseStream(b, false, Open(file));
    var l := ParseStream(b, true, Open(log));
    if f.aborted || l.aborted then None
    else Some(ApplyAll(ApplyAll(map[], f.records), l.records))
  }

  /**
   The shipped node forgets everything: it comes back with the contents it had in memory
   if and only if it had none and its tablet file was empty, and with a nonempty tablet
   file it does not come back at all.
   */
  lemma ShippedRestartExactly(mem: Tablet, file: string, log: string)
    ensures Restart(SHIPPED, file, log).Some? <==> file == ""
    ensures (Restart(SHIPPED, file, log).Some? && ContentsOf(Restart(SHIPPED, file, log).value) == ContentsOf(mem))
       <==> file == "" && ContentsOf(mem) == map[]
  {
    ShippedReaderRestoresNothing(Open(file));
    ShippedReaderRestoresNothing(Open(log));
    assert ContentsOf(map[]) == map[];
  }

  // -------------------------------------------------------- checkpoint file

  /** `rs` lists the cells of `t` as DATA records, each once, in some order. */
  ghost predicate Enumerates(rs: seq<Record>, t: Tablet) {
    && (forall i :: 0 <= i < |rs| ==> rs[i].Data? && Lookup(ContentsOf(t), CellOf(rs[i])) == Some(rs[i].value))
    && (forall i, j :: 0 <= i < j < |rs| ==> CellOf(rs[i]) != CellOf(rs[j]))
    && (forall c :: c in ContentsOf(t) ==> exists i :: 0 <= i < |rs| && CellOf(rs[i]) == c)
  }

  /** Records that all agree with `m`: the last one on a cell, if any, has what `m` has there. */
  lemma {:induction false} LastEffectAgrees(rs: seq<Record>, m: Contents, c: Cell)
    requires forall r :: r in rs ==> r.Data? && Lookup(m, CellOf(r)) == Some(r.value)
    ensures LastEffect(rs, c).Some? ==> LastEffect(rs, c).value == Lookup(m, c) != None
  {
    if rs != [] {
      assert rs[|rs| - 1] in rs;
      LastEffectAgrees(rs[..|rs| - 1], m, c);
    }
  }

  lemma {:induction false} LastEffectIsThere(rs: seq<Record>, i: nat)
    requires i < |rs|
    ensures LastEffect(rs, CellOf(rs[i])).Some?
  {
    if i < |rs| - 1 {
      LastEffectIsThere(rs[..|rs| - 1], i);
    }
  }

  lemma LastEffectOfEnumeration(rs: seq<Record>, t: Tablet, c: Cell)
    requires Enumerates(rs, t)
    ensures LastEffect(rs, c) == if c in ContentsOf(t) then Some(Lookup(ContentsOf(t), c)) else None
  {
    LastEffectAgrees(rs, ContentsOf(t), c);
    if c in ContentsOf(t) {
      var i :| 0 <= i < |rs| && CellOf(rs[i]) == c;
      LastEffectIsThere(rs, i);
    }
  }

  /** Saving in any order and loading gives back the same contents; empty rows are dropped. */
  lemma SaveThenLoad(rs: seq<Record>, t: Tablet)
    requires Enumerates(rs, t)
    ensures ContentsOf(ApplyAll(map[], rs)) == ContentsOf(t)
  {
    forall c
      ensures Lookup(ContentsOf(ApplyAll(map[], rs)), c) == Lookup(ContentsOf(t), c)
    {
      ReplayIsLastEffect(map[], rs, c);
      LastEffectOfEnumeration(rs, t, c);
    }
    SameLookupsSameMap(ContentsOf(ApplyAll(map[], rs)), ContentsOf(t));
  }

  lemma EnumerationHas(rs: seq<Record>, t: Tablet, r: Record)
    requires Enumerates(rs, t)
    ensures r in rs <==> r.Data? && Lookup(ContentsOf(t), CellOf(r)) == Some(r.value)
    ensures Distinct(rs)
  {
    if r.Data? && Lookup(ContentsOf(t), CellOf(r)) == Some(r.value) {
      var i :| 0 <= i < |rs| && CellOf(rs[i]) == CellOf(r);
      assert rs[i] == r;
    }
    assert forall i, j :: 0 <= i < j < |rs| ==> CellOf(rs[i]) != CellOf(rs[j]);
  }

  /** Empty rows are unobservable in the stream too: tablets with equal contents give the same records, up to order. */
  lemma StreamsAgree(rs: seq<Record>, t: Tablet, us: seq<Record>, u: Tablet)
    requires ContentsOf(t) == ContentsOf(u) && Enumerates(rs, t) && Enumerates(us, u)
    ensures multiset(rs) == multiset(us)
  {
    forall r
      ensures multiset(rs)[r] == multiset(us)[r]
    {
      EnumerationHas(rs, t, r);
      EnumerationHas(us, u, r);
      DistinctOnce(rs, r);
      DistinctOnce(us, r);
    }
  }

  /**
   The stream of a peer's cells, put in any order onto the local tablet, gives the local
   contents overlaid by the peer's.
   */
  lemma SyncOverlays(rs: seq<Record>, peer: Tablet, t: Tablet)
    requires Enumerates(rs, peer)
    ensures ContentsOf(ApplyAll(t, rs)) == ContentsOf(t) + ContentsOf(peer)
  {
    forall c
      ensures Lookup(ContentsOf(ApplyAll(t, rs)), c) == Lookup(ContentsOf(t) + ContentsOf(peer), c)
    {
      ReplayIsLastEffect(t, rs, c);
      LastEffectOfEnumeration(rs, peer, c);
    }
    SameLookupsSameMap(ContentsOf(ApplyAll(t, rs)), ContentsOf(t) + ContentsOf(peer));
  }

  /** After pulling a peer's cells a node differs from the peer exactly at the cells it held and the peer does not hold. */
  lemma OverlayDiffersExactly(rs: seq<Record>, peer: Tablet, t: Tablet, c: Cell)
    requires Enumerates(rs, peer)
    ensures Lookup(ContentsOf(ApplyAll(t, rs)), c) != Lookup(ContentsOf(peer), c)
       <==> c in ContentsOf(t) && c !in ContentsOf(peer)
  {
    SyncOverlays(rs, peer, t);
  }

  /** Writes in order. */
  function WriteAll(m: Contents, ws: seq<Write>): Contents {
    if ws == [] then m else Update(WriteAll(m, ws[..|ws| - 1]), ws[|ws| - 1].cell, ws[|ws| - 1].effect)
  }

  /** The last of the writes deletes the cell. */
  predicate LeavesDeleted(ws: seq<Write>, c: Cell) {
    if ws == [] then false
    else if ws[|ws| - 1].cell == c then ws[|ws| - 1].effect == None
    else LeavesDeleted(ws[..|ws| - 1], c)
  }

  lemma {:induction false} DeletedByWrites(m: Contents, ws: seq<Write>, c: Cell)
    requires c in m
    ensures c !in WriteAll(m, ws) <==> LeavesDeleted(ws, c)
  {
    if ws != [] {
      DeletedByWrites(m, ws[..|ws| - 1], c);
      var before, w := WriteAll(m, ws[..|ws| - 1]), ws[|ws| - 1];
      assert Lookup(Update(before, w.cell, w.effect), c) == if c == w.cell then w.effect else Lookup(before, c);
    }
  }

  /**
   A node that agreed with its peer and missed any run of writes agrees again after the
   overlay if and only if no cell it held is left deleted by that run.
   */
  lemma MissedWritesOverlay(agreed: Contents, ws: seq<Write>)
    ensures agreed + WriteAll(agreed, ws) == WriteAll(agreed, ws) <==> forall c :: c in agreed ==> !LeavesDeleted(ws, c)
  {
    var peer := WriteAll(agreed, ws);
    forall c | c in agreed
      ensures c in peer <==> !LeavesDeleted(ws, c)
    {
      DeletedByWrites(agreed, ws, c);
    }
    if c: Cell :| c in agreed && c !in peer {
      assert c in agreed + peer;
    } else {
      assert (agreed + peer).Keys == peer.Keys;
    }
  }

  /** In particular after any run of puts and compare-and-puts without deletes. */
  lemma MissedPutsAgreeAgain(agreed: Contents, ws: seq<Write>)
    requires forall i :: 0 <= i < |ws| ==> ws[i].effect.Some?
    ensures agreed + WriteAll(agreed, ws) == WriteAll(agreed, ws)
  {
    forall c | c in agreed
      ensures !LeavesDeleted(ws, c)
    {
      PutsDeleteNothing(ws, c);
    }
    MissedWritesOverlay(agreed, ws);
  }

  lemma {:induction false} PutsDeleteNothing(ws: seq<Write>, c: Cell)
    requires forall i :: 0 <= i < |ws| ==> ws[i].effect.Some?
    ensures !LeavesDeleted(ws, c)
  {
    if ws != [] {
      PutsDeleteNothing(ws[..|ws| - 1], c);
    }
  }

  // ------------------------------------------------------ the node as a run

  /**
   A node between two instructions.  `file` and `log` are the records its two files hold
   (as bytes, `EncodeAll` of them); `pending` has, by row, the writes that are in the log
   but not yet in the tablet (each holds its row lock); `saving` is the stretch of
   tbl_saving between writing the file and truncating the log; `overtaken` is what was
   pending when that file was written.
   */
  datatype State = State(
    mem: Tablet, file: seq<Record>, log: seq<Record>, pending: map<string, Write>,
    saving: bool, overtaken: map<string, Write>)

  datatype Step =
    | Append(w: Write)
    | Apply(row: string)
    | Save(records: seq<Record>)
    | Truncate
    | CrashRestart
    | PullFrom(peer: Contents)

  function RecordOf(w: Write): Record {
    match w.effect
    case Some(v) => Put(w.cell.row, w.cell.col, v)
    case None => Delete(w.cell.row, w.cell.col)
  }

  /** Lengths of what crosses the wire fit an int. */
  predicate WriteFits(w: Write) { Fits(RecordOf(w)) }

  ghost predicate ContentsFit(m: Contents) {
    forall c :: c in m ==> Fits(Data(c.row, c.col, m[c]))
  }

  /** What a restart of the repaired code would give now. */
  function RestartNow(s: State): Option<Tablet> {
    Restart(REPAIRED, EncodeAll(REPAIRED, s.file), EncodeAll(REPAIRED, s.log))
  }

  /** checkpt_log_p / del_log: under lglk, so not during a save, and with the row lock just taken. */
  predicate NextAppend(s: State, w: Write, s': State) {
    && !s.saving && w.cell.row !in s.pending && WriteFits(w)
    && s' == s.(log := s.log + [RecordOf(w)], pending := s.pending[w.cell.row := w])
  }

  /** conduct_p / conduct_d of the write logged for this row. */
  predicate NextApply(s: State, row: string, s': State) {
    && row in s.pending
    && s' == s.(mem := ApplyRecord(s.mem, RecordOf(s.pending[row])), pending := s.pending - {row})
  }

  /** tbl_saving up to the truncation: the file is rewritten, in the map's own order. */
  ghost predicate NextSave(s: State, rs: seq<Record>, s': State) {
    && !s.saving && Enumerates(rs, s.mem)
    && s' == s.(file := rs, saving := true, overtaken := s.pending)
  }

  /** ftruncate(logfd, 0). */
  predicate NextTruncate(s: State, s': State) {
    && s.saving
    && s' == s.(log := [], saving := false, overtaken := map[])
  }

  /** A crash anywhere, then tbl_lding and log_operation on the bytes of the two files. */
  predicate NextCrashRestart(s: State, s': State) {
    && RestartNow(s) == Some(s'.mem)
    && s' == State(s'.mem, s.file, s.log, map[], false, map[])
  }

  /** peer_to_syn_tab: unlogged puts of the peer's cells, before the node serves or checkpoints. */
  ghost predicate NextPull(s: State, peer: Contents, s': State) {
    && !s.saving && s.pending == map[] && ContentsFit(peer)
    && ContentsOf(s'.mem) == ContentsOf(s.mem) + peer
    && s' == s.(mem := s'.mem)
  }

  ghost predicate Next(s: State, step: Step, s': State) {
    match step
    case Append(w) => NextAppend(s, w, s')
    case Apply(row) => NextApply(s, row, s')
    case Save(rs) => NextSave(s, rs, s')
    case Truncate => NextTruncate(s, s')
    case CrashRestart => NextCrashRestart(s, s')
    case PullFrom(peer) => NextPull(s, peer, s')
  }

  /** Cell `c` of memory with the logged, unapplied writes in place. */
  function Expected(s: State, c: Cell): Option<string> {
    if c.row in s.pending && s.pending[c.row].cell == c then s.pending[c.row].effect
    else Lookup(ContentsOf(s.mem), c)
  }

  /** The contents of the checkpoint file. */
  function Loaded(s: State): Contents { ContentsOf(ApplyAll(map[], s.file)) }

  /** Cell `c` of the checkpoint just written, with the writes it overtook in place. */
  function Overtaken(s: State, c: Cell): Option<string> {
    if c.row in s.overtaken && s.overtaken[c.row].cell == c then s.overtaken[c.row].effect
    else Lookup(Loaded(s), c)
  }

  /** The guard of a safe truncation: no write the checkpoint overtook would change its file. */
  ghost predicate NothingOvertaken(s: State) {
    forall row :: row in s.overtaken ==>
      Lookup(Loaded(s), s.overtaken[row].cell) == s.overtaken[row].effect
  }

  /** The guard of a pull that needs no checkpoint after it. */
  ghost predicate BringsNothing(s: State, peer: Contents) {
    forall c :: Lookup(ContentsOf(s.mem) + peer, c) == Lookup(ContentsOf(s.mem), c)
  }

  ghost predicate Shape(s: State) {
    && (forall r :: r in s.file ==> r.Data? && Fits(r))
    && (forall r :: r in s.log ==> !r.Data? && Fits(r))
    && ContentsFit(ContentsOf(s.mem))
    && (forall row :: row in s.pending ==> s.pending[row].cell.row == row && WriteFits(s.pending[row]))
    && (forall row :: row in s.overtaken ==> s.overtaken[row].cell.row == row)
  }

  /** The files hold memory plus the logged, unapplied writes. */
  ghost predicate Durable(s: State) {
    forall c :: Replayed(Loaded(s), s.log, c) == Expected(s, c)
  }

  /** While the log still covers the new file, memory plus pending is the file plus what it overtook. */
  ghost predicate SavingCovered(s: State) {
    forall c :: Expected(s, c) == Overtaken(s, c)
  }

  /** While saving, what is pending was pending when the file was written, and its cell has not changed since. */
  ghost predicate SavingHeld(s: State) {
    forall row :: row in s.pending ==>
      && row in s.overtaken && s.overtaken[row] == s.pending[row]
      && Lookup(ContentsOf(s.mem), s.pending[row].cell) == Lookup(Loaded(s), s.pending[row].cell)
  }

  /** A pending write is in the log, or would not change memory. */
  ghost predicate PendingLogged(s: State) {
    forall row :: row in s.pending ==>
      LastEffect(s.log, s.pending[row].cell).Some?
      || Lookup(ContentsOf(s.mem), s.pending[row].cell) == s.pending[row].effect
  }

  ghost predicate Inv(s: State) {
    && Shape(s)
    && (s.saving ==> SavingCovered(s) && SavingHeld(s))
    && PendingLogged(s)
  }

  // --------------------------------------------------------------- proofs

  lemma RestartReadsTheRecords(s: State)
    requires Shape(s)
    ensures RestartNow(s) == Some(ApplyAll(ApplyAll(map[], s.file), s.log))
  {
    RecordsParseBack(false, s.file);
    RecordsParseBack(true, s.log);
  }

  /** What a restart would put in cell `c`. */
  lemma RestartCell(s: State, t: Tablet, c: Cell)
    requires Shape(s) && RestartNow(s) == Some(t)
    ensures Lookup(ContentsOf(t), c) == Replayed(Loaded(s), s.log, c)
  {
    RestartReadsTheRecords(s);
    ReplayIsLastEffect(ApplyAll(map[], s.file), s.log, c);
  }

  lemma LastEffectSnoc(rs: seq<Record>, r: Record, c: Cell)
    ensures LastEffect(rs + [r], c) == if CellOf(r) == c then Some(EffectOf(r)) else LastEffect(rs, c)
  {
    assert (rs + [r])[..|rs|] == rs;
  }

  lemma RecordOfWrite(w: Write)
    ensures CellOf(RecordOf(w)) == w.cell && EffectOf(RecordOf(w)) == w.effect
  {
  }

  lemma AppendKeepsShape(s: State, w: Write, s': State)
    requires Shape(s) && NextAppend(s, w, s')
    ensures Shape(s')
  {
    assert WriteFits(w);
    forall r | r in s'.log
      ensures !r.Data? && Fits(r)
    {
      assert r in s.log || r == RecordOf(w);
    }
  }

  lemma AppendCell(s: State, w: Write, s': State, c: Cell)
    requires Shape(s) && NextAppend(s, w, s')
    ensures LastEffect(s'.log, c) == if w.cell == c then Some(w.effect) else LastEffect(s.log, c)
    ensures Expected(s', c) == if w.cell == c then w.effect else Expected(s, c)
  {
    RecordOfWrite(w);
    LastEffectSnoc(s.log, RecordOf(w), c);
  }

  lemma AppendKeepsDurable(s: State, w: Write, s': State)
    requires Shape(s) && NextAppend(s, w, s') && Durable(s)
    ensures Durable(s')
  {
    assert Loaded(s') == Loaded(s);
    forall c
      ensures Replayed(Loaded(s'), s'.log, c) == Expected(s', c)
    {
      AppendCell(s, w, s', c);
      assert Replayed(Loaded(s), s.log, c) == Expected(s, c);
    }
  }

  lemma AppendKeepsInv(s: State, w: Write, s': State)
    requires Inv(s) && NextAppend(s, w, s')
    ensures Inv(s')
  {
    AppendKeepsShape(s, w, s');
    forall row | row in s'.pending
      ensures LastEffect(s'.log, s'.pending[row].cell).Some?
              || Lookup(ContentsOf(s'.mem), s'.pending[row].cell) == s'.pending[row].effect
    {
      AppendCell(s, w, s', s'.pending[row].cell);
    }
  }

  lemma ApplyContents(s: State, row: string, s': State)
    requires Shape(s) && NextApply(s, row, s')
    ensures ContentsOf(s'.mem) == Update(ContentsOf(s.mem), s.pending[row].cell, s.pending[row].effect)
  {
    RecordOfWrite(s.pending[row]);
    RecordContents(s.mem, RecordOf(s.pending[row]));
  }

  lemma ApplyKeepsExpected(s: State, row: string, s': State, c: Cell)
    requires Shape(s) && NextApply(s, row, s')
    ensures Expected(s', c) == Expected(s, c)
  {
    ApplyContents(s, row, s');
  }

  lemma ApplyKeepsShape(s: State, row: string, s': State)
    requires Shape(s) && NextApply(s, row, s')
    ensures Shape(s')
  {
    ApplyContents(s, row, s');
    var w := s.pending[row];
    assert WriteFits(w);
    forall c | c in ContentsOf(s'.mem)
      ensures Fits(Data(c.row, c.col, ContentsOf(s'.mem)[c]))
    {
      if c != w.cell {
        assert Lookup(ContentsOf(s'.mem), c) == Lookup(ContentsOf(s.mem), c);
      }
    }
  }

  lemma ApplyKeepsOthers(s: State, row: string, s': State, r: string)
    requires Shape(s) && NextApply(s, row, s') && r in s'.pending
    ensures Lookup(ContentsOf(s'.mem), s'.pending[r].cell) == Lookup(ContentsOf(s.mem), s'.pending[r].cell)
  {
    ApplyContents(s, row, s');
    assert s'.pending[r].cell.row == r && s.pending[row].cell.row == row;
  }

  lemma ApplyKeepsInv(s: State, row: string, s': State)
    requires Inv(s) && NextApply(s, row, s')
    ensures Inv(s')
    ensures Durable(s) ==> Durable(s')
  {
    ApplyKeepsShape(s, row, s');
    forall c
      ensures Expected(s', c) == Expected(s, c)
    {
      ApplyKeepsExpected(s, row, s', c);
    }
    assert Durable(s) ==> Durable(s');
    assert SavingCovered(s) ==> SavingCovered(s') by {
      assert forall c :: Overtaken(s', c) == Overtaken(s, c);
    }
    forall r | r in s'.pending
      ensures Lookup(ContentsOf(s'.mem), s'.pending[r].cell) == Lookup(ContentsOf(s.mem), s'.pending[r].cell)
    {
      ApplyKeepsOthers(s, row, s', r);
    }
  }

  lemma EnumerationFits(m: Contents, rs: seq<Record>, t: Tablet, i: nat)
    requires m == ContentsOf(t) && ContentsFit(m) && Enumerates(rs, t) && i < |rs|
    ensures rs[i].Data? && Fits(rs[i])
  {
    var c := CellOf(rs[i]);
    assert Lookup(m, c) == Some(rs[i].value);
    assert c in m && Fits(Data(c.row, c.col, m[c]));
  }

  lemma SaveKeepsShape(s: State, rs: seq<Record>, s': State)
    requires Shape(s) && NextSave(s, rs, s')
    ensures Shape(s')
  {
    forall i | 0 <= i < |rs|
      ensures rs[i].Data? && Fits(rs[i])
    {
      EnumerationFits(ContentsOf(s.mem), rs, s.mem, i);
    }
  }

  lemma SaveKeepsCell(s: State, rs: seq<Record>, s': State, c: Cell)
    requires PendingLogged(s) && NextSave(s, rs, s') && Loaded(s') == ContentsOf(s.mem)
    ensures Expected(s', c) == Expected(s, c) == Overtaken(s', c)
    ensures Replayed(Loaded(s), s.log, c) == Expected(s, c) ==> Replayed(Loaded(s'), s'.log, c) == Expected(s', c)
  {
  }

  lemma SaveKeepsInv(s: State, rs: seq<Record>, s': State)
    requires Inv(s) && NextSave(s, rs, s')
    ensures Inv(s')
    ensures Durable(s) ==> Durable(s')
  {
    SaveThenLoad(rs, s.mem);
    SaveKeepsShape(s, rs, s');
    forall c
      ensures Expected(s', c) == Overtaken(s', c)
      ensures Replayed(Loaded(s), s.log, c) == Expected(s, c) ==> Replayed(Loaded(s'), s'.log, c) == Expected(s', c)
    {
      SaveKeepsCell(s, rs, s', c);
    }
  }

  lemma TruncateCell(s: State, s': State, c: Cell)
    requires Inv(s) && NextTruncate(s, s')
    ensures Replayed(Loaded(s'), s'.log, c) == Lookup(Loaded(s), c)
    ensures Expected(s', c) == Overtaken(s, c)
  {
    assert Expected(s, c) == Overtaken(s, c);
  }

  lemma TruncateSafe(s: State, s': State)
    requires Inv(s) && NextTruncate(s, s') && NothingOvertaken(s)
    ensures Inv(s')
    ensures Durable(s')
  {
    forall c
      ensures Replayed(Loaded(s'), s'.log, c) == Expected(s', c)
    {
      TruncateCell(s, s', c);
    }
    forall row | row in s'.pending
      ensures Lookup(ContentsOf(s'.mem), s'.pending[row].cell) == s'.pending[row].effect
    {
      assert row in s.overtaken;
    }
  }

  lemma TruncateLossy(s: State, s': State)
    requires Inv(s) && NextTruncate(s, s') && !NothingOvertaken(s)
    ensures !Durable(s')
  {
    var row :| row in s.overtaken && Lookup(Loaded(s), s.overtaken[row].cell) != s.overtaken[row].effect;
    TruncateCell(s, s', s.overtaken[row].cell);
  }

  lemma CrashRestartKeepsInv(s: State, s': State)
    requires Inv(s) && NextCrashRestart(s, s')
    ensures Inv(s')
    ensures Durable(s')
  {
    forall c
      ensures Lookup(ContentsOf(s'.mem), c) == Replayed(Loaded(s), s.log, c)
      ensures c in ContentsOf(s'.mem) ==> Fits(Data(c.row, c.col, ContentsOf(s'.mem)[c]))
    {
      RestartCell(s, s'.mem, c);
      LastEffectFits(s.log, c);
      ReplayIsLastEffect(map[], s.file, c);
      LastEffectFits(s.file, c);
      assert ContentsOf(map[]) == map[];
    }
  }

  lemma {:induction false} LastEffectFits(rs: seq<Record>, c: Cell)
    requires forall r :: r in rs ==> Fits(r)
    ensures LastEffect(rs, c).Some? && LastEffect(rs, c).value.Some? ==>
              Fits(Data(c.row, c.col, LastEffect(rs, c).value.value))
  {
    if rs != [] {
      assert rs[|rs| - 1] in rs;
      if CellOf(rs[|rs| - 1]) != c {
        LastEffectFits(rs[..|rs| - 1], c);
      }
    }
  }

  lemma PullKeepsInv(s: State, peer: Contents, s': State)
    requires Inv(s) && NextPull(s, peer, s')
    ensures Inv(s')
  {
    PullFits(ContentsOf(s.mem), peer);
  }

  lemma PullCell(s: State, peer: Contents, s': State, c: Cell)
    requires NextPull(s, peer, s') && Durable(s)
    ensures Replayed(Loaded(s'), s'.log, c) == Lookup(ContentsOf(s.mem), c)
    ensures Expected(s', c) == Lookup(ContentsOf(s.mem) + peer, c)
  {
    assert Replayed(Loaded(s), s.log, c) == Expected(s, c);
  }

  lemma PullDurableExactly(s: State, peer: Contents, s': State)
    requires NextPull(s, peer, s') && Durable(s)
    ensures Durable(s') <==> BringsNothing(s, peer)
  {
    forall c
      ensures Replayed(Loaded(s'), s'.log, c) == Lookup(ContentsOf(s.mem), c)
      ensures Expected(s', c) == Lookup(ContentsOf(s.mem) + peer, c)
    {
      PullCell(s, peer, s', c);
    }
  }

  lemma PullFits(m: Contents, peer: Contents)
    requires ContentsFit(m) && ContentsFit(peer)
    ensures ContentsFit(m + peer)
  {
    forall c | c in m + peer
      ensures Fits(Data(c.row, c.col, (m + peer)[c]))
    {
      assert (m + peer)[c] == if c in peer then peer[c] else m[c];
    }
  }

  lemma StepKeepsInv(s: State, step: Step, s': State)
    requires Inv(s) && Next(s, step, s') && (step.Truncate? ==> NothingOvertaken(s))
    ensures Inv(s')
    ensures step.Truncate? || step.CrashRestart? || (Durable(s) && !step.PullFrom?) ==> Durable(s')
  {
    match step
    case Append(w) =>
      AppendKeepsInv(s, w, s');
      if Durable(s) {
        AppendKeepsDurable(s, w, s');
      }
    case Apply(row) => ApplyKeepsInv(s, row, s');
    case Save(rs) => SaveKeepsInv(s, rs, s');
    case Truncate => TruncateSafe(s, s');
    case CrashRestart => CrashRestartKeepsInv(s, s');
    case PullFrom(peer) => PullKeepsInv(s, peer, s');
  }

  /** The two ways to have in memory what the files do not give back. */
  ghost predicate CarefulStep(s: State, step: Step) {
    match step
    case Truncate => NothingOvertaken(s)
    case PullFrom(peer) => BringsNothing(s, peer)
    case _ => true
  }

  /**
   Every step of a durable node keeps it durable, with two exceptions that are characterised
   exactly: a log truncation does if and only if no write that was logged but not applied
   when the checkpoint was written would change the checkpoint, and a pull from a peer,
   which is not logged, if and only if it brings nothing new.
   */
  lemma StepKeepsInvExactly(s: State, step: Step, s': State)
    requires Inv(s) && Durable(s) && Next(s, step, s')
    ensures Inv(s') && Durable(s') <==> CarefulStep(s, step)
  {
    if step.Truncate? && !NothingOvertaken(s) {
      TruncateLossy(s, s');
    } else {
      StepKeepsInv(s, step, s');
      if step.PullFrom? {
        PullDurableExactly(s, step.peer, s');
      }
    }
  }

  /** A run from a fresh node. */
  ghost predicate IsRun(states: seq<State>, steps: seq<Step>) {
    && |states| == |steps| + 1
    && states[0] == State(map[], [], [], map[], false, map[])
    && forall i :: 0 <= i < |steps| ==> Next(states[i], steps[i], states[i + 1])
  }

  /** No truncation of the run overtook a logged write that mattered. */
  ghost predicate CarefulRun(states: seq<State>, steps: seq<Step>)
    requires |states| == |steps| + 1
  {
    forall i :: 0 <= i < |steps| && steps[i].Truncate? ==> NothingOvertaken(states[i])
  }

  /** Were cells pulled from a peer after the last completed checkpoint or restart? */
  predicate Unsaved(steps: seq<Step>) {
    if steps == [] then false
    else
      match steps[|steps| - 1]
      case PullFrom(_) => true
      case Truncate => false
      case CrashRestart => false
      case _ => Unsaved(steps[..|steps| - 1])
  }

  lemma RunPrefix(states: seq<State>, steps: seq<Step>, n: nat)
    requires IsRun(states, steps) && n <= |steps|
    ensures IsRun(states[..n + 1], steps[..n])
  {
    forall i | 0 <= i < n
      ensures Next(states[..n + 1][i], steps[..n][i], states[..n + 1][i + 1])
    {
      assert Next(states[i], steps[i], states[i + 1]);
    }
  }

  lemma InitInv()
    ensures Inv(State(map[], [], [], map[], false, map[])) && Durable(State(map[], [], [], map[], false, map[]))
  {
    assert ContentsOf(map[]) == map[];
  }

  lemma {:induction false} RunKeepsInv(states: seq<State>, steps: seq<Step>)
    requires IsRun(states, steps) && CarefulRun(states, steps)
    ensures Inv(states[|steps|])
    ensures !Unsaved(steps) ==> Durable(states[|steps|])
  {
    if |steps| == 0 {
      InitInv();
    } else {
      var n := |steps| - 1;
      RunPrefix(states, steps, n);
      RunKeepsInv(states[..n + 1], steps[..n]);
      StepKeepsInv(states[n], steps[n], states[n + 1]);
    }
  }

  /** A restart now would come up with exactly memory and the logged, unapplied writes. */
  ghost predicate Recovers(s: State) {
    RestartNow(s).Some? && forall c :: Lookup(ContentsOf(RestartNow(s).value), c) == Expected(s, c)
  }

  lemma RecoversIsDurable(s: State)
    requires Shape(s)
    ensures Recovers(s) <==> Durable(s)
  {
    RestartReadsTheRecords(s);
    forall c
      ensures Lookup(ContentsOf(RestartNow(s).value), c) == Replayed(Loaded(s), s.log, c)
    {
      RestartCell(s, RestartNow(s).value, c);
    }
  }

  /**
   Crash recovery.  After any run of puts, deletes, checkpoints, crashes and peer pulls,
   a crash at any point (also after the tablet file is written and before the log is
   truncated) comes back up with exactly the memory of the node and the logged, unapplied
   writes, provided no truncation overtook a logged write that mattered and the cells
   last pulled from a peer have been checkpointed.
   */
  lemma CrashRecovery(states: seq<State>, steps: seq<Step>)
    requires IsRun(states, steps) && CarefulRun(states, steps) && !Unsaved(steps)
    ensures Recovers(states[|steps|])
  {
    RunKeepsInv(states, steps);
    RecoversIsDurable(states[|steps|]);
  }

  /** The first n steps are careful. */
  ghost predicate CarefulUpTo(states: seq<State>, steps: seq<Step>, n: nat)
    requires |states| == |steps| + 1 && n <= |steps|
  {
    forall i :: 0 <= i < n ==> CarefulStep(states[i], steps[i])
  }

  lemma {:induction false} CarefulStepsRecover(states: seq<State>, steps: seq<Step>, n: nat)
    requires IsRun(states, steps) && n <= |steps| && CarefulUpTo(states, steps, n)
    ensures Inv(states[n]) && Durable(states[n]) && Recovers(states[n])
  {
    if n == 0 {
      InitInv();
    } else {
      CarefulStepsRecover(states, steps, n - 1);
      StepKeepsInvExactly(states[n - 1], steps[n - 1], states[n]);
    }
    RecoversIsDurable(states[n]);
  }

  lemma CarelessStepShows(s: State, step: Step, s': State)
    requires Inv(s) && Durable(s) && Next(s, step, s') && !CarefulStep(s, step)
    ensures !Recovers(s')
  {
    assert Shape(s') by {
      if step.PullFrom? {
        PullKeepsInv(s, step.peer, s');
      }
    }
    RecoversIsDurable(s');
    if step.Truncate? {
      TruncateLossy(s, s');
    } else {
      PullDurableExactly(s, step.peer, s');
    }
  }

  /**
   Exactly which runs never leave the node with something a crash would lose: every state
   of the run recovers, if and only if every truncation of it overtook no logged write that
   mattered and every pull brought nothing new.
   */
  lemma RunRecoversExactly(states: seq<State>, steps: seq<Step>)
    requires IsRun(states, steps)
    ensures (forall n :: 0 <= n <= |steps| ==> Recovers(states[n])) <==> CarefulUpTo(states, steps, |steps|)
  {
    if CarefulUpTo(states, steps, |steps|) {
      forall n | 0 <= n <= |steps| ensures Recovers(states[n]) {
        CarefulStepsRecover(states, steps, n);
      }
    } else {
      var n := FirstCareless(states, steps, |steps|);
      CarefulStepsRecover(states, steps, n);
      CarelessStepShows(states[n], steps[n], states[n + 1]);
    }
  }

  lemma {:induction false} FirstCareless(states: seq<State>, steps: seq<Step>, m: nat) returns (n: nat)
    requires |states| == |steps| + 1 && m <= |steps| && !CarefulUpTo(states, steps, m)
    ensures n < m && CarefulUpTo(states, steps, n) && !CarefulStep(states[n], steps[n])
  {
    if CarefulUpTo(states, steps, m - 1) {
      n := m - 1;
    } else {
      n := FirstCareless(states, steps, m - 1);
    }
  }

  /**
   The window is real: log a put, checkpoint, truncate, apply and acknowledge it.  The
   value is in memory and a restart does not have it.
   */
  lemma OvertakenWriteIsLost() returns (states: seq<State>, steps: seq<Step>)
    ensures IsRun(states, steps)
    ensures states[|steps|].pending == map[] && !Unsaved(steps)
    ensures Lookup(ContentsOf(states[|steps|].mem), Cell("r", "c")) == Some("v")
    ensures RestartNow(states[|steps|]) == Some(map[])
  {
    var w := Write(Cell("r", "c"), Some("v"));
    var s0 := State(map[], [], [], map[], false, map[]);
    var s1 := s0.(log := [RecordOf(w)], pending := map["r" := w]);
    var s2 := s1.(saving := true, overtaken := s1.pending);
    var s3 := s2.(log := [], saving := false, overtaken := map[]);
    var s4 := s3.(mem := ApplyRecord(map[], RecordOf(w)), pending := map[]);
    steps := [Append(w), Save([]), Truncate, Apply("r")];
    states := [s0, s1, s2, s3, s4];
    LossyAppend(w, s0, s1);
    EmptyEnumeration();
    LossyApply(w, s3, s4);
    EmptyRestart(s4);
  }

  lemma LossyAppend(w: Write, s0: State, s1: State)
    requires s0 == State(map[], [], [], map[], false, map[])
    requires s1 == s0.(log := [RecordOf(w)], pending := map[w.cell.row := w]) && WriteFits(w)
    ensures NextAppend(s0, w, s1)
  {
    assert s0.log + [RecordOf(w)] == s1.log;
  }

  lemma LossyApply(w: Write, s3: State, s4: State)
    requires s3.mem == map[] && s3.pending == map[w.cell.row := w]
    requires s4 == s3.(mem := ApplyRecord(map[], RecordOf(w)), pending := map[])
    ensures NextApply(s3, w.cell.row, s4)
    ensures Lookup(ContentsOf(s4.mem), w.cell) == w.effect
  {
    assert s3.pending - {w.cell.row} == map[];
    RecordOfWrite(w);
    RecordContents(map[], RecordOf(w));
  }

  lemma EmptyEnumeration()
    ensures Enumerates([], map[])
  {
    assert ContentsOf(map[]) == map[];
  }

  lemma EmptyRestart(s: State)
    requires s.file == [] && s.log == []
    ensures RestartNow(s) == Some(map[])
  {
    RecordsParseBack(false, []);
    RecordsParseBack(true, []);
  }
}
