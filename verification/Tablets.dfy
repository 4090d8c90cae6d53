/**
 The in-memory tablet of a storage node (src/kv/KVClass.h), as the source keeps it: a
 map from row keys to rows, each row a map from column keys to values.  Rows may be
 empty; `Contents` is the view in which they cannot be told from absent ones.
 */
module Tablets {
  import opened Basics

  type Row = map<string, string>
  type Tablet = map<string, Row>
  type Contents = map<Cell, string>

  /** One write to one cell: `Some` for a PUT, `None` for a DELETE. */
  datatype Write = Write(cell: Cell, effect: Option<string>)

  function RowOf(t: Tablet, rk: string): Row {
    if rk in t then t[rk] else map[]
  }

  /** `conduct_p`: an absent row is created. */
  function ConductPut(t: Tablet, rk: string, ck: string, v: string): Tablet {
    t[rk := RowOf(t, rk)[ck := v]]
  }

  /** `conduct_d`: a row that loses its last column stays behind, empty. */
  function ConductDelete(t: Tablet, rk: string, ck: string): Tablet {
    if rk in t && ck in t[rk] then t[rk := t[rk] - {ck}] else t
  }

  function DeletedKeys(t: Tablet, rk: string, ck: string): nat {
    if rk in t && ck in t[rk] then 1 else 0
  }

  /** The cells of a tablet. */
  function ContentsOf(t: Tablet): Contents {
    map rk, ck | rk in t && ck in t[rk] :: Cell(rk, ck) := t[rk][ck]
  }

  lemma ContentsLookup(t: Tablet, c: Cell)
    ensures Lookup(ContentsOf(t), c) == if c.row in t then Lookup(t[c.row], c.col) else None
  {
    assert c == Cell(c.row, c.col);
  }

  /** A tablet put is one write to the contents and touches no other cell. */
  lemma PutContents(t: Tablet, rk: string, ck: string, v: string)
    ensures ContentsOf(ConductPut(t, rk, ck, v)) == Update(ContentsOf(t), Cell(rk, ck), Some(v))
  {
    forall c: Cell
      ensures Lookup(ContentsOf(ConductPut(t, rk, ck, v)), c)
           == Lookup(Update(ContentsOf(t), Cell(rk, ck), Some(v)), c)
    {
      ContentsLookup(t, c);
      ContentsLookup(ConductPut(t, rk, ck, v), c);
    }
    SameLookupsSameMap(ContentsOf(ConductPut(t, rk, ck, v)), Update(ContentsOf(t), Cell(rk, ck), Some(v)));
  }

  /** A tablet delete is one removal from the contents, whether or not the cell was there. */
  lemma DeleteContents(t: Tablet, rk: string, ck: string)
    ensures ContentsOf(ConductDelete(t, rk, ck)) == Update(ContentsOf(t), Cell(rk, ck), None)
    ensures DeletedKeys(t, rk, ck) == 1 <==> Cell(rk, ck) in ContentsOf(t)
  {
    forall c: Cell
      ensures Lookup(ContentsOf(ConductDelete(t, rk, ck)), c)
           == Lookup(Update(ContentsOf(t), Cell(rk, ck), None), c)
    {
      ContentsLookup(t, c);
      ContentsLookup(ConductDelete(t, rk, ck), c);
    }
    SameLookupsSameMap(ContentsOf(ConductDelete(t, rk, ck)), Update(ContentsOf(t), Cell(rk, ck), None));
    ContentsLookup(t, Cell(rk, ck));
  }

  // ---------------------------------------------------------------- requests

  datatype Code = OK | NotFound | InvalidArgument | Unavailable | FailedPrecondition

  datatype GetReply = Value(value: string) | Missing(code: Code)

  function Get(t: Tablet, rk: string, ck: string): GetReply {
    if rk !in t then Missing(NotFound)
    else if ck !in t[rk] then Missing(NotFound)
    else Value(t[rk][ck])
  }

  /** A Get answers the value the cell holds, and NOT_FOUND exactly if it holds none. */
  lemma GetExact(t: Tablet, rk: string, ck: string, v: string)
    ensures Get(t, rk, ck) == Value(v) <==> Lookup(ContentsOf(t), Cell(rk, ck)) == Some(v)
    ensures Get(t, rk, ck) == Missing(NotFound) <==> Cell(rk, ck) !in ContentsOf(t)
    ensures Get(t, rk, ck).Missing? ==> Get(t, rk, ck) == Missing(NotFound)
  {
    ContentsLookup(t, Cell(rk, ck));
  }

  /** A Get after a put or a delete sees that write on its own cell and nothing of it on another. */
  lemma ReadAfterWrite(t: Tablet, rk: string, ck: string, v: string, row: string, col: string)
    ensures Get(ConductPut(t, rk, ck, v), row, col) == if row == rk && col == ck then Value(v) else Get(t, row, col)
    ensures Get(ConductDelete(t, rk, ck), row, col) == if row == rk && col == ck then Missing(NotFound) else Get(t, row, col)
  {
  }

  /** What the compare step of CPut decides.  `Abort` is the failed map access that ends the process. */
  datatype Verdict = Commit | Refuse(code: Code) | Abort

  /**
   The compare step of CPut.  The shipped code reads `cols().at(ck)` before it looks at
   whether the column exists (`checkedAt == false`); the repaired code guards the read.
   */
  function Compare(t: Tablet, rk: string, ck: string, v1: string, checkedAt: bool): Verdict {
    if !(v1 == "" || rk in t) then Refuse(NotFound)
    else if !(v1 == "" || ck in RowOf(t, rk)) then Refuse(NotFound)
    else if !checkedAt && ck !in RowOf(t, rk) then Abort
    else if (v1 == "" && ck !in RowOf(t, rk)) || (ck in RowOf(t, rk) && RowOf(t, rk)[ck] == v1) then Commit
    else Refuse(FailedPrecondition)
  }

  /** CPut reaches its row through the mutable map, so passing the first test creates the row. */
  function TouchRow(t: Tablet, rk: string, v1: string): Tablet {
    if v1 == "" || rk in t then t[rk := RowOf(t, rk)] else t
  }

  /** Does the value (absent counting as "") match the expected one? */
  predicate Matches(held: Option<string>, v1: string) {
    held == Some(v1) || (held == None && v1 == "")
  }

  /**
   Repaired CPut commits exactly when the held value matches, absent counting as "".
   Shipped CPut commits exactly when the column is there and equal: it can never create
   a cell, and aborts the process exactly on the create-if-absent call.
   */
  lemma CompareExact(t: Tablet, rk: string, ck: string, v1: string)
    ensures Compare(t, rk, ck, v1, true) == Commit <==> Matches(Lookup(ContentsOf(t), Cell(rk, ck)), v1)
    ensures Compare(t, rk, ck, v1, true) != Abort
    ensures Compare(t, rk, ck, v1, false) == Commit <==> Lookup(ContentsOf(t), Cell(rk, ck)) == Some(v1)
    ensures Compare(t, rk, ck, v1, false) == Abort <==> v1 == "" && Cell(rk, ck) !in ContentsOf(t)
    ensures Compare(t, rk, ck, v1, false) != Abort ==> Compare(t, rk, ck, v1, false) == Compare(t, rk, ck, v1, true)
  {
    ContentsLookup(t, Cell(rk, ck));
  }

  /**
   A refusal of either form says NOT_FOUND exactly if a value is expected of an absent cell,
   FAILED_PRECONDITION exactly if the cell holds another value, and nothing else.
   */
  lemma RefusalExact(t: Tablet, rk: string, ck: string, v1: string, checkedAt: bool)
    ensures
      var held := Lookup(ContentsOf(t), Cell(rk, ck));
      var verdict := Compare(t, rk, ck, v1, checkedAt);
      && (verdict == Refuse(NotFound) <==> v1 != "" && held == None)
      && (verdict == Refuse(FailedPrecondition) <==> held.Some? && held.value != v1)
      && (verdict.Refuse? ==> verdict.code == NotFound || verdict.code == FailedPrecondition)
  {
    ContentsLookup(t, Cell(rk, ck));
  }

  /** CPut's compare step as a function of the cell alone. */
  function CellVerdict(held: Option<string>, v1: string, checkedAt: bool): Verdict {
    if v1 != "" && held == None then Refuse(NotFound)
    else if !checkedAt && held == None then Abort
    else if Matches(held, v1) then Commit
    else Refuse(FailedPrecondition)
  }

  /** It is the compare step on the tablet, whatever else the tablet holds. */
  lemma CellVerdictIsCompare(t: Tablet, rk: string, ck: string, v1: string, checkedAt: bool)
    ensures CellVerdict(Lookup(ContentsOf(t), Cell(rk, ck)), v1, checkedAt) == Compare(t, rk, ck, v1, checkedAt)
  {
    ContentsLookup(t, Cell(rk, ck));
  }

  lemma TouchRowContents(t: Tablet, rk: string, v1: string)
    ensures ContentsOf(TouchRow(t, rk, v1)) == ContentsOf(t)
  {
    forall c: Cell
      ensures Lookup(ContentsOf(TouchRow(t, rk, v1)), c) == Lookup(ContentsOf(t), c)
    {
      ContentsLookup(t, c);
      ContentsLookup(TouchRow(t, rk, v1), c);
    }
    SameLookupsSameMap(ContentsOf(TouchRow(t, rk, v1)), ContentsOf(t));
  }

  lemma TouchThenPut(t: Tablet, rk: string, ck: string, v1: string, v: string)
    ensures ConductPut(TouchRow(t, rk, v1), rk, ck, v) == ConductPut(t, rk, ck, v)
  {
  }

  /**
   Empty rows are unobservable: tablets with the same contents answer every request
   with the same code and value, and have the same contents after every update.
   */
  lemma EmptyRowsUnobservable(t: Tablet, u: Tablet, rk: string, ck: string, v: string, checkedAt: bool)
    requires ContentsOf(t) == ContentsOf(u)
    ensures Get(t, rk, ck) == Get(u, rk, ck)
    ensures Compare(t, rk, ck, v, checkedAt) == Compare(u, rk, ck, v, checkedAt)
    ensures DeletedKeys(t, rk, ck) == DeletedKeys(u, rk, ck)
    ensures ContentsOf(ConductPut(t, rk, ck, v)) == ContentsOf(ConductPut(u, rk, ck, v))
    ensures ContentsOf(ConductDelete(t, rk, ck)) == ContentsOf(ConductDelete(u, rk, ck))
    ensures ContentsOf(TouchRow(t, rk, v)) == ContentsOf(TouchRow(u, rk, v))
  {
    ContentsLookup(t, Cell(rk, ck));
    ContentsLookup(u, Cell(rk, ck));
    PutContents(t, rk, ck, v);
    PutContents(u, rk, ck, v);
    DeleteContents(t, rk, ck);
    DeleteContents(u, rk, ck);
    TouchRowContents(t, rk, v);
    TouchRowContents(u, rk, v);
  }
}
