/**
 What replay makes of a log whose last append a crash cut short (src/kv/KVClass.h:352-413,
 484-505), and the records as they stand in the files.
 */
module TornLogs {
  import opened Basics
  import opened Tablets
  import opened Records

  /** One record of each kind, byte for byte, and the shipped form of a PUT. */
  lemma Layout()
    ensures Encode(REPAIRED, Data("r", "cc", "v")) == "DATA 1 2 1\nr\ncc\nv\n"
    ensures Encode(REPAIRED, Put("r", "cc", "v")) == "PUT 1 2 1\nr\ncc\nv\n"
    ensures Encode(REPAIRED, Delete("r", "cc")) == "DELETE 1 2\nr\ncc\n"
    ensures Encode(SHIPPED, Put("r", "cc", "v")) == "PUT 1 2 1 r cc\nv\n"
  {
    assert Decimal(1) == "1" && Decimal(2) == "2";
  }

  /** The bytes of a PUT up to `m` bytes of its value. */
  function Torn(rk: string, ck: string, v: string, m: nat): string
    requires m <= |v|
  {
    Header3("PUT", rk, ck, v) + "\n" + rk + "\n" + ck + "\n" + v[..m]
  }

  /** What is read of it: the bytes that are missing are NULs. */
  function Filled(v: string, m: nat): string
    requires m <= |v|
  {
    v[..m] + Nuls(|v| - m)
  }

  lemma TornRead(rk: string, ck: string, v: string, m: nat)
    requires m <= |v|
    ensures
      var r := ReadSized(Open(rk + "\n" + (ck + "\n" + v[..m])), |rk|, |ck|, |v|);
      r.0 == rk && r.1 == ck && r.2 == Filled(v, m) && (!r.3.Good() || r.3.rest == "")
  {
    ReadAt(rk, ck + "\n" + v[..m]);
    ReadAt(ck, v[..m]);
    assert Nuls(0) == "" && v[..m] + "" == v[..m];
    assert m == |v| ==> v[..m][..m] == v[..m];
  }

  lemma TornBytes(rk: string, ck: string, v: string, m: nat)
    requires m <= |v|
    ensures Torn(rk, ck, v, m) == Header3("PUT", rk, ck, v) + "\n" + (rk + "\n" + (ck + "\n" + v[..m]))
  {
    var h := Header3("PUT", rk, ck, v) + "\n";
    Assoc(h + rk + "\n", ck + "\n", v[..m]);
    Assoc(h + rk + "\n", ck, "\n");
    Assoc(h + rk, "\n", ck + "\n" + v[..m]);
    Assoc(h, rk, "\n" + (ck + "\n" + v[..m]));
    Assoc(rk, "\n", ck + "\n" + v[..m]);
  }

  /** The reader takes a torn PUT for a whole one, with NULs for the bytes that were never written. */
  lemma TornTurn(rk: string, ck: string, v: string, m: nat) returns (next: Stream)
    requires m <= |v| && Fits(Put(rk, ck, v))
    ensures LogTurn(REPAIRED, Open(Torn(rk, ck, v, m))) == Took(Put(rk, ck, Filled(v, m)), next)
    ensures !next.Good() || next.rest == ""
  {
    var header, body := Header3("PUT", rk, ck, v), rk + "\n" + (ck + "\n" + v[..m]);
    HeaderTokens(REPAIRED, "PUT", rk, ck, v);
    TornBytes(rk, ck, v, m);
    GetLineAt(header, body);
    Header3Sizes(REPAIRED, "PUT", rk, ck, v);
    TornRead(rk, ck, v, m);
    next := ReadSized(Open(body), |rk|, |ck|, |v|).3;
  }

  /** Whole records before whatever follows are read first. */
  lemma {:induction false} ReadThenRest(rs: seq<Record>, tail: string)
    requires forall r :: r in rs ==> BelongsTo(true, r) && Fits(r)
    ensures
      var p := ParseStream(REPAIRED, true, Open(tail));
      ParseStream(REPAIRED, true, Open(EncodeAll(REPAIRED, rs) + tail)) == Parse(rs + p.records, p.aborted)
  {
    if rs == [] {
      NothingBefore(tail);
    } else {
      ReadThenRest(rs[1..], tail);
      FirstThenRest(rs, tail);
      ConsAppend(rs, ParseStream(REPAIRED, true, Open(tail)).records);
    }
  }

  lemma NothingBefore(tail: string)
    ensures EncodeAll(REPAIRED, []) + tail == tail
    ensures forall records: seq<Record> :: [] + records == records
  {
  }

  lemma FirstThenRest(rs: seq<Record>, tail: string)
    requires rs != [] && BelongsTo(true, rs[0]) && Fits(rs[0])
    ensures ParseStream(REPAIRED, true, Open(EncodeAll(REPAIRED, rs) + tail))
         == Prepend(rs[0], ParseStream(REPAIRED, true, Open(EncodeAll(REPAIRED, rs[1..]) + tail)))
  {
    Assoc(Encode(REPAIRED, rs[0]), EncodeAll(REPAIRED, rs[1..]), tail);
    ParseStreamAt(true, rs[0], EncodeAll(REPAIRED, rs[1..]) + tail);
  }

  lemma ConsAppend(rs: seq<Record>, more: seq<Record>)
    requires rs != []
    ensures [rs[0]] + (rs[1..] + more) == rs + more
  {
    assert rs == [rs[0]] + rs[1..];
  }

  /**
   A crash in the middle of an append is not noticed: with the repaired format, a log that
   ends within the value of a PUT is replayed as all records before it and that PUT, its
   missing bytes NUL.
   */
  lemma TornPutIsReplayed(rs: seq<Record>, rk: string, ck: string, v: string, m: nat)
    requires forall r :: r in rs ==> BelongsTo(true, r) && Fits(r)
    requires m <= |v| && Fits(Put(rk, ck, v))
    ensures ParseStream(REPAIRED, true, Open(EncodeAll(REPAIRED, rs) + Torn(rk, ck, v, m)))
         == Parse(rs + [Put(rk, ck, Filled(v, m))], false)
  {
    var next := TornTurn(rk, ck, v, m);
    assert ParseStream(REPAIRED, true, next) == Parse([], false);
    assert [Put(rk, ck, Filled(v, m))] + [] == [Put(rk, ck, Filled(v, m))];
    ReadThenRest(rs, Torn(rk, ck, v, m));
  }
}
