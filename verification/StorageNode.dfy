/**
 One storage node as an object (src/kv/KVClass.h): its tablet, its two files, its view of
 the primary, and the request handlers that change them.  Calls to a peer that is down
 fail and change nothing; writes to the node's own files succeed.
 */
module StorageNode {
  import opened Basics
  import opened Tablets
  import opened Records
  import opened Durability
  import opened Views

  /** What a handler does with a request: answer it, pass it to a peer, let an exception out, or take the process down. */
  datatype Answer = Done(code: Code, count: nat) | ForwardTo(peer: nat) | Threw | Crashed

  /** The coordinator's answer to a node that asks for its primary; where it is an Option, None is a call that failed. */
  datatype Report = Report(primary: string, nodes: seq<NodeView>)

  class KVNode {
    const build: Build
    const checkedAt: bool
    const addr: string
    const peerAddrs: seq<string>
    var peers: seq<KVNode>
    var running: bool
    var serving: bool
    var primaryIdx: int
    var tablet: Tablet
    var file: string
    var log: string

    constructor (build: Build, checkedAt: bool, addr: string, peerAddrs: seq<string>)
      ensures this.build == build && this.checkedAt == checkedAt && this.addr == addr && this.peerAddrs == peerAddrs
      ensures running && serving && primaryIdx == UK_STATUS
      ensures tablet == map[] && file == "" && log == "" && peers == []
    {
      this.build, this.checkedAt, this.addr, this.peerAddrs := build, checkedAt, addr, peerAddrs;
      peers, running, serving, primaryIdx := [], true, true, UK_STATUS;
      tablet, file, log := map[], "", "";
    }

    /** One stub for every peer address, to pairwise distinct other nodes. */
    ghost predicate Wired()
      reads this
    {
      && |peers| == |peerAddrs|
      && (forall i :: 0 <= i < |peers| ==> peers[i] != this)
      && (forall i, j :: 0 <= i < j < |peers| ==> peers[i] != peers[j])
      && (primaryIdx == M_STATUS || primaryIdx == UK_STATUS || 0 <= primaryIdx < |peers|)
    }

    /** Does a call to this node get through to a handler that serves? */
    predicate Reachable()
      reads this
    {
      running && serving
    }

    // ------------------------------------------------------- tablet and log

    method ConductP(rk: string, ck: string, ddt: string) returns (written: nat)
      modifies this`tablet
      ensures tablet == ConductPut(old(tablet), rk, ck, ddt) && written == |ddt|
    {
      var row := if rk in tablet then tablet[rk] else map[];
      row := row[ck := ddt];
      tablet := tablet[rk := row];
      written := |ddt|;
    }

    method ConductD(rk: string, ck: string) returns (deleted: nat)
      modifies this`tablet
      ensures tablet == ConductDelete(old(tablet), rk, ck) && deleted == DeletedKeys(old(tablet), rk, ck)
    {
      if rk !in tablet {
        return 0;
      }
      var row := tablet[rk];
      if ck !in row {
        return 0;
      }
      row := row - {ck};
      tablet := tablet[rk := row];
      return 1;
    }

    method CheckptLogP(rk: string, ck: string, ddt: string)
      modifies this`log
      ensures log == old(log) + Encode(build, Put(rk, ck, ddt))
    {
      var header := Header3("PUT", rk, ck, ddt);
      var keys := if build.putInline then header + " " + rk + " " + ck + "\n"
                  else header + "\n" + rk + "\n" + ck + "\n";
      Regroup(log, keys, ddt, "\n");
      log := log + keys;
      log := log + ddt;
      log := log + "\n";
    }

    method DelLog(rk: string, ck: string)
      modifies this`log
      ensures log == old(log) + Encode(build, Delete(rk, ck))
    {
      log := log + (Header2("DELETE", rk, ck) + "\n" + rk + "\n" + ck + "\n");
    }

    // ---------------------------------------------- checkpoint and recovery

    /** The two writes for one cell, and the newline. */
    method SaveCell(rk: string, ck: string, ddt: string)
      modifies this`file
      ensures file == old(file) + Encode(build, Data(rk, ck, ddt))
    {
      var header := Header3("DATA", rk, ck, ddt) + "\n" + rk + "\n" + ck + "\n";
      Regroup(file, header, ddt, "\n");
      file := file + header;
      file := file + ddt;
      file := file + "\n";
    }

    /** The inner loop of tbl_saving: appends one row's cells, in the map's own order. */
    method SaveRow(rk: string, ghost before: seq<Record>) returns (ghost records: seq<Record>)
      requires rk in tablet && Partial(before, tablet) && file == EncodeAll(build, before)
      requires forall c: Cell :: c.row == rk ==> !Listed(before, c)
      modifies this`file
      ensures Partial(records, tablet) && file == EncodeAll(build, records)
      ensures forall c: Cell :: Listed(records, c) <==> Listed(before, c) || (c.row == rk && c.col in tablet[rk])
    {
      records := before;
      var cols := tablet[rk].Keys;
      while cols != {}
        invariant cols <= tablet[rk].Keys
        invariant file == EncodeAll(build, records)
        invariant RowSaved(tablet, before, records, rk, cols)
        decreases cols
      {
        var ck :| ck in cols;
        var ddt := tablet[rk][ck];
        SaveCell(rk, ck, ddt);
        ListRowCell(build, tablet, before, records, rk, cols, ck);
        records := records + [Data(rk, ck, ddt)];
        cols := cols - {ck};
      }
    }

    /** tbl_saving: the file becomes an enumeration of the tablet, and the log is emptied. */
    method TblSaving() returns (ghost records: seq<Record>)
      modifies this`file, this`log
      ensures Enumerates(records, tablet)
      ensures file == EncodeAll(build, records) && log == ""
    {
      file := "";
      records := [];
      var rows := tablet.Keys;
      while rows != {}
        invariant rows <= tablet.Keys
        invariant file == EncodeAll(build, records) && RowsSaved(tablet, records, rows)
        decreases rows
      {
        var rk :| rk in rows;
        ghost var before := records;
        records := SaveRow(rk, records);
        RowDone(tablet, before, records, rows, rk);
        rows := rows - {rk};
      }
      AllSaved(tablet, records);
      log := "";
    }

    /** tbl_lding: puts every DATA record of the file; `exited` when the process ends on a bad one. */
    method TblLding() returns (exited: bool)
      modifies this`tablet
      ensures exited == ParseStream(build, false, Open(file)).aborted
      ensures tablet == ApplyAll(old(tablet), ParseStream(build, false, Open(file)).records)
    {
      var s := Open(file);
      while true
        invariant ParseStream(build, false, s).aborted == ParseStream(build, false, Open(file)).aborted
        invariant ApplyAll(tablet, ParseStream(build, false, s).records)
               == ApplyAll(old(tablet), ParseStream(build, false, Open(file)).records)
        decreases |s.rest|
      {
        var turn := FileTurn(build, s);
        match turn
        case Finished => return false;
        case Died => return true;
        case Ignored(next) => s := next;
        case Took(r, next) =>
          assert ParseStream(build, false, s) == Prepend(r, ParseStream(build, false, next));
          PrependApply(tablet, r, ParseStream(build, false, next));
          var _ := ConductP(r.row, r.col, r.value);
          s := next;
      }
    }

    /** log_operation: replays the log onto the tablet and counts the records it took. */
    method LogOperation() returns (taken: nat, exited: bool)
      modifies this`tablet
      ensures exited == ParseStream(build, true, Open(log)).aborted
      ensures taken == |ParseStream(build, true, Open(log)).records|
      ensures tablet == ApplyAll(old(tablet), ParseStream(build, true, Open(log)).records)
    {
      var s := Open(log);
      taken := 0;
      while true
        invariant ParseStream(build, true, s).aborted == ParseStream(build, true, Open(log)).aborted
        invariant taken + |ParseStream(build, true, s).records| == |ParseStream(build, true, Open(log)).records|
        invariant ApplyAll(tablet, ParseStream(build, true, s).records)
               == ApplyAll(old(tablet), ParseStream(build, true, Open(log)).records)
        decreases |s.rest|
      {
        var turn := LogTurn(build, s);
        match turn
        case Finished => return taken, false;
        case Died => return taken, true;
        case Ignored(next) => s := next;
        case Took(r, next) =>
          assert ParseStream(build, true, s) == Prepend(r, ParseStream(build, true, next));
          PrependApply(tablet, r, ParseStream(build, true, next));
          if r.Delete? {
            var _ := ConductD(r.row, r.col);
          } else {
            var _ := ConductP(r.row, r.col, r.value);
          }
          taken := taken + 1;
          s := next;
      }
    }

    /** The first half of start_initialize on an empty tablet: exactly `Restart` of the two files. */
    method Recover() returns (exited: bool, ghost restored: Option<Tablet>)
      requires tablet == map[]
      modifies this`tablet
      ensures restored == Restart(build, file, log)
      ensures restored == if exited then None else Some(tablet)
    {
      exited := TblLding();
      if !exited {
        var taken;
        taken, exited := LogOperation();
      }
      restored := Restart(build, file, log);
    }

    // ------------------------------------------------------------- peer sync

    method SyncRow(rk: string, ghost before: seq<Record>, sent: seq<Record>) returns (records: seq<Record>)
      requires rk in tablet && sent == before && Partial(before, tablet)
      requires forall c: Cell :: c.row == rk ==> !Listed(before, c)
      ensures Partial(records, tablet)
      ensures forall c: Cell :: Listed(records, c) <==> Listed(before, c) || (c.row == rk && c.col in tablet[rk])
    {
      records := sent;
      var cols := tablet[rk].Keys;
      while cols != {}
        invariant cols <= tablet[rk].Keys
        invariant RowSaved(tablet, before, records, rk, cols)
        decreases cols
      {
        var ck :| ck in cols;
        ListRowCell(build, tablet, before, records, rk, cols, ck);
        records := records + [Data(rk, ck, tablet[rk][ck])];
        cols := cols - {ck};
      }
    }

    /** TabletSync: streams every cell of the tablet once, in the map's own order. */
    method TabletSync() returns (records: seq<Record>)
      ensures serving ==> Enumerates(records, tablet)
      ensures !serving ==> records == []
    {
      records := [];
      if !serving {
        return;
      }
      var rows := tablet.Keys;
      while rows != {}
        invariant rows <= tablet.Keys
        invariant RowsSaved(tablet, records, rows)
        decreases rows
      {
        var rk :| rk in rows;
        ghost var before := records;
        records := SyncRow(rk, records, records);
        RowDone(tablet, before, records, rows, rk);
        rows := rows - {rk};
      }
      AllSaved(tablet, records);
    }

    /** peer_to_syn_tab: puts the peer's cells onto the tablet, without logging them. */
    method PeerToSynTab(peer: KVNode)
      requires peer != this
      modifies this`tablet
      ensures ContentsOf(tablet)
           == if peer.Reachable() then ContentsOf(old(tablet)) + ContentsOf(peer.tablet) else ContentsOf(old(tablet))
    {
      if !peer.running {
        return;
      }
      var records := peer.TabletSync();
      if peer.serving {
        SyncOverlays(records, peer.tablet, tablet);
      }
      var i := 0;
      while i < |records|
        invariant 0 <= i <= |records|
        invariant ApplyAll(tablet, records[i..]) == ApplyAll(old(tablet), records)
        invariant peer.serving ==> forall r :: r in records ==> r.Data?
      {
        assert records[i..][1..] == records[i + 1..];
        var r := records[i];
        assert r in records;
        var _ := ConductP(r.row, r.col, r.value);
        i := i + 1;
      }
      assert records[i..] == [];
    }

    /** Position `i` of the report is the first live node other than this one. */
    ghost predicate FirstLiveOther(nodes: seq<NodeView>, i: int) {
      && 0 <= i < |nodes| && nodes[i].alive && nodes[i].address != addr
      && forall k :: 0 <= k < i ==> !(nodes[k].alive && nodes[k].address != addr)
    }

    /** The peer a starting node syncs from: the first live other node reported, if it is one of its peers. */
    function SyncPeer(nodes: seq<NodeView>): (q: int)
      ensures -1 <= q < |peerAddrs|
      ensures q != -1 ==> exists i :: FirstLiveOther(nodes, i) && peerAddrs[q] == nodes[i].address
      ensures q == -1 ==> forall i :: FirstLiveOther(nodes, i) ==> nodes[i].address !in peerAddrs
    {
      var i := SyncChoice(nodes, addr);
      assert forall k :: FirstLiveOther(nodes, k) ==> i != -1 && k == i;
      assert i != -1 ==> FirstLiveOther(nodes, i);
      if i == -1 then -1 else RetrieveIdx(peerAddrs, nodes[i].address)
    }

    method ChooseSyncPeer(nodes: seq<NodeView>) returns (q: int)
      ensures q == SyncPeer(nodes)
    {
      var i := 0;
      while i < |nodes| && !(nodes[i].alive && nodes[i].address != addr)
        invariant 0 <= i <= |nodes|
        invariant forall k :: 0 <= k < i ==> !(nodes[k].alive && nodes[k].address != addr)
      {
        i := i + 1;
      }
      q := -1;
      if i < |nodes| {
        q := RetrieveIdxForPeer(nodes[i].address);
      }
    }

    method SyncFromPeers(nodes: seq<NodeView>)
      requires Wired()
      modifies this`tablet
      ensures SyncPeer(nodes) != -1 && peers[SyncPeer(nodes)].Reachable() ==>
                ContentsOf(tablet) == ContentsOf(old(tablet)) + ContentsOf(peers[SyncPeer(nodes)].tablet)
      ensures !(SyncPeer(nodes) != -1 && peers[SyncPeer(nodes)].Reachable()) ==>
                ContentsOf(tablet) == ContentsOf(old(tablet))
    {
      var q := ChooseSyncPeer(nodes);
      if q != -1 {
        PeerToSynTab(peers[q]);
      }
    }

    /** Whether a starting node finds a peer to sync from, and which. */
    function SourcePeer(report: Option<Report>): (q: int)
      ensures -1 <= q < |peerAddrs|
    {
      if report == None then -1 else SyncPeer(report.value.nodes)
    }

    /**
     start_initialize on an empty tablet: load, replay, adopt the reported primary, then
     overlay the first live other node's tablet.  If the coordinator cannot be reached the
     KVError is caught and the node starts with what its files gave, its view as it was.
     */
    method StartInitialize(report: Option<Report>) returns (exited: bool, ghost restored: Option<Tablet>)
      requires tablet == map[] && Wired()
      modifies this`tablet, this`primaryIdx
      ensures restored == Restart(build, file, log) && (exited <==> restored == None)
      ensures !exited ==>
                primaryIdx == if report == None then old(primaryIdx) else RenewIdx(addr, peerAddrs, report.value.primary)
      ensures !exited && SourcePeer(report) != -1 && peers[SourcePeer(report)].Reachable() ==>
                ContentsOf(tablet) == ContentsOf(restored.value) + ContentsOf(peers[SourcePeer(report)].tablet)
      ensures !exited && !(SourcePeer(report) != -1 && peers[SourcePeer(report)].Reachable()) ==>
                ContentsOf(tablet) == ContentsOf(restored.value)
    {
      exited, restored := Recover();
      if exited || report == None {
        return;
      }
      RenewIdxForPm(report.value.primary);
      SyncFromPeers(report.value.nodes);
    }

    // -------------------------------------------------------- view of primary

    method RetrieveIdxForPeer(a: string) returns (i: int)
      ensures i == RetrieveIdx(peerAddrs, a)
    {
      i := 0;
      while i < |peerAddrs| && peerAddrs[i] != a
        invariant 0 <= i <= |peerAddrs|
        invariant a !in peerAddrs[..i]
      {
        i := i + 1;
      }
      if i == |peerAddrs| {
        assert peerAddrs[..i] == peerAddrs;
        i := -1;
      } else {
        RetrieveIdxIs(peerAddrs, a, i);
      }
    }

    method RenewIdxForPm(primary: string)
      modifies this`primaryIdx
      ensures primaryIdx == RenewIdx(addr, peerAddrs, primary)
    {
      if primary == addr {
        primaryIdx := M_STATUS;
        return;
      }
      var i := RetrieveIdxForPeer(primary);
      primaryIdx := if i == -1 then UK_STATUS else i;
    }

    /** recover_partition; the KVError of a coordinator that cannot be reached leaves it. */
    method RecoverPartition(primary: Option<string>) returns (known: bool, threw: bool)
      modifies this`primaryIdx
      ensures primaryIdx == ViewAfter(old(primaryIdx), primary)
      ensures threw <==> old(primaryIdx) == UK_STATUS && primary == None
      ensures known <==> primaryIdx != UK_STATUS
      ensures old(primaryIdx) != UK_STATUS || primary == None ==> primaryIdx == old(primaryIdx)
      ensures old(primaryIdx) == UK_STATUS && primary.Some? ==>
                && (primaryIdx == M_STATUS <==> primary.value == addr)
                && (primaryIdx >= 0 ==> primaryIdx < |peerAddrs| && peerAddrs[primaryIdx] == primary.value)
                && (primaryIdx == UK_STATUS <==> primary.value != addr && primary.value !in peerAddrs)
    {
      if primaryIdx == UK_STATUS {
        if primary == None {
          return false, true;
        }
        RenewIdxForPm(primary.value);
      }
      known, threw := primaryIdx != UK_STATUS, false;
    }

    /** The view a handler acts on: an unknown one is refreshed from the coordinator's answer first. */
    function ViewAfter(idx: int, primary: Option<string>): int {
      if idx == UK_STATUS && primary.Some? then RenewIdx(addr, peerAddrs, primary.value) else idx
    }

    // -------------------------------------------------------- backup handlers

    method PPut(rk: string, ck: string, ddt: string) returns (r: Answer)
      requires running
      modifies this`tablet, this`log
      ensures serving ==> tablet == ConductPut(old(tablet), rk, ck, ddt) && r == Done(OK, |ddt|)
      ensures serving ==> log == old(log) + Encode(build, Put(rk, ck, ddt))
      ensures !serving ==> unchanged(this) && r == Done(Unavailable, 0)
    {
      if !serving {
        return Done(Unavailable, 0);
      }
      CheckptLogP(rk, ck, ddt);
      var n := ConductP(rk, ck, ddt);
      r := Done(OK, n);
    }

    method PDelete(rk: string, ck: string) returns (r: Answer)
      requires running
      modifies this`tablet, this`log
      ensures serving ==> tablet == ConductDelete(old(tablet), rk, ck)
      ensures serving ==> r == Done(OK, DeletedKeys(old(tablet), rk, ck))
      ensures serving ==> log == old(log) + Encode(build, Delete(rk, ck))
      ensures !serving ==> unchanged(this) && r == Done(Unavailable, 0)
    {
      if !serving {
        return Done(Unavailable, 0);
      }
      DelLog(rk, ck);
      var n := ConductD(rk, ck);
      r := Done(OK, n);
    }

    /** A put has arrived at node `q`, if it could. */
    twostate predicate GotPut(q: KVNode, rk: string, ck: string, ddt: string)
      reads q
    {
      if q.Reachable() then
        && q.tablet == ConductPut(old(q.tablet), rk, ck, ddt)
        && q.log == old(q.log) + Encode(q.build, Put(rk, ck, ddt))
      else q.tablet == old(q.tablet) && q.log == old(q.log)
    }

    twostate predicate GotDelete(q: KVNode, rk: string, ck: string)
      reads q
    {
      if q.Reachable() then
        && q.tablet == ConductDelete(old(q.tablet), rk, ck)
        && q.log == old(q.log) + Encode(q.build, Delete(rk, ck))
      else q.tablet == old(q.tablet) && q.log == old(q.log)
    }

    /** multic_p: every reachable peer logs and applies the put, whatever the others do. */
    method MulticP(rk: string, ck: string, ddt: string)
      requires Wired()
      modifies peers`tablet, peers`log
      ensures forall i :: 0 <= i < |peers| ==> GotPut(peers[i], rk, ck, ddt)
    {
      var i := 0;
      while i < |peers|
        invariant 0 <= i <= |peers|
        invariant forall j :: 0 <= j < i ==> GotPut(peers[j], rk, ck, ddt)
        invariant forall j :: i <= j < |peers| ==> peers[j].tablet == old(peers[j].tablet) && peers[j].log == old(peers[j].log)
      {
        if peers[i].running {
          var _ := peers[i].PPut(rk, ck, ddt);
        }
        i := i + 1;
      }
    }

    method MulticD(rk: string, ck: string)
      requires Wired()
      modifies peers`tablet, peers`log
      ensures forall i :: 0 <= i < |peers| ==> GotDelete(peers[i], rk, ck)
    {
      var i := 0;
      while i < |peers|
        invariant 0 <= i <= |peers|
        invariant forall j :: 0 <= j < i ==> GotDelete(peers[j], rk, ck)
        invariant forall j :: i <= j < |peers| ==> peers[j].tablet == old(peers[j].tablet) && peers[j].log == old(peers[j].log)
      {
        if peers[i].running {
          var _ := peers[i].PDelete(rk, ck);
        }
        i := i + 1;
      }
    }

    // ------------------------------------------------------- client handlers

    method GetRequest(rk: string, ck: string) returns (r: GetReply)
      ensures serving ==>
                r == match Lookup(ContentsOf(tablet), Cell(rk, ck))
                     case Some(v) => Value(v)
                     case None => Missing(NotFound)
      ensures !serving ==> r == Missing(Unavailable)
    {
      ContentsLookup(tablet, Cell(rk, ck));
      if !serving {
        return Missing(Unavailable);
      }
      if rk !in tablet {
        return Missing(NotFound);
      }
      var row := tablet[rk];
      if ck !in row {
        return Missing(NotFound);
      }
      r := Value(row[ck]);
    }

    /** Nothing of this node or its peers has changed but, possibly, its own view. */
    twostate predicate Untouched()
      reads this, peers
    {
      && tablet == old(tablet) && log == old(log) && running == old(running)
      && PeersUntouched()
    }

    twostate predicate PeersUntouched()
      reads this, peers
    {
      && peers == old(peers)
      && forall i :: 0 <= i < |peers| ==>
           peers[i].tablet == old(peers[i].tablet) && peers[i].log == old(peers[i].log)
    }

    function ViewNow(primary: Option<string>): int
      reads this
    {
      ViewAfter(primaryIdx, primary)
    }

    /** The order that matters: every reachable peer has the put before the primary logs and applies it. */
    method CommitPut(rk: string, ck: string, ddt: string) returns (n: nat)
      requires Wired()
      modifies this`tablet, this`log, peers`tablet, peers`log
      ensures forall i :: 0 <= i < |peers| ==> GotPut(peers[i], rk, ck, ddt)
      ensures tablet == ConductPut(old(tablet), rk, ck, ddt) && n == |ddt|
      ensures log == old(log) + Encode(build, Put(rk, ck, ddt))
    {
      MulticP(rk, ck, ddt);
      CheckptLogP(rk, ck, ddt);
      n := ConductP(rk, ck, ddt);
    }

    method PutRequest(rk: string, ck: string, ddt: string, primary: Option<string>) returns (r: Answer)
      requires Wired()
      modifies this`primaryIdx, this`tablet, this`log, peers`tablet, peers`log
      ensures !serving ==> r == Done(Unavailable, 0) && Untouched()
      ensures serving && (rk == "" || ck == "") ==> r == Done(InvalidArgument, 0) && Untouched()
      ensures serving && rk != "" && ck != "" ==>
                && primaryIdx == old(ViewNow(primary))
                && (primaryIdx == UK_STATUS ==> r == (if primary == None then Threw else Done(Unavailable, 0)) && Untouched())
                && (primaryIdx >= 0 ==> r == ForwardTo(primaryIdx) && Untouched())
                && (primaryIdx == M_STATUS ==>
                      && r == Done(OK, |ddt|)
                      && (forall i :: 0 <= i < |peers| ==> GotPut(peers[i], rk, ck, ddt))
                      && tablet == ConductPut(old(tablet), rk, ck, ddt)
                      && log == old(log) + Encode(build, Put(rk, ck, ddt)))
      ensures Wired()
    {
      if !serving {
        return Done(Unavailable, 0);
      }
      if rk == "" || ck == "" {
        return Done(InvalidArgument, 0);
      }
      var known, threw := RecoverPartition(primary);
      if threw {
        return Threw;
      }
      if !known {
        return Done(Unavailable, 0);
      }
      if primaryIdx == M_STATUS {
        var n := CommitPut(rk, ck, ddt);
        return Done(OK, n);
      }
      return ForwardTo(primaryIdx);
    }

    method DeleteRequest(rk: string, ck: string, primary: Option<string>) returns (r: Answer)
      requires Wired()
      modifies this`primaryIdx, this`tablet, this`log, peers`tablet, peers`log
      ensures !serving ==> r == Done(Unavailable, 0) && Untouched()
      ensures serving ==>
                && primaryIdx == old(ViewNow(primary))
                && (primaryIdx == UK_STATUS ==> r == (if primary == None then Threw else Done(Unavailable, 0)) && Untouched())
                && (primaryIdx >= 0 ==> r == ForwardTo(primaryIdx) && Untouched())
                && (primaryIdx == M_STATUS ==>
                      && r == Done(OK, DeletedKeys(old(tablet), rk, ck))
                      && (forall i :: 0 <= i < |peers| ==> GotDelete(peers[i], rk, ck))
                      && tablet == ConductDelete(old(tablet), rk, ck)
                      && log == old(log) + Encode(build, Delete(rk, ck)))
      ensures Wired()
    {
      if !serving {
        return Done(Unavailable, 0);
      }
      var known, threw := RecoverPartition(primary);
      if threw {
        return Threw;
      }
      if !known {
        return Done(Unavailable, 0);
      }
      if primaryIdx == M_STATUS {
        MulticD(rk, ck);
        DelLog(rk, ck);
        var n := ConductD(rk, ck);
        return Done(OK, n);
      }
      return ForwardTo(primaryIdx);
    }

    /** What a compare-and-put that ended with `r` did at the primary and its peers. */
    twostate predicate DidCPut(rk: string, ck: string, v1: string, v2: string, r: Answer)
      reads this, peers
    {
      peers == old(peers) &&
      match Compare(old(tablet), rk, ck, v1, checkedAt)
      case Commit =>
        && r == Done(OK, |v2|) && running == old(running)
        && (forall i :: 0 <= i < |peers| ==> GotPut(peers[i], rk, ck, v2))
        && tablet == ConductPut(old(tablet), rk, ck, v2)
        && log == old(log) + Encode(build, Put(rk, ck, v2))
      case Refuse(code) =>
        && r == Done(code, 0) && running == old(running)
        && ContentsOf(tablet) == ContentsOf(old(tablet)) && log == old(log)
        && PeersUntouched()
      case Abort =>
        && r == Crashed && !running && log == old(log)
        && PeersUntouched()
    }

    /** The tests of CPut on the locked row, which may leave the row created and empty. */
    method CompareCell(rk: string, ck: string, v1: string) returns (verdict: Verdict)
      modifies this`tablet
      ensures verdict == Compare(old(tablet), rk, ck, v1, checkedAt)
      ensures tablet == TouchRow(old(tablet), rk, v1)
    {
      if !(v1 == "" || rk in tablet) {
        return Refuse(NotFound);
      }
      if rk !in tablet {
        tablet := tablet[rk := map[]];
      }
      var row := tablet[rk];
      if !(v1 == "" || ck in row) {
        return Refuse(NotFound);
      }
      if !checkedAt && ck !in row {
        return Abort;
      }
      verdict := if (v1 == "" && ck !in row) || (ck in row && row[ck] == v1) then Commit else Refuse(FailedPrecondition);
    }

    /** The locked part of CPut: compare, and if the value matches, multicast, log and apply. */
    method CPutAsPrimary(rk: string, ck: string, v1: string, v2: string) returns (r: Answer)
      requires Wired()
      modifies this`tablet, this`log, this`running, peers`tablet, peers`log
      ensures DidCPut(rk, ck, v1, v2, r)
      ensures Wired()
    {
      TouchRowContents(tablet, rk, v1);
      TouchThenPut(tablet, rk, ck, v1, v2);
      var verdict := CompareCell(rk, ck, v1);
      match verdict
      case Commit =>
        var n := CommitPut(rk, ck, v2);
        r := Done(OK, n);
      case Refuse(code) =>
        r := Done(code, 0);
      case Abort =>
        running := false;
        r := Crashed;
    }

    method CPutRequest(rk: string, ck: string, v1: string, v2: string, primary: Option<string>) returns (r: Answer)
      requires Wired() && running
      modifies this`primaryIdx, this`tablet, this`log, this`running, peers`tablet, peers`log
      ensures !serving ==> r == Done(Unavailable, 0) && Untouched()
      ensures serving && (rk == "" || ck == "") ==> r == Done(InvalidArgument, 0) && Untouched()
      ensures serving && rk != "" && ck != "" ==>
                && primaryIdx == old(ViewNow(primary))
                && (primaryIdx == UK_STATUS ==> r == (if primary == None then Threw else Done(Unavailable, 0)) && Untouched())
                && (primaryIdx >= 0 ==> r == ForwardTo(primaryIdx) && Untouched())
                && (primaryIdx == M_STATUS ==> DidCPut(rk, ck, v1, v2, r))
      ensures Wired()
    {
      if !serving {
        return Done(Unavailable, 0);
      }
      if rk == "" || ck == "" {
        return Done(InvalidArgument, 0);
      }
      var known, threw := RecoverPartition(primary);
      if threw {
        return Threw;
      }
      if !known {
        return Done(Unavailable, 0);
      }
      if primaryIdx != M_STATUS {
        return ForwardTo(primaryIdx);
      }
      r := CPutAsPrimary(rk, ck, v1, v2);
    }
  }

  // ------------------------------------------------- lemmas about the saving loop

  ghost predicate Listed(rs: seq<Record>, c: Cell) {
    exists i :: 0 <= i < |rs| && CellOf(rs[i]) == c
  }

  /** `Enumerates` but for completeness. */
  ghost predicate Partial(rs: seq<Record>, t: Tablet) {
    && (forall i :: 0 <= i < |rs| ==> rs[i].Data? && Lookup(ContentsOf(t), CellOf(rs[i])) == Some(rs[i].value))
    && (forall i, j :: 0 <= i < j < |rs| ==> CellOf(rs[i]) != CellOf(rs[j]))
  }

  lemma ListOneMore(rs: seq<Record>, t: Tablet, r: Record)
    requires Partial(rs, t) && r.Data? && !Listed(rs, CellOf(r))
    requires Lookup(ContentsOf(t), CellOf(r)) == Some(r.value)
    ensures Partial(rs + [r], t)
    ensures forall c: Cell :: Listed(rs + [r], c) <==> Listed(rs, c) || c == CellOf(r)
  {
    forall c
      ensures Listed(rs + [r], c) <==> Listed(rs, c) || c == CellOf(r)
    {
      if Listed(rs, c) {
        var i :| 0 <= i < |rs| && CellOf(rs[i]) == c;
        assert (rs + [r])[i] == rs[i];
      }
      if c == CellOf(r) {
        assert (rs + [r])[|rs|] == r;
      }
    }
  }

  lemma Regroup(a: string, b: string, c: string, d: string)
    ensures a + b + c + d == a + (b + c + d)
  {
  }

  /** `records` lists what `before` does and the cells of row `rk` outside `left`. */
  ghost predicate RowSaved(t: Tablet, before: seq<Record>, records: seq<Record>, rk: string, left: set<string>) {
    && rk in t && Partial(records, t)
    && (forall c: Cell :: c.row == rk ==> !Listed(before, c))
    && (forall c: Cell :: Listed(records, c) <==> Listed(before, c) || (c.row == rk && c.col in t[rk].Keys - left))
  }

  lemma ListRowCell(b: Build, t: Tablet, before: seq<Record>, records: seq<Record>, rk: string, left: set<string>, ck: string)
    requires RowSaved(t, before, records, rk, left) && ck in left && left <= t[rk].Keys
    ensures RowSaved(t, before, records + [Data(rk, ck, t[rk][ck])], rk, left - {ck})
    ensures EncodeAll(b, records + [Data(rk, ck, t[rk][ck])]) == EncodeAll(b, records) + Encode(b, Data(rk, ck, t[rk][ck]))
  {
    var r := Data(rk, ck, t[rk][ck]);
    EncodeAllAppend(b, records, r);
    ContentsLookup(t, Cell(rk, ck));
    assert !Listed(before, CellOf(r));
    ListOneMore(records, t, r);
  }

  /** `records` lists the cells of every row outside `left`. */
  ghost predicate RowsSaved(t: Tablet, records: seq<Record>, left: set<string>) {
    && Partial(records, t)
    && (forall c: Cell :: Listed(records, c) <==> c.row in t && c.row !in left && c.col in t[c.row])
  }

  lemma RowDone(t: Tablet, before: seq<Record>, records: seq<Record>, left: set<string>, rk: string)
    requires RowsSaved(t, before, left) && rk in left && rk in t && Partial(records, t)
    requires forall c: Cell :: Listed(records, c) <==> Listed(before, c) || (c.row == rk && c.col in t[rk])
    ensures RowsSaved(t, records, left - {rk})
  {
  }

  lemma AllSaved(t: Tablet, records: seq<Record>)
    requires RowsSaved(t, records, {})
    ensures Enumerates(records, t)
  {
    forall c | c in ContentsOf(t)
      ensures exists i :: 0 <= i < |records| && CellOf(records[i]) == c
    {
      ContentsLookup(t, c);
      assert Listed(records, c);
    }
  }

  lemma PrependApply(t: Tablet, r: Record, p: Parse)
    ensures ApplyAll(t, Prepend(r, p).records) == ApplyAll(ApplyRecord(t, r), p.records)
    ensures |Prepend(r, p).records| == 1 + |p.records|
  {
    assert ([r] + p.records)[1..] == p.records;
  }
}
