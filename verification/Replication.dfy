/**
 The replicated tablet server as a state machine (src/kv/KVClass.h, src/kv_coordinator.h):
 one partition, any number of nodes, any number of concurrent operations on different rows,
 crashes, health rounds and rejoins in any order.

 A write takes its row lock at the primary, is sent to every peer (a send to a node that is
 down fails and is not retried), and only when every send has returned does the primary
 apply it and answer.  A crash of the primary abandons its operations where they stand.
 A node that comes back has its own recovered tablet overlaid by a live peer's.

 Sends happen only while the sender is up; a send to a live node succeeds; logging and
 applying one write is one step (Durability says what a crash gives back); a health round,
 and a rejoin, is one step with accurate liveness.
 */
module Replication {
  import opened Basics
  import opened Tablets
  import opened Views
  import opened Coordinator

  /** A client operation: the cell, what it leaves there, and the value a compare-and-put expects. */
  datatype Op = Op(cell: Cell, effect: Option<string>, guard: Option<string>)

  /** `tags[c]` is the number of the operation that last wrote cell `c` here (absent: none, the initial value). */
  datatype Node = Node(up: bool, view: int, mem: Contents, tags: map<Cell, nat>)

  /** An operation that holds its row lock: which, at which primary, where it has been sent, and whether the primary applied it. */
  datatype Flight = Flight(op: nat, home: nat, sent: set<nat>, applied: bool)

  /** `ops` are all operations ever started; operation number k is `ops[k - 1]`.  `last[c]` is the last acknowledged on `c`. */
  datatype State = State(
    nodes: seq<Node>, pidx: int, flights: map<string, Flight>,
    ops: seq<Op>, acked: set<nat>, last: map<Cell, nat>)

  datatype Config = Config(addrs: seq<string>, init: Contents)

  datatype Step =
    | Begin(at: nat, op: Op)
    | Send(row: string, to: nat)
    | Apply(row: string)
    | Ack(row: string)
    | Crash(node: nat)
    | Health
    | Refresh(node: nat)
    | Rejoin(node: nat)

  ghost predicate GoodConfig(cfg: Config) {
    |cfg.addrs| >= 1 && Distinct(cfg.addrs) && "" !in cfg.addrs
  }

  function Num(m: map<Cell, nat>, c: Cell): nat { if c in m then m[c] else 0 }

  function Tag(nd: Node, c: Cell): nat { Num(nd.tags, c) }

  function Last(s: State, c: Cell): nat { Num(s.last, c) }

  /** Operation number `k`. */
  function OpAt(ops: seq<Op>, k: nat): Op
    requires 1 <= k <= |ops|
  {
    ops[k - 1]
  }

  /** What operation number `k` leaves in cell `c`; number 0 is the initial contents. */
  function EffectAt(cfg: Config, ops: seq<Op>, c: Cell, k: nat): Option<string>
    requires k <= |ops|
  {
    if k == 0 then Lookup(cfg.init, c) else OpAt(ops, k).effect
  }

  function WriteNode(nd: Node, k: nat, op: Op): Node {
    nd.(mem := Update(nd.mem, op.cell, op.effect), tags := nd.tags[op.cell := k])
  }

  function Ups(nodes: seq<Node>): (r: seq<bool>)
    ensures |r| == |nodes|
  {
    seq(|nodes|, i requires 0 <= i < |nodes| => nodes[i].up)
  }

  // ------------------------------------------------------------------ steps

  ghost predicate NextBegin(s: State, p: nat, op: Op, s': State) {
    && p < |s.nodes| && s.nodes[p].up && s.nodes[p].view == M_STATUS
    && op.cell.row !in s.flights
    && (op.guard.Some? ==> Matches(Lookup(s.nodes[p].mem, op.cell), op.guard.value))
    && s' == s.(ops := s.ops + [op], flights := s.flights[op.cell.row := Flight(|s.ops| + 1, p, {}, false)])
  }

  /** One PPut or PDelete has returned: done if the peer is up, failed if not. */
  ghost predicate NextSend(s: State, row: string, n: nat, s': State) {
    && row in s.flights && 1 <= s.flights[row].op <= |s.ops|
    && n < |s.nodes| && n != s.flights[row].home && n !in s.flights[row].sent
    && var f := s.flights[row];
      s' == s.(nodes := if s.nodes[n].up then s.nodes[n := WriteNode(s.nodes[n], f.op, OpAt(s.ops, f.op))] else s.nodes,
               flights := s.flights[row := f.(sent := f.sent + {n})])
  }

  ghost predicate AllSent(s: State, f: Flight) {
    forall n :: 0 <= n < |s.nodes| && n != f.home ==> n in f.sent
  }

  /** All sends have been joined; the primary logs and applies the write itself. */
  ghost predicate NextApply(s: State, row: string, s': State) {
    && row in s.flights && 1 <= s.flights[row].op <= |s.ops|
    && !s.flights[row].applied && AllSent(s, s.flights[row])
    && s.flights[row].home < |s.nodes|
    && var f := s.flights[row];
      s' == s.(nodes := s.nodes[f.home := WriteNode(s.nodes[f.home], f.op, OpAt(s.ops, f.op))],
               flights := s.flights[row := f.(applied := true)])
  }

  ghost predicate NextAck(s: State, row: string, s': State) {
    && row in s.flights && 1 <= s.flights[row].op <= |s.ops| && s.flights[row].applied
    && var k := s.flights[row].op;
      s' == s.(acked := s.acked + {k}, last := s.last[OpAt(s.ops, k).cell := k], flights := s.flights - {row})
  }

  ghost predicate NextCrash(s: State, n: nat, s': State) {
    && n < |s.nodes| && s.nodes[n].up
    && s' == s.(nodes := s.nodes[n := s.nodes[n].(up := false)],
                flights := map r | r in s.flights && s.flights[r].home != n :: s.flights[r])
  }

  /** PrimaryUpdate as a live node takes it. */
  function Told(cfg: Config, nd: Node, n: nat, p: int): Node
    requires n < |cfg.addrs| && -1 <= p < |cfg.addrs|
  {
    nd.(view := RenewIdx(cfg.addrs[n], PeersOf(cfg.addrs, n), if p == -1 then "" else cfg.addrs[p]))
  }

  ghost predicate NextHealth(cfg: Config, s: State, s': State) {
    && -1 <= s.pidx < |s.nodes| == |cfg.addrs|
    && s'.pidx == NextPrimary(s.pidx, Ups(s.nodes))
    && |s'.nodes| == |s.nodes|
    && (forall n :: 0 <= n < |s.nodes| ==>
          s'.nodes[n] == if Pushes(s.pidx, Ups(s.nodes)) && s.nodes[n].up then Told(cfg, s.nodes[n], n, s'.pidx) else s.nodes[n])
    && s' == s.(pidx := s'.pidx, nodes := s'.nodes)
  }

  /** A node that does not know its primary asks the coordinator before it serves a write. */
  ghost predicate NextRefresh(cfg: Config, s: State, n: nat, s': State) {
    && -1 <= s.pidx < |cfg.addrs| && n < |s.nodes| == |cfg.addrs|
    && s.nodes[n].up && s.nodes[n].view == UK_STATUS
    && s' == s.(nodes := s.nodes[n := Told(cfg, s.nodes[n], n, s.pidx)])
  }

  /** The nodes of the partition as the coordinator reports them. */
  function Reported(cfg: Config, s: State): seq<NodeView>
    requires |s.nodes| == |cfg.addrs|
  {
    seq(|s.nodes|, i requires 0 <= i < |s.nodes| => NodeView(cfg.addrs[i], s.nodes[i].up))
  }

  /** The peer a returning node pulls from: the first live other node reported; with no primary nothing is reported. */
  function SyncPeer(cfg: Config, s: State, n: nat): (q: int)
    requires n < |s.nodes| == |cfg.addrs|
    ensures q != -1 ==> 0 <= q < |s.nodes| && q != n && s.nodes[q].up && s.pidx != -1
  {
    if s.pidx == -1 then -1 else SyncChoice(Reported(cfg, s), cfg.addrs[n])
  }

  /** With a primary, a returning node pulls from the least live node other than itself, and with none from nobody. */
  lemma SyncPeerExactly(cfg: Config, s: State, n: nat, q: nat)
    requires GoodConfig(cfg) && n < |s.nodes| == |cfg.addrs|
    ensures SyncPeer(cfg, s, n) == q <==>
              && s.pidx != -1 && q < |s.nodes| && q != n && s.nodes[q].up
              && forall k :: 0 <= k < q && k != n ==> !s.nodes[k].up
  {
    var i := SyncChoice(Reported(cfg, s), cfg.addrs[n]);
    assert forall k :: 0 <= k < |s.nodes| && k != n ==> cfg.addrs[k] != cfg.addrs[n];
    assert forall k :: 0 <= k < |s.nodes| ==> Reported(cfg, s)[k] == NodeView(cfg.addrs[k], s.nodes[k].up);
  }

  /** Where the overlay takes cell `c` from: the returning node keeps what the peer does not hold. */
  predicate KeepsOwn(nd: Node, peer: Node, c: Cell) { c in nd.mem && c !in peer.mem }

  function MergedTags(nd: Node, peer: Node): map<Cell, nat> {
    map c | c in nd.tags.Keys + peer.tags.Keys :: if KeepsOwn(nd, peer, c) then Tag(nd, c) else Tag(peer, c)
  }

  function Merged(nd: Node, peer: Node): Node {
    nd.(mem := nd.mem + peer.mem, tags := MergedTags(nd, peer))
  }

  ghost predicate NextRejoin(cfg: Config, s: State, n: nat, s': State) {
    && -1 <= s.pidx < |cfg.addrs| && n < |s.nodes| == |cfg.addrs| && !s.nodes[n].up
    && var q := SyncPeer(cfg, s, n);
      var back := if q == -1 then s.nodes[n] else Merged(s.nodes[n], s.nodes[q]);
      s' == s.(nodes := s.nodes[n := Told(cfg, back.(up := true), n, s.pidx)])
  }

  ghost predicate Next(cfg: Config, s: State, step: Step, s': State) {
    match step
    case Begin(p, op) => NextBegin(s, p, op, s')
    case Send(row, n) => NextSend(s, row, n, s')
    case Apply(row) => NextApply(s, row, s')
    case Ack(row) => NextAck(s, row, s')
    case Crash(n) => NextCrash(s, n, s')
    case Health => NextHealth(cfg, s, s')
    case Refresh(n) => NextRefresh(cfg, s, n, s')
    case Rejoin(n) => NextRejoin(cfg, s, n, s')
  }

  /** Every node up with the same contents, no primary yet. */
  ghost predicate Init(cfg: Config, s: State) {
    && |s.nodes| == |cfg.addrs|
    && (forall n :: 0 <= n < |s.nodes| ==> s.nodes[n] == Node(true, UK_STATUS, cfg.init, map[]))
    && s == State(s.nodes, -1, map[], [], {}, map[])
  }

  // -------------------------------------------------------------- one primary

  /** A live node's view is unknown or stands for the coordinator's choice. */
  ghost predicate ViewOk(s: State, n: nat)
    requires n < |s.nodes|
  {
    s.nodes[n].up && s.nodes[n].view != UK_STATUS ==>
      && s.pidx != -1 && Target(n, s.nodes[n].view) == s.pidx
      && (s.nodes[n].view == M_STATUS <==> n == s.pidx)
  }

  ghost predicate ViewsOk(cfg: Config, s: State) {
    && |s.nodes| == |cfg.addrs| && -1 <= s.pidx < |s.nodes|
    && (forall n :: 0 <= n < |s.nodes| ==> ViewOk(s, n))
    && (s.pidx != -1 && s.nodes[s.pidx].up ==> s.nodes[s.pidx].view == M_STATUS)
  }

  lemma ToldOk(cfg: Config, s: State, nd: Node, n: nat)
    requires GoodConfig(cfg) && n < |s.nodes| == |cfg.addrs| && -1 <= s.pidx < |cfg.addrs|
    requires s.nodes[n] == Told(cfg, nd, n, s.pidx)
    ensures ViewOk(s, n)
    ensures s.pidx == n ==> s.nodes[n].view == M_STATUS
    ensures s.pidx != -1 ==> s.nodes[n].view != UK_STATUS
  {
    if s.pidx == -1 {
      RenewIdxStranger(cfg.addrs, n, "");
    } else {
      RenewIdxNamesPrimary(cfg.addrs, n, s.pidx);
    }
  }

  lemma HealthKeepsViews(cfg: Config, s: State, s': State)
    requires GoodConfig(cfg) && ViewsOk(cfg, s) && NextHealth(cfg, s, s')
    ensures ViewsOk(cfg, s')
  {
    var ups := Ups(s.nodes);
    HealthRoundElects(s.pidx, ups);
    assert forall n :: 0 <= n < |s.nodes| ==> ups[n] == s.nodes[n].up;
    forall n | 0 <= n < |s.nodes|
      ensures ViewOk(s', n)
      ensures s'.pidx == n && s'.nodes[n].up ==> s'.nodes[n].view == M_STATUS
    {
      if Pushes(s.pidx, ups) && s.nodes[n].up {
        ToldOk(cfg, s', s.nodes[n], n);
      } else {
        assert ViewOk(s, n);
      }
    }
  }

  /**
   The health step is the coordinator's round: on a partition with the configured addresses
   it elects the same primary, reports the same nodes, and sends that primary's address.
   */
  lemma HealthIsRound(cfg: Config, s: State, s': State, p: PartitionView)
    requires NextHealth(cfg, s, s') && Addresses(p.nodes) == cfg.addrs && p.primaryIdx == s.pidx
    ensures AfterRound(p, Ups(s.nodes)) == PartitionView(Reported(cfg, s), s'.pidx)
    ensures PushedBy(p, Ups(s.nodes)) == if Pushes(s.pidx, Ups(s.nodes)) then Some(cfg.addrs[s'.pidx]) else None
  {
    assert forall k :: 0 <= k < |p.nodes| ==> p.nodes[k].address == Addresses(p.nodes)[k] == cfg.addrs[k];
    assert AfterRound(p, Ups(s.nodes)).nodes == Reported(cfg, s);
  }

  lemma SameViewsOk(cfg: Config, s: State, s': State)
    requires ViewsOk(cfg, s) && |s'.nodes| == |s.nodes| && s'.pidx == s.pidx
    requires forall k :: 0 <= k < |s.nodes| ==> s'.nodes[k].view == s.nodes[k].view && (s'.nodes[k].up ==> s.nodes[k].up)
    ensures ViewsOk(cfg, s')
  {
    forall k | 0 <= k < |s'.nodes|
      ensures ViewOk(s', k)
    {
      assert ViewOk(s, k);
    }
  }

  lemma OneToldKeepsViews(cfg: Config, s: State, n: nat, nd: Node, s': State)
    requires GoodConfig(cfg) && ViewsOk(cfg, s) && n < |s.nodes|
    requires s'.nodes == s.nodes[n := Told(cfg, nd, n, s.pidx)] && s'.pidx == s.pidx
    ensures ViewsOk(cfg, s')
  {
    ToldOk(cfg, s', nd, n);
    forall k | 0 <= k < |s'.nodes|
      ensures ViewOk(s', k)
    {
      assert ViewOk(s, k);
    }
  }

  /** In every step the coordinator's choice and the live nodes' views stay in step. */
  lemma StepKeepsViews(cfg: Config, s: State, step: Step, s': State)
    requires GoodConfig(cfg) && ViewsOk(cfg, s) && Next(cfg, s, step, s')
    ensures ViewsOk(cfg, s')
  {
    match step
    case Health => HealthKeepsViews(cfg, s, s');
    case Refresh(n) => OneToldKeepsViews(cfg, s, n, s.nodes[n], s');
    case Rejoin(n) =>
      var q := SyncPeer(cfg, s, n);
      var back := if q == -1 then s.nodes[n] else Merged(s.nodes[n], s.nodes[q]);
      OneToldKeepsViews(cfg, s, n, back.(up := true), s');
    case Begin(_, _) => SameViewsOk(cfg, s, s');
    case Send(_, _) => SameViewsOk(cfg, s, s');
    case Apply(_) => SameViewsOk(cfg, s, s');
    case Ack(_) => SameViewsOk(cfg, s, s');
    case Crash(_) => SameViewsOk(cfg, s, s');
  }

  /**
   At most one live node takes itself for the primary, and it is the coordinator's choice.
   When that choice is live, a write that reaches any live node that knows its primary is
   handled there or forwarded once, to a node that handles it.
   */
  lemma OnePrimaryOneForward(cfg: Config, s: State, n: nat, m: nat)
    requires ViewsOk(cfg, s) && n < |s.nodes| && m < |s.nodes| && s.nodes[n].up && s.nodes[m].up
    ensures s.nodes[n].view == M_STATUS && s.nodes[m].view == M_STATUS ==> n == m == s.pidx
    ensures s.nodes[n].view != UK_STATUS && s.nodes[n].view != M_STATUS ==>
              var t := Target(n, s.nodes[n].view);
              t == s.pidx && 0 <= t < |s.nodes| && (s.nodes[t].up ==> s.nodes[t].view == M_STATUS)
  {
    assert ViewOk(s, n) && ViewOk(s, m);
  }

  // --------------------------------------------------- tags say what is where

  /** Number `k` is a possible last writer of cell `c`: none, or an operation on `c`. */
  ghost predicate Writer(ops: seq<Op>, c: Cell, k: nat) {
    k <= |ops| && (k > 0 ==> OpAt(ops, k).cell == c)
  }

  ghost predicate NodeOk(cfg: Config, ops: seq<Op>, nd: Node) {
    forall c :: Writer(ops, c, Tag(nd, c)) && Lookup(nd.mem, c) == EffectAt(cfg, ops, c, Tag(nd, c))
  }

  ghost predicate AckedOk(ops: seq<Op>, acked: set<nat>, last: map<Cell, nat>) {
    && (forall c :: Writer(ops, c, Num(last, c)) && (Num(last, c) > 0 ==> Num(last, c) in acked))
    && (forall k :: k in acked ==> 1 <= k <= |ops| && k <= Num(last, OpAt(ops, k).cell))
  }

  ghost predicate FlightOk(s: State, row: string)
    requires row in s.flights
  {
    var f := s.flights[row];
    && 1 <= f.op <= |s.ops| && f.op !in s.acked
    && OpAt(s.ops, f.op).cell.row == row && f.op > Last(s, OpAt(s.ops, f.op).cell)
    && f.home == s.pidx && f.home < |s.nodes| && s.nodes[f.home].up
    && (forall k :: f.op < k <= |s.ops| ==> OpAt(s.ops, k).cell.row != row)
    && (f.applied ==> AllSent(s, f) && Tag(s.nodes[f.home], OpAt(s.ops, f.op).cell) == f.op)
  }

  ghost predicate DataOk(cfg: Config, s: State) {
    && (forall n :: 0 <= n < |s.nodes| ==> NodeOk(cfg, s.ops, s.nodes[n]))
    && AckedOk(s.ops, s.acked, s.last)
    && (forall row :: row in s.flights ==> FlightOk(s, row))
  }

  ghost predicate Inv(cfg: Config, s: State) {
    GoodConfig(cfg) && ViewsOk(cfg, s) && DataOk(cfg, s)
  }

  lemma WriteNodeOk(cfg: Config, ops: seq<Op>, nd: Node, k: nat)
    requires NodeOk(cfg, ops, nd) && 1 <= k <= |ops|
    ensures NodeOk(cfg, ops, WriteNode(nd, k, OpAt(ops, k)))
    ensures Tag(WriteNode(nd, k, OpAt(ops, k)), OpAt(ops, k).cell) == k
    ensures forall c :: c != OpAt(ops, k).cell ==> Tag(WriteNode(nd, k, OpAt(ops, k)), c) == Tag(nd, c)
  {
    var op, nd' := OpAt(ops, k), WriteNode(nd, k, OpAt(ops, k));
    forall c
      ensures Writer(ops, c, Tag(nd', c)) && Lookup(nd'.mem, c) == EffectAt(cfg, ops, c, Tag(nd', c))
    {
      assert Writer(ops, c, Tag(nd, c)) && Lookup(nd.mem, c) == EffectAt(cfg, ops, c, Tag(nd, c));
    }
  }

  lemma MergedTag(nd: Node, peer: Node, c: Cell)
    ensures Tag(Merged(nd, peer), c) == if KeepsOwn(nd, peer, c) then Tag(nd, c) else Tag(peer, c)
    ensures Lookup(Merged(nd, peer).mem, c) == if KeepsOwn(nd, peer, c) then Lookup(nd.mem, c) else Lookup(peer.mem, c)
  {
  }

  lemma MergedOk(cfg: Config, ops: seq<Op>, nd: Node, peer: Node)
    requires NodeOk(cfg, ops, nd) && NodeOk(cfg, ops, peer)
    ensures NodeOk(cfg, ops, Merged(nd, peer))
  {
    var m := Merged(nd, peer);
    forall c
      ensures Writer(ops, c, Tag(m, c)) && Lookup(m.mem, c) == EffectAt(cfg, ops, c, Tag(m, c))
    {
      MergedTag(nd, peer, c);
      assert Writer(ops, c, Tag(nd, c)) && Lookup(nd.mem, c) == EffectAt(cfg, ops, c, Tag(nd, c));
      assert Writer(ops, c, Tag(peer, c)) && Lookup(peer.mem, c) == EffectAt(cfg, ops, c, Tag(peer, c));
    }
  }

  lemma NodeOkMoreOps(cfg: Config, ops: seq<Op>, nd: Node, op: Op)
    requires NodeOk(cfg, ops, nd)
    ensures NodeOk(cfg, ops + [op], nd)
  {
    forall c
      ensures Writer(ops + [op], c, Tag(nd, c)) && Lookup(nd.mem, c) == EffectAt(cfg, ops + [op], c, Tag(nd, c))
    {
      assert Writer(ops, c, Tag(nd, c)) && Lookup(nd.mem, c) == EffectAt(cfg, ops, c, Tag(nd, c));
    }
  }

  lemma AckedOkMoreOps(ops: seq<Op>, acked: set<nat>, last: map<Cell, nat>, op: Op)
    requires AckedOk(ops, acked, last)
    ensures AckedOk(ops + [op], acked, last)
  {
    forall c
      ensures Writer(ops + [op], c, Num(last, c)) && (Num(last, c) > 0 ==> Num(last, c) in acked)
    {
      assert Writer(ops, c, Num(last, c));
    }
    forall k | k in acked
      ensures 1 <= k <= |ops + [op]| && k <= Num(last, OpAt(ops + [op], k).cell)
    {
      assert OpAt(ops + [op], k) == OpAt(ops, k);
    }
  }

  lemma AckedOkOneMore(ops: seq<Op>, acked: set<nat>, last: map<Cell, nat>, k: nat)
    requires AckedOk(ops, acked, last) && 1 <= k <= |ops| && k > Num(last, OpAt(ops, k).cell)
    ensures AckedOk(ops, acked + {k}, last[OpAt(ops, k).cell := k])
  {
    var last' := last[OpAt(ops, k).cell := k];
    forall c
      ensures Writer(ops, c, Num(last', c)) && (Num(last', c) > 0 ==> Num(last', c) in acked + {k})
    {
      assert Writer(ops, c, Num(last, c));
    }
    forall j | j in acked + {k}
      ensures 1 <= j <= |ops| && j <= Num(last', OpAt(ops, j).cell)
    {
    }
  }

  lemma BeginKeepsData(cfg: Config, s: State, p: nat, op: Op, s': State)
    requires Inv(cfg, s) && NextBegin(s, p, op, s')
    ensures DataOk(cfg, s')
  {
    forall n | 0 <= n < |s'.nodes|
      ensures NodeOk(cfg, s'.ops, s'.nodes[n])
    {
      NodeOkMoreOps(cfg, s.ops, s.nodes[n], op);
    }
    AckedOkMoreOps(s.ops, s.acked, s.last, op);
    assert forall k :: 1 <= k <= |s.ops| ==> OpAt(s'.ops, k) == OpAt(s.ops, k);
    forall row | row in s'.flights
      ensures FlightOk(s', row)
    {
      if row == op.cell.row {
        BeginFlightOk(cfg, s, p, op, s');
      } else {
        assert FlightOk(s, row);
      }
    }
  }

  lemma BeginFlightOk(cfg: Config, s: State, p: nat, op: Op, s': State)
    requires Inv(cfg, s) && NextBegin(s, p, op, s')
    ensures FlightOk(s', op.cell.row)
  {
    assert ViewOk(s, p);
    assert OpAt(s'.ops, |s.ops| + 1) == op;
    assert Writer(s.ops, op.cell, Num(s.last, op.cell));
    assert |s.ops| + 1 !in s.acked;
  }

  lemma SendKeepsData(cfg: Config, s: State, row: string, n: nat, s': State)
    requires Inv(cfg, s) && NextSend(s, row, n, s')
    ensures DataOk(cfg, s')
  {
    var f := s.flights[row];
    WriteNodeOk(cfg, s.ops, s.nodes[n], f.op);
    assert FlightOk(s, row);
    forall r | r in s'.flights
      ensures FlightOk(s', r)
    {
      assert FlightOk(s, r);
    }
  }

  lemma ApplyKeepsData(cfg: Config, s: State, row: string, s': State)
    requires Inv(cfg, s) && NextApply(s, row, s')
    ensures DataOk(cfg, s')
  {
    var f := s.flights[row];
    WriteNodeOk(cfg, s.ops, s.nodes[f.home], f.op);
    assert FlightOk(s, row);
    forall r | r in s'.flights
      ensures FlightOk(s', r)
    {
      assert FlightOk(s, r);
    }
  }

  lemma AckKeepsData(cfg: Config, s: State, row: string, s': State)
    requires Inv(cfg, s) && NextAck(s, row, s')
    ensures DataOk(cfg, s')
  {
    assert FlightOk(s, row);
    AckedOkOneMore(s.ops, s.acked, s.last, s.flights[row].op);
    forall r | r in s'.flights
      ensures FlightOk(s', r)
    {
      assert FlightOk(s, r);
    }
  }

  lemma CrashKeepsData(cfg: Config, s: State, n: nat, s': State)
    requires Inv(cfg, s) && NextCrash(s, n, s')
    ensures DataOk(cfg, s')
  {
    assert forall c :: Tag(s'.nodes[n], c) == Tag(s.nodes[n], c);
    forall r | r in s'.flights
      ensures FlightOk(s', r)
    {
      assert FlightOk(s, r);
    }
  }

  lemma ViewChangeKeepsData(cfg: Config, s: State, s': State)
    requires Inv(cfg, s) && |s'.nodes| == |s.nodes|
    requires s' == s.(nodes := s'.nodes, pidx := s'.pidx)
    requires forall n :: 0 <= n < |s.nodes| ==> s'.nodes[n] == s.nodes[n].(view := s'.nodes[n].view)
    requires s.flights != map[] ==> s'.pidx == s.pidx
    ensures DataOk(cfg, s')
  {
    forall r | r in s'.flights
      ensures FlightOk(s', r)
    {
      assert FlightOk(s, r);
    }
    forall n | 0 <= n < |s'.nodes|
      ensures NodeOk(cfg, s'.ops, s'.nodes[n])
    {
      assert NodeOk(cfg, s.ops, s.nodes[n]);
      assert forall c :: Tag(s'.nodes[n], c) == Tag(s.nodes[n], c);
    }
  }

  lemma HealthKeepsData(cfg: Config, s: State, s': State)
    requires Inv(cfg, s) && NextHealth(cfg, s, s')
    ensures DataOk(cfg, s')
  {
    if s.flights != map[] {
      var row :| row in s.flights;
      assert FlightOk(s, row);
      assert Ups(s.nodes)[s.pidx];
    }
    ViewChangeKeepsData(cfg, s, s');
  }

  lemma RejoinKeepsData(cfg: Config, s: State, n: nat, s': State)
    requires Inv(cfg, s) && NextRejoin(cfg, s, n, s')
    ensures DataOk(cfg, s')
  {
    var q := SyncPeer(cfg, s, n);
    if q != -1 {
      MergedOk(cfg, s.ops, s.nodes[n], s.nodes[q]);
    }
    var back := if q == -1 then s.nodes[n] else Merged(s.nodes[n], s.nodes[q]);
    assert NodeOk(cfg, s.ops, back);
    assert forall c :: Tag(s'.nodes[n], c) == Tag(back, c);
    forall r | r in s'.flights
      ensures FlightOk(s', r)
    {
      assert FlightOk(s, r);
    }
  }

  /** Every step, in every order, keeps the invariant. */
  lemma StepKeepsInv(cfg: Config, s: State, step: Step, s': State)
    requires Inv(cfg, s) && Next(cfg, s, step, s')
    ensures Inv(cfg, s')
  {
    StepKeepsViews(cfg, s, step, s');
    match step
    case Begin(p, op) => BeginKeepsData(cfg, s, p, op, s');
    case Send(row, n) => SendKeepsData(cfg, s, row, n, s');
    case Apply(row) => ApplyKeepsData(cfg, s, row, s');
    case Ack(row) => AckKeepsData(cfg, s, row, s');
    case Crash(n) => CrashKeepsData(cfg, s, n, s');
    case Health => HealthKeepsData(cfg, s, s');
    case Refresh(n) => ViewChangeKeepsData(cfg, s, s');
    case Rejoin(n) => RejoinKeepsData(cfg, s, n, s');
  }

  // ------------------------------------------------------------------- runs

  ghost predicate IsRun(cfg: Config, states: seq<State>, steps: seq<Step>) {
    && GoodConfig(cfg) && |states| == |steps| + 1
    && Init(cfg, states[0])
    && forall i :: 0 <= i < |steps| ==> Next(cfg, states[i], steps[i], states[i + 1])
  }

  lemma RunPrefix(cfg: Config, states: seq<State>, steps: seq<Step>, n: nat)
    requires IsRun(cfg, states, steps) && n <= |steps|
    ensures IsRun(cfg, states[..n + 1], steps[..n])
  {
    forall i | 0 <= i < n
      ensures Next(cfg, states[..n + 1][i], steps[..n][i], states[..n + 1][i + 1])
    {
      assert Next(cfg, states[i], steps[i], states[i + 1]);
    }
  }

  lemma InitInv(cfg: Config, s: State)
    requires GoodConfig(cfg) && Init(cfg, s)
    ensures Inv(cfg, s)
  {
    assert AckedOk(s.ops, s.acked, s.last);
    assert forall n :: 0 <= n < |s.nodes| ==> NodeOk(cfg, s.ops, s.nodes[n]);
  }

  lemma {:induction false} RunKeepsInv(cfg: Config, states: seq<State>, steps: seq<Step>)
    requires IsRun(cfg, states, steps)
    ensures Inv(cfg, states[|steps|])
  {
    if |steps| == 0 {
      InitInv(cfg, states[0]);
    } else {
      var n := |steps| - 1;
      RunPrefix(cfg, states, steps, n);
      RunKeepsInv(cfg, states[..n + 1], steps[..n]);
      StepKeepsInv(cfg, states[n], steps[n], states[n + 1]);
    }
  }

  /** One primary per partition, in every state of every run. */
  lemma OnePrimaryAlways(cfg: Config, states: seq<State>, steps: seq<Step>, n: nat, m: nat)
    requires IsRun(cfg, states, steps)
    requires n < |states[|steps|].nodes| && m < |states[|steps|].nodes|
    requires states[|steps|].nodes[n].up && states[|steps|].nodes[m].up
    ensures
      var s := states[|steps|];
      && (s.nodes[n].view == M_STATUS && s.nodes[m].view == M_STATUS ==> n == m == s.pidx)
      && (s.nodes[n].view != UK_STATUS && s.nodes[n].view != M_STATUS ==>
            var t := Target(n, s.nodes[n].view);
            t == s.pidx && 0 <= t < |s.nodes| && (s.nodes[t].up ==> s.nodes[t].view == M_STATUS))
  {
    RunKeepsInv(cfg, states, steps);
    OnePrimaryOneForward(cfg, states[|steps|], n, m);
  }
}
