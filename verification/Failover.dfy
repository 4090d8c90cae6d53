/**
 What crashes, re-elections and rejoins do to acknowledged writes (src/kv/KVClass.h,
 src/kv_coordinator.h:44-79): they survive in every run whose rejoins are safe, and an
 unsafe rejoin brings an older value back.
 */
module Failover {
  import opened Basics
  import opened Tablets
  import opened Views
  import opened Coordinator
  import opened Replication
  import opened Histories

  /** Node `n` has, in every cell, the last acknowledged write or a later one. */
  ghost predicate Fresh(s: State, n: nat)
    requires n < |s.nodes|
  {
    forall c :: Tag(s.nodes[n], c) >= Last(s, c)
  }

  /** Every live node the operation of this row was sent to has it. */
  ghost predicate Delivered(s: State, row: string)
    requires row in s.flights
  {
    var f := s.flights[row];
    && 1 <= f.op <= |s.ops|
    && forall n :: 0 <= n < |s.nodes| && n in f.sent && s.nodes[n].up ==> Tag(s.nodes[n], OpAt(s.ops, f.op).cell) == f.op
  }

  ghost predicate AllFresh(s: State) {
    forall n :: 0 <= n < |s.nodes| && s.nodes[n].up ==> Fresh(s, n)
  }

  ghost predicate AllDelivered(s: State) {
    forall row :: row in s.flights ==> Delivered(s, row)
  }

  ghost predicate Good(cfg: Config, s: State) {
    Inv(cfg, s) && AllFresh(s) && AllDelivered(s)
  }

  /** The node the overlay of `n` takes cell `c` from. */
  function Source(cfg: Config, s: State, n: nat, c: Cell): (m: nat)
    requires n < |s.nodes| == |cfg.addrs|
    ensures m < |s.nodes|
  {
    var q := SyncPeer(cfg, s, n);
    if q == -1 || KeepsOwn(s.nodes[n], s.nodes[q], c) then n else q
  }

  /** Of the cells the node keeps from before, none has missed an acknowledged write. */
  ghost predicate KeepsNothingStale(cfg: Config, s: State, n: nat)
    requires n < |s.nodes| == |cfg.addrs|
  {
    forall c :: Source(cfg, s, n, c) == n ==> Tag(s.nodes[n], c) >= Last(s, c)
  }

  /** Every operation in flight whose send to this node has already failed is in what the overlay brings. */
  ghost predicate BringsMissedSends(cfg: Config, s: State, n: nat)
    requires n < |s.nodes| == |cfg.addrs|
  {
    forall row :: row in s.flights && n in s.flights[row].sent && 1 <= s.flights[row].op <= |s.ops| ==>
      var c := OpAt(s.ops, s.flights[row].op).cell;
      Tag(s.nodes[Source(cfg, s, n, c)], c) == s.flights[row].op
  }

  ghost predicate SafeRejoin(cfg: Config, s: State, n: nat)
    requires n < |s.nodes| == |cfg.addrs|
  {
    KeepsNothingStale(cfg, s, n) && BringsMissedSends(cfg, s, n)
  }

  /** A node that takes the operation of a flight stays fresh, and shows it; its other rows do not change. */
  lemma WriteTags(cfg: Config, s: State, row: string, nd: Node, nd': Node)
    requires Inv(cfg, s) && row in s.flights && 1 <= s.flights[row].op <= |s.ops|
    requires nd in s.nodes && nd' == WriteNode(nd, s.flights[row].op, OpAt(s.ops, s.flights[row].op))
    ensures Tag(nd', OpAt(s.ops, s.flights[row].op).cell) == s.flights[row].op
    ensures forall c: Cell :: c.row != row ==> Tag(nd', c) == Tag(nd, c)
    ensures forall c :: Tag(nd, c) >= Last(s, c) ==> Tag(nd', c) >= Last(s, c)
  {
    assert FlightOk(s, row);
    WriteNodeOk(cfg, s.ops, nd, s.flights[row].op);
  }

  /** Node `n` alone has taken the operation of `row`. */
  lemma WriteKeepsFresh(cfg: Config, s: State, row: string, n: nat, s': State)
    requires Inv(cfg, s) && AllFresh(s) && row in s.flights && 1 <= s.flights[row].op <= |s.ops|
    requires n < |s.nodes| && s.nodes[n].up && s'.last == s.last
    requires s'.nodes == s.nodes[n := WriteNode(s.nodes[n], s.flights[row].op, OpAt(s.ops, s.flights[row].op))]
    ensures AllFresh(s')
  {
    WriteTags(cfg, s, row, s.nodes[n], s'.nodes[n]);
    forall m | 0 <= m < |s'.nodes| && s'.nodes[m].up
      ensures Fresh(s', m)
    {
      assert Fresh(s, m);
    }
  }

  lemma WriteKeepsDelivered(cfg: Config, s: State, row: string, n: nat, s': State)
    requires Inv(cfg, s) && AllDelivered(s) && row in s.flights && 1 <= s.flights[row].op <= |s.ops|
    requires n < |s.nodes| && s'.ops == s.ops
    requires s'.nodes == s.nodes[n := WriteNode(s.nodes[n], s.flights[row].op, OpAt(s.ops, s.flights[row].op))]
    requires s'.flights.Keys == s.flights.Keys
    requires s'.flights[row].op == s.flights[row].op && s'.flights[row].sent <= s.flights[row].sent + {n}
    requires forall r :: r in s.flights && r != row ==> s'.flights[r] == s.flights[r]
    ensures AllDelivered(s')
  {
    WriteTags(cfg, s, row, s.nodes[n], s'.nodes[n]);
    forall r | r in s'.flights
      ensures Delivered(s', r)
    {
      var f, f' := s.flights[r], s'.flights[r];
      assert FlightOk(s, r) && Delivered(s, r);
      var c := OpAt(s.ops, f.op).cell;
      forall m | 0 <= m < |s'.nodes| && m in f'.sent && s'.nodes[m].up
        ensures Tag(s'.nodes[m], c) == f.op
      {
        if m != n {
          assert Tag(s.nodes[m], c) == f.op;
        } else if r != row {
          assert c.row != row;
        }
      }
    }
  }

  lemma SendKeepsGood(cfg: Config, s: State, row: string, n: nat, s': State)
    requires Good(cfg, s) && NextSend(s, row, n, s')
    ensures AllFresh(s') && AllDelivered(s')
  {
    if s.nodes[n].up {
      WriteKeepsFresh(cfg, s, row, n, s');
      WriteKeepsDelivered(cfg, s, row, n, s');
    } else {
      FailedSendKeepsGood(s, row, n, s');
    }
  }

  lemma FailedSendKeepsGood(s: State, row: string, n: nat, s': State)
    requires AllFresh(s) && AllDelivered(s) && NextSend(s, row, n, s') && !s.nodes[n].up
    ensures AllFresh(s') && AllDelivered(s')
  {
    forall m | 0 <= m < |s'.nodes| && s'.nodes[m].up
      ensures Fresh(s', m)
    {
      assert Fresh(s, m);
    }
    forall r | r in s'.flights
      ensures Delivered(s', r)
    {
      assert Delivered(s, r);
    }
  }

  lemma ApplyKeepsGood(cfg: Config, s: State, row: string, s': State)
    requires Good(cfg, s) && NextApply(s, row, s')
    ensures AllFresh(s') && AllDelivered(s')
  {
    assert FlightOk(s, row);
    WriteKeepsFresh(cfg, s, row, s.flights[row].home, s');
    WriteKeepsDelivered(cfg, s, row, s.flights[row].home, s');
  }

  lemma AckKeepsGood(cfg: Config, s: State, row: string, s': State)
    requires Good(cfg, s) && NextAck(s, row, s')
    ensures AllFresh(s') && AllDelivered(s')
  {
    var f := s.flights[row];
    assert FlightOk(s, row) && Delivered(s, row);
    forall m | 0 <= m < |s'.nodes| && s'.nodes[m].up
      ensures Fresh(s', m)
    {
      assert Fresh(s, m);
      assert m == f.home || m in f.sent;
    }
    forall r | r in s'.flights
      ensures Delivered(s', r)
    {
      assert Delivered(s, r);
    }
  }

  /** Steps that change no tag, acknowledge nothing and bring no node up. */
  lemma QuietKeepsGood(s: State, s': State)
    requires AllFresh(s) && AllDelivered(s)
    requires |s'.nodes| == |s.nodes| && s'.last == s.last && s.ops <= s'.ops
    requires forall n :: 0 <= n < |s.nodes| ==> s'.nodes[n].tags == s.nodes[n].tags && (s'.nodes[n].up ==> s.nodes[n].up)
    requires forall r :: r in s'.flights ==>
               && 1 <= s'.flights[r].op <= |s'.ops|
               && (s'.flights[r].sent == {} || (r in s.flights && s'.flights[r] == s.flights[r]))
    ensures AllFresh(s') && AllDelivered(s')
  {
    forall m | 0 <= m < |s'.nodes| && s'.nodes[m].up
      ensures Fresh(s', m)
    {
      assert Fresh(s, m);
      assert forall c :: Tag(s'.nodes[m], c) == Tag(s.nodes[m], c) && Last(s', c) == Last(s, c);
    }
    forall r | r in s'.flights
      ensures Delivered(s', r)
    {
      if s'.flights[r].sent != {} {
        assert Delivered(s, r);
        assert OpAt(s'.ops, s.flights[r].op) == OpAt(s.ops, s.flights[r].op);
      }
    }
  }

  lemma RejoinTag(cfg: Config, s: State, n: nat, s': State, c: Cell)
    requires NextRejoin(cfg, s, n, s')
    ensures Tag(s'.nodes[n], c) == Tag(s.nodes[Source(cfg, s, n, c)], c)
    ensures forall m :: 0 <= m < |s.nodes| && m != n ==> s'.nodes[m] == s.nodes[m]
  {
    var q := SyncPeer(cfg, s, n);
    if q != -1 {
      MergedTag(s.nodes[n], s.nodes[q], c);
    }
  }

  lemma KeptFreshRejoin(cfg: Config, s: State, n: nat, s': State)
    requires AllFresh(s) && NextRejoin(cfg, s, n, s') && KeepsNothingStale(cfg, s, n)
    ensures AllFresh(s')
  {
    forall c
      ensures Tag(s'.nodes[n], c) >= Last(s, c)
    {
      RejoinTag(cfg, s, n, s', c);
      if Source(cfg, s, n, c) != n {
        assert Fresh(s, Source(cfg, s, n, c));
      }
    }
    forall m | 0 <= m < |s'.nodes| && s'.nodes[m].up
      ensures Fresh(s', m)
    {
      if m != n {
        assert Fresh(s, m);
      }
    }
  }

  lemma SafeRejoinKeepsGood(cfg: Config, s: State, n: nat, s': State)
    requires AllFresh(s) && AllDelivered(s) && NextRejoin(cfg, s, n, s') && SafeRejoin(cfg, s, n)
    ensures AllFresh(s') && AllDelivered(s')
  {
    KeptFreshRejoin(cfg, s, n, s');
    forall r | r in s'.flights
      ensures Delivered(s', r)
    {
      assert Delivered(s, r);
      RejoinTag(cfg, s, n, s', OpAt(s.ops, s.flights[r].op).cell);
    }
  }

  lemma UnsafeRejoinBreaksGood(cfg: Config, s: State, n: nat, s': State)
    requires Good(cfg, s) && NextRejoin(cfg, s, n, s') && !SafeRejoin(cfg, s, n)
    ensures !Good(cfg, s')
  {
    if KeepsNothingStale(cfg, s, n) {
      var row := MissedSendShows(cfg, s, n, s');
      assert !Delivered(s', row);
    } else {
      StaleKeptShows(cfg, s, n, s');
    }
  }

  lemma StaleKeptShows(cfg: Config, s: State, n: nat, s': State)
    requires NextRejoin(cfg, s, n, s') && !KeepsNothingStale(cfg, s, n)
    ensures s'.nodes[n].up && !Fresh(s', n)
  {
    var c :| Source(cfg, s, n, c) == n && Tag(s.nodes[n], c) < Last(s, c);
    RejoinTag(cfg, s, n, s', c);
  }

  lemma MissedSendShows(cfg: Config, s: State, n: nat, s': State) returns (row: string)
    requires NextRejoin(cfg, s, n, s') && !BringsMissedSends(cfg, s, n)
    ensures row in s'.flights && n in s'.flights[row].sent && 1 <= s'.flights[row].op <= |s'.ops|
    ensures s'.nodes[n].up && Tag(s'.nodes[n], OpAt(s'.ops, s'.flights[row].op).cell) != s'.flights[row].op
    ensures row in s.flights && s'.flights[row] == s.flights[row]
  {
    row :| && row in s.flights && n in s.flights[row].sent && 1 <= s.flights[row].op <= |s.ops|
           && var c := OpAt(s.ops, s.flights[row].op).cell;
             Tag(s.nodes[Source(cfg, s, n, c)], c) != s.flights[row].op;
    RejoinTag(cfg, s, n, s', OpAt(s.ops, s.flights[row].op).cell);
  }

  /** What a rejoin does to the acknowledged writes at once: they are all there afterwards exactly if the node kept nothing stale. */
  lemma RejoinFreshExactly(cfg: Config, s: State, n: nat, s': State)
    requires Good(cfg, s) && NextRejoin(cfg, s, n, s')
    ensures AllFresh(s') <==> KeepsNothingStale(cfg, s, n)
  {
    if KeepsNothingStale(cfg, s, n) {
      KeptFreshRejoin(cfg, s, n, s');
    } else {
      StaleKeptShows(cfg, s, n, s');
    }
  }

  lemma BeginKeepsGood(cfg: Config, s: State, p: nat, op: Op, s': State)
    requires Good(cfg, s) && NextBegin(s, p, op, s')
    ensures AllFresh(s') && AllDelivered(s')
  {
    assert forall r :: r in s.flights ==> FlightOk(s, r);
    QuietKeepsGood(s, s');
  }

  lemma CrashKeepsGood(cfg: Config, s: State, n: nat, s': State)
    requires Good(cfg, s) && NextCrash(s, n, s')
    ensures AllFresh(s') && AllDelivered(s')
  {
    assert forall r :: r in s.flights ==> FlightOk(s, r);
    QuietKeepsGood(s, s');
  }

  /** Health rounds and refreshes change views only. */
  lemma ViewsKeepGood(cfg: Config, s: State, s': State)
    requires Good(cfg, s) && s' == s.(nodes := s'.nodes, pidx := s'.pidx) && |s'.nodes| == |s.nodes|
    requires forall n :: 0 <= n < |s.nodes| ==> s'.nodes[n] == s.nodes[n].(view := s'.nodes[n].view)
    ensures AllFresh(s') && AllDelivered(s')
  {
    assert forall r :: r in s.flights ==> FlightOk(s, r);
    QuietKeepsGood(s, s');
  }

  /**
   The invariant behind acknowledged writes: every live node has the last acknowledged
   write of every cell or a later one, and every operation in flight is at the live nodes
   it was sent to.  Every step keeps it, a rejoin if and only if it is safe.  (What an
   unsafe rejoin means for the writes themselves is SafeRejoinExactly.)
   */
  lemma StepKeepsGoodExactly(cfg: Config, s: State, step: Step, s': State)
    requires Good(cfg, s) && Next(cfg, s, step, s')
    ensures Good(cfg, s') <==> (step.Rejoin? ==> SafeRejoin(cfg, s, step.node))
  {
    StepKeepsInv(cfg, s, step, s');
    match step
    case Send(row, n) => SendKeepsGood(cfg, s, row, n, s');
    case Apply(row) => ApplyKeepsGood(cfg, s, row, s');
    case Ack(row) => AckKeepsGood(cfg, s, row, s');
    case Begin(p, op) => BeginKeepsGood(cfg, s, p, op, s');
    case Crash(n) => CrashKeepsGood(cfg, s, n, s');
    case Health => ViewsKeepGood(cfg, s, s');
    case Refresh(_) => ViewsKeepGood(cfg, s, s');
    case Rejoin(n) =>
      if SafeRejoin(cfg, s, n) {
        SafeRejoinKeepsGood(cfg, s, n, s');
      } else {
        UnsafeRejoinBreaksGood(cfg, s, n, s');
      }
  }

  // ------------------------------------------------------------------- runs

  ghost predicate RejoinsSafe(cfg: Config, states: seq<State>, steps: seq<Step>)
    requires |states| == |steps| + 1
  {
    forall i :: 0 <= i < |steps| && steps[i].Rejoin? && steps[i].node < |states[i].nodes| == |cfg.addrs| ==>
      SafeRejoin(cfg, states[i], steps[i].node)
  }

  lemma InitGood(cfg: Config, s: State)
    requires GoodConfig(cfg) && Init(cfg, s)
    ensures Good(cfg, s)
  {
    InitInv(cfg, s);
  }

  lemma {:induction false} RunKeepsGood(cfg: Config, states: seq<State>, steps: seq<Step>)
    requires IsRun(cfg, states, steps) && RejoinsSafe(cfg, states, steps)
    ensures Good(cfg, states[|steps|])
  {
    if |steps| == 0 {
      InitGood(cfg, states[0]);
    } else {
      var n := |steps| - 1;
      RunPrefix(cfg, states, steps, n);
      RunKeepsGood(cfg, states[..n + 1], steps[..n]);
      StepKeepsGoodExactly(cfg, states[n], steps[n], states[n + 1]);
    }
  }

  /**
   A tablet holds in cell `c` the effect of operation `k` on it (0 for the initial value),
   which is the last acknowledged one, or was started later and is not acknowledged.
   */
  ghost predicate Survives(cfg: Config, ops: seq<Op>, acked: set<nat>, mem: Contents, c: Cell, k: nat) {
    && Writer(ops, c, k)
    && Lookup(mem, c) == EffectAt(cfg, ops, c, k)
    && (forall j :: j in acked && 1 <= j <= |ops| && OpAt(ops, j).cell == c ==> j <= k)
    && (k > 0 && k !in acked ==> forall j :: j in acked && 1 <= j <= |ops| && OpAt(ops, j).cell == c ==> j < k)
  }

  lemma GoodSurvives(cfg: Config, s: State, n: nat, c: Cell) returns (k: nat)
    requires Good(cfg, s) && n < |s.nodes| && s.nodes[n].up
    ensures Survives(cfg, s.ops, s.acked, s.nodes[n].mem, c, k)
  {
    k := Tag(s.nodes[n], c);
    assert NodeOk(cfg, s.ops, s.nodes[n]) && Fresh(s, n);
  }

  /**
   Acknowledged writes survive failover.  After every run whose rejoins are safe, every cell
   of every live node holds the effect some step of the run asked for on that cell: that of
   the last acknowledged one, or of one asked for later and not acknowledged.
   */
  lemma AcknowledgedWritesSurvive(cfg: Config, states: seq<State>, steps: seq<Step>, n: nat, c: Cell) returns (k: nat)
    requires IsRun(cfg, states, steps) && RejoinsSafe(cfg, states, steps)
    requires n < |states[|steps|].nodes| && states[|steps|].nodes[n].up
    ensures Survives(cfg, Requested(steps), Acknowledged(steps), states[|steps|].nodes[n].mem, c, k)
  {
    RunKeepsGood(cfg, states, steps);
    RunTold(cfg, states, steps);
    k := GoodSurvives(cfg, states[|steps|], n, c);
  }

  /** In every run without rejoins, whatever crashes and elections it has, unconditionally. */
  lemma WithoutRejoinsAllSurvive(cfg: Config, states: seq<State>, steps: seq<Step>, n: nat, c: Cell) returns (k: nat)
    requires IsRun(cfg, states, steps) && forall i :: 0 <= i < |steps| ==> !steps[i].Rejoin?
    requires n < |states[|steps|].nodes| && states[|steps|].nodes[n].up
    ensures Survives(cfg, Requested(steps), Acknowledged(steps), states[|steps|].nodes[n].mem, c, k)
  {
    k := AcknowledgedWritesSurvive(cfg, states, steps, n, c);
  }

  // ------------------------------------------------------ when a rejoin is safe

  /** Any steps from any state. */
  ghost predicate Continues(cfg: Config, states: seq<State>, steps: seq<Step>) {
    && |states| == |steps| + 1
    && forall i :: 0 <= i < |steps| ==> Next(cfg, states[i], steps[i], states[i + 1])
  }

  ghost predicate NoRejoin(steps: seq<Step>) {
    forall i :: 0 <= i < |steps| ==> !steps[i].Rejoin?
  }

  /** Whatever happens next short of another rejoin, no live node lacks an acknowledged write. */
  ghost predicate StaysFresh(cfg: Config, s: State) {
    forall states, steps :: Continues(cfg, states, steps) && states[0] == s && NoRejoin(steps) ==> AllFresh(states[|steps|])
  }

  lemma {:induction false} GoodStaysGood(cfg: Config, states: seq<State>, steps: seq<Step>)
    requires Continues(cfg, states, steps) && NoRejoin(steps) && Good(cfg, states[0])
    ensures Good(cfg, states[|steps|])
  {
    if steps != [] {
      var n := |steps| - 1;
      GoodStaysGood(cfg, states[..n + 1], steps[..n]);
      StepKeepsGoodExactly(cfg, states[n], steps[n], states[n + 1]);
    }
  }

  function Unsent(s: State, row: string): set<nat>
    requires row in s.flights
  {
    set m: nat | m < |s.nodes| && m !in s.flights[row].sent
  }

  function SentTo(s: State, row: string, m: nat): State
    requires row in s.flights && 1 <= s.flights[row].op <= |s.ops| && m < |s.nodes|
  {
    var f := s.flights[row];
    s.(nodes := if s.nodes[m].up then s.nodes[m := WriteNode(s.nodes[m], f.op, OpAt(s.ops, f.op))] else s.nodes,
       flights := s.flights[row := f.(sent := f.sent + {m})])
  }

  function AppliedAt(s: State, row: string): State
    requires row in s.flights && 1 <= s.flights[row].op <= |s.ops| && s.flights[row].home < |s.nodes|
  {
    var f := s.flights[row];
    s.(nodes := s.nodes[f.home := WriteNode(s.nodes[f.home], f.op, OpAt(s.ops, f.op))],
       flights := s.flights[row := f.(applied := true)])
  }

  function AckedAt(s: State, row: string): State
    requires row in s.flights && 1 <= s.flights[row].op <= |s.ops|
  {
    var k := s.flights[row].op;
    s.(acked := s.acked + {k}, last := s.last[OpAt(s.ops, k).cell := k], flights := s.flights - {row})
  }

  /** Node `n` is up, counts as sent the operation of `row`, and does not have it. */
  ghost predicate Lacks(s: State, row: string, n: nat) {
    && row in s.flights && 1 <= s.flights[row].op <= |s.ops|
    && n < |s.nodes| && s.nodes[n].up && n in s.flights[row].sent && n != s.flights[row].home
    && Tag(s.nodes[n], OpAt(s.ops, s.flights[row].op).cell) != s.flights[row].op
  }

  lemma AckedLacks(cfg: Config, s: State, row: string, n: nat)
    requires Inv(cfg, s) && Lacks(s, row, n)
    ensures Tag(s.nodes[n], OpAt(s.ops, s.flights[row].op).cell) < Last(AckedAt(s, row), OpAt(s.ops, s.flights[row].op).cell)
  {
    assert FlightOk(s, row) && NodeOk(cfg, s.ops, s.nodes[n]);
    var c := OpAt(s.ops, s.flights[row].op).cell;
    assert Writer(s.ops, c, Tag(s.nodes[n], c));
  }

  /** The next step of the operation towards its acknowledgement, which does not concern node `n`. */
  lemma SendOrApply(cfg: Config, s: State, row: string, n: nat) returns (step: Step, s1: State)
    requires Inv(cfg, s) && Lacks(s, row, n) && !s.flights[row].applied
    ensures Next(cfg, s, step, s1) && Inv(cfg, s1) && !step.Rejoin?
    ensures Lacks(s1, row, n) && s1.nodes[n] == s.nodes[n] && s1.ops == s.ops && s1.flights[row].op == s.flights[row].op
    ensures Unsent(s1, row) < Unsent(s, row) || (Unsent(s1, row) == Unsent(s, row) && s1.flights[row].applied)
  {
    assert FlightOk(s, row);
    var f := s.flights[row];
    if m: nat :| m < |s.nodes| && m != f.home && m !in f.sent {
      step, s1 := Send(row, m), SentTo(s, row, m);
      assert m in Unsent(s, row) && m !in Unsent(s1, row);
      assert Unsent(s1, row) <= Unsent(s, row);
    } else {
      step, s1 := Apply(row), AppliedAt(s, row);
      assert Unsent(s1, row) == Unsent(s, row);
    }
    StepKeepsInv(cfg, s, step, s1);
  }

  lemma ContinuesBefore(cfg: Config, s: State, step: Step, states: seq<State>, steps: seq<Step>)
    requires Continues(cfg, states, steps) && Next(cfg, s, step, states[0])
    ensures Continues(cfg, [s] + states, [step] + steps)
  {
  }

  /**
   An operation that a live node was sent and does not have can still be sent to the others,
   applied at the primary and acknowledged; the node then lacks an acknowledged write.
   */
  lemma {:induction false} LackingEndsStale(cfg: Config, s: State, row: string, n: nat) returns (states: seq<State>, steps: seq<Step>)
    requires Inv(cfg, s) && Lacks(s, row, n)
    ensures Continues(cfg, states, steps) && states[0] == s && NoRejoin(steps)
    ensures
      var s', c := states[|steps|], OpAt(s.ops, s.flights[row].op).cell;
      && n < |s'.nodes| && s'.nodes[n] == s.nodes[n] && Tag(s'.nodes[n], c) < Last(s', c)
    decreases Unsent(s, row), !s.flights[row].applied
  {
    if s.flights[row].applied {
      AckedLacks(cfg, s, row, n);
      steps, states := [Ack(row)], [s, AckedAt(s, row)];
    } else {
      var step, s1 := SendOrApply(cfg, s, row, n);
      var rest, more := LackingEndsStale(cfg, s1, row, n);
      ContinuesBefore(cfg, s, step, rest, more);
      states, steps := [s] + rest, [step] + more;
    }
  }

  /**
   Exactly when a rejoin is safe for the acknowledged writes: whatever happens next short
   of another rejoin, every live node has the last acknowledged write of every cell or a
   later one, if and only if the node kept nothing stale and brings every operation in
   flight whose send to it has failed.
   */
  lemma SafeRejoinExactly(cfg: Config, s: State, n: nat, s': State)
    requires Good(cfg, s) && NextRejoin(cfg, s, n, s')
    ensures StaysFresh(cfg, s') <==> SafeRejoin(cfg, s, n)
  {
    if SafeRejoin(cfg, s, n) {
      StepKeepsGoodExactly(cfg, s, Rejoin(n), s');
      forall states, steps | Continues(cfg, states, steps) && states[0] == s' && NoRejoin(steps)
        ensures AllFresh(states[|steps|])
      {
        GoodStaysGood(cfg, states, steps);
      }
    } else {
      var states, steps, c := UnsafeRejoinShowsStale(cfg, s, n, s');
      assert !Fresh(states[|steps|], n);
    }
  }

  /**
   What an unsafe rejoin leads to: at once, or once an operation in flight has been sent to
   the others, applied and acknowledged, the live node holds in some cell the effect of an
   operation older than the last acknowledged one on that cell.
   */
  lemma UnsafeRejoinShowsStale(cfg: Config, s: State, n: nat, s': State) returns (states: seq<State>, steps: seq<Step>, c: Cell)
    requires Good(cfg, s) && NextRejoin(cfg, s, n, s') && !SafeRejoin(cfg, s, n)
    ensures Continues(cfg, states, steps) && states[0] == s' && NoRejoin(steps)
    ensures
      var t := states[|steps|];
      && n < |t.nodes| && t.nodes[n].up && Last(t, c) in t.acked && 1 <= Last(t, c) <= |t.ops| && OpAt(t.ops, Last(t, c)).cell == c
      && Tag(t.nodes[n], c) < Last(t, c)
      && Lookup(t.nodes[n].mem, c) == EffectAt(cfg, t.ops, c, Tag(t.nodes[n], c))
  {
    StepKeepsInv(cfg, s, Rejoin(n), s');
    if KeepsNothingStale(cfg, s, n) {
      var row := MissedSendShows(cfg, s, n, s');
      assert FlightOk(s, row);
      states, steps := LackingEndsStale(cfg, s', row, n);
      c := OpAt(s'.ops, s'.flights[row].op).cell;
    } else {
      StaleKeptShows(cfg, s, n, s');
      c :| Tag(s'.nodes[n], c) < Last(s', c);
      states, steps := [s'], [];
    }
    ContinuesKeepsInv(cfg, states, steps);
    var t := states[|steps|];
    assert NodeOk(cfg, t.ops, t.nodes[n]);
    assert Writer(t.ops, c, Num(t.last, c));
  }

  lemma {:induction false} ContinuesKeepsInv(cfg: Config, states: seq<State>, steps: seq<Step>)
    requires Continues(cfg, states, steps) && Inv(cfg, states[0])
    ensures Inv(cfg, states[|steps|])
  {
    if steps != [] {
      var n := |steps| - 1;
      ContinuesKeepsInv(cfg, states[..n + 1], steps[..n]);
      StepKeepsInv(cfg, states[n], steps[n], states[n + 1]);
    }
  }

  // ------------------------------------------------ rejoins an operator can check

  /** No operation so far is a delete. */
  ghost predicate NoDeletes(ops: seq<Op>) {
    forall k :: 1 <= k <= |ops| ==> OpAt(ops, k).effect.Some?
  }

  /**
   What can be seen before a node is let back: nothing is in flight, there is a live peer
   to pull from, and nothing was ever deleted or the peer holds every cell the node holds.
   */
  ghost predicate QuietRejoin(cfg: Config, s: State, n: nat)
    requires n < |s.nodes| == |cfg.addrs|
  {
    var q := SyncPeer(cfg, s, n);
    && s.flights == map[] && q != -1
    && (NoDeletes(s.ops) || forall c :: c in s.nodes[n].mem ==> c in s.nodes[q].mem)
  }

  /** With a live peer that has every acknowledged write, what the peer lacks was deleted or never written. */
  lemma QuietRejoinSafe(cfg: Config, s: State, n: nat)
    requires Good(cfg, s) && n < |s.nodes| && QuietRejoin(cfg, s, n)
    ensures SafeRejoin(cfg, s, n)
  {
    var q := SyncPeer(cfg, s, n);
    assert Fresh(s, q) && NodeOk(cfg, s.ops, s.nodes[q]);
    forall c | Source(cfg, s, n, c) == n
      ensures Tag(s.nodes[n], c) >= Last(s, c)
    {
      var k := Tag(s.nodes[q], c);
      assert Writer(s.ops, c, k) && Lookup(s.nodes[q].mem, c) == EffectAt(cfg, s.ops, c, k);
      assert k >= Last(s, c);
    }
  }

  ghost predicate RejoinsQuiet(cfg: Config, states: seq<State>, steps: seq<Step>)
    requires |states| == |steps| + 1
  {
    forall i :: 0 <= i < |steps| && steps[i].Rejoin? && steps[i].node < |states[i].nodes| == |cfg.addrs| ==>
      QuietRejoin(cfg, states[i], steps[i].node)
  }

  lemma {:induction false} QuietRunKeepsGood(cfg: Config, states: seq<State>, steps: seq<Step>)
    requires IsRun(cfg, states, steps) && RejoinsQuiet(cfg, states, steps)
    ensures Good(cfg, states[|steps|])
  {
    if |steps| == 0 {
      InitGood(cfg, states[0]);
    } else {
      var n := |steps| - 1;
      RunPrefix(cfg, states, steps, n);
      QuietRunKeepsGood(cfg, states[..n + 1], steps[..n]);
      assert Next(cfg, states[n], steps[n], states[n + 1]);
      if steps[n].Rejoin? {
        QuietRejoinSafe(cfg, states[n], steps[n].node);
      }
      StepKeepsGoodExactly(cfg, states[n], steps[n], states[n + 1]);
    }
  }

  /** Acknowledged writes survive every run whose rejoins are quiet, whatever else it does. */
  lemma QuietRunsSurvive(cfg: Config, states: seq<State>, steps: seq<Step>, n: nat, c: Cell) returns (k: nat)
    requires IsRun(cfg, states, steps) && RejoinsQuiet(cfg, states, steps)
    requires n < |states[|steps|].nodes| && states[|steps|].nodes[n].up
    ensures Survives(cfg, Requested(steps), Acknowledged(steps), states[|steps|].nodes[n].mem, c, k)
  {
    QuietRunKeepsGood(cfg, states, steps);
    RunTold(cfg, states, steps);
    k := GoodSurvives(cfg, states[|steps|], n, c);
  }

  lemma StepKeepsWrites(cfg: Config, s: State, step: Step, s': State)
    requires Next(cfg, s, step, s') && NoDeletes(s.ops) && (step.Begin? ==> step.op.effect.Some?)
    ensures NoDeletes(s'.ops)
  {
    assert s'.ops == s.ops || (step.Begin? && s'.ops == s.ops + [step.op]);
    forall k | 1 <= k <= |s'.ops|
      ensures OpAt(s'.ops, k).effect.Some?
    {
      if k <= |s.ops| {
        assert OpAt(s'.ops, k) == OpAt(s.ops, k);
      }
    }
  }

  lemma {:induction false} OpsAreWrites(cfg: Config, states: seq<State>, steps: seq<Step>)
    requires IsRun(cfg, states, steps) && forall i :: 0 <= i < |steps| && steps[i].Begin? ==> steps[i].op.effect.Some?
    ensures NoDeletes(states[|steps|].ops)
  {
    if |steps| > 0 {
      var n := |steps| - 1;
      RunPrefix(cfg, states, steps, n);
      OpsAreWrites(cfg, states[..n + 1], steps[..n]);
      StepKeepsWrites(cfg, states[n], steps[n], states[n + 1]);
    }
  }

  /**
   In particular: if no operation is a delete and every rejoin happens with nothing in
   flight and a live peer to pull from, acknowledged writes survive.
   */
  lemma WithoutDeletesAllSurvive(cfg: Config, states: seq<State>, steps: seq<Step>, n: nat, c: Cell) returns (k: nat)
    requires IsRun(cfg, states, steps)
    requires forall i :: 0 <= i < |steps| && steps[i].Begin? ==> steps[i].op.effect.Some?
    requires forall i :: 0 <= i < |steps| && steps[i].Rejoin? && steps[i].node < |states[i].nodes| == |cfg.addrs| ==>
               states[i].flights == map[] && SyncPeer(cfg, states[i], steps[i].node) != -1
    requires n < |states[|steps|].nodes| && states[|steps|].nodes[n].up
    ensures Survives(cfg, Requested(steps), Acknowledged(steps), states[|steps|].nodes[n].mem, c, k)
  {
    forall i | 0 <= i < |steps|
      ensures NoDeletes(states[i].ops)
    {
      RunPrefix(cfg, states, steps, i);
      OpsAreWrites(cfg, states[..i + 1], steps[..i]);
    }
    k := QuietRunsSurvive(cfg, states, steps, n, c);
  }
}
