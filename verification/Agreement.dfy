/**
 Replicas without crashes (src/kv/KVClass.h:632-665, 1032-1092): before and after images
 while a row is locked, equality when nothing is in flight, and atomic compare-and-put.
 */
module Agreement {
  import opened Basics
  import opened Tablets
  import opened Views
  import opened Coordinator
  import opened Replication
  import opened Histories

  /** Has node `n` taken the operation of this flight yet? */
  predicate Has(f: Flight, n: nat) {
    if n == f.home then f.applied else n in f.sent
  }

  /** The operation cell `c` of node `n` shows: the one in flight if it is on `c` and has arrived, else the last acknowledged. */
  function Shown(s: State, n: nat, c: Cell): nat {
    if c.row in s.flights && 1 <= s.flights[c.row].op <= |s.ops|
       && OpAt(s.ops, s.flights[c.row].op).cell == c && Has(s.flights[c.row], n)
    then s.flights[c.row].op else Last(s, c)
  }

  /** The operation before number `k` on cell `c`. */
  function Before(ops: seq<Op>, c: Cell, k: nat): (j: nat)
    requires k <= |ops| + 1
    ensures j < k || j == k == 0
    ensures j <= |ops|
    ensures Writer(ops, c, j)
    ensures forall i :: j < i < k ==> OpAt(ops, i).cell != c
  {
    if k <= 1 then 0
    else if OpAt(ops, k - 1).cell == c then k - 1
    else Before(ops, c, k - 1)
  }

  /** Every started operation is acknowledged or in flight. */
  ghost predicate NoneAbandoned(s: State) {
    forall k :: 1 <= k <= |s.ops| && k !in s.acked ==>
      OpAt(s.ops, k).cell.row in s.flights && s.flights[OpAt(s.ops, k).cell.row].op == k
  }

  /** Every compare-and-put that was let through expected what the operation before it on its cell left there. */
  ghost predicate Chained(cfg: Config, ops: seq<Op>) {
    forall k :: 1 <= k <= |ops| && OpAt(ops, k).guard.Some? ==> // absent counts as ""
      Matches(EffectAt(cfg, ops, OpAt(ops, k).cell, Before(ops, OpAt(ops, k).cell, k)), OpAt(ops, k).guard.value)
  }

  ghost predicate Agree(cfg: Config, s: State) {
    && Inv(cfg, s)
    && (forall n :: 0 <= n < |s.nodes| ==> s.nodes[n].up)
    && (forall n, c :: 0 <= n < |s.nodes| ==> Tag(s.nodes[n], c) == Shown(s, n, c))
    && NoneAbandoned(s)
    && Chained(cfg, s.ops)
  }

  lemma {:induction false} BeforePrefix(ops: seq<Op>, op: Op, c: Cell, k: nat)
    requires k <= |ops| + 1
    ensures Before(ops + [op], c, k) == Before(ops, c, k)
    decreases k
  {
    if k > 1 {
      assert OpAt(ops + [op], k - 1) == OpAt(ops, k - 1);
      BeforePrefix(ops, op, c, k - 1);
    }
  }

  /** With the row free, the last acknowledged operation on a cell is the last one started on it. */
  lemma LastIsBefore(cfg: Config, s: State, c: Cell)
    requires Inv(cfg, s) && NoneAbandoned(s) && c.row !in s.flights
    ensures Before(s.ops, c, |s.ops| + 1) == Last(s, c)
  {
    var j := Before(s.ops, c, |s.ops| + 1);
    assert Writer(s.ops, c, Num(s.last, c));
    if j > 0 {
      assert OpAt(s.ops, j).cell == c;
      assert j in s.acked;
    }
    assert Last(s, c) > 0 ==> OpAt(s.ops, Last(s, c)).cell == c;
  }

  lemma BeginKeepsChain(cfg: Config, s: State, p: nat, op: Op, s': State)
    requires Agree(cfg, s) && NextBegin(s, p, op, s')
    ensures Chained(cfg, s'.ops)
  {
    var n := |s.ops| + 1;
    forall k | 1 <= k <= |s'.ops| && OpAt(s'.ops, k).guard.Some?
      ensures Matches(EffectAt(cfg, s'.ops, OpAt(s'.ops, k).cell, Before(s'.ops, OpAt(s'.ops, k).cell, k)), OpAt(s'.ops, k).guard.value)
    {
      var c := OpAt(s'.ops, k).cell;
      BeforePrefix(s.ops, op, c, k);
      if k == n {
        LastIsBefore(cfg, s, c);
        assert Tag(s.nodes[p], c) == Shown(s, p, c) == Last(s, c);
        assert NodeOk(cfg, s.ops, s.nodes[p]);
        assert Lookup(s.nodes[p].mem, c) == EffectAt(cfg, s.ops, c, Last(s, c));
      } else {
        assert OpAt(s'.ops, k) == OpAt(s.ops, k);
      }
    }
  }

  lemma BeginKeepsShown(cfg: Config, s: State, p: nat, op: Op, s': State)
    requires Inv(cfg, s) && NoneAbandoned(s) && NextBegin(s, p, op, s')
    ensures forall n, c :: 0 <= n < |s.nodes| ==> Shown(s', n, c) == Shown(s, n, c)
    ensures NoneAbandoned(s')
  {
    assert forall k :: 1 <= k <= |s.ops| ==> OpAt(s'.ops, k) == OpAt(s.ops, k);
    forall n, c | 0 <= n < |s.nodes|
      ensures Shown(s', n, c) == Shown(s, n, c)
    {
      if c.row in s.flights {
        assert FlightOk(s, c.row);
      }
    }
  }

  /** Node `n` takes the operation of `row` and is marked as having it; nothing else changes. */
  ghost predicate Takes(s: State, row: string, n: nat, s': State) {
    && row in s.flights && n < |s.nodes| && 1 <= s.flights[row].op <= |s.ops|
    && s'.nodes == s.nodes[n := WriteNode(s.nodes[n], s.flights[row].op, OpAt(s.ops, s.flights[row].op))]
    && s'.ops == s.ops && s'.last == s.last && s'.flights.Keys == s.flights.Keys
    && (forall r :: r in s.flights && r != row ==> s'.flights[r] == s.flights[r])
    && s'.flights[row].op == s.flights[row].op
    && (forall m :: 0 <= m < |s.nodes| ==> Has(s'.flights[row], m) == (m == n || Has(s.flights[row], m)))
  }

  lemma TakeKeepsOneShown(s: State, row: string, n: nat, s': State, m: nat, c: Cell)
    requires Takes(s, row, n, s') && m < |s.nodes| && FlightOk(s, row)
    requires c.row in s.flights ==> FlightOk(s, c.row)
    requires Tag(s.nodes[m], c) == Shown(s, m, c)
    ensures Tag(s'.nodes[m], c) == Shown(s', m, c)
  {
  }

  lemma TakeKeepsShown(cfg: Config, s: State, row: string, n: nat, s': State)
    requires Inv(cfg, s) && Takes(s, row, n, s')
    requires forall m, c :: 0 <= m < |s.nodes| ==> Tag(s.nodes[m], c) == Shown(s, m, c)
    ensures forall m, c :: 0 <= m < |s'.nodes| ==> Tag(s'.nodes[m], c) == Shown(s', m, c)
  {
    forall m, c | 0 <= m < |s'.nodes|
      ensures Tag(s'.nodes[m], c) == Shown(s', m, c)
    {
      assert FlightOk(s, row) && (c.row in s.flights ==> FlightOk(s, c.row));
      TakeKeepsOneShown(s, row, n, s', m, c);
    }
  }

  lemma AckKeepsShown(cfg: Config, s: State, row: string, s': State)
    requires Inv(cfg, s) && NoneAbandoned(s) && NextAck(s, row, s')
    ensures forall n, c :: 0 <= n < |s.nodes| ==> Shown(s', n, c) == Shown(s, n, c)
    ensures NoneAbandoned(s')
  {
    assert FlightOk(s, row);
    forall n, c | 0 <= n < |s.nodes|
      ensures Shown(s', n, c) == Shown(s, n, c)
    {
      assert Has(s.flights[row], n);
    }
  }

  lemma BeginKeepsAgreement(cfg: Config, s: State, p: nat, op: Op, s': State)
    requires Agree(cfg, s) && Inv(cfg, s') && NextBegin(s, p, op, s')
    ensures Agree(cfg, s')
  {
    BeginKeepsChain(cfg, s, p, op, s');
    BeginKeepsShown(cfg, s, p, op, s');
  }

  lemma TakeKeepsFlights(s: State, row: string, n: nat, s': State)
    requires Takes(s, row, n, s') && s'.acked == s.acked && NoneAbandoned(s)
    ensures NoneAbandoned(s')
  {
    forall k | 1 <= k <= |s'.ops| && k !in s'.acked
      ensures OpAt(s'.ops, k).cell.row in s'.flights && s'.flights[OpAt(s'.ops, k).cell.row].op == k
    {
      assert s.flights[OpAt(s.ops, k).cell.row].op == k;
    }
  }

  lemma TakeKeepsAgreement(cfg: Config, s: State, row: string, n: nat, s': State)
    requires Agree(cfg, s) && Inv(cfg, s') && Takes(s, row, n, s') && s'.acked == s.acked && s'.nodes[n].up
    ensures Agree(cfg, s')
  {
    TakeKeepsShown(cfg, s, row, n, s');
    TakeKeepsFlights(s, row, n, s');
  }

  lemma SendKeepsAgreement(cfg: Config, s: State, row: string, n: nat, s': State)
    requires Agree(cfg, s) && Inv(cfg, s') && NextSend(s, row, n, s')
    ensures Agree(cfg, s')
  {
    assert FlightOk(s, row);
    SendTakes(s, row, n, s');
    TakeKeepsAgreement(cfg, s, row, n, s');
  }

  lemma SendTakes(s: State, row: string, n: nat, s': State)
    requires NextSend(s, row, n, s') && s.nodes[n].up && FlightOk(s, row)
    ensures Takes(s, row, n, s') && s'.acked == s.acked && s'.nodes[n].up
  {
  }

  lemma ApplyTakes(s: State, row: string, s': State)
    requires NextApply(s, row, s') && FlightOk(s, row)
    ensures Takes(s, row, s.flights[row].home, s') && s'.acked == s.acked && s'.nodes[s.flights[row].home].up
  {
  }

  lemma ApplyKeepsAgreement(cfg: Config, s: State, row: string, s': State)
    requires Agree(cfg, s) && Inv(cfg, s') && NextApply(s, row, s')
    ensures Agree(cfg, s')
  {
    assert FlightOk(s, row);
    ApplyTakes(s, row, s');
    TakeKeepsAgreement(cfg, s, row, s.flights[row].home, s');
  }

  lemma AckKeepsAgreement(cfg: Config, s: State, row: string, s': State)
    requires Agree(cfg, s) && Inv(cfg, s') && NextAck(s, row, s')
    ensures Agree(cfg, s')
  {
    AckKeepsShown(cfg, s, row, s');
    forall n, c | 0 <= n < |s'.nodes|
      ensures Tag(s'.nodes[n], c) == Shown(s', n, c)
    {
      assert Tag(s.nodes[n], c) == Shown(s, n, c);
    }
  }

  /** Without crashes every step keeps every replica at the before- or the after-image of every cell. */
  lemma StepKeepsAgreement(cfg: Config, s: State, step: Step, s': State)
    requires Agree(cfg, s) && Next(cfg, s, step, s') && !step.Crash?
    ensures Agree(cfg, s')
  {
    StepKeepsInv(cfg, s, step, s');
    match step
    case Begin(p, op) => BeginKeepsAgreement(cfg, s, p, op, s');
    case Send(row, n) => SendKeepsAgreement(cfg, s, row, n, s');
    case Apply(row) => ApplyKeepsAgreement(cfg, s, row, s');
    case Ack(row) => AckKeepsAgreement(cfg, s, row, s');
    case Health => TagsKeepAgreement(cfg, s, s');
    case Refresh(_) => TagsKeepAgreement(cfg, s, s');
    case Rejoin(n) =>
  }

  lemma TagsKeepAgreement(cfg: Config, s: State, s': State)
    requires Agree(cfg, s) && Inv(cfg, s') && |s'.nodes| == |s.nodes|
    requires s' == s.(nodes := s'.nodes, pidx := s'.pidx)
    requires forall n :: 0 <= n < |s.nodes| ==> s'.nodes[n] == s.nodes[n].(view := s'.nodes[n].view)
    ensures Agree(cfg, s')
  {
    forall n, c | 0 <= n < |s'.nodes|
      ensures Tag(s'.nodes[n], c) == Shown(s', n, c)
    {
      assert Tag(s.nodes[n], c) == Shown(s, n, c);
    }
  }

  lemma {:induction false} RunKeepsAgreement(cfg: Config, states: seq<State>, steps: seq<Step>)
    requires IsRun(cfg, states, steps)
    requires forall i :: 0 <= i < |steps| ==> !steps[i].Crash?
    ensures Agree(cfg, states[|steps|])
  {
    if |steps| == 0 {
      InitInv(cfg, states[0]);
    } else {
      var n := |steps| - 1;
      RunPrefix(cfg, states, steps, n);
      RunKeepsAgreement(cfg, states[..n + 1], steps[..n]);
      StepKeepsAgreement(cfg, states[n], steps[n], states[n + 1]);
    }
  }

  /** Has the operation under way on the row, opened by step `i`, arrived at node `n`? */
  ghost predicate Arrived(steps: seq<Step>, row: string, n: nat) {
    var i := Opening(steps, row);
    i != -1 && if n == steps[i].at then Since(steps, i, Apply(row)) else Since(steps, i, Send(row, n))
  }

  lemma HasIsArrived(s: State, steps: seq<Step>, row: string, n: nat)
    requires ToldBy(s, steps) && row in s.flights
    ensures Has(s.flights[row], n) <==> Arrived(steps, row, n)
  {
    assert FlightTold(s, steps, row);
  }

  /**
   Replica agreement.  After every run without crashes, every replica holds in every cell
   what the last acknowledged of the requested operations asked for, except that if the
   latest operation on the row is on that cell, under way, and has arrived at the replica,
   it holds what that one asked for.
   */
  lemma ReplicasAgree(cfg: Config, states: seq<State>, steps: seq<Step>, n: nat, c: Cell)
    requires IsRun(cfg, states, steps)
    requires forall i :: 0 <= i < |steps| ==> !steps[i].Crash?
    requires n < |states[|steps|].nodes|
    ensures
      var ops, k := Requested(steps), LatestOn(Requested(steps), c.row);
      Lookup(states[|steps|].nodes[n].mem, c) ==
        if k > 0 && OpAt(ops, k).cell == c && Arrived(steps, c.row, n) then OpAt(ops, k).effect
        else EffectAt(cfg, ops, c, LatestAcked(ops, Acknowledged(steps), c))
  {
    var s := states[|steps|];
    RunKeepsAgreement(cfg, states, steps);
    RunTold(cfg, states, steps);
    assert NodeOk(cfg, s.ops, s.nodes[n]);
    assert Tag(s.nodes[n], c) == Shown(s, n, c);
    LastIsLatestAcked(s, c);
    assert FlightTold(s, steps, c.row);
    if c.row in s.flights {
      HasIsArrived(s, steps, c.row, n);
      assert FlightOk(s, c.row);
    }
  }

  /** Hence with no operation in flight all tablets have the same contents. */
  lemma QuietReplicasEqual(cfg: Config, states: seq<State>, steps: seq<Step>, n: nat, m: nat)
    requires IsRun(cfg, states, steps)
    requires forall i :: 0 <= i < |steps| ==> !steps[i].Crash?
    requires n < |states[|steps|].nodes| && m < |states[|steps|].nodes| && states[|steps|].flights == map[]
    ensures states[|steps|].nodes[n].mem == states[|steps|].nodes[m].mem
  {
    forall c
      ensures Lookup(states[|steps|].nodes[n].mem, c) == Lookup(states[|steps|].nodes[m].mem, c)
    {
      ReplicasAgree(cfg, states, steps, n, c);
      ReplicasAgree(cfg, states, steps, m, c);
      RunTold(cfg, states, steps);
      assert FlightTold(states[|steps|], steps, c.row);
    }
    SameLookupsSameMap(states[|steps|].nodes[n].mem, states[|steps|].nodes[m].mem);
  }

  /**
   Compare-and-put is atomic on the replicated store: in every run without crashes, every
   compare-and-put let through expected exactly what the operation started before it on
   its cell left there, absent counting as "".
   */
  lemma CompareAndPutAtomic(cfg: Config, states: seq<State>, steps: seq<Step>, k: nat)
    requires IsRun(cfg, states, steps)
    requires forall i :: 0 <= i < |steps| ==> !steps[i].Crash?
    requires 1 <= k <= |Requested(steps)| && OpAt(Requested(steps), k).guard.Some?
    ensures
      var ops := Requested(steps);
      Matches(EffectAt(cfg, ops, OpAt(ops, k).cell, Before(ops, OpAt(ops, k).cell, k)), OpAt(ops, k).guard.value)
  {
    RunKeepsAgreement(cfg, states, steps);
    RunTold(cfg, states, steps);
  }
}
