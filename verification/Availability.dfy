/**
 That the replicated store does its work at all (src/kv/KVClass.h:632-702, 836-897): from
 every state runs reach, a write can be taken up, sent, applied and acknowledged, and is
 then what every live node holds; and every failure and repair can happen when it may.
 */
module Availability {
  import opened Basics
  import opened Tablets
  import opened Views
  import opened Coordinator
  import opened Replication
  import opened Failover

  lemma {:induction false} ContinuesConcat(cfg: Config, states: seq<State>, steps: seq<Step>, states2: seq<State>, steps2: seq<Step>)
    requires Continues(cfg, states, steps) && Continues(cfg, states2, steps2) && states2[0] == states[|steps|]
    ensures Continues(cfg, states[..|steps|] + states2, steps + steps2)
    ensures (states[..|steps|] + states2)[|steps + steps2|] == states2[|steps2|]
    ensures (states[..|steps|] + states2)[0] == states[0]
  {
  }

  /** Node by node what a step towards the commit of an operation on `c` leaves alone. */
  ghost predicate OnlyCell(s: State, t: State, c: Cell) {
    && |t.nodes| == |s.nodes| && t.pidx == s.pidx && t.ops == s.ops
    && forall n :: 0 <= n < |s.nodes| ==>
         && t.nodes[n].up == s.nodes[n].up && t.nodes[n].view == s.nodes[n].view
         && forall d :: d != c ==> Lookup(t.nodes[n].mem, d) == Lookup(s.nodes[n].mem, d)
  }

  lemma OnlyCellTrans(s: State, t: State, u: State, c: Cell)
    requires OnlyCell(s, t, c) && OnlyCell(t, u, c)
    ensures OnlyCell(s, u, c)
  {
    forall n, d | 0 <= n < |s.nodes| && d != c
      ensures Lookup(u.nodes[n].mem, d) == Lookup(s.nodes[n].mem, d)
    {
      assert Lookup(t.nodes[n].mem, d) == Lookup(s.nodes[n].mem, d);
    }
  }

  /** The cell of the operation that holds a row lock. */
  function CellAt(s: State, row: string): Cell
    requires row in s.flights && 1 <= s.flights[row].op <= |s.ops|
  {
    OpAt(s.ops, s.flights[row].op).cell
  }

  lemma SendAdvances(cfg: Config, s: State, row: string, m: nat)
    requires Good(cfg, s) && row in s.flights && m < |s.nodes| && m != s.flights[row].home && m !in s.flights[row].sent
    requires 1 <= s.flights[row].op <= |s.ops|
    ensures NextSend(s, row, m, SentTo(s, row, m)) && Good(cfg, SentTo(s, row, m))
    ensures OnlyCell(s, SentTo(s, row, m), CellAt(s, row))
    ensures Unsent(SentTo(s, row, m), row) < Unsent(s, row)
  {
    var s1 := SentTo(s, row, m);
    StepKeepsGoodExactly(cfg, s, Send(row, m), s1);
    assert m in Unsent(s, row) && m !in Unsent(s1, row);
    assert Unsent(s1, row) <= Unsent(s, row);
  }

  lemma ApplyAdvances(cfg: Config, s: State, row: string)
    requires Good(cfg, s) && row in s.flights && AllSent(s, s.flights[row]) && !s.flights[row].applied
    requires 1 <= s.flights[row].op <= |s.ops| && s.flights[row].home < |s.nodes|
    ensures NextApply(s, row, AppliedAt(s, row)) && Good(cfg, AppliedAt(s, row))
    ensures OnlyCell(s, AppliedAt(s, row), CellAt(s, row))
    ensures Unsent(AppliedAt(s, row), row) == Unsent(s, row)
  {
    StepKeepsGoodExactly(cfg, s, Apply(row), AppliedAt(s, row));
  }

  /** When the operation has been applied, every live node has it. */
  lemma AckShows(cfg: Config, s: State, row: string)
    requires Good(cfg, s) && row in s.flights && s.flights[row].applied && 1 <= s.flights[row].op <= |s.ops|
    ensures NextAck(s, row, AckedAt(s, row)) && Good(cfg, AckedAt(s, row))
    ensures forall n :: 0 <= n < |s.nodes| && s.nodes[n].up ==>
              Lookup(s.nodes[n].mem, CellAt(s, row)) == OpAt(s.ops, s.flights[row].op).effect
  {
    var f := s.flights[row];
    StepKeepsGoodExactly(cfg, s, Ack(row), AckedAt(s, row));
    assert FlightOk(s, row) && Delivered(s, row);
    forall n | 0 <= n < |s.nodes| && s.nodes[n].up
      ensures Lookup(s.nodes[n].mem, CellAt(s, row)) == OpAt(s.ops, f.op).effect
    {
      assert n == f.home || n in f.sent;
      assert NodeOk(cfg, s.ops, s.nodes[n]);
      assert Tag(s.nodes[n], CellAt(s, row)) == f.op;
    }
  }

  /** A step of one operation on the way to its acknowledgement. */
  predicate Works(step: Step, row: string) {
    step == Apply(row) || step == Ack(row) || (step.Send? && step.row == row)
  }

  /** The run that ends in `t` commits the operation of the row lock, and does nothing else. */
  ghost predicate Commits(cfg: Config, s: State, row: string, states: seq<State>, steps: seq<Step>)
    requires row in s.flights && 1 <= s.flights[row].op <= |s.ops|
  {
    && Continues(cfg, states, steps) && states[0] == s
    && (forall i :: 0 <= i < |steps| ==> Works(steps[i], row))
    && var t, k := states[|steps|], s.flights[row].op;
      && Good(cfg, t) && OnlyCell(s, t, CellAt(s, row))
      && k in t.acked && row !in t.flights && t.flights.Keys == s.flights.Keys - {row}
      && forall n :: 0 <= n < |s.nodes| && s.nodes[n].up ==> Lookup(t.nodes[n].mem, CellAt(s, row)) == OpAt(s.ops, k).effect
  }

  lemma CommitsBefore(cfg: Config, s: State, row: string, step: Step, s1: State, states: seq<State>, steps: seq<Step>)
    requires row in s.flights && 1 <= s.flights[row].op <= |s.ops|
    requires Next(cfg, s, step, s1) && Works(step, row) && OnlyCell(s, s1, CellAt(s, row))
    requires s1.flights.Keys == s.flights.Keys && s1.flights[row].op == s.flights[row].op
    requires Commits(cfg, s1, row, states, steps)
    ensures Commits(cfg, s, row, [s] + states, [step] + steps)
  {
    ContinuesBefore(cfg, s, step, states, steps);
    OnlyCellTrans(s, s1, states[|steps|], CellAt(s, row));
  }

  lemma AckCommits(cfg: Config, s: State, row: string)
    requires Good(cfg, s) && row in s.flights && s.flights[row].applied && 1 <= s.flights[row].op <= |s.ops|
    ensures Commits(cfg, s, row, [s, AckedAt(s, row)], [Ack(row)])
  {
    AckShows(cfg, s, row);
  }

  lemma SendCommits(cfg: Config, s: State, row: string, m: nat, states: seq<State>, steps: seq<Step>)
    requires Good(cfg, s) && row in s.flights && m < |s.nodes| && m != s.flights[row].home && m !in s.flights[row].sent
    requires 1 <= s.flights[row].op <= |s.ops| && Commits(cfg, SentTo(s, row, m), row, states, steps)
    ensures Commits(cfg, s, row, [s] + states, [Send(row, m)] + steps)
  {
    SendAdvances(cfg, s, row, m);
    CommitsBefore(cfg, s, row, Send(row, m), SentTo(s, row, m), states, steps);
  }

  lemma ApplyCommits(cfg: Config, s: State, row: string, states: seq<State>, steps: seq<Step>)
    requires Good(cfg, s) && row in s.flights && AllSent(s, s.flights[row]) && !s.flights[row].applied
    requires 1 <= s.flights[row].op <= |s.ops| && s.flights[row].home < |s.nodes|
    requires Commits(cfg, AppliedAt(s, row), row, states, steps)
    ensures Commits(cfg, s, row, [s] + states, [Apply(row)] + steps)
  {
    ApplyAdvances(cfg, s, row);
    CommitsBefore(cfg, s, row, Apply(row), AppliedAt(s, row), states, steps);
  }

  /** Every operation that holds a row lock can still be committed. */
  lemma {:induction false} LockedCommits(cfg: Config, s: State, row: string) returns (states: seq<State>, steps: seq<Step>)
    requires Good(cfg, s) && row in s.flights
    ensures 1 <= s.flights[row].op <= |s.ops| && Commits(cfg, s, row, states, steps)
    decreases Unsent(s, row), !s.flights[row].applied
  {
    assert FlightOk(s, row);
    var f := s.flights[row];
    if f.applied {
      AckCommits(cfg, s, row);
      states, steps := [s, AckedAt(s, row)], [Ack(row)];
    } else if m: nat :| m < |s.nodes| && m != f.home && m !in f.sent {
      SendAdvances(cfg, s, row, m);
      var rest, more := LockedCommits(cfg, SentTo(s, row, m), row);
      SendCommits(cfg, s, row, m, rest, more);
      states, steps := [s] + rest, [Send(row, m)] + more;
    } else {
      ApplyAdvances(cfg, s, row);
      var rest, more := LockedCommits(cfg, AppliedAt(s, row), row);
      ApplyCommits(cfg, s, row, rest, more);
      states, steps := [s] + rest, [Apply(row)] + more;
    }
  }

  function BegunAt(s: State, p: nat, op: Op): State {
    s.(ops := s.ops + [op], flights := s.flights[op.cell.row := Flight(|s.ops| + 1, p, {}, false)])
  }

  /** After the run every live node of `s` holds in the cell what `op` asks for, and `op` is acknowledged; other cells are as they were. */
  ghost predicate Written(s: State, t: State, op: Op) {
    && |t.nodes| == |s.nodes| && op.cell.row !in t.flights
    && s.ops < t.ops && t.ops[|t.ops| - 1] == op && |t.ops| in t.acked
    && forall n :: 0 <= n < |s.nodes| ==>
         && t.nodes[n].up == s.nodes[n].up
         && (s.nodes[n].up ==> Lookup(t.nodes[n].mem, op.cell) == op.effect)
  }

  /**
   A request that reaches the live primary, with its row free and its guard met, can be
   carried through, and every live node then holds exactly what it asked for; no other
   cell of any node changes.
   */
  lemma RequestCommits(cfg: Config, s: State, p: nat, op: Op) returns (states: seq<State>, steps: seq<Step>)
    requires Good(cfg, s) && p < |s.nodes| && s.nodes[p].up && s.nodes[p].view == M_STATUS
    requires op.cell.row !in s.flights
    requires op.guard.Some? ==> Matches(Lookup(s.nodes[p].mem, op.cell), op.guard.value)
    ensures Continues(cfg, states, steps) && states[0] == s && |steps| >= 1 && steps[0] == Begin(p, op)
    ensures forall i :: 1 <= i < |steps| ==> Works(steps[i], op.cell.row)
    ensures Good(cfg, states[|steps|]) && Written(s, states[|steps|], op) && states[|steps|].ops == s.ops + [op]
    ensures forall n, d :: 0 <= n < |s.nodes| && d != op.cell ==> Lookup(states[|steps|].nodes[n].mem, d) == Lookup(s.nodes[n].mem, d)
  {
    BegunIsGood(cfg, s, p, op);
    var rest, more := LockedCommits(cfg, BegunAt(s, p, op), op.cell.row);
    BegunIsWritten(cfg, s, p, op, rest, more);
    BeginFirst(cfg, s, p, op, rest, more);
    states, steps := [s] + rest, [Begin(p, op)] + more;
    assert states[|steps|] == rest[|more|];
  }

  lemma BeginFirst(cfg: Config, s: State, p: nat, op: Op, states: seq<State>, steps: seq<Step>)
    requires Continues(cfg, states, steps) && Next(cfg, s, Begin(p, op), states[0])
    requires forall i :: 0 <= i < |steps| ==> Works(steps[i], op.cell.row)
    ensures Continues(cfg, [s] + states, [Begin(p, op)] + steps)
    ensures forall i :: 1 <= i < 1 + |steps| ==> Works(([Begin(p, op)] + steps)[i], op.cell.row)
  {
    ContinuesBefore(cfg, s, Begin(p, op), states, steps);
  }

  lemma BegunIsGood(cfg: Config, s: State, p: nat, op: Op)
    requires Good(cfg, s) && NextBegin(s, p, op, BegunAt(s, p, op))
    ensures Next(cfg, s, Begin(p, op), BegunAt(s, p, op)) && Good(cfg, BegunAt(s, p, op))
  {
    StepKeepsGoodExactly(cfg, s, Begin(p, op), BegunAt(s, p, op));
  }

  lemma BegunIsWritten(cfg: Config, s: State, p: nat, op: Op, states: seq<State>, steps: seq<Step>)
    requires p < |s.nodes| && op.cell.row !in s.flights
    requires Commits(cfg, BegunAt(s, p, op), op.cell.row, states, steps)
    ensures Written(s, states[|steps|], op) && states[|steps|].ops == s.ops + [op]
    ensures forall n, d :: 0 <= n < |s.nodes| && d != op.cell ==> Lookup(states[|steps|].nodes[n].mem, d) == Lookup(s.nodes[n].mem, d)
  {
    assert OpAt(BegunAt(s, p, op).ops, |s.ops| + 1) == op;
  }

  function AfterHealth(cfg: Config, s: State): State
    requires -1 <= s.pidx < |s.nodes| == |cfg.addrs|
  {
    var p := NextPrimary(s.pidx, Ups(s.nodes));
    HealthRoundElects(s.pidx, Ups(s.nodes));
    s.(pidx := p,
       nodes := seq(|s.nodes|, n requires 0 <= n < |s.nodes| =>
         if Pushes(s.pidx, Ups(s.nodes)) && s.nodes[n].up then Told(cfg, s.nodes[n], n, p) else s.nodes[n]))
  }

  /** A health round can always happen; with a live node, a live primary that knows itself comes out of it. */
  lemma HealthServes(cfg: Config, s: State)
    requires Good(cfg, s)
    ensures NextHealth(cfg, s, AfterHealth(cfg, s)) && Good(cfg, AfterHealth(cfg, s))
    ensures
      var t := AfterHealth(cfg, s);
      (exists n :: 0 <= n < |s.nodes| && s.nodes[n].up) ==>
        0 <= t.pidx < |t.nodes| && t.nodes[t.pidx].up && t.nodes[t.pidx].view == M_STATUS
  {
    var t := AfterHealth(cfg, s);
    StepKeepsGoodExactly(cfg, s, Health, t);
    HealthRoundElects(s.pidx, Ups(s.nodes));
    assert forall n :: 0 <= n < |s.nodes| ==> Ups(s.nodes)[n] == s.nodes[n].up;
  }

  /** Every node that is up can crash, every node that is down can come back, and every live node that knows no primary can ask. */
  lemma FailuresAndRepairs(cfg: Config, s: State, n: nat)
    requires Good(cfg, s) && n < |s.nodes|
    ensures s.nodes[n].up ==> exists t :: NextCrash(s, n, t) && !t.nodes[n].up
    ensures !s.nodes[n].up ==> exists t :: NextRejoin(cfg, s, n, t) && t.nodes[n].up
    ensures s.nodes[n].up && s.nodes[n].view == UK_STATUS && s.pidx != -1 ==>
              exists t :: NextRefresh(cfg, s, n, t) && t.nodes[n].view != UK_STATUS
  {
    if s.nodes[n].up {
      var t := s.(nodes := s.nodes[n := s.nodes[n].(up := false)],
                  flights := map r | r in s.flights && s.flights[r].home != n :: s.flights[r]);
      assert NextCrash(s, n, t);
      if s.nodes[n].view == UK_STATUS && s.pidx != -1 {
        var u := s.(nodes := s.nodes[n := Told(cfg, s.nodes[n], n, s.pidx)]);
        ToldOk(cfg, u, s.nodes[n], n);
        assert NextRefresh(cfg, s, n, u);
      }
    } else {
      var q := SyncPeer(cfg, s, n);
      var back := if q == -1 then s.nodes[n] else Merged(s.nodes[n], s.nodes[q]);
      var t := s.(nodes := s.nodes[n := Told(cfg, back.(up := true), n, s.pidx)]);
      assert NextRejoin(cfg, s, n, t);
    }
  }

  /** A row that is locked can be freed, by committing what holds it. */
  lemma RowFrees(cfg: Config, s: State, row: string) returns (states: seq<State>, steps: seq<Step>)
    requires Good(cfg, s) && 0 <= s.pidx < |s.nodes| && s.nodes[s.pidx].up && s.nodes[s.pidx].view == M_STATUS
    ensures Continues(cfg, states, steps) && states[0] == s
    ensures forall i :: 0 <= i < |steps| ==> Works(steps[i], row)
    ensures
      var t := states[|steps|];
      && Good(cfg, t) && row !in t.flights && t.ops == s.ops && t.pidx == s.pidx && |t.nodes| == |s.nodes|
      && forall n :: 0 <= n < |s.nodes| ==> t.nodes[n].up == s.nodes[n].up && t.nodes[n].view == s.nodes[n].view
  {
    if row in s.flights {
      states, steps := LockedCommits(cfg, s, row);
    } else {
      states, steps := [s], [];
    }
  }

  /** No crash, no rejoin. */
  predicate Calm(steps: seq<Step>) {
    forall i :: 0 <= i < |steps| ==> !steps[i].Crash? && !steps[i].Rejoin?
  }

  /** With a live primary that knows itself: whatever holds the row is committed, then the write. */
  lemma PrimaryWrites(cfg: Config, s: State, op: Op) returns (states: seq<State>, steps: seq<Step>)
    requires Good(cfg, s) && 0 <= s.pidx < |s.nodes| && s.nodes[s.pidx].up && s.nodes[s.pidx].view == M_STATUS
    requires op.guard == None
    ensures Continues(cfg, states, steps) && states[0] == s && Calm(steps)
    ensures Good(cfg, states[|steps|]) && Written(s, states[|steps|], op)
  {
    var freeing, working := RowFrees(cfg, s, op.cell.row);
    var s2 := freeing[|working|];
    var writing, more := RequestCommits(cfg, s2, s2.pidx, op);
    ContinuesConcat(cfg, freeing, working, writing, more);
    WrittenSince(s, s2, writing[|more|], op);
    states, steps := freeing[..|working|] + writing, working + more;
    assert Calm(working) && Calm(more);
  }

  lemma WrittenSince(s: State, s2: State, t: State, op: Op)
    requires Written(s2, t, op) && |s2.nodes| == |s.nodes| && s2.ops == s.ops
    requires forall n :: 0 <= n < |s.nodes| ==> s2.nodes[n].up == s.nodes[n].up
    ensures Written(s, t, op)
  {
  }

  lemma HealthFirst(cfg: Config, s: State, states: seq<State>, steps: seq<Step>, op: Op)
    requires Good(cfg, s) && Continues(cfg, states, steps) && states[0] == AfterHealth(cfg, s) && Calm(steps)
    requires Written(AfterHealth(cfg, s), states[|steps|], op)
    ensures Continues(cfg, [s] + states, [Health] + steps) && Calm([Health] + steps)
    ensures Written(s, ([s] + states)[1 + |steps|], op)
  {
    HealthServes(cfg, s);
    ContinuesBefore(cfg, s, Health, states, steps);
    WrittenSince(s, AfterHealth(cfg, s), states[|steps|], op);
  }

  /**
   The store stays available: from every state runs with safe rejoins reach, as long as one
   node is live, any put or delete of any cell can be carried through without a further
   crash or rejoin, after a health round and the commit of what holds its row; every live
   node then holds what it asked for.
   */
  lemma AnyWriteCanCommit(cfg: Config, s: State, c: Cell, effect: Option<string>) returns (states: seq<State>, steps: seq<Step>)
    requires Good(cfg, s) && exists n :: 0 <= n < |s.nodes| && s.nodes[n].up
    ensures Continues(cfg, states, steps) && states[0] == s
    ensures Calm(steps)
    ensures Good(cfg, states[|steps|]) && Written(s, states[|steps|], Op(c, effect, None))
  {
    HealthServes(cfg, s);
    var rest, more := PrimaryWrites(cfg, AfterHealth(cfg, s), Op(c, effect, None));
    HealthFirst(cfg, s, rest, more, Op(c, effect, None));
    states, steps := [s] + rest, [Health] + more;
  }
}
