/**
 What a run of the replicated protocol (src/kv/KVClass.h:632-702, 820-1092) looks like from
 outside: which operations its steps asked for, which were acknowledged, and which are still
 under way and where they have arrived.  The states' own bookkeeping is proved to say the
 same, so that the main results can be stated over the steps and the nodes' tablets alone.
 */
module Histories {
  import opened Basics
  import opened Tablets
  import opened Replication

  /** The operations the steps asked for, in order, as they were asked for. */
  function Requested(steps: seq<Step>): seq<Op> {
    if steps == [] then []
    else
      var front, last := Requested(steps[..|steps| - 1]), steps[|steps| - 1];
      if last.Begin? then front + [last.op] else front
  }

  /** The latest operation on a row, or 0. */
  function LatestOn(ops: seq<Op>, row: string): (k: nat)
    ensures k <= |ops| && (k > 0 ==> OpAt(ops, k).cell.row == row)
    ensures forall i :: k < i <= |ops| ==> OpAt(ops, i).cell.row != row
  {
    if ops == [] then 0
    else if ops[|ops| - 1].cell.row == row then |ops|
    else
      var k := LatestOn(ops[..|ops| - 1], row);
      assert forall i :: 1 <= i < |ops| ==> OpAt(ops[..|ops| - 1], i) == OpAt(ops, i);
      k
  }

  /** The operations acknowledged: each Ack answers the latest operation on its row. */
  function Acknowledged(steps: seq<Step>): set<nat> {
    if steps == [] then {}
    else
      var front, last := steps[..|steps| - 1], steps[|steps| - 1];
      if last.Ack? then Acknowledged(front) + {LatestOn(Requested(front), last.row)} else Acknowledged(front)
  }

  predicate Starts(step: Step, row: string) { step.Begin? && step.op.cell.row == row }

  /** The step that started the operation still under way on a row, or -1: no Ack, and no crash of its primary, since. */
  function Opening(steps: seq<Step>, row: string): (i: int)
    ensures -1 <= i < |steps|
    ensures i != -1 ==> Starts(steps[i], row)
    ensures i != -1 ==> forall j :: i < j < |steps| ==>
              !Starts(steps[j], row) && steps[j] != Ack(row) && steps[j] != Crash(steps[i].at)
  {
    if steps == [] then -1
    else
      var front, last := steps[..|steps| - 1], steps[|steps| - 1];
      var i := Opening(front, row);
      if Starts(last, row) then |steps| - 1
      else if i != -1 && (last == Ack(row) || last == Crash(steps[i].at)) then -1
      else i
  }

  /** An operation that no step has ended is the one under way. */
  lemma {:induction false} OpeningIs(steps: seq<Step>, row: string, i: nat)
    requires i < |steps| && Starts(steps[i], row)
    requires forall j :: i < j < |steps| ==> !Starts(steps[j], row) && steps[j] != Ack(row) && steps[j] != Crash(steps[i].at)
    ensures Opening(steps, row) == i
  {
    if i < |steps| - 1 {
      OpeningIs(steps[..|steps| - 1], row, i);
    }
  }

  /** Has a step after number `i` been this one? */
  ghost predicate Since(steps: seq<Step>, i: int, step: Step) {
    exists j :: i < j < |steps| && 0 <= j && steps[j] == step
  }

  lemma SinceOneMore(steps: seq<Step>, i: int, step: Step)
    requires steps != [] && i < |steps| - 1
    ensures Since(steps, i, step) <==> Since(steps[..|steps| - 1], i, step) || steps[|steps| - 1] == step
  {
    var front := steps[..|steps| - 1];
    if Since(front, i, step) {
      var j :| i < j < |front| && 0 <= j && front[j] == step;
      assert steps[j] == step;
    }
    if Since(steps, i, step) {
      var j :| i < j < |steps| && 0 <= j && steps[j] == step;
      assert j < |front| ==> front[j] == step;
    }
    assert steps[|steps| - 1] == step ==> Since(steps, i, step);
  }

  /** The row lock's record says what the steps say. */
  ghost predicate FlightTold(s: State, steps: seq<Step>, row: string) {
    var i := Opening(steps, row);
    && (row in s.flights <==> i != -1)
    && (row in s.flights ==>
          var f := s.flights[row];
          && f.op == LatestOn(Requested(steps), row) && f.home == steps[i].at
          && (forall n :: n in f.sent <==> Since(steps, i, Send(row, n)))
          && (f.applied <==> Since(steps, i, Apply(row))))
  }

  ghost predicate ToldBy(s: State, steps: seq<Step>) {
    && s.ops == Requested(steps)
    && s.acked == Acknowledged(steps)
    && forall row :: FlightTold(s, steps, row)
  }

  lemma LatestOneMore(ops: seq<Op>, op: Op, row: string)
    ensures LatestOn(ops + [op], row) == if op.cell.row == row then |ops| + 1 else LatestOn(ops, row)
  {
    assert (ops + [op])[..|ops|] == ops;
  }

  /** A step that does not concern the row. */
  lemma OtherStepTold(cfg: Config, s: State, steps: seq<Step>, s': State, row: string)
    requires steps != [] && FlightTold(s, steps[..|steps| - 1], row)
    requires var last := steps[|steps| - 1];
      && !Starts(last, row) && last != Ack(row) && last != Apply(row) && !(last.Send? && last.row == row)
      && (row in s.flights ==> last != Crash(s.flights[row].home))
    requires row in s'.flights <==> row in s.flights
    requires row in s.flights ==> s'.flights[row] == s.flights[row]
    ensures FlightTold(s', steps, row)
  {
    var front, last := steps[..|steps| - 1], steps[|steps| - 1];
    var i := Opening(front, row);
    if row in s.flights {
      if last.Begin? {
        LatestOneMore(Requested(front), last.op, row);
      }
      forall n
        ensures n in s'.flights[row].sent <==> Since(steps, i, Send(row, n))
      {
        SinceOneMore(steps, i, Send(row, n));
      }
      SinceOneMore(steps, i, Apply(row));
    }
  }

  lemma BeginTold(s: State, steps: seq<Step>, p: nat, op: Op, s': State)
    requires steps != [] && steps[|steps| - 1] == Begin(p, op) && NextBegin(s, p, op, s')
    requires s.ops == Requested(steps[..|steps| - 1])
    ensures FlightTold(s', steps, op.cell.row)
  {
    LatestOneMore(s.ops, op, op.cell.row);
  }

  lemma SendTold(s: State, steps: seq<Step>, row: string, m: nat, s': State)
    requires steps != [] && steps[|steps| - 1] == Send(row, m) && NextSend(s, row, m, s')
    requires FlightTold(s, steps[..|steps| - 1], row)
    ensures FlightTold(s', steps, row)
  {
    var i := Opening(steps, row);
    forall n
      ensures n in s'.flights[row].sent <==> Since(steps, i, Send(row, n))
    {
      SinceOneMore(steps, i, Send(row, n));
    }
    SinceOneMore(steps, i, Apply(row));
  }

  lemma ApplyTold(s: State, steps: seq<Step>, row: string, s': State)
    requires steps != [] && steps[|steps| - 1] == Apply(row) && NextApply(s, row, s')
    requires FlightTold(s, steps[..|steps| - 1], row)
    ensures FlightTold(s', steps, row)
  {
    var i := Opening(steps, row);
    forall n
      ensures n in s'.flights[row].sent <==> Since(steps, i, Send(row, n))
    {
      SinceOneMore(steps, i, Send(row, n));
    }
    SinceOneMore(steps, i, Apply(row));
  }

  lemma EndTold(s: State, steps: seq<Step>, s': State, row: string)
    requires steps != [] && FlightTold(s, steps[..|steps| - 1], row) && row in s.flights && row !in s'.flights
    requires steps[|steps| - 1] == Ack(row) || steps[|steps| - 1] == Crash(s.flights[row].home)
    ensures FlightTold(s', steps, row)
  {
  }

  lemma FlightStepTold(cfg: Config, s: State, steps: seq<Step>, s': State, row: string)
    requires steps != [] && ToldBy(s, steps[..|steps| - 1]) && Next(cfg, s, steps[|steps| - 1], s')
    ensures FlightTold(s', steps, row)
  {
    var front, last := steps[..|steps| - 1], steps[|steps| - 1];
    assert FlightTold(s, front, row);
    if Starts(last, row) {
      BeginTold(s, steps, last.at, last.op, s');
    } else if last.Send? && last.row == row {
      SendTold(s, steps, row, last.to, s');
    } else if last == Apply(row) {
      ApplyTold(s, steps, row, s');
    } else if last == Ack(row) || (row in s.flights && last == Crash(s.flights[row].home)) {
      EndTold(s, steps, s', row);
    } else {
      OtherStepTold(cfg, s, steps, s', row);
    }
  }

  lemma StepTold(cfg: Config, s: State, steps: seq<Step>, s': State)
    requires steps != [] && ToldBy(s, steps[..|steps| - 1]) && Next(cfg, s, steps[|steps| - 1], s')
    ensures ToldBy(s', steps)
  {
    var last := steps[|steps| - 1];
    forall row
      ensures FlightTold(s', steps, row)
    {
      FlightStepTold(cfg, s, steps, s', row);
    }
    if last.Ack? {
      assert FlightTold(s, steps[..|steps| - 1], last.row);
    }
  }

  /** In every state of every run the operations, the acknowledgements and the row locks are those of the steps so far. */
  lemma {:induction false} RunTold(cfg: Config, states: seq<State>, steps: seq<Step>)
    requires IsRun(cfg, states, steps)
    ensures ToldBy(states[|steps|], steps)
  {
    if steps != [] {
      var n := |steps| - 1;
      RunPrefix(cfg, states, steps, n);
      RunTold(cfg, states[..n + 1], steps[..n]);
      StepTold(cfg, states[n], steps, states[n + 1]);
    } else {
      forall row
        ensures FlightTold(states[0], [], row)
      {
      }
    }
  }

  /** The latest acknowledged operation on a cell, or 0. */
  function LatestAcked(ops: seq<Op>, acked: set<nat>, c: Cell): (k: nat)
    ensures k <= |ops| && (k > 0 ==> k in acked && OpAt(ops, k).cell == c)
    ensures forall i :: k < i <= |ops| && i in acked ==> OpAt(ops, i).cell != c
  {
    if ops == [] then 0
    else if |ops| in acked && ops[|ops| - 1].cell == c then |ops|
    else
      var k := LatestAcked(ops[..|ops| - 1], acked, c);
      assert forall i :: 1 <= i < |ops| ==> OpAt(ops[..|ops| - 1], i) == OpAt(ops, i);
      k
  }

  lemma LastIsLatestAcked(s: State, c: Cell)
    requires AckedOk(s.ops, s.acked, s.last)
    ensures Last(s, c) == LatestAcked(s.ops, s.acked, c)
  {
    var k := LatestAcked(s.ops, s.acked, c);
    assert Writer(s.ops, c, Num(s.last, c));
    assert k > 0 ==> k in s.acked && k <= Num(s.last, OpAt(s.ops, k).cell);
    assert Num(s.last, c) > 0 ==> Num(s.last, c) in s.acked && OpAt(s.ops, Num(s.last, c)).cell == c;
  }
}
