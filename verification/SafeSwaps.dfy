/**
 What compare-and-put guarantees when primaries crash (src/kv/KVClass.h:959-1008): an
 abandoned write may or may not be in the cell a later compare-and-put finds, but an
 acknowledged one is never overlooked.
 */
module SafeSwaps {
  import opened Basics
  import opened Tablets
  import opened Replication
  import opened Histories
  import opened Failover

  /**
   Compare-and-put number `k` expected what operation `j` left in its cell (0 for the
   initial value), and no acknowledged operation on the cell lies between the two.
   */
  ghost predicate Replaces(cfg: Config, ops: seq<Op>, acked: set<nat>, k: nat, j: nat) {
    && j < k <= |ops| && OpAt(ops, k).guard.Some?
    && var c := OpAt(ops, k).cell;
      && Writer(ops, c, j)
      && Matches(EffectAt(cfg, ops, c, j), OpAt(ops, k).guard.value) // absent counts as ""
      && (forall i :: i in acked && j < i < k ==> OpAt(ops, i).cell != c)
  }

  ghost predicate NoneOverlooked(cfg: Config, s: State) {
    forall k :: 1 <= k <= |s.ops| && OpAt(s.ops, k).guard.Some? ==> exists j :: Replaces(cfg, s.ops, s.acked, k, j)
  }

  lemma MoreOpsReplaces(cfg: Config, ops: seq<Op>, acked: set<nat>, op: Op, k: nat, j: nat)
    requires Replaces(cfg, ops, acked, k, j)
    ensures Replaces(cfg, ops + [op], acked, k, j)
  {
    assert forall i :: 1 <= i <= |ops| ==> OpAt(ops + [op], i) == OpAt(ops, i);
  }

  /** A compare-and-put that is let through expected what the primary's own last write left. */
  lemma BeginReplaces(cfg: Config, s: State, p: nat, op: Op, s': State)
    requires Good(cfg, s) && NextBegin(s, p, op, s') && op.guard.Some?
    ensures Replaces(cfg, s'.ops, s'.acked, |s'.ops|, Tag(s.nodes[p], op.cell))
  {
    var j := Tag(s.nodes[p], op.cell);
    assert NodeOk(cfg, s.ops, s.nodes[p]) && Fresh(s, p);
    assert Writer(s.ops, op.cell, j) && Lookup(s.nodes[p].mem, op.cell) == EffectAt(cfg, s.ops, op.cell, j);
    assert OpAt(s'.ops, |s'.ops|) == op;
    assert j > 0 ==> OpAt(s'.ops, j) == OpAt(s.ops, j);
    forall i | i in s'.acked && j < i < |s'.ops|
      ensures OpAt(s'.ops, i).cell != op.cell
    {
      assert OpAt(s'.ops, i) == OpAt(s.ops, i);
      assert j >= Last(s, op.cell);
    }
  }

  /** The row lock: when an operation is acknowledged, none on its cell has been started since. */
  lemma AckReplaces(cfg: Config, s: State, row: string, s': State, k: nat, j: nat)
    requires Inv(cfg, s) && NextAck(s, row, s') && Replaces(cfg, s.ops, s.acked, k, j)
    ensures Replaces(cfg, s'.ops, s'.acked, k, j)
  {
    assert FlightOk(s, row);
  }

  lemma StepKeepsNoneOverlooked(cfg: Config, s: State, step: Step, s': State)
    requires Good(cfg, s) && NoneOverlooked(cfg, s) && Next(cfg, s, step, s')
    ensures NoneOverlooked(cfg, s')
  {
    forall k | 1 <= k <= |s'.ops| && OpAt(s'.ops, k).guard.Some?
      ensures exists j :: Replaces(cfg, s'.ops, s'.acked, k, j)
    {
      if step.Begin? && k == |s'.ops| {
        BeginReplaces(cfg, s, step.at, step.op, s');
      } else {
        assert OpAt(s'.ops, k) == OpAt(s.ops, k);
        var j :| Replaces(cfg, s.ops, s.acked, k, j);
        if step.Begin? {
          MoreOpsReplaces(cfg, s.ops, s.acked, step.op, k, j);
        } else if step.Ack? {
          AckReplaces(cfg, s, step.row, s', k, j);
        }
        assert Replaces(cfg, s'.ops, s'.acked, k, j);
      }
    }
  }

  lemma {:induction false} RunKeepsNoneOverlooked(cfg: Config, states: seq<State>, steps: seq<Step>)
    requires IsRun(cfg, states, steps) && RejoinsSafe(cfg, states, steps)
    ensures NoneOverlooked(cfg, states[|steps|])
  {
    if |steps| > 0 {
      var n := |steps| - 1;
      RunPrefix(cfg, states, steps, n);
      RunKeepsNoneOverlooked(cfg, states[..n + 1], steps[..n]);
      RunKeepsGood(cfg, states[..n + 1], steps[..n]);
      StepKeepsNoneOverlooked(cfg, states[n], steps[n], states[n + 1]);
    }
  }

  /**
   Compare-and-put under crashes, elections and safe rejoins, in any order.  After
   every such run, every compare-and-put let through expected what some earlier
   operation on its cell left there (0 for the initial value), and no operation on the cell
   between the two has been acknowledged, before it or since: it overwrites no acknowledged
   write it did not expect.
   */
  lemma NoAcknowledgedWriteOverlooked(cfg: Config, states: seq<State>, steps: seq<Step>, k: nat) returns (j: nat)
    requires IsRun(cfg, states, steps) && RejoinsSafe(cfg, states, steps)
    requires 1 <= k <= |Requested(steps)| && OpAt(Requested(steps), k).guard.Some?
    ensures Replaces(cfg, Requested(steps), Acknowledged(steps), k, j)
  {
    RunKeepsNoneOverlooked(cfg, states, steps);
    RunTold(cfg, states, steps);
    j :| Replaces(cfg, Requested(steps), Acknowledged(steps), k, j);
  }
}
