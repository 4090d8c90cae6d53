/**
 A run in which an acknowledged delete is undone: a backup is down while the cell is
 deleted, comes back with its own recovered tablet, and pulling the primary's tablet
 (src/kv/KVClass.h:86-115, 1178-1199) brings only cells the primary still has.
 */
module DeletedValue {
  import opened Basics
  import opened Tablets
  import opened Views
  import opened Coordinator
  import opened Replication
  import opened Failover

  const CELL := Cell("row", "col")

  const TWO: Config := Config(["a", "b"], map[CELL := "v"])

  const DELETE := Op(CELL, None, None)

  const INITIAL_NODE: Node := Node(true, UK_STATUS, map[CELL := "v"], map[])

  const PRIMARY: Node := Node(true, M_STATUS, map[CELL := "v"], map[])

  function Backup(up: bool): Node { Node(up, 0, map[CELL := "v"], map[]) }

  const START: State := State([INITIAL_NODE, INITIAL_NODE], -1, map[], [], {}, map[])

  const HEALTHY: State := State([PRIMARY, Backup(true)], 0, map[], [], {}, map[])

  const DOWN: State := State([PRIMARY, Backup(false)], 0, map[], [], {}, map[])

  const BEGUN: State := State([PRIMARY, Backup(false)], 0, map["row" := Flight(1, 0, {}, false)], [DELETE], {}, map[])

  const MISSED: State := BEGUN.(flights := map["row" := Flight(1, 0, {1}, false)])

  const DELETED: Node := Node(true, M_STATUS, map[], map[CELL := 1])

  const APPLIED: State :=
    State([DELETED, Backup(false)], 0, map["row" := Flight(1, 0, {1}, true)], [DELETE], {}, map[])

  const ACKED: State := State([DELETED, Backup(false)], 0, map[], [DELETE], {1}, map[CELL := 1])

  const BACK: State :=
    State([DELETED, Node(true, 0, map[CELL := "v"], map[CELL := 0])], 0, map[], [DELETE], {1}, map[CELL := 1])

  lemma ViewsOfTwo()
    ensures RenewIdx("a", PeersOf(["a", "b"], 0), "a") == M_STATUS
    ensures RenewIdx("b", PeersOf(["a", "b"], 1), "a") == 0
    ensures "a" != "b"
  {
    assert "a"[0] != "b"[0];
    assert PeersOf(["a", "b"], 1) == ["a"];
  }

  lemma ElectFirst()
    ensures Elect([true, true]) == 0
  {
  }

  lemma HealthStep()
    ensures Next(TWO, START, Health, HEALTHY)
  {
    ViewsOfTwo();
    ElectFirst();
    assert Ups(START.nodes) == [true, true];
  }

  lemma CrashStep()
    ensures Next(TWO, HEALTHY, Crash(1), DOWN)
  {
    assert (map r | r in HEALTHY.flights && HEALTHY.flights[r].home != 1 :: HEALTHY.flights[r]) == map[];
    assert HEALTHY.nodes[1 := HEALTHY.nodes[1].(up := false)] == DOWN.nodes;
  }

  lemma BeginStep()
    ensures Next(TWO, DOWN, Begin(0, DELETE), BEGUN)
  {
    assert DOWN.ops + [DELETE] == [DELETE];
    assert CELL.row == "row";
  }

  lemma SendStep()
    ensures Next(TWO, BEGUN, Send("row", 1), MISSED)
  {
    assert BEGUN.flights["row"] == Flight(1, 0, {}, false);
    assert {} + {1} == {1};
    assert BEGUN.flights["row" := Flight(1, 0, {1}, false)] == MISSED.flights;
  }

  lemma AckSteps()
    ensures Next(TWO, MISSED, Apply("row"), APPLIED)
    ensures Next(TWO, APPLIED, Ack("row"), ACKED)
  {
    assert WriteNode(PRIMARY, 1, DELETE) == DELETED;
    assert MISSED.nodes[0 := DELETED] == APPLIED.nodes;
    assert APPLIED.flights - {"row"} == map[];
  }

  lemma RejoinStep()
    ensures Next(TWO, ACKED, Rejoin(1), BACK)
  {
    ViewsOfTwo();
    var s := ACKED;
    assert SyncPeer(TWO, s, 1) == 0;
    var back := Merged(s.nodes[1], s.nodes[0]);
    assert back.mem == map[CELL := "v"];
    assert back.tags == map[CELL := 0];
    assert s.nodes[1 := BACK.nodes[1]] == BACK.nodes;
  }

  const RUN: seq<State> := [START, HEALTHY, DOWN, BEGUN, MISSED, APPLIED, ACKED, BACK]

  const STEPS: seq<Step> := [Health, Crash(1), Begin(0, DELETE), Send("row", 1), Apply("row"), Ack("row"), Rejoin(1)]

  lemma StepFollows(i: nat)
    requires i < |STEPS|
    ensures Next(TWO, RUN[i], STEPS[i], RUN[i + 1])
  {
    if i == 0 {
      HealthStep();
    } else if i == 1 {
      CrashStep();
    } else if i == 2 {
      BeginStep();
    } else if i == 3 {
      SendStep();
    } else if i <= 5 {
      AckSteps();
    } else {
      RejoinStep();
    }
  }

  /** The whole run: the delete is acknowledged, and afterwards a live node answers with the deleted value. */
  lemma AcknowledgedDeleteUndone()
    ensures IsRun(TWO, RUN, STEPS) && !RejoinsSafe(TWO, RUN, STEPS)
    ensures
      var s := RUN[|STEPS|];
      && s == BACK && s.ops == [DELETE] && s.acked == {1} && s.flights == map[]
      && s.nodes[1].up && Lookup(s.nodes[1].mem, CELL) == Some("v")
      && Lookup(s.nodes[0].mem, CELL) == None
  {
    ViewsOfTwo();
    forall i | 0 <= i < |STEPS| ensures Next(TWO, RUN[i], STEPS[i], RUN[i + 1]) {
      StepFollows(i);
    }
    assert STEPS[6] == Rejoin(1) && RUN[6] == ACKED;
    assert !SafeRejoin(TWO, ACKED, 1) by {
      assert SyncPeer(TWO, ACKED, 1) == 0;
      assert Source(TWO, ACKED, 1, CELL) == 1;
    }
  }
}
