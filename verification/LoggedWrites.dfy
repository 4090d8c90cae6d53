/**
 What a storage node gives back after a crash, told by the writes its steps logged
 (src/kv/KVClass.h:250-415, 484-580) and not by its own state.
 */
module LoggedWrites {
  import opened Basics
  import opened Tablets
  import opened Records
  import opened Durability

  /** The writes logged, in order. */
  function Logged(steps: seq<Step>): seq<Write> {
    if steps == [] then []
    else
      var front, last := Logged(steps[..|steps| - 1]), steps[|steps| - 1];
      if last.Append? then front + [last.w] else front
  }

  lemma WriteOneMore(m: Contents, ws: seq<Write>, w: Write)
    ensures WriteAll(m, ws + [w]) == Update(WriteAll(m, ws), w.cell, w.effect)
  {
    assert (ws + [w])[..|ws|] == ws;
  }

  /** Memory with the pending writes in place is what the logged writes make. */
  ghost predicate Holds(s: State, steps: seq<Step>) {
    forall c :: Expected(s, c) == Lookup(WriteAll(map[], Logged(steps)), c)
  }

  lemma AppendHolds(s: State, steps: seq<Step>, w: Write, s': State)
    requires steps != [] && Holds(s, steps[..|steps| - 1]) && Shape(s)
    requires steps[|steps| - 1] == Append(w) && NextAppend(s, w, s')
    ensures Holds(s', steps)
  {
    WriteOneMore(map[], Logged(steps[..|steps| - 1]), w);
    forall c
      ensures Expected(s', c) == Lookup(WriteAll(map[], Logged(steps)), c)
    {
      AppendCell(s, w, s', c);
      assert Expected(s, c) == Lookup(WriteAll(map[], Logged(steps[..|steps| - 1])), c);
    }
  }

  lemma RestartKeeps(s: State, s': State, c: Cell)
    requires Shape(s) && Durable(s) && NextCrashRestart(s, s')
    ensures Expected(s', c) == Expected(s, c)
  {
    RestartCell(s, s'.mem, c);
    assert Replayed(Loaded(s), s.log, c) == Expected(s, c);
  }

  lemma PullKeeps(s: State, peer: Contents, s': State, c: Cell)
    requires NextPull(s, peer, s') && BringsNothing(s, peer)
    ensures Expected(s', c) == Expected(s, c)
  {
    assert Lookup(ContentsOf(s.mem) + peer, c) == Lookup(ContentsOf(s.mem), c);
  }

  /** No other careful step changes it. */
  lemma OtherStepKeeps(s: State, step: Step, s': State, c: Cell)
    requires Inv(s) && Durable(s) && Next(s, step, s') && CarefulStep(s, step) && !step.Append?
    ensures Expected(s', c) == Expected(s, c)
  {
    match step
    case Apply(row) => ApplyKeepsExpected(s, row, s', c);
    case CrashRestart => RestartKeeps(s, s', c);
    case PullFrom(peer) => PullKeeps(s, peer, s', c);
    case Save(_) =>
    case Truncate =>
  }

  lemma {:induction false} RunHolds(states: seq<State>, steps: seq<Step>)
    requires IsRun(states, steps) && CarefulUpTo(states, steps, |steps|)
    ensures Holds(states[|steps|], steps)
  {
    if steps == [] {
      assert ContentsOf(map[]) == map[];
    } else {
      var n := |steps| - 1;
      var s, s', last := states[n], states[n + 1], steps[n];
      RunPrefix(states, steps, n);
      RunHolds(states[..n + 1], steps[..n]);
      CarefulStepsRecover(states, steps, n);
      if last.Append? {
        AppendHolds(s, steps, last.w, s');
      } else {
        forall c
          ensures Expected(s', c) == Lookup(WriteAll(map[], Logged(steps)), c)
        {
          OtherStepKeeps(s, last, s', c);
          assert Expected(s, c) == Lookup(WriteAll(map[], Logged(steps[..n])), c);
        }
      }
    }
  }

  /**
   Nothing logged is lost and nothing else appears: after any careful run of writes,
   checkpoints and crashes, a restart gives exactly what the logged writes make of an empty
   tablet, in the order in which they were logged.
   */
  lemma RestartGivesLoggedWrites(states: seq<State>, steps: seq<Step>)
    requires IsRun(states, steps) && CarefulUpTo(states, steps, |steps|)
    ensures RestartNow(states[|steps|]).Some?
    ensures ContentsOf(RestartNow(states[|steps|]).value) == WriteAll(map[], Logged(steps))
  {
    var s := states[|steps|];
    CarefulStepsRecover(states, steps, |steps|);
    RunHolds(states, steps);
    forall c
      ensures Lookup(ContentsOf(RestartNow(s).value), c) == Lookup(WriteAll(map[], Logged(steps)), c)
    {
      assert Lookup(ContentsOf(RestartNow(s).value), c) == Expected(s, c);
    }
    SameLookupsSameMap(ContentsOf(RestartNow(s).value), WriteAll(map[], Logged(steps)));
  }

  /** With nothing pending it is also what is in memory: a write that has been applied is there, and what was there is kept. */
  lemma MemoryIsLoggedWrites(states: seq<State>, steps: seq<Step>)
    requires IsRun(states, steps) && CarefulUpTo(states, steps, |steps|) && states[|steps|].pending == map[]
    ensures ContentsOf(states[|steps|].mem) == WriteAll(map[], Logged(steps))
  {
    var s := states[|steps|];
    RunHolds(states, steps);
    forall c
      ensures Lookup(ContentsOf(s.mem), c) == Lookup(WriteAll(map[], Logged(steps)), c)
    {
      assert Expected(s, c) == Lookup(WriteAll(map[], Logged(steps)), c);
    }
    SameLookupsSameMap(ContentsOf(s.mem), WriteAll(map[], Logged(steps)));
  }

  /** A write can be logged whenever no checkpoint is being written and its row is free, and applied from then on. */
  lemma WriteCanBeMade(s: State, w: Write) returns (s1: State, s2: State)
    requires Inv(s) && !s.saving && w.cell.row !in s.pending && WriteFits(w)
    ensures NextAppend(s, w, s1) && NextApply(s1, w.cell.row, s2)
    ensures ContentsOf(s2.mem) == Update(ContentsOf(s.mem), w.cell, w.effect) && s2.pending == s.pending
  {
    s1 := AppendedTo(s, w);
    s2 := AppliedTo(s1, w.cell.row);
    AppendKeepsShape(s, w, s1);
    ApplyContents(s1, w.cell.row, s2);
    AddThenRemove(s.pending, w.cell.row, w);
  }

  /**
   Whenever no checkpoint is being written one can be started, with any enumeration of the
   tablet, and then finished; a node with nothing pending can pull any peer's cells; and a
   crash can come at any time.
   */
  lemma OtherStepsPossible(s: State, rs: seq<Record>, peer: Contents, t: Tablet)
    requires Inv(s) && Enumerates(rs, s.mem) && ContentsFit(peer) && ContentsOf(t) == ContentsOf(s.mem) + peer
    ensures !s.saving ==> exists s1, s2 :: NextSave(s, rs, s1) && NextTruncate(s1, s2) && s2.file == rs && s2.log == []
    ensures !s.saving && s.pending == map[] ==> NextPull(s, peer, s.(mem := t))
    ensures exists s1 :: NextCrashRestart(s, s1) && s1.pending == map[] && s1.file == s.file && s1.log == s.log
  {
    if !s.saving {
      var s1 := s.(file := rs, saving := true, overtaken := s.pending);
      var s2 := s1.(log := [], saving := false, overtaken := map[]);
      assert NextSave(s, rs, s1) && NextTruncate(s1, s2);
    }
    RestartReadsTheRecords(s);
    assert NextCrashRestart(s, State(RestartNow(s).value, s.file, s.log, map[], false, map[]));
  }

  function AppendedTo(s: State, w: Write): State {
    s.(log := s.log + [RecordOf(w)], pending := s.pending[w.cell.row := w])
  }

  function AppliedTo(s: State, row: string): State
    requires row in s.pending
  {
    s.(mem := ApplyRecord(s.mem, RecordOf(s.pending[row])), pending := s.pending - {row})
  }

  lemma AddThenRemove(m: map<string, Write>, k: string, w: Write)
    requires k !in m
    ensures m[k := w] - {k} == m
  {
  }
}
