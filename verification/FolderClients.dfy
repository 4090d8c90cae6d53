/**
 What each client of the compare-and-swap loop does, told by its own steps
 (src/kv/storage_client.h:197-267), and what that makes of folder creation
 (src/frontend_servers/req_handling.cc:615-653).
 */
module FolderClients {
  import opened Basics
  import opened Tablets
  import opened Lists
  import opened CasClients

  /** The value client `i` has read, if it has. */
  function ReadOf(steps: seq<Step>, i: nat): Option<string> {
    if steps == [] then None
    else
      var last := steps[|steps| - 1];
      if last.ReadCell? && last.client == i then Some(last.seen) else ReadOf(steps[..|steps| - 1], i)
  }

  /** How often client `i` has tried to swap. */
  function Tries(steps: seq<Step>, i: nat): nat {
    if steps == [] then 0
    else Tries(steps[..|steps| - 1], i) + if steps[|steps| - 1] == TrySwap(i) then 1 else 0
  }

  /** What the client makes of the value it has read. */
  function Wants(programs: seq<Program>, steps: seq<Step>, i: nat): Option<string>
    requires i < |programs| && ReadOf(steps, i).Some?
  {
    programs[i](ReadOf(steps, i).value)
  }

  ghost predicate HasOwnLink(s: State, i: nat, seen: string, next: string) {
    exists k :: 0 <= k < |s.links| && s.links[k] == Link(i, seen, next)
  }

  /** The client's phase says what its steps say. */
  ghost predicate PhaseTold(programs: seq<Program>, s: State, steps: seq<Step>, i: nat)
    requires i < |s.phases| == |programs|
  {
    match s.phases[i]
    case Idle => ReadOf(steps, i) == None && Tries(steps, i) == 0
    case Trying(seen, next, tries) =>
      ReadOf(steps, i) == Some(seen) && Wants(programs, steps, i) == Some(next) && Tries(steps, i) == tries < 5
    case Finished(NoChange) => ReadOf(steps, i).Some? && Wants(programs, steps, i) == None && Tries(steps, i) == 0
    case Finished(Success) =>
      && ReadOf(steps, i).Some? && Wants(programs, steps, i).Some? && 1 <= Tries(steps, i) <= 5
      && HasOwnLink(s, i, ReadOf(steps, i).value, Wants(programs, steps, i).value)
    case Finished(Failed) =>
      ReadOf(steps, i).Some? && Wants(programs, steps, i).Some? && (Tries(steps, i) == 5 || !s.up)
  }

  lemma LinkStays(s: State, s': State, i: nat, seen: string, next: string)
    requires HasOwnLink(s, i, seen, next) && s.links <= s'.links
    ensures HasOwnLink(s', i, seen, next)
  {
    var k :| 0 <= k < |s.links| && s.links[k] == Link(i, seen, next);
    assert s'.links[k] == s.links[k];
  }

  /** A step of another client. */
  lemma OtherStepTold(programs: seq<Program>, s: State, steps: seq<Step>, checkedAt: bool, s': State, i: nat)
    requires steps != [] && Next(programs, s, steps[|steps| - 1], checkedAt, s') && steps[|steps| - 1].client != i
    requires i < |s.phases| == |programs| && PhaseTold(programs, s, steps[..|steps| - 1], i)
    ensures |s'.phases| == |programs| && PhaseTold(programs, s', steps, i)
  {
    var front := steps[..|steps| - 1];
    assert s'.phases[i] == s.phases[i] && s.links <= s'.links;
    if s.phases[i] == Finished(Success) {
      LinkStays(s, s', i, ReadOf(front, i).value, Wants(programs, front, i).value);
    }
  }

  lemma ReadTold(programs: seq<Program>, s: State, steps: seq<Step>, seen: string, s': State, i: nat)
    requires steps != [] && steps[|steps| - 1] == ReadCell(i, seen) && NextRead(programs, s, i, seen, s')
    requires i < |s.phases| == |programs| && PhaseTold(programs, s, steps[..|steps| - 1], i)
    ensures |s'.phases| == |programs| && PhaseTold(programs, s', steps, i)
  {
  }

  lemma TryTold(programs: seq<Program>, s: State, steps: seq<Step>, checkedAt: bool, s': State, i: nat)
    requires steps != [] && steps[|steps| - 1] == TrySwap(i) && NextTry(s, i, checkedAt, s')
    requires i < |s.phases| == |programs| && PhaseTold(programs, s, steps[..|steps| - 1], i)
    ensures |s'.phases| == |programs| && PhaseTold(programs, s', steps, i)
  {
    var n := |s.links|;
    if s'.phases[i] == Finished(Success) {
      assert s'.links[n] == Link(i, s.phases[i].seen, s.phases[i].next);
    }
  }

  lemma {:induction false} RunTold(programs: seq<Program>, init: Option<string>, checkedAt: bool, states: seq<State>, steps: seq<Step>, i: nat)
    requires IsRun(programs, init, checkedAt, states, steps) && i < |programs|
    ensures |states[|steps|].phases| == |programs| && PhaseTold(programs, states[|steps|], steps, i)
  {
    if steps != [] {
      var n := |steps| - 1;
      var last := steps[n];
      RunTold(programs, init, checkedAt, states[..n + 1], steps[..n], i);
      assert Next(programs, states[n], last, checkedAt, states[n + 1]);
      if last.client != i {
        OtherStepTold(programs, states[n], steps, checkedAt, states[n + 1], i);
      } else if last.ReadCell? {
        ReadTold(programs, states[n], steps, last.seen, states[n + 1], i);
      } else {
        TryTold(programs, states[n], steps, checkedAt, states[n + 1], i);
      }
    }
  }

  /**
   Every client does what its program makes of the value it read.  In every run, whatever the
   others do: it ends with nothing to do exactly if the program had nothing to do for that
   value, a success has swapped in what the program made of it, after at most five tries,
   and a failure with the store still up has tried five times.
   */
  lemma ClientsDoAsProgrammed(programs: seq<Program>, init: Option<string>, checkedAt: bool, states: seq<State>, steps: seq<Step>, i: nat)
    requires IsRun(programs, init, checkedAt, states, steps) && i < |programs|
    ensures |states[|steps|].phases| == |programs|
    ensures
      var s, read := states[|steps|], ReadOf(steps, i);
      && (s.phases[i] == Idle <==> read == None)
      && (s.phases[i] == Finished(NoChange) <==> read.Some? && programs[i](read.value) == None)
      && (s.phases[i] == Finished(Success) ==>
            && read.Some? && programs[i](read.value).Some? && 1 <= Tries(steps, i) <= 5
            && HasOwnLink(s, i, read.value, programs[i](read.value).value))
      && (s.phases[i] == Finished(Failed) ==> Tries(steps, i) == 5 || !s.up)
      && (s.phases[i].Trying? ==> Tries(steps, i) < 5)
  {
    RunTold(programs, init, checkedAt, states, steps, i);
  }

  /**
   A try commits exactly if the cell holds what the client read: with the repaired compare
   an absent cell counts as "", with the shipped one it takes the store down instead.
   */
  lemma TryExactly(programs: seq<Program>, s: State, i: nat, checkedAt: bool, s': State)
    requires Next(programs, s, TrySwap(i), checkedAt, s')
    ensures
      var Trying(seen, next, tries) := s.phases[i];
      var commits := s.cell == Some(seen) || (checkedAt && s.cell == None && seen == "");
      && (s'.phases[i] == Finished(Success) <==> commits)
      && s'.cell == (if commits then Some(next) else s.cell)
      && (s'.up <==> checkedAt || s.cell.Some? || seen != "")
  {
  }

  // ---------------------------------------------------------- create folder

  /** There is nothing to do exactly if the folder is listed. */
  lemma CreateFolderExactly(folder: string, list: string)
    requires folder != "" && ',' !in folder
    ensures CreateFolder(folder)(list) == None <==> folder in Entries(list)
    ensures CreateFolder(folder)(list).Some? ==> Entries(CreateFolder(folder)(list).value) == Entries(list) + [folder]
  {
    if CreateFolder(folder)(list).Some? {
      CreateFolderAppends(folder, list);
    }
  }

  /** "Folder existed" is the answer exactly to the clients that read a list with their folder in it. */
  lemma ExistedExactly(folders: seq<string>, programs: seq<Program>, init: Option<string>, checkedAt: bool,
                       states: seq<State>, steps: seq<Step>, i: nat)
    requires FolderPrograms(folders, programs) && IsRun(programs, init, checkedAt, states, steps) && i < |folders|
    ensures |states[|steps|].phases| == |folders|
    ensures states[|steps|].phases[i] == Finished(NoChange)
       <==> ReadOf(steps, i).Some? && folders[i] in Entries(ReadOf(steps, i).value)
  {
    ClientsDoAsProgrammed(programs, init, checkedAt, states, steps, i);
    if ReadOf(steps, i).Some? {
      CreateFolderExactly(folders[i], ReadOf(steps, i).value);
    }
  }

  /** The state in which client `i` has read the cell and swapped in what its program makes of it. */
  function Swapped(s: State, i: nat, next: string): State
    requires i < |s.phases|
  {
    s.(cell := Some(next), links := s.links + [Link(i, Text(s.cell), next)], phases := s.phases[i := Finished(Success)])
  }

  /**
   A client that nobody disturbs creates its folder: from any state of the store, if the
   folder is not listed, and the compare is the repaired one or the list is there, reading
   and one try leave the old entries followed by the folder.
   */
  lemma UndisturbedCreates(programs: seq<Program>, s: State, i: nat, folder: string, checkedAt: bool) returns (s1: State, s2: State)
    requires s.up && i < |s.phases| == |programs| && s.phases[i].Idle?
    requires programs[i] == CreateFolder(folder) && folder != "" && ',' !in folder
    requires folder !in Entries(Text(s.cell)) && (checkedAt || s.cell.Some?)
    ensures Next(programs, s, ReadCell(i, Text(s.cell)), checkedAt, s1) && Next(programs, s1, TrySwap(i), checkedAt, s2)
    ensures s2.phases[i] == Finished(Success) && s2.cell.Some? && s2.up
    ensures Entries(Text(s2.cell)) == Entries(Text(s.cell)) + [folder]
  {
    var list := Text(s.cell);
    CreateFolderExactly(folder, list);
    var next := CreateFolder(folder)(list).value;
    s1 := s.(phases := s.phases[i := Trying(list, next, 0)]);
    s2 := Swapped(s, i, next);
    assert s1.phases[i := Finished(Success)] == s2.phases;
  }
}
