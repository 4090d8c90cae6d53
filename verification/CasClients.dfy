/**
 The compare-and-swap loops of the front end (src/frontend_servers/req_handling.cc,
 src/kv/storage_client.h): any number of clients read one cell, possibly a stale value,
 compute a new value from it, and try up to five times to swap it in.  Replies are not
 lost; one try is one step, which Agreement.CompareAndPutAtomic shows of runs without crashes.
 */
module CasClients {
  import opened Basics
  import opened Tablets
  import opened Lists

  const MAX_TRIES := 5

  datatype Outcome = Success | NoChange | Failed

  /** Where a client is: not started, holding a read value and its update, or finished. */
  datatype Phase = Idle | Trying(seen: string, next: string, tries: nat) | Finished(outcome: Outcome)

  /** One committed swap. */
  datatype Link = Link(client: nat, seen: string, next: string)

  datatype State = State(cell: Option<string>, phases: seq<Phase>, links: seq<Link>, up: bool)

  /** What a client makes of the value it read: nothing to do, or the value to swap in. */
  type Program = string -> Option<string>

  datatype Step = ReadCell(client: nat, seen: string) | TrySwap(client: nat)

  /** getdefault, then the computation; the value seen may be stale. */
  ghost predicate NextRead(programs: seq<Program>, s: State, i: nat, seen: string, s': State) {
    && i < |s.phases| == |programs| && s.phases[i].Idle?
    && s' == s.(phases := s.phases[i :=
         match programs[i](seen)
         case None => Finished(NoChange)
         case Some(v) => Trying(seen, v, 0)])
  }

  /** One turn of cput's loop.  A mismatch is never recognised as one: the loop tries the same swap again. */
  ghost predicate NextTry(s: State, i: nat, checkedAt: bool, s': State) {
    && i < |s.phases| && s.phases[i].Trying? && s.up
    && var Trying(seen, next, tries) := s.phases[i];
      match CellVerdict(s.cell, seen, checkedAt)
      case Commit =>
        s' == s.(cell := Some(next), links := s.links + [Link(i, seen, next)], phases := s.phases[i := Finished(Success)])
      case Refuse(_) =>
        s' == s.(phases := s.phases[i := if tries + 1 < MAX_TRIES then Trying(seen, next, tries + 1) else Finished(Failed)])
      case Abort =>
        s' == s.(up := false, phases := s.phases[i := Finished(Failed)])
  }

  ghost predicate Next(programs: seq<Program>, s: State, step: Step, checkedAt: bool, s': State) {
    match step
    case ReadCell(i, seen) => NextRead(programs, s, i, seen, s')
    case TrySwap(i) => NextTry(s, i, checkedAt, s')
  }

  ghost predicate IsRun(programs: seq<Program>, init: Option<string>, checkedAt: bool, states: seq<State>, steps: seq<Step>) {
    && |states| == |steps| + 1
    && states[0] == State(init, seq(|programs|, _ => Idle), [], true)
    && forall k :: 0 <= k < |steps| ==> Next(programs, states[k], steps[k], checkedAt, states[k + 1])
  }

  function Text(v: Option<string>): string { if v.Some? then v.value else "" }

  /** The value after the first `k` links, absent counting as "". */
  function ValueAt(init: Option<string>, links: seq<Link>, k: nat): string
    requires k <= |links|
  {
    if k == 0 then Text(init) else links[k - 1].next
  }

  /** The committed swaps form a chain: each starts from the value the one before it left. */
  ghost predicate Chain(programs: seq<Program>, init: Option<string>, s: State) {
    && |s.phases| == |programs|
    && s.cell == (if s.links == [] then init else Some(s.links[|s.links| - 1].next))
    && (forall k :: 0 <= k < |s.links| ==> LinkOk(programs, init, s, k))
  }

  ghost predicate LinkOk(programs: seq<Program>, init: Option<string>, s: State, k: nat)
    requires k < |s.links|
  {
    var l := s.links[k];
    && l.seen == ValueAt(init, s.links, k)
    && l.client < |programs| && programs[l.client](l.seen) == Some(l.next)
  }

  /** One link per successful client, and none for any other. */
  ghost predicate OnePerSuccess(s: State) {
    && (forall k :: 0 <= k < |s.links| ==>
          s.links[k].client < |s.phases| && s.phases[s.links[k].client] == Finished(Success))
    && (forall j, k :: 0 <= j < k < |s.links| ==> s.links[j].client != s.links[k].client)
    && (forall i :: 0 <= i < |s.phases| && s.phases[i] == Finished(Success) ==> HasLink(s.links, i))
  }

  ghost predicate HasLink(links: seq<Link>, i: nat) {
    exists k :: 0 <= k < |links| && links[k].client == i
  }

  ghost predicate TriesOk(programs: seq<Program>, s: State) {
    forall i :: 0 <= i < |s.phases| == |programs| && s.phases[i].Trying? ==>
      s.phases[i].tries < MAX_TRIES && programs[i](s.phases[i].seen) == Some(s.phases[i].next)
  }

  ghost predicate Inv(programs: seq<Program>, init: Option<string>, s: State) {
    Chain(programs, init, s) && OnePerSuccess(s) && TriesOk(programs, s)
  }

  /** Client `i` has swapped its value in. */
  ghost predicate Committed(s: State, i: nat, s': State) {
    && i < |s.phases| && s.phases[i].Trying? && Matches(s.cell, s.phases[i].seen)
    && s' == s.(cell := Some(s.phases[i].next), links := s.links + [Link(i, s.phases[i].seen, s.phases[i].next)],
                phases := s.phases[i := Finished(Success)])
  }

  lemma CommitKeepsChain(programs: seq<Program>, init: Option<string>, s: State, i: nat, s': State)
    requires Chain(programs, init, s) && TriesOk(programs, s) && Committed(s, i, s')
    ensures Chain(programs, init, s')
  {
    forall k | 0 <= k < |s'.links|
      ensures LinkOk(programs, init, s', k)
    {
      if k < |s.links| {
        assert LinkOk(programs, init, s, k);
      }
    }
  }

  lemma CommitKeepsLinks(s: State, i: nat, s': State)
    requires OnePerSuccess(s) && Committed(s, i, s')
    ensures OnePerSuccess(s')
  {
    var n := |s.links|;
    forall j | 0 <= j < |s'.phases| && s'.phases[j] == Finished(Success)
      ensures HasLink(s'.links, j)
    {
      if j == i {
        assert s'.links[n].client == i;
      } else {
        assert HasLink(s.links, j);
        var k :| 0 <= k < |s.links| && s.links[k].client == j;
        assert s'.links[k].client == j;
      }
    }
  }

  lemma CommitKeepsInv(programs: seq<Program>, init: Option<string>, s: State, i: nat, s': State)
    requires Inv(programs, init, s) && Committed(s, i, s')
    ensures Inv(programs, init, s')
  {
    CommitKeepsChain(programs, init, s, i, s');
    CommitKeepsLinks(s, i, s');
  }

  /** Client `i`, which has not succeeded before, has moved on without a swap. */
  ghost predicate Unlinked(programs: seq<Program>, s: State, i: nat, s': State) {
    && i < |s.phases| == |programs| && !s.phases[i].Finished?
    && s'.links == s.links && s'.cell == s.cell
    && |s'.phases| == |s.phases| && s'.phases[i] != Finished(Success)
    && (forall j :: 0 <= j < |s.phases| && j != i ==> s'.phases[j] == s.phases[j])
    && (s'.phases[i].Trying? ==>
          s'.phases[i].tries < MAX_TRIES && programs[i](s'.phases[i].seen) == Some(s'.phases[i].next))
  }

  lemma UnlinkedKeepsInv(programs: seq<Program>, init: Option<string>, s: State, i: nat, s': State)
    requires Inv(programs, init, s) && Unlinked(programs, s, i, s')
    ensures Inv(programs, init, s')
  {
    forall k | 0 <= k < |s'.links|
      ensures LinkOk(programs, init, s', k)
    {
      assert LinkOk(programs, init, s, k);
    }
    forall j | 0 <= j < |s'.phases| && s'.phases[j] == Finished(Success)
      ensures HasLink(s'.links, j)
    {
      assert s.phases[j] == Finished(Success);
    }
  }

  /** Every step of every client keeps the chain. */
  lemma StepKeepsInv(programs: seq<Program>, init: Option<string>, s: State, step: Step, checkedAt: bool, s': State)
    requires Inv(programs, init, s) && Next(programs, s, step, checkedAt, s')
    ensures Inv(programs, init, s')
  {
    if step.TrySwap? && CellVerdict(s.cell, s.phases[step.client].seen, checkedAt) == Commit {
      CommitKeepsInv(programs, init, s, step.client, s');
    } else {
      UnlinkedKeepsInv(programs, init, s, step.client, s');
    }
  }

  lemma {:induction false} RunKeepsInv(programs: seq<Program>, init: Option<string>, checkedAt: bool, states: seq<State>, steps: seq<Step>)
    requires IsRun(programs, init, checkedAt, states, steps)
    ensures Inv(programs, init, states[|steps|])
  {
    if |steps| > 0 {
      var n := |steps| - 1;
      RunKeepsInv(programs, init, checkedAt, states[..n + 1], steps[..n]);
      StepKeepsInv(programs, init, states[n], steps[n], checkedAt, states[n + 1]);
    }
  }

  /**
   The loop is linearizable.  For any number of clients, any programs, any interleaving,
   stale reads and the five tries, shipped or repaired compare: the committed values form
   a chain v(k+1) = f(v(k)) from the initial value, absent counting as "", that ends in
   the cell's value, with exactly one link for every client that reported success.
   */
  lemma SwapsLinearize(programs: seq<Program>, init: Option<string>, checkedAt: bool, states: seq<State>, steps: seq<Step>)
    requires IsRun(programs, init, checkedAt, states, steps)
    ensures
      var s := states[|steps|];
      && Text(s.cell) == ValueAt(init, s.links, |s.links|)
      && (forall k :: 0 <= k < |s.links| ==>
            && s.links[k].client < |programs|
            && programs[s.links[k].client](ValueAt(init, s.links, k)) == Some(ValueAt(init, s.links, k + 1)))
      && (forall i :: 0 <= i < |s.phases| ==> (s.phases[i] == Finished(Success) <==> HasLink(s.links, i)))
      && (forall j, k :: 0 <= j < k < |s.links| ==> s.links[j].client != s.links[k].client)
  {
    var s := states[|steps|];
    RunKeepsInv(programs, init, checkedAt, states, steps);
    forall k | 0 <= k < |s.links|
      ensures s.links[k].client < |programs|
      ensures programs[s.links[k].client](ValueAt(init, s.links, k)) == Some(ValueAt(init, s.links, k + 1))
    {
      assert LinkOk(programs, init, s, k);
    }
  }

  /** With the shipped compare an absent cell stays absent: no client ever creates it. */
  lemma {:induction false} ShippedNeverCreates(programs: seq<Program>, states: seq<State>, steps: seq<Step>)
    requires IsRun(programs, None, false, states, steps)
    ensures states[|steps|].cell == None && states[|steps|].links == []
  {
    if |steps| > 0 {
      var n := |steps| - 1;
      ShippedNeverCreates(programs, states[..n + 1], steps[..n]);
      assert Next(programs, states[n], steps[n], false, states[n + 1]);
    }
  }

  // ---------------------------------------------------------- create folder

  /** `handle_create_folder`: nothing to do if the folder is listed, else append it. */
  function CreateFolder(folder: string): Program {
    (list: string) =>
      if folder in Entries(list) then None
      else Some(if list == "" then folder else list + "," + folder)
  }

  lemma CreateFolderAppends(folder: string, list: string)
    requires folder != "" && ',' !in folder && CreateFolder(folder)(list).Some?
    ensures Entries(CreateFolder(folder)(list).value) == Entries(list) + [folder]
    ensures folder !in Entries(list)
  {
    OneEntry(folder);
    EmptyCell();
    EntriesAt(list, folder);
  }

  ghost predicate FolderPrograms(folders: seq<string>, programs: seq<Program>) {
    && |programs| == |folders|
    && (forall i :: 0 <= i < |folders| ==> folders[i] != "" && ',' !in folders[i] && programs[i] == CreateFolder(folders[i]))
  }

  /** The folders of the first `k` links, in commit order. */
  function Created(folders: seq<string>, links: seq<Link>, k: nat): seq<string>
    requires k <= |links| && forall j :: 0 <= j < |links| ==> links[j].client < |folders|
  {
    seq(k, j requires 0 <= j < k => folders[links[j].client])
  }

  lemma LinksAreFolders(folders: seq<string>, programs: seq<Program>, init: Option<string>, s: State)
    requires FolderPrograms(folders, programs) && Inv(programs, init, s)
    ensures forall j :: 0 <= j < |s.links| ==> s.links[j].client < |folders|
  {
    forall j | 0 <= j < |s.links|
      ensures s.links[j].client < |folders|
    {
      assert LinkOk(programs, init, s, j);
    }
  }

  lemma {:induction false} FoldersAfter(folders: seq<string>, programs: seq<Program>, init: Option<string>, s: State, k: nat)
    requires FolderPrograms(folders, programs) && Inv(programs, init, s) && k <= |s.links|
    requires forall j :: 0 <= j < |s.links| ==> s.links[j].client < |folders|
    requires Distinct(Entries(Text(init)))
    ensures Entries(ValueAt(init, s.links, k)) == Entries(Text(init)) + Created(folders, s.links, k)
    ensures Distinct(Entries(ValueAt(init, s.links, k)))
    decreases k
  {
    if k > 0 {
      FoldersAfter(folders, programs, init, s, k - 1);
      assert LinkOk(programs, init, s, k - 1);
      var folder := folders[s.links[k - 1].client];
      CreateFolderAppends(folder, ValueAt(init, s.links, k - 1));
      assert Created(folders, s.links, k) == Created(folders, s.links, k - 1) + [folder];
    }
  }

  /**
   Folder creation by any number of clients at once: the list is always the initial
   entries followed by exactly the folders whose creation was reported, in commit order,
   and it never holds an entry twice.
   */
  lemma FoldersCreatedOnce(folders: seq<string>, programs: seq<Program>, init: Option<string>, checkedAt: bool, states: seq<State>, steps: seq<Step>)
    requires FolderPrograms(folders, programs) && IsRun(programs, init, checkedAt, states, steps)
    requires Distinct(Entries(Text(init)))
    ensures
      var s := states[|steps|];
      && (forall j :: 0 <= j < |s.links| ==> s.links[j].client < |folders|)
      && Entries(Text(s.cell)) == Entries(Text(init)) + Created(folders, s.links, |s.links|)
      && Distinct(Entries(Text(s.cell)))
      && |s.phases| == |folders|
      && (forall i :: 0 <= i < |folders| && s.phases[i] == Finished(Success) ==> folders[i] in Entries(Text(s.cell)))
  {
    var s := states[|steps|];
    RunKeepsInv(programs, init, checkedAt, states, steps);
    LinksAreFolders(folders, programs, init, s);
    FoldersAfter(folders, programs, init, s, |s.links|);
    forall i | 0 <= i < |s.phases| && s.phases[i] == Finished(Success)
      ensures folders[i] in Entries(Text(s.cell))
    {
      assert HasLink(s.links, i);
      var k :| 0 <= k < |s.links| && s.links[k].client == i;
      assert Created(folders, s.links, |s.links|)[k] == folders[i];
    }
  }

  // ----------------------------------------------------- the client library

  /** What the store client returns to a handler, or throws at it. */
  datatype ClientResult = Returned(value: string) | ThrewNotFound | ThrewNoMatch | ThrewError(code: Code)

  /** The answer the store gives to one attempt. */
  datatype RpcReply = RpcReply(code: Code, value: string)

  /**
   KVStorageClient::get, given the answers its attempts would get: the first answer that
   is OK or NOT_FOUND decides, and without one the last failure is thrown.
   */
  method GetLoop(replies: seq<RpcReply>) returns (r: ClientResult, used: nat)
    requires |replies| == MAX_TRIES
    ensures 1 <= used <= MAX_TRIES
    ensures forall k :: 0 <= k < used - 1 ==> replies[k].code != OK && replies[k].code != NotFound
    ensures r == match replies[used - 1].code
                 case OK => Returned(replies[used - 1].value)
                 case NotFound => ThrewNotFound
                 case c => ThrewError(c)
    ensures r.ThrewError? ==> used == MAX_TRIES
  {
    used := 0;
    while used < MAX_TRIES
      invariant 0 <= used <= MAX_TRIES
      invariant forall k :: 0 <= k < used ==> replies[k].code != OK && replies[k].code != NotFound
    {
      var stt := replies[used];
      used := used + 1;
      if stt.code == OK {
        return Returned(stt.value), used;
      }
      if stt.code == NotFound {
        return ThrewNotFound, used;
      }
    }
    r := ThrewError(replies[used - 1].code);
  }

  /**
   KVStorageClient::cput.  It tests `status`, which no call ever sets, and not `stt`, so
   neither a mismatch nor a missing cell is ever thrown as such: the first OK decides, and
   five failures of any kind surface as a general error.
   */
  method CPutLoop(replies: seq<RpcReply>) returns (r: ClientResult, used: nat)
    requires |replies| == MAX_TRIES
    ensures 1 <= used <= MAX_TRIES
    ensures forall k :: 0 <= k < used - 1 ==> replies[k].code != OK
    ensures r == if replies[used - 1].code == OK then Returned(replies[used - 1].value) else ThrewError(replies[used - 1].code)
    ensures r.ThrewError? ==> used == MAX_TRIES
  {
    var status := OK;
    used := 0;
    while used < MAX_TRIES
      invariant 0 <= used <= MAX_TRIES
      invariant forall k :: 0 <= k < used ==> replies[k].code != OK
    {
      var stt := replies[used];
      used := used + 1;
      if stt.code == OK {
        return Returned(stt.value), used;
      }
      if status == FailedPrecondition {
        return ThrewNoMatch, used;
      } else if status == NotFound {
        return ThrewNotFound, used;
      }
    }
    r := ThrewError(replies[used - 1].code);
  }

  /** KVStorageClient::getdefault: an absent value is the default, any other failure is thrown on. */
  method GetDefault(replies: seq<RpcReply>, v: string) returns (r: ClientResult, used: nat)
    requires |replies| == MAX_TRIES
    ensures 1 <= used <= MAX_TRIES
    ensures forall k :: 0 <= k < used - 1 ==> replies[k].code != OK && replies[k].code != NotFound
    ensures r == match replies[used - 1].code
                 case OK => Returned(replies[used - 1].value)
                 case NotFound => Returned(v)
                 case c => ThrewError(c)
  {
    r, used := GetLoop(replies);
    if r.ThrewNotFound? {
      r := Returned(v);
    }
  }
}
