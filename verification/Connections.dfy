/**
 The mail server's table of active connections (src/webmail/mailserver.cc:64-85, 107-116,
 280-288).  A worker is admitted and leaves under one lock, so connects and disconnects of
 any workers interleave as whole steps.
 */
module Connections {
  const MAX_CONNECTIONS := 1500

  /** A free slot; also what accept returns when it fails. */
  const FREE := -1

  /** The slots, `conn_cnt`, and the descriptors of the workers admitted and not yet gone. */
  datatype Table = Table(slots: seq<int>, cnt: int, admitted: multiset<int>)

  function AllFree(n: nat): (slots: seq<int>)
    ensures |slots| == n && forall k :: 0 <= k < n ==> slots[k] == FREE
  {
    if n == 0 then [] else [FREE] + AllFree(n - 1)
  }

  const EMPTY := Table(AllFree(MAX_CONNECTIONS), 0, multiset{})

  /** The first slot that holds x, or the number of slots. */
  function First(slots: seq<int>, x: int): (i: nat)
    ensures i <= |slots| && (i < |slots| ==> slots[i] == x)
    ensures forall k :: 0 <= k < i ==> slots[k] != x
  {
    if slots == [] || slots[0] == x then 0 else 1 + First(slots[1..], x)
  }

  function Put(slots: seq<int>, x: int, y: int): (r: seq<int>)
    ensures |r| == |slots|
  {
    var i := First(slots, x);
    if i == |slots| then slots else slots[i := y]
  }

  function Admit(t: Table, fd: int): Table {
    if t.cnt >= MAX_CONNECTIONS then t
    else Table(Put(t.slots, FREE, fd), t.cnt + 1, t.admitted + multiset{fd})
  }

  function Leave(t: Table, fd: int): Table {
    Table(Put(t.slots, fd, FREE), t.cnt - 1, t.admitted - multiset{fd})
  }

  function Occupied(slots: seq<int>): multiset<int> { multiset(slots)[FREE := 0] }

  /** The slots hold exactly the admitted workers' descriptors, but for failed accepts; the counter counts all workers. */
  ghost predicate Valid(t: Table) {
    && |t.slots| == MAX_CONNECTIONS
    && Occupied(t.slots) == t.admitted[FREE := 0]
    && t.cnt == |t.admitted| <= MAX_CONNECTIONS
  }

  lemma {:induction false} FreeAndOccupied(slots: seq<int>)
    ensures |Occupied(slots)| + multiset(slots)[FREE] == |slots|
  {
    if slots == [] {
      assert Occupied(slots) == multiset{};
    } else {
      var front, last := slots[..|slots| - 1], slots[|slots| - 1];
      FreeAndOccupied(front);
      assert slots == front + [last];
      assert Occupied(slots) == Occupied(front) + if last == FREE then multiset{} else multiset{last};
    }
  }

  lemma Without(m: multiset<int>, x: int)
    ensures |m[x := 0]| + m[x] == |m|
  {
    assert m == m[x := 0] + multiset{}[x := m[x]];
  }

  lemma MultisetUpdate(s: seq<int>, i: nat, y: int)
    requires i < |s|
    ensures multiset(s[i := y]) == multiset(s) - multiset{s[i]} + multiset{y}
  {
    assert s == s[..i] + [s[i]] + s[i + 1..];
    assert s[i := y] == s[..i] + [y] + s[i + 1..];
  }

  /** Below the limit there is a free slot: the scan for one never runs off the table. */
  lemma FreeSlotFound(t: Table)
    requires Valid(t) && t.cnt < MAX_CONNECTIONS
    ensures First(t.slots, FREE) < MAX_CONNECTIONS
  {
    FreeAndOccupied(t.slots);
    Without(t.admitted, FREE);
    assert FREE in multiset(t.slots);
  }

  /** A worker's own descriptor is found when it leaves. */
  lemma OwnSlotFound(t: Table, fd: int)
    requires Valid(t) && fd in t.admitted && fd != FREE
    ensures First(t.slots, fd) < MAX_CONNECTIONS
  {
    assert fd in Occupied(t.slots);
    assert fd in multiset(t.slots);
  }

  lemma OccupiedUpdate(slots: seq<int>, i: nat, y: int)
    requires i < |slots|
    ensures slots[i] == FREE ==> Occupied(slots[i := y]) == Occupied(slots) + if y == FREE then multiset{} else multiset{y}
    ensures y == FREE ==> Occupied(slots[i := y]) == Occupied(slots) - if slots[i] == FREE then multiset{} else multiset{slots[i]}
  {
    MultisetUpdate(slots, i, y);
  }

  lemma AdmitKeepsValid(t: Table, fd: int)
    requires Valid(t)
    ensures Valid(Admit(t, fd))
  {
    if t.cnt < MAX_CONNECTIONS {
      FreeSlotFound(t);
      OccupiedUpdate(t.slots, First(t.slots, FREE), fd);
    }
  }

  lemma OneLess(m: multiset<int>, fd: int)
    requires fd in m
    ensures (m - multiset{fd})[FREE := 0] == if fd == FREE then m[FREE := 0] else m[FREE := 0] - multiset{fd}
    ensures |m - multiset{fd}| == |m| - 1
  {
  }

  lemma LeaveKeepsValid(t: Table, fd: int)
    requires Valid(t) && fd in t.admitted
    ensures Valid(Leave(t, fd))
  {
    OneLess(t.admitted, fd);
    var i := First(t.slots, fd);
    if fd != FREE {
      OwnSlotFound(t, fd);
    }
    if i < |t.slots| {
      OccupiedUpdate(t.slots, i, FREE);
    }
  }

  datatype Event = Connect(fd: int) | Disconnect(fd: int)

  function Step(t: Table, e: Event): Table {
    match e
    case Connect(fd) => Admit(t, fd)
    case Disconnect(fd) => Leave(t, fd)
  }

  /** Only a worker that was admitted and has not left can leave. */
  ghost predicate Run(trace: seq<Table>, events: seq<Event>) {
    && |trace| == |events| + 1 && trace[0] == EMPTY
    && forall i :: 0 <= i < |events| ==>
         && trace[i + 1] == Step(trace[i], events[i])
         && (events[i].Disconnect? ==> events[i].fd in trace[i].admitted)
  }

  /** The descriptors let in and not yet gone, by the events alone: a connect is let in while fewer than 1500 are. */
  function LetIn(events: seq<Event>): multiset<int> {
    if events == [] then multiset{}
    else
      var before := LetIn(events[..|events| - 1]);
      match events[|events| - 1]
      case Connect(fd) => if |before| < 1500 then before + multiset{fd} else before
      case Disconnect(fd) => before - multiset{fd}
  }

  /**
   After any events the occupied slots hold exactly the descriptors let in and not yet gone,
   but for failed accepts, the counter is their number, and the next client is let in, into
   a free slot, exactly while there are fewer than 1500.
   */
  lemma SlotsHoldLetIn(trace: seq<Table>, events: seq<Event>, n: nat, fd: int)
    requires Run(trace, events) && n <= |events|
    ensures trace[n].cnt == |LetIn(events[..n])| <= 1500 == |trace[n].slots|
    ensures multiset(trace[n].slots)[FREE := 0] == LetIn(events[..n])[FREE := 0]
    ensures Admit(trace[n], fd) == trace[n] <==> |LetIn(events[..n])| == 1500
    ensures |LetIn(events[..n])| < 1500 ==> FREE in trace[n].slots && Admit(trace[n], fd).cnt == trace[n].cnt + 1
  {
    TableConserved(trace, events, n);
    AdmittedIsLetIn(trace, events, n);
    if trace[n].cnt < MAX_CONNECTIONS {
      FreeSlotFound(trace[n]);
    }
  }

  lemma {:induction false} AdmittedIsLetIn(trace: seq<Table>, events: seq<Event>, n: nat)
    requires Run(trace, events) && n <= |events|
    ensures trace[n].admitted == LetIn(events[..n])
  {
    if n > 0 {
      AdmittedIsLetIn(trace, events, n - 1);
      StepCounts(trace, events, n - 1);
      LetInStep(trace[n - 1], events, n - 1);
    }
  }

  lemma StepCounts(trace: seq<Table>, events: seq<Event>, n: nat)
    requires Run(trace, events) && n < |events|
    ensures trace[n + 1] == Step(trace[n], events[n]) && trace[n].cnt == |trace[n].admitted|
  {
    TableConserved(trace, events, n);
  }

  lemma LetInStep(t: Table, events: seq<Event>, n: nat)
    requires n < |events| && t.admitted == LetIn(events[..n]) && t.cnt == |t.admitted|
    ensures Step(t, events[n]).admitted == LetIn(events[..n + 1])
  {
    assert events[..n + 1][..n] == events[..n];
  }

  lemma EmptyIsValid()
    ensures Valid(EMPTY)
  {
    assert forall k :: 0 <= k < MAX_CONNECTIONS ==> EMPTY.slots[k] == FREE;
    assert forall x :: x != FREE ==> x !in EMPTY.slots;
    assert Occupied(EMPTY.slots) == multiset{};
  }

  /**
   Under every interleaving of connects, refusals and disconnects: the occupied slots are,
   as a multiset, the admitted workers' descriptors; the counter is the number of admitted
   workers, so it equals the number of occupied slots exactly when no failed accept was
   let in; and below the limit a free slot is found.
   */
  lemma {:induction false} TableConserved(trace: seq<Table>, events: seq<Event>, n: nat)
    requires Run(trace, events) && n <= |events|
    ensures Valid(trace[n])
    ensures trace[n].cnt == |Occupied(trace[n].slots)| <==> FREE !in trace[n].admitted
    ensures trace[n].cnt < MAX_CONNECTIONS ==> First(trace[n].slots, FREE) < MAX_CONNECTIONS
  {
    if n == 0 {
      EmptyIsValid();
    } else {
      TableConserved(trace, events, n - 1);
      match events[n - 1] {
        case Connect(fd) => AdmitKeepsValid(trace[n - 1], fd);
        case Disconnect(fd) => LeaveKeepsValid(trace[n - 1], fd);
      }
    }
    Without(trace[n].admitted, FREE);
    if trace[n].cnt < MAX_CONNECTIONS {
      FreeSlotFound(trace[n]);
    }
  }

  function FailedAccepts(n: nat): Table {
    if n == 0 then EMPTY else Admit(FailedAccepts(n - 1), FREE)
  }

  lemma {:induction false} FailedAcceptsLeak(n: nat)
    requires n <= MAX_CONNECTIONS
    ensures FailedAccepts(n).slots == EMPTY.slots && FailedAccepts(n).cnt == n
  {
    if n > 0 {
      FailedAcceptsLeak(n - 1);
    }
  }

  /** Failed accepts use up the counter: after 1500 of them every client is refused although every slot is free. */
  lemma FailedAcceptsRefuseEveryone(fd: int)
    ensures var t := FailedAccepts(MAX_CONNECTIONS);
      Occupied(t.slots) == multiset{} && Admit(t, fd) == t
  {
    FailedAcceptsLeak(MAX_CONNECTIONS);
    EmptyIsValid();
  }

  /** The table as the workers share it. */
  class ActiveConnections {
    const connections: array<int>
    var connCnt: int
    ghost var admitted: multiset<int>

    ghost function State(): Table
      reads this, connections
    {
      Table(connections[..], connCnt, admitted)
    }

    constructor ()
      ensures State() == EMPTY && fresh(connections)
    {
      connections := new int[MAX_CONNECTIONS](_ => FREE);
      connCnt, admitted := 0, multiset{};
      new;
      assert connections[..] == EMPTY.slots;
    }

    /** Overwrites the first slot that holds x. */
    method Replace(x: int, y: int)
      modifies connections
      ensures connections[..] == Put(old(connections[..]), x, y)
    {
      var i := 0;
      while i < connections.Length
        invariant 0 <= i <= connections.Length
        invariant forall k :: 0 <= k < i ==> connections[k] != x
        invariant connections[..] == old(connections[..])
      {
        if connections[i] == x {
          connections[i] := y;
          break;
        }
        i := i + 1;
      }
    }

    method Enter(fd: int) returns (ok: bool)
      modifies this, connections
      ensures State() == Admit(old(State()), fd)
      ensures ok <==> old(connCnt) < MAX_CONNECTIONS
    {
      ok := connCnt < MAX_CONNECTIONS;
      if ok {
        Replace(FREE, fd);
        connCnt := connCnt + 1;
        admitted := admitted + multiset{fd};
      }
    }

    method Exit(fd: int)
      modifies this, connections
      ensures State() == Leave(old(State()), fd)
    {
      Replace(fd, FREE);
      connCnt := connCnt - 1;
      admitted := admitted - multiset{fd};
    }
  }
}
