/**
 The coordinator's view of the partitions and its health round (src/kv_coordinator.h,
 src/kv/storage_client_coordinator.h).
 */
module Coordinator {
  import opened Basics
  import opened Views

  /** One partition: its nodes as last checked and the index of its primary, or -1. */
  datatype PartitionView = PartitionView(nodes: seq<NodeView>, primaryIdx: int)

  ghost predicate WellFormed(p: PartitionView) {
    |p.nodes| >= 1 && -1 <= p.primaryIdx < |p.nodes|
  }

  /** The least live index, or -1. */
  function Elect(up: seq<bool>): (i: int)
    ensures i == -1 ==> forall k :: 0 <= k < |up| ==> !up[k]
    ensures i != -1 ==> 0 <= i < |up| && up[i] && forall k :: 0 <= k < i ==> !up[k]
  {
    if up == [] then -1
    else if up[0] then 0
    else
      var i := Elect(up[1..]);
      if i == -1 then -1 else i + 1
  }

  /** The primary after a health round in which exactly the nodes of `up` answered. */
  function NextPrimary(primaryIdx: int, up: seq<bool>): int
    requires -1 <= primaryIdx < |up|
  {
    if primaryIdx != -1 && up[primaryIdx] then primaryIdx else Elect(up)
  }

  /** Does that round send the primary's address to all nodes of the partition? */
  predicate Pushes(primaryIdx: int, up: seq<bool>)
    requires -1 <= primaryIdx < |up|
  {
    !(primaryIdx != -1 && up[primaryIdx]) && Elect(up) != -1
  }

  /**
   After a health round there is no primary if and only if no node is live; otherwise the
   primary is live, and it is the old one unless that was dead or absent, in which case it
   is the least live index.
   */
  lemma HealthRoundElects(primaryIdx: int, up: seq<bool>)
    requires -1 <= primaryIdx < |up|
    ensures NextPrimary(primaryIdx, up) == -1 <==> forall k :: 0 <= k < |up| ==> !up[k]
    ensures NextPrimary(primaryIdx, up) != -1 ==> 0 <= NextPrimary(primaryIdx, up) < |up| && up[NextPrimary(primaryIdx, up)]
    ensures NextPrimary(primaryIdx, up) != primaryIdx ==>
              && (primaryIdx == -1 || !up[primaryIdx])
              && (forall k :: 0 <= k < NextPrimary(primaryIdx, up) ==> !up[k])
    ensures Pushes(primaryIdx, up) <==> NextPrimary(primaryIdx, up) != primaryIdx && NextPrimary(primaryIdx, up) != -1
  {
  }

  function Checked(nodes: seq<NodeView>, up: seq<bool>): (r: seq<NodeView>)
    requires |nodes| == |up|
    ensures |r| == |nodes|
  {
    seq(|nodes|, i requires 0 <= i < |nodes| => NodeView(nodes[i].address, up[i]))
  }

  function Addresses(nodes: seq<NodeView>): (r: seq<string>)
    ensures |r| == |nodes|
  {
    seq(|nodes|, k requires 0 <= k < |nodes| => nodes[k].address)
  }

  function Liveness(nodes: seq<NodeView>): (r: seq<bool>)
    ensures |r| == |nodes|
  {
    seq(|nodes|, k requires 0 <= k < |nodes| => nodes[k].alive)
  }

  /** A partition after a health round, and the address the round sends to its nodes, if any. */
  function AfterRound(p: PartitionView, up: seq<bool>): PartitionView
    requires -1 <= p.primaryIdx < |p.nodes| == |up|
  {
    PartitionView(Checked(p.nodes, up), NextPrimary(p.primaryIdx, up))
  }

  function PushedBy(p: PartitionView, up: seq<bool>): Option<string>
    requires -1 <= p.primaryIdx < |p.nodes| == |up|
  {
    if Pushes(p.primaryIdx, up) then Some(p.nodes[Elect(up)].address) else None
  }

  /** A partition after rounds in which the nodes of `ups[0]`, `ups[1]`, ... answered. */
  function AfterRounds(p: PartitionView, ups: seq<seq<bool>>): PartitionView
    requires -1 <= p.primaryIdx < |p.nodes| && forall i :: 0 <= i < |ups| ==> |ups[i]| == |p.nodes|
    ensures -1 <= AfterRounds(p, ups).primaryIdx < |p.nodes| == |AfterRounds(p, ups).nodes|
  {
    if ups == [] then p
    else
      var q := AfterRounds(p, ups[..|ups| - 1]);
      HealthRoundElects(q.primaryIdx, ups[|ups| - 1]);
      AfterRound(q, ups[|ups| - 1])
  }

  /**
   Over any health rounds the configured addresses stay where they are, every flag is what
   the last round saw, and an address that a round sends out is the configured address of
   a node that answered in that round: of the least such.
   */
  lemma {:induction false} RoundsKeepAddresses(p: PartitionView, ups: seq<seq<bool>>, up: seq<bool>)
    requires -1 <= p.primaryIdx < |p.nodes| == |up| && forall i :: 0 <= i < |ups| ==> |ups[i]| == |p.nodes|
    ensures Addresses(AfterRounds(p, ups).nodes) == Addresses(p.nodes)
    ensures ups != [] ==> Liveness(AfterRounds(p, ups).nodes) == ups[|ups| - 1]
    ensures
      var pushed := PushedBy(AfterRounds(p, ups), up);
      pushed.Some? ==> exists k :: 0 <= k < |up| && up[k] && (forall j :: 0 <= j < k ==> !up[j]) && pushed.value == p.nodes[k].address
  {
    if ups != [] {
      RoundsKeepAddresses(p, ups[..|ups| - 1], up);
    }
    var q := AfterRounds(p, ups);
    forall k | 0 <= k < |p.nodes|
      ensures q.nodes[k].address == p.nodes[k].address
    {
      assert ups != [] ==> Addresses(AfterRounds(p, ups[..|ups| - 1]).nodes)[k] == Addresses(p.nodes)[k];
    }
    HealthRoundElects(q.primaryIdx, up);
    if PushedBy(q, up).Some? {
      assert up[Elect(up)] && PushedBy(q, up).value == p.nodes[Elect(up)].address;
    }
  }

  class KVMaster {
    var partitions: seq<PartitionView>

    ghost predicate Valid()
      reads this
    {
      |partitions| >= 1 && forall i :: 0 <= i < |partitions| ==> WellFormed(partitions[i])
    }

    /** All nodes down and no primary, as the configuration file is read. */
    constructor (addrs: seq<seq<string>>)
      requires |addrs| >= 1 && forall i :: 0 <= i < |addrs| ==> |addrs[i]| >= 1
      ensures Valid() && |partitions| == |addrs|
      ensures forall i :: 0 <= i < |addrs| ==>
                && partitions[i].primaryIdx == -1 && |partitions[i].nodes| == |addrs[i]|
                && forall k :: 0 <= k < |addrs[i]| ==> partitions[i].nodes[k] == NodeView(addrs[i][k], false)
    {
      partitions := seq(|addrs|, i requires 0 <= i < |addrs| =>
        PartitionView(seq(|addrs[i]|, k requires 0 <= k < |addrs[i]| => NodeView(addrs[i][k], false)), -1));
    }

    /** The scan for the first live node. */
    method FirstLive(nodes: seq<NodeView>) returns (i: int)
      ensures i == Elect(Liveness(nodes))
    {
      ghost var up := Liveness(nodes);
      i := 0;
      while i < |nodes| && !nodes[i].alive
        invariant 0 <= i <= |nodes|
        invariant forall k :: 0 <= k < i ==> !up[k]
      {
        i := i + 1;
      }
      if i == |nodes| {
        i := -1;
      } else {
        assert up[i];
      }
    }

    /**
     One partition's turn of the election loop, liveness already updated.  The code reads
     the live flag of `nodes[primary_idx]` before it tests the index for -1; `stray` is
     whatever that read finds then, and nothing depends on it.
     */
    method Reelect(p: PartitionView, stray: bool) returns (p': PartitionView, pushed: Option<string>)
      requires WellFormed(p)
      ensures
        var up := Liveness(p.nodes);
        && p' == p.(primaryIdx := NextPrimary(p.primaryIdx, up))
        && pushed == PushedBy(p, up)
    {
      var none := p.primaryIdx == -1;
      var live := if none then stray else p.nodes[p.primaryIdx].alive;
      if live && !none {
        return p, None;
      }
      var i := FirstLive(p.nodes);
      p' := p.(primaryIdx := i);
      pushed := if i == -1 then None else Some(p.nodes[i].address);
    }

    /** One health round: `up[i][k]` says whether node k of partition i answered. */
    method DoHealthcheck(up: seq<seq<bool>>, stray: bool) returns (pushed: seq<Option<string>>)
      requires Valid() && |up| == |partitions|
      requires forall i :: 0 <= i < |up| ==> |up[i]| == |partitions[i].nodes|
      modifies this
      ensures Valid() && |partitions| == old(|partitions|) == |pushed|
      ensures forall i :: 0 <= i < |partitions| ==> partitions[i] == AfterRound(old(partitions)[i], up[i])
      ensures forall i :: 0 <= i < |partitions| ==> pushed[i] == PushedBy(old(partitions)[i], up[i])
      ensures forall i, k :: 0 <= i < |partitions| && 0 <= k < |up[i]| ==>
                |partitions[i].nodes| == |up[i]| && partitions[i].nodes[k] == NodeView(old(partitions)[i].nodes[k].address, up[i][k])
      ensures forall i :: 0 <= i < |partitions| ==>
                partitions[i].primaryIdx == NextPrimary(old(partitions)[i].primaryIdx, up[i])
    {
      var before := partitions;
      var checked := seq(|before|, i requires 0 <= i < |before| => before[i].(nodes := Checked(before[i].nodes, up[i])));
      partitions := checked;
      pushed := [];
      var id := 0;
      while id < |partitions|
        invariant 0 <= id <= |partitions| == |before| && |pushed| == id
        invariant forall i :: id <= i < |partitions| ==> partitions[i] == checked[i]
        invariant forall i :: 0 <= i < id ==> partitions[i] == AfterRound(before[i], up[i])
        invariant forall i :: 0 <= i < id ==> pushed[i] == PushedBy(before[i], up[i])
      {
        var p := checked[id];
        assert Liveness(p.nodes) == up[id];
        var p', address := Reelect(p, stray);
        partitions := partitions[id := p'];
        pushed := pushed + [address];
        id := id + 1;
      }
    }

    /** The answer to a node that asks for its primary: with no primary, "" and no nodes at all. */
    method GetPartitionPrimary(id: nat) returns (known: bool, addr: string, nodes: seq<NodeView>)
      requires Valid()
      ensures known <==> id < |partitions|
      ensures known && partitions[id].primaryIdx == -1 ==> addr == "" && nodes == []
      ensures known && partitions[id].primaryIdx != -1 ==>
                addr == partitions[id].nodes[partitions[id].primaryIdx].address && nodes == partitions[id].nodes
    {
      known, addr, nodes := id < |partitions|, "", [];
      if known && partitions[id].primaryIdx != -1 {
        addr := partitions[id].nodes[partitions[id].primaryIdx].address;
        for k := 0 to |partitions[id].nodes|
          invariant nodes == partitions[id].nodes[..k]
        {
          nodes := nodes + [partitions[id].nodes[k]];
        }
      }
    }
  }
}
