/**
 How a storage node names its primary (src/kv/KVClass.h): -1 for itself, -5 for
 unknown, otherwise an index into its list of peer addresses.
 */
module Views {
  import opened Basics

  const M_STATUS := -1
  const UK_STATUS := -5

  /** `std::find` over the peer list: the first index of `a`, or -1. */
  function RetrieveIdx(peers: seq<string>, a: string): (i: int)
    ensures i == -1 <==> a !in peers
    ensures i != -1 ==> 0 <= i < |peers| && peers[i] == a && a !in peers[..i]
  {
    if peers == [] then -1
    else if peers[0] == a then 0
    else
      var i := RetrieveIdx(peers[1..], a);
      if i == -1 then -1
      else
        assert peers[..i + 1] == [peers[0]] + peers[1..][..i];
        i + 1
  }

  lemma {:induction false} RetrieveIdxIs(peers: seq<string>, a: string, i: nat)
    requires i < |peers| && peers[i] == a && a !in peers[..i]
    ensures RetrieveIdx(peers, a) == i
  {
    if i > 0 {
      assert peers[0] in peers[..i];
      assert peers[1..][..i - 1] <= peers[..i][1..];
      RetrieveIdxIs(peers[1..], a, i - 1);
    }
  }

  /** The view a node takes on when told that the primary's address is `primary`. */
  function RenewIdx(addr: string, peers: seq<string>, primary: string): int {
    if primary == addr then M_STATUS
    else if RetrieveIdx(peers, primary) == -1 then UK_STATUS
    else RetrieveIdx(peers, primary)
  }

  /** A node's peers are all addresses of its partition but its own, in order (src/kv_server.cc:126-128). */
  function PeersOf(addrs: seq<string>, n: nat): seq<string>
    requires n < |addrs|
  {
    addrs[..n] + addrs[n + 1..]
  }

  /** The node of the partition that view `v` of node `n` stands for, or -1 if unknown. */
  function Target(n: nat, v: int): int {
    if v == M_STATUS then n else if v < 0 then -1 else if v < n then v else v + 1
  }

  /**
   Told the address of node `p`, node `n` holds a view that stands for `p`; told an
   address outside the partition (such as "", no primary), it holds the unknown view.
   */
  lemma RenewIdxNamesPrimary(addrs: seq<string>, n: nat, p: nat)
    requires Distinct(addrs) && n < |addrs| && p < |addrs|
    ensures Target(n, RenewIdx(addrs[n], PeersOf(addrs, n), addrs[p])) == p
    ensures RenewIdx(addrs[n], PeersOf(addrs, n), addrs[p]) == -1 <==> n == p
    ensures RenewIdx(addrs[n], PeersOf(addrs, n), addrs[p]) != UK_STATUS
  {
    if n != p {
      var peers := PeersOf(addrs, n);
      assert peers[if p < n then p else p - 1] == addrs[p];
      var i := RetrieveIdx(peers, addrs[p]);
      assert addrs[Target(n, i)] == peers[i];
    }
  }

  lemma RenewIdxStranger(addrs: seq<string>, n: nat, a: string)
    requires n < |addrs| && a !in addrs
    ensures RenewIdx(addrs[n], PeersOf(addrs, n), a) == UK_STATUS == -5
  {
    assert a != addrs[n];
  }

  /** One node as the coordinator reports it. */
  datatype NodeView = NodeView(address: string, alive: bool)

  /** The position a starting node syncs from: the first live node of the report other than itself. */
  function SyncChoice(nodes: seq<NodeView>, addr: string): (i: int)
    ensures i == -1 ==> forall k :: 0 <= k < |nodes| ==> !(nodes[k].alive && nodes[k].address != addr)
    ensures i != -1 ==> 0 <= i < |nodes| && nodes[i].alive && nodes[i].address != addr
    ensures i != -1 ==> forall k :: 0 <= k < i ==> !(nodes[k].alive && nodes[k].address != addr)
  {
    if nodes == [] then -1
    else if nodes[0].alive && nodes[0].address != addr then 0
    else
      var i := SyncChoice(nodes[1..], addr);
      if i == -1 then -1 else i + 1
  }
}
