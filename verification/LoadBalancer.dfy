/**
 The front-end load balancer (src/loadbalancer/load_balancer.cc:65-89): each client goes to
 the live front end with the fewest clients so far.
 */
module LoadBalancer {
  import opened Basics

  ghost predicate Ascending(ports: seq<nat>) {
    forall i, j :: 0 <= i < j < |ports| ==> ports[i] < ports[j]
  }

  /** A front end the scan can select. */
  ghost predicate Candidate(ports: seq<nat>, live: map<nat, bool>, counts: map<nat, int>, p: nat)
    requires forall q :: q in ports ==> q in counts && q in live
  {
    p in ports && live[p] && counts[p] < INT_MAX
  }

  ghost predicate SomeCandidate(ports: seq<nat>, live: map<nat, bool>, counts: map<nat, int>)
    requires forall q :: q in ports ==> q in counts && q in live
  {
    exists q :: Candidate(ports, live, counts, q)
  }

  /** What one call may select: a least loaded live port, the lowest of those; with no candidate, the first port. */
  ghost predicate Selects(ports: seq<nat>, live: map<nat, bool>, counts: map<nat, int>, p: nat)
    requires forall q :: q in ports ==> q in counts && q in live
  {
    if SomeCandidate(ports, live, counts) then
      && Candidate(ports, live, counts, p)
      && forall q :: Candidate(ports, live, counts, q) ==> counts[p] < counts[q] || (counts[p] == counts[q] && p <= q)
    else |ports| > 0 && p == ports[0]
  }

  class Balancer {
    const ports: seq<nat>
    var frontendPorts: map<nat, int>
    var frontendStatus: map<nat, bool>

    /** The keys of both maps are the ports, and 0 is not a port. */
    ghost predicate Valid()
      reads this
    {
      && |ports| > 0 && Ascending(ports) && ports[0] > 0
      && forall q :: q in ports ==> q in frontendPorts && q in frontendStatus
    }

    constructor ()
      ensures Valid() && ports == [8080, 8081, 8082]
      ensures forall q :: q in ports ==> frontendPorts[q] == 0 && frontendStatus[q]
    {
      ports := [8080, 8081, 8082];
      frontendPorts := map[8080 := 0, 8081 := 0, 8082 := 0];
      frontendStatus := map[8080 := true, 8081 := true, 8082 := true];
    }

    method GetNextFrontendPort() returns (selected: nat)
      requires Valid()
      modifies `frontendPorts
      ensures Valid() && selected in ports
      ensures Selects(ports, frontendStatus, old(frontendPorts), selected)
      ensures frontendPorts == old(frontendPorts)[selected := old(frontendPorts)[selected] + 1]
    {
      selected := 0;
      var minCount := INT_MAX;
      var i := 0;
      while i < |ports|
        invariant 0 <= i <= |ports| && minCount <= INT_MAX
        invariant selected == 0 <==> minCount == INT_MAX
        invariant forall k :: 0 <= k < i && frontendStatus[ports[k]] ==> minCount <= frontendPorts[ports[k]]
        invariant selected != 0 ==> exists k :: 0 <= k < i && ports[k] == selected
        invariant selected != 0 ==> Candidate(ports, frontendStatus, frontendPorts, selected) && minCount == frontendPorts[selected]
        invariant selected != 0 ==> forall k :: 0 <= k < i && frontendStatus[ports[k]] ==>
                    minCount < frontendPorts[ports[k]] || (minCount == frontendPorts[ports[k]] && selected <= ports[k])
      {
        var port, count := ports[i], frontendPorts[ports[i]];
        assert port > 0;
        if frontendStatus[port] && count < minCount {
          selected, minCount := port, count;
        }
        i := i + 1;
      }
      if selected != 0 {
        frontendPorts := frontendPorts[selected := frontendPorts[selected] + 1];
      } else {
        selected := ports[0];
        frontendPorts := frontendPorts[selected := frontendPorts[selected] + 1];
      }
    }
  }

  // ------------------------------------------------------------ convergence

  /** Calls made one after another while liveness does not change. */
  ghost predicate Calls(ports: seq<nat>, live: map<nat, bool>, trace: seq<map<nat, int>>, picks: seq<nat>) {
    && |trace| == |picks| + 1
    && (forall q :: q in ports ==> q in live)
    && (forall i, q :: 0 <= i < |trace| && q in ports ==> q in trace[i])
    && (forall i :: 0 <= i < |picks| ==> Call(ports, live, trace[i], trace[i + 1], picks[i]))
  }

  ghost predicate Call(ports: seq<nat>, live: map<nat, bool>, counts: map<nat, int>, counts': map<nat, int>, p: nat) {
    && (forall q :: q in ports ==> q in live && q in counts)
    && p in ports && Selects(ports, live, counts, p) && counts' == counts[p := counts[p] + 1]
  }

  function Total(ports: seq<nat>, counts: map<nat, int>): int
    requires forall q :: q in ports ==> q in counts
  {
    if ports == [] then 0 else counts[ports[0]] + Total(ports[1..], counts)
  }

  /** How far the live ports are below m, in all. */
  function Deficit(ports: seq<nat>, live: map<nat, bool>, counts: map<nat, int>, m: int): int
    requires forall q :: q in ports ==> q in counts && q in live
  {
    if ports == [] then 0
    else (if live[ports[0]] then m - counts[ports[0]] else 0) + Deficit(ports[1..], live, counts, m)
  }

  ghost predicate Below(ports: seq<nat>, live: map<nat, bool>, counts: map<nat, int>, m: int)
    requires forall q :: q in ports ==> q in counts && q in live
  {
    forall q :: q in ports && live[q] ==> counts[q] <= m
  }

  ghost predicate Level(ports: seq<nat>, live: map<nat, bool>, counts: map<nat, int>, m: int)
    requires forall q :: q in ports ==> q in counts && q in live
  {
    forall q :: q in ports && live[q] ==> counts[q] == m
  }

  /** No two live ports differ by more than one. */
  ghost predicate Even(ports: seq<nat>, live: map<nat, bool>, counts: map<nat, int>)
    requires forall q :: q in ports ==> q in counts && q in live
  {
    forall p, q :: p in ports && q in ports && live[p] && live[q] ==> counts[p] <= counts[q] + 1
  }

  lemma AscendingTail(ports: seq<nat>)
    requires ports != [] && Ascending(ports)
    ensures Ascending(ports[1..]) && ports[0] !in ports[1..]
  {
  }

  lemma {:induction false} SumsAfterCall(ports: seq<nat>, live: map<nat, bool>, counts: map<nat, int>, p: nat, m: int)
    requires Ascending(ports) && p in counts && forall q :: q in ports ==> q in counts && q in live
    ensures var counts' := counts[p := counts[p] + 1];
      && Total(ports, counts') == Total(ports, counts) + (if p in ports then 1 else 0)
      && Deficit(ports, live, counts', m) == Deficit(ports, live, counts, m) - (if p in ports && live[p] then 1 else 0)
  {
    if ports != [] {
      AscendingTail(ports);
      SumsAfterCall(ports[1..], live, counts, p, m);
    }
  }

  lemma {:induction false} DeficitSign(ports: seq<nat>, live: map<nat, bool>, counts: map<nat, int>, m: int)
    requires forall q :: q in ports ==> q in counts && q in live
    requires Below(ports, live, counts, m)
    ensures Deficit(ports, live, counts, m) >= 0
    ensures Deficit(ports, live, counts, m) == 0 <==> Level(ports, live, counts, m)
  {
    if ports != [] {
      assert Below(ports[1..], live, counts, m);
      DeficitSign(ports[1..], live, counts, m);
      assert live[ports[0]] ==> counts[ports[0]] <= m;
      assert forall q :: q in ports <==> q == ports[0] || q in ports[1..];
    }
  }

  /** While some live port is below m the call goes to one of those. */
  lemma CallFillsGap(ports: seq<nat>, live: map<nat, bool>, counts: map<nat, int>, counts': map<nat, int>, p: nat, m: int)
    requires Ascending(ports) && Call(ports, live, counts, counts', p) && m <= INT_MAX
    requires Below(ports, live, counts, m) && Deficit(ports, live, counts, m) > 0
    ensures live[p] && Below(ports, live, counts', m)
    ensures Deficit(ports, live, counts', m) == Deficit(ports, live, counts, m) - 1
  {
    DeficitSign(ports, live, counts, m);
    var q :| q in ports && live[q] && counts[q] < m;
    assert Candidate(ports, live, counts, q);
    SumsAfterCall(ports, live, counts, p, m);
  }

  lemma CallKeepsEven(ports: seq<nat>, live: map<nat, bool>, counts: map<nat, int>, counts': map<nat, int>, p: nat)
    requires Call(ports, live, counts, counts', p) && Even(ports, live, counts)
    requires forall q :: q in ports && live[q] ==> counts[q] < INT_MAX
    ensures Even(ports, live, counts')
  {
    if SomeCandidate(ports, live, counts) {
      assert forall q :: q in ports && live[q] ==> Candidate(ports, live, counts, q);
    } else {
      assert forall q :: q in ports ==> !Candidate(ports, live, counts, q);
    }
  }

  /** Each call raises the total by one; while some live port is below INT_MAX, dead ports are never chosen. */
  lemma {:induction false} CallsConserve(ports: seq<nat>, live: map<nat, bool>, trace: seq<map<nat, int>>, picks: seq<nat>, n: nat)
    requires Ascending(ports) && Calls(ports, live, trace, picks) && n <= |picks|
    ensures Total(ports, trace[n]) == Total(ports, trace[0]) + n
    ensures n > 0 && SomeCandidate(ports, live, trace[n - 1]) ==>
              forall q :: q in ports && !live[q] ==> trace[n][q] == trace[n - 1][q]
  {
    if n > 0 {
      CallsConserve(ports, live, trace, picks, n - 1);
      assert Call(ports, live, trace[n - 1], trace[n], picks[n - 1]);
      SumsAfterCall(ports, live, trace[n - 1], picks[n - 1], 0);
    }
  }

  lemma {:induction false} CallsStayBelow(ports: seq<nat>, live: map<nat, bool>, trace: seq<map<nat, int>>, picks: seq<nat>, m: int, n: nat)
    requires Ascending(ports) && Calls(ports, live, trace, picks) && n <= |picks|
    requires Below(ports, live, trace[0], m)
    ensures Below(ports, live, trace[n], m + n)
  {
    if n > 0 {
      CallsStayBelow(ports, live, trace, picks, m, n - 1);
      assert Call(ports, live, trace[n - 1], trace[n], picks[n - 1]);
    }
  }

  lemma {:induction false} GapsCloseOneByOne(ports: seq<nat>, live: map<nat, bool>, trace: seq<map<nat, int>>, picks: seq<nat>, m: int, n: nat)
    requires Ascending(ports) && Calls(ports, live, trace, picks) && n <= |picks| && m <= INT_MAX
    requires Below(ports, live, trace[0], m) && n <= Deficit(ports, live, trace[0], m)
    ensures Below(ports, live, trace[n], m)
    ensures Deficit(ports, live, trace[n], m) == Deficit(ports, live, trace[0], m) - n
  {
    if n > 0 {
      GapsCloseOneByOne(ports, live, trace, picks, m, n - 1);
      assert Call(ports, live, trace[n - 1], trace[n], picks[n - 1]);
      CallFillsGap(ports, live, trace[n - 1], trace[n], picks[n - 1], m);
    }
  }

  /**
   Load balancing converges: from any counts, with m at least every live count and d what
   the live ports are below m in all, after exactly d calls every live count is m, and
   from then on no two live counts ever differ by more than one.
   */
  lemma {:induction false} Converges(ports: seq<nat>, live: map<nat, bool>, trace: seq<map<nat, int>>, picks: seq<nat>, m: int, n: nat)
    requires Ascending(ports) && Calls(ports, live, trace, picks) && n <= |picks| && m + |picks| <= INT_MAX
    requires Below(ports, live, trace[0], m)
    ensures var d := Deficit(ports, live, trace[0], m);
      && (n == d ==> Level(ports, live, trace[n], m))
      && (n >= d ==> Even(ports, live, trace[n]))
      && (n < d ==> !Level(ports, live, trace[n], m))
  {
    var d := Deficit(ports, live, trace[0], m);
    if n <= d {
      GapsCloseOneByOne(ports, live, trace, picks, m, n);
      DeficitSign(ports, live, trace[n], m);
    } else {
      DeficitSign(ports, live, trace[0], m);
      Converges(ports, live, trace, picks, m, n - 1);
      CallsStayBelow(ports, live, trace, picks, m, n - 1);
      assert Call(ports, live, trace[n - 1], trace[n], picks[n - 1]);
      CallKeepsEven(ports, live, trace[n - 1], trace[n], picks[n - 1]);
    }
  }
}
