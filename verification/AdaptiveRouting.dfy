/**
 The adaptive policy as a whole (emulated-sdn-application/minidc/controller/policy.py, the property
 routingTable): the hosts are redistributed and the tables built again. What the packets then put on each
 core switch is what the redistribution balanced.
 */
module AdaptiveRouting {
  import opened Adaptive
  import opened Balancing
  import opened Collections
  import opened Network
  import opened Policies
  import D = Delivery

  function Names(t: Topology): (names: seq<string>)
    ensures |names| == |t.cores|
  {
    seq(|t.cores|, i requires 0 <= i < |t.cores| => t.cores[i].name)
  }

  /** The policy balances over the cores of this network, and every host has one of them. */
  ghost predicate Manages(policy: AdaptivePolicy, t: Topology)
    reads policy
  {
    policy.Valid() && policy.cores == Names(t) && ValidUp(t, policy.assignments)
  }

  /** No other assignment of these hosts is better by more than the largest-first factor. */
  ghost predicate Balanced(stats: seq<Stat>, assignment: map<string, string>, cores: seq<string>)
    requires Serves(assignment, stats, cores)
  {
    forall other, limit: nat, c :: Serves(other, stats, cores) && Within(stats, other, cores, limit) && c in cores ==>
      3 * |cores| * Traffic(stats, assignment, c) <= (4 * |cores| - 1) * limit
  }

  ghost predicate Within(stats: seq<Stat>, assignment: map<string, string>, cores: seq<string>, limit: nat)
    requires Serves(assignment, stats, cores)
  {
    forall c :: c in cores ==> Traffic(stats, assignment, c) <= limit
  }

  lemma StillValidUp(t: Topology, before: map<string, string>, after: map<string, string>, stats: seq<Stat>)
    requires ValidUp(t, before) && Kept(before, after, Adaptive.Hosts(stats)) && Serves(after, stats, Names(t))
    ensures ValidUp(t, after)
  {
    forall k | 0 <= k < |t.hosts| ensures t.hosts[k].name in after && IsCoreName(t, after[t.hosts[k].name]) {
      var h := t.hosts[k].name;
      if h in Adaptive.Hosts(stats) {
        var x :| x in stats && x.host == h;
        var j :| 0 <= j < |stats| && stats[j] == x;
        var i :| 0 <= i < |t.cores| && Names(t)[i] == after[h];
        assert t.cores[i].name == after[h];
      }
    }
  }

  lemma IsBalanced(hostBw: seq<Stat>, assignment: map<string, string>, cores: seq<string>)
    requires Distinct(cores) && cores != [] && Serves(assignment, SortDescending(hostBw), cores)
    requires Greedy(Bytes(SortDescending(hostBw)), Chosen(SortDescending(hostBw), assignment), cores)
    ensures Balanced(SortDescending(hostBw), assignment, cores)
  {
    var stats := SortDescending(hostBw);
    forall other, limit: nat, c | Serves(other, stats, cores) && Within(stats, other, cores, limit) && c in cores
      ensures 3 * |cores| * Traffic(stats, assignment, c) <= (4 * |cores| - 1) * limit
    {
      NearOptimal(hostBw, assignment, other, cores, limit);
    }
  }

  /** Balances, and builds tables that deliver. */
  method RoutingTable(policy: AdaptivePolicy, t: Topology, hostBw: seq<Stat>) returns (rt: map<nat, seq<Rule>>)
    requires WellFormed(t) && Manages(policy, t) && DistinctHosts(hostBw)
    modifies policy
    ensures Manages(policy, t) && D.Running(t, rt, CoreNames(t), policy.assignments)
    ensures Kept(old(policy.assignments), policy.assignments, Adaptive.Hosts(hostBw))
    ensures Serves(policy.assignments, SortDescending(hostBw), policy.cores)
    ensures Balanced(SortDescending(hostBw), policy.assignments, policy.cores)
  {
    ghost var before := policy.assignments;
    policy.Redistribute(hostBw);
    HostsSorted(hostBw);
    StillValidUp(t, before, policy.assignments, SortDescending(hostBw));
    IsBalanced(hostBw, policy.assignments, policy.cores);
    rt := BuildAdaptive(t, policy.assignments);
    D.AllCoresRun(t, rt, policy.assignments);
  }

  // ---------------------------------------------------------------- what the packets put on the cores

  /** Some packet for this host, on its way from the edge switch of another, is passed to core `i`. */
  ghost predicate GoesThrough(t: Topology, rt: map<nat, seq<Rule>>, host: string, i: nat)
    requires Wired(t) && Housed(t)
  {
    exists l: nat, a: nat, inport: nat, pkt ::
      && D.AddressedTo(t, pkt, l) && t.hosts[l].name == host && a < |t.edges| && !Home(t, l, a)
      && Next(t, rt, pkt, Edge(a), inport) == [Core(i)]
  }

  /** The bytes of the hosts whose packets go through core `i`. */
  ghost function Carried(t: Topology, rt: map<nat, seq<Rule>>, stats: seq<Stat>, i: nat): nat
    requires Wired(t) && Housed(t)
  {
    if stats == [] then 0
    else
      var n := |stats| - 1;
      Carried(t, rt, stats[..n], i) + if GoesThrough(t, rt, stats[n].host, i) then stats[n].bytes else 0
  }

  ghost predicate HostsOf(t: Topology, stats: seq<Stat>)
  {
    forall k :: 0 <= k < |stats| ==> IsHost(t, stats[k].host)
  }

  predicate IsHost(t: Topology, host: string)
  {
    exists l :: 0 <= l < |t.hosts| && t.hosts[l].name == host
  }

  lemma AnotherEdge(t: Topology, l: nat) returns (a: nat)
    requires WellFormed(t) && l < |t.hosts| && |t.edges| >= 2
    ensures a < |t.edges| && !Home(t, l, a)
  {
    a := if Home(t, l, 0) then 1 else 0;
  }

  /** That is so exactly for the core to which the host is assigned. */
  lemma ThroughItsCore(t: Topology, rt: map<nat, seq<Rule>>, used: set<string>, up: map<string, string>, l: nat, i: nat)
    requires D.Running(t, rt, used, up) && |t.edges| >= 2 && l < |t.hosts| && i < |t.cores|
    ensures GoesThrough(t, rt, t.hosts[l].name, i) <==> t.cores[i].name == up[t.hosts[l].name]
  {
    if t.cores[i].name == up[t.hosts[l].name] {
      var a := AnotherEdge(t, l);
      var pkt := Packet("", t.hosts[l].eth);
      D.NextAway(t, rt, used, up, pkt, l, a, i, 0);
      assert D.AddressedTo(t, pkt, l) && Next(t, rt, pkt, Edge(a), 0) == [Core(i)];
    } else if GoesThrough(t, rt, t.hosts[l].name, i) {
      ThroughNoOther(t, rt, used, up, l, i);
    }
  }

  lemma ThroughNoOther(t: Topology, rt: map<nat, seq<Rule>>, used: set<string>, up: map<string, string>, l: nat, i: nat)
    requires D.Running(t, rt, used, up) && l < |t.hosts| && GoesThrough(t, rt, t.hosts[l].name, i)
    ensures i < |t.cores| && t.cores[i].name == up[t.hosts[l].name]
  {
    var m: nat, a: nat, inport: nat, pkt :| D.AddressedTo(t, pkt, m) && t.hosts[m].name == t.hosts[l].name
      && a < |t.edges| && !Home(t, m, a) && Next(t, rt, pkt, Edge(a), inport) == [Core(i)];
    assert m == l;
    var j :| 0 <= j < |t.cores| && t.cores[j].name == up[t.hosts[l].name];
    D.NextAway(t, rt, used, up, pkt, l, a, j, inport);
    assert Next(t, rt, pkt, Edge(a), inport)[0] == Core(j);
  }

  lemma {:induction false} CarriedIsTraffic(t: Topology, rt: map<nat, seq<Rule>>, used: set<string>, up: map<string, string>,
                                            stats: seq<Stat>, i: nat)
    requires D.Running(t, rt, used, up) && |t.edges| >= 2 && HostsOf(t, stats) && i < |t.cores|
    ensures Serves(up, stats, Names(t)) && Carried(t, rt, stats, i) == Traffic(stats, up, t.cores[i].name)
  {
    if stats == [] {
    } else {
      hide *;
      var l := LastHost(t, stats);
      CarriedIsTraffic(t, rt, used, up, stats[..|stats| - 1], i);
      CarriedNext(t, rt, used, up, stats, l, i);
    }
  }

  lemma LastHost(t: Topology, stats: seq<Stat>) returns (l: nat)
    requires HostsOf(t, stats) && stats != []
    ensures HostsOf(t, stats[..|stats| - 1]) && l < |t.hosts| && t.hosts[l].name == stats[|stats| - 1].host
  {
    assert IsHost(t, stats[|stats| - 1].host);
    l :| 0 <= l < |t.hosts| && t.hosts[l].name == stats[|stats| - 1].host;
  }

  lemma CarriedNext(t: Topology, rt: map<nat, seq<Rule>>, used: set<string>, up: map<string, string>, stats: seq<Stat>, l: nat, i: nat)
    requires D.Running(t, rt, used, up) && |t.edges| >= 2 && i < |t.cores|
    requires stats != [] && l < |t.hosts| && t.hosts[l].name == stats[|stats| - 1].host
    requires var front := stats[..|stats| - 1];
      Serves(up, front, Names(t)) && Carried(t, rt, front, i) == Traffic(front, up, t.cores[i].name)
    ensures Serves(up, stats, Names(t)) && Carried(t, rt, stats, i) == Traffic(stats, up, t.cores[i].name)
  {
    hide GoesThrough, Traffic, Serves, Compiled, Identified;
    ThroughItsCore(t, rt, used, up, l, i);
    OneMoreHost(t, up, stats, l, i);
  }

  lemma OneMoreHost(t: Topology, up: map<string, string>, stats: seq<Stat>, l: nat, i: nat)
    requires stats != [] && ValidUp(t, up) && l < |t.hosts| && t.hosts[l].name == stats[|stats| - 1].host && i < |t.cores|
    requires Serves(up, stats[..|stats| - 1], Names(t))
    ensures Serves(up, stats, Names(t))
    ensures Traffic(stats, up, t.cores[i].name) == Traffic(stats[..|stats| - 1], up, t.cores[i].name)
            + if up[t.hosts[l].name] == t.cores[i].name then stats[|stats| - 1].bytes else 0
  {
    var n := |stats| - 1;
    var j :| 0 <= j < |t.cores| && t.cores[j].name == up[t.hosts[l].name];
    assert Names(t)[j] == up[stats[n].host];
    forall k | 0 <= k < |stats| ensures stats[k].host in up && up[stats[k].host] in Names(t) {
      if k < n {
        assert stats[..n][k] == stats[k];
      }
    }
    assert Bytes(stats)[..n] == Bytes(stats[..n]) && Chosen(stats, up)[..n] == Chosen(stats[..n], up);
  }

  /**
   Balanced tables are near-optimal among all tables that deliver, whichever policy made them: if others put
   no more than `limit` on any core, these put at most (4m-1)/3m of it.
   */
  lemma TablesNearOptimal(t: Topology, rt: map<nat, seq<Rule>>, up: map<string, string>,
                          rt': map<nat, seq<Rule>>, used': set<string>, up': map<string, string>, stats: seq<Stat>, limit: nat)
    requires D.Running(t, rt, CoreNames(t), up) && D.Running(t, rt', used', up') && |t.edges| >= 2 && HostsOf(t, stats)
    requires Serves(up, stats, Names(t)) && Balanced(stats, up, Names(t))
    requires forall i: nat :: i < |t.cores| ==> Carried(t, rt', stats, i) <= limit
    ensures forall i: nat :: i < |t.cores| ==> 3 * |t.cores| * Carried(t, rt, stats, i) <= (4 * |t.cores| - 1) * limit
  {
    CarriedWithin(t, rt', used', up', stats, limit);
    forall i: nat | i < |t.cores| ensures 3 * |t.cores| * Carried(t, rt, stats, i) <= (4 * |t.cores| - 1) * limit {
      NearOptimalAt(t, rt, up, up', stats, limit, i);
    }
  }

  lemma NearOptimalAt(t: Topology, rt: map<nat, seq<Rule>>, up: map<string, string>, other: map<string, string>,
                      stats: seq<Stat>, limit: nat, i: nat)
    requires D.Running(t, rt, CoreNames(t), up) && |t.edges| >= 2 && HostsOf(t, stats) && i < |t.cores|
    requires Serves(up, stats, Names(t)) && Balanced(stats, up, Names(t))
    requires Serves(other, stats, Names(t)) && Within(stats, other, Names(t), limit)
    ensures 3 * |t.cores| * Carried(t, rt, stats, i) <= (4 * |t.cores| - 1) * limit
  {
    hide *;
    CarriedIsTraffic(t, rt, CoreNames(t), up, stats, i);
    NameAt(t, i);
    UseBalance(stats, up, Names(t), other, limit, i);
  }

  lemma NameAt(t: Topology, i: nat)
    requires i < |t.cores|
    ensures Names(t)[i] == t.cores[i].name
  {
  }

  lemma CarriedWithin(t: Topology, rt: map<nat, seq<Rule>>, used: set<string>, up: map<string, string>, stats: seq<Stat>, limit: nat)
    requires D.Running(t, rt, used, up) && |t.edges| >= 2 && HostsOf(t, stats)
    requires forall i: nat :: i < |t.cores| ==> Carried(t, rt, stats, i) <= limit
    ensures Serves(up, stats, Names(t)) && Within(stats, up, Names(t), limit)
  {
    CarriedIsTraffic(t, rt, used, up, stats, 0);
    forall c | c in Names(t) ensures Traffic(stats, up, c) <= limit {
      var i :| 0 <= i < |t.cores| && Names(t)[i] == c;
      CarriedIsTraffic(t, rt, used, up, stats, i);
    }
  }

  lemma UseBalance(stats: seq<Stat>, up: map<string, string>, cores: seq<string>, other: map<string, string>, limit: nat, i: nat)
    requires Serves(up, stats, cores) && Balanced(stats, up, cores) && i < |cores|
    requires Serves(other, stats, cores) && Within(stats, other, cores, limit)
    ensures 3 * |cores| * Traffic(stats, up, cores[i]) <= (4 * |cores| - 1) * limit
  {
  }
}
