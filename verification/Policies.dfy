/**
 The routing tables that the three policies compile
 (emulated-sdn-application/minidc/controller/policy.py and flood.py).
 */
module Policies {
  import opened Collections
  import opened Network

  // ---------------------------------------------------------------- what the tables hold

  predicate Known(t: Topology, a: string, b: string)
  {
    a in t.ports && b in t.ports[a]
  }

  function PortOf(t: Topology, a: string, b: string): nat
    requires Known(t, a, b)
  {
    t.ports[a][b]
  }

  /** The port lookups that the builders make all succeed. */
  ghost predicate PortsKnown(t: Topology)
  {
    && (forall i, k :: 0 <= i < |t.cores| && 0 <= k < |t.hosts| ==> Known(t, t.cores[i].name, t.hosts[k].switch))
    && (forall i, j :: 0 <= i < |t.cores| && 0 <= j < |t.edges| ==> Known(t, t.edges[j].name, t.cores[i].name))
    && (forall j, n :: 0 <= j < |t.edges| && n in t.edges[j].neighbors ==> Known(t, t.edges[j].name, n))
  }

  /** Every host has a core switch to be reached through. */
  ghost predicate ValidUp(t: Topology, up: map<string, string>)
  {
    forall k :: 0 <= k < |t.hosts| ==> t.hosts[k].name in up && IsCoreName(t, up[t.hosts[k].name])
  }

  predicate IsCoreName(t: Topology, c: string)
  {
    exists i :: 0 <= i < |t.cores| && t.cores[i].name == c
  }

  /** At a core: towards the edge switch of each host. */
  ghost function DownRules(t: Topology, i: nat): (r: seq<Rule>)
    requires PortsKnown(t) && i < |t.cores|
    ensures |r| == |t.hosts|
  {
    seq(|t.hosts|, k requires 0 <= k < |t.hosts| =>
      Rule(Dst(t.hosts[k].eth), [Port(PortOf(t, t.cores[i].name, t.hosts[k].switch))], 2))
  }

  /** At an edge: to a neighbouring host directly, to any other through its core. */
  ghost function UpRule(t: Topology, j: nat, h: Host, up: map<string, string>): Rule
    requires PortsKnown(t) && j < |t.edges| && h.name in up && IsCoreName(t, up[h.name])
  {
    var e := t.edges[j];
    Rule(Dst(h.eth), [Port(if h.name in e.neighbors then PortOf(t, e.name, h.name) else PortOf(t, e.name, up[h.name]))], 2)
  }

  ghost function UpRules(t: Topology, j: nat, up: map<string, string>): (r: seq<Rule>)
    requires PortsKnown(t) && j < |t.edges| && ValidUp(t, up)
    ensures |r| == |t.hosts|
  {
    seq(|t.hosts|, k requires 0 <= k < |t.hosts| => UpRule(t, j, t.hosts[k], up))
  }

  /** At a core: what comes from a host and is not addressed to one goes everywhere. */
  ghost function FloodRules(t: Topology): (r: seq<Rule>)
    ensures |r| == |t.hosts|
  {
    seq(|t.hosts|, k requires 0 <= k < |t.hosts| => Rule(Src(t.hosts[k].eth), [Flood], 1))
  }

  ghost function HostPorts(t: Topology, j: nat, names: seq<string>): (r: seq<Output>)
    requires PortsKnown(t) && j < |t.edges| && forall n :: n in names ==> n in t.edges[j].neighbors
    ensures |r| == |names|
  {
    seq(|names|, k requires 0 <= k < |names| => Port(PortOf(t, t.edges[j].name, names[k])))
  }

  ghost function CorePorts(t: Topology, j: nat): (r: seq<Output>)
    requires PortsKnown(t) && j < |t.edges|
    ensures |r| == |t.cores|
  {
    seq(|t.cores|, i requires 0 <= i < |t.cores| => Port(PortOf(t, t.edges[j].name, t.cores[i].name)))
  }

  function Others(names: seq<string>, host: string): (r: seq<string>)
    ensures forall n :: n in r <==> n in names && n != host
  {
    if names == [] then []
    else (if names[0] != host then [names[0]] else []) + Others(names[1..], host)
  }

  /** At an edge: from a core down to the neighbours. */
  ghost function FromCoreRules(t: Topology, j: nat): (r: seq<Rule>)
    requires PortsKnown(t) && j < |t.edges|
    ensures |r| == |t.cores|
  {
    seq(|t.cores|, i requires 0 <= i < |t.cores| =>
      Rule(InPort(PortOf(t, t.edges[j].name, t.cores[i].name)), HostPorts(t, j, t.edges[j].neighbors), 1))
  }

  /** At an edge: from a neighbour up to every core, and to the other neighbours. */
  ghost function FromHostRules(t: Topology, j: nat): (r: seq<Rule>)
    requires PortsKnown(t) && j < |t.edges|
    ensures |r| == |t.edges[j].neighbors|
  {
    var ns := t.edges[j].neighbors;
    seq(|ns|, k requires 0 <= k < |ns| =>
      Rule(InPort(PortOf(t, t.edges[j].name, ns[k])), CorePorts(t, j) + HostPorts(t, j, Others(ns, ns[k])), 1))
  }

  const DropRule := Rule(Any, [], 0)

  /** The finished table of core `i`; a core the policy does not use only drops. */
  ghost function CoreTable(t: Topology, i: nat, used: bool): seq<Rule>
    requires PortsKnown(t) && i < |t.cores|
  {
    (if used then DownRules(t, i) + FloodRules(t) else []) + [DropRule]
  }

  ghost function EdgeTable(t: Topology, j: nat, up: map<string, string>): seq<Rule>
    requires PortsKnown(t) && j < |t.edges| && ValidUp(t, up)
  {
    UpRules(t, j, up) + EdgeFlood(t, j) + [DropRule]
  }

  /** A finished routing table that sends up along `up` and uses the cores named in `used`. */
  ghost predicate Compiled(t: Topology, rt: map<nat, seq<Rule>>, used: set<string>, up: map<string, string>)
    requires PortsKnown(t) && ValidUp(t, up)
  {
    && (forall d :: d in rt <==> d in CoreIds(t) || d in EdgeIds(t))
    && (forall i :: 0 <= i < |t.cores| ==> Get(rt, CoreIds(t)[i]) == CoreTable(t, i, t.cores[i].name in used))
    && (forall j :: 0 <= j < |t.edges| ==> Get(rt, EdgeIds(t)[j]) == EdgeTable(t, j, up))
  }

  ghost predicate DistinctIds(t: Topology)
  {
    && (forall i, k :: 0 <= i < k < |t.cores| ==> t.cores[i].dpid != t.cores[k].dpid)
    && (forall i, k :: 0 <= i < k < |t.edges| ==> t.edges[i].dpid != t.edges[k].dpid)
    && (forall i, j :: 0 <= i < |t.cores| && 0 <= j < |t.edges| ==> t.cores[i].dpid != t.edges[j].dpid)
  }

  lemma WellFormedLookups(t: Topology)
    requires WellFormed(t)
    ensures PortsKnown(t) && DistinctIds(t)
  {
    forall i, j | 0 <= i < |t.cores| && 0 <= j < |t.edges|
      ensures Known(t, t.edges[j].name, t.cores[i].name) && Known(t, t.cores[i].name, t.edges[j].name)
      ensures t.cores[i].dpid != t.edges[j].dpid
    {
      assert Linked(t, Edge(j), Core(i)) && Linked(t, Core(i), Edge(j));
      assert Dpid(t, Core(i)) != Dpid(t, Edge(j));
    }
    forall j: nat, n | j < |t.edges| && n in t.edges[j].neighbors ensures Known(t, t.edges[j].name, n) {
      var k: nat :| Home(t, k, j) && t.hosts[k].name == n;
      assert Linked(t, Edge(j), At(n));
    }
    forall i: nat, k: nat | i < |t.cores| && k < |t.hosts| ensures Known(t, t.cores[i].name, t.hosts[k].switch) {
      assert HasHome(t, k);
    }
    forall i: nat, k: nat | i < k < |t.cores| ensures t.cores[i].dpid != t.cores[k].dpid {
      assert Dpid(t, Core(i)) != Dpid(t, Core(k));
    }
    forall i: nat, k: nat | i < k < |t.edges| ensures t.edges[i].dpid != t.edges[k].dpid {
      assert Dpid(t, Edge(i)) != Dpid(t, Edge(k));
    }
  }

  // ---------------------------------------------------------------- flood.py

  /** The rules that `add_arpflood` adds to the table of a core that already has one. */
  method FloodCore(t: Topology, table: seq<Rule>) returns (r: seq<Rule>)
    ensures r == table + FloodRules(t)
  {
    r := table;
    var k := 0;
    while k < |t.hosts|
      invariant 0 <= k <= |t.hosts|
      invariant r == table + FloodRules(t)[..k]
    {
      r := r + [Rule(Src(t.hosts[k].eth), [Flood], 1)];
      k := k + 1;
    }
  }

  method EdgePorts(t: Topology, j: nat, names: seq<string>) returns (r: seq<Output>)
    requires PortsKnown(t) && j < |t.edges| && forall n :: n in names ==> n in t.edges[j].neighbors
    ensures r == HostPorts(t, j, names)
  {
    r := [];
    var k := 0;
    while k < |names|
      invariant 0 <= k <= |names|
      invariant r == HostPorts(t, j, names)[..k]
    {
      r := r + [Port(PortOf(t, t.edges[j].name, names[k]))];
      k := k + 1;
    }
  }

  method EdgeCorePorts(t: Topology, j: nat) returns (r: seq<Output>)
    requires PortsKnown(t) && j < |t.edges|
    ensures r == CorePorts(t, j)
  {
    r := [];
    var i := 0;
    while i < |t.cores|
      invariant 0 <= i <= |t.cores|
      invariant r == CorePorts(t, j)[..i]
    {
      r := r + [Port(PortOf(t, t.edges[j].name, t.cores[i].name))];
      i := i + 1;
    }
  }

  method FloodEdge(t: Topology, j: nat, table: seq<Rule>) returns (r: seq<Rule>)
    requires PortsKnown(t) && j < |t.edges|
    ensures r == table + EdgeFlood(t, j)
  {
    var e := t.edges[j];
    r := table;
    var i := 0;
    while i < |t.cores|
      invariant 0 <= i <= |t.cores|
      invariant r == table + FromCoreRules(t, j)[..i]
    {
      var outports := EdgePorts(t, j, e.neighbors);
      r := r + [Rule(InPort(PortOf(t, e.name, t.cores[i].name)), outports, 1)];
      i := i + 1;
    }
    var k := 0;
    while k < |e.neighbors|
      invariant 0 <= k <= |e.neighbors|
      invariant r == table + FromCoreRules(t, j) + FromHostRules(t, j)[..k]
    {
      var outports := EdgeCorePorts(t, j);
      var others := EdgePorts(t, j, Others(e.neighbors, e.neighbors[k]));
      r := r + [Rule(InPort(PortOf(t, e.name, e.neighbors[k])), outports + others, 1)];
      k := k + 1;
    }
  }

  function Get(rt: map<nat, seq<Rule>>, d: nat): seq<Rule>
  {
    if d in rt then rt[d] else []
  }

  function CoreIds(t: Topology): (r: seq<nat>)
    ensures |r| == |t.cores|
  {
    seq(|t.cores|, i requires 0 <= i < |t.cores| => t.cores[i].dpid)
  }

  function EdgeIds(t: Topology): (r: seq<nat>)
    ensures |r| == |t.edges|
  {
    seq(|t.edges|, j requires 0 <= j < |t.edges| => t.edges[j].dpid)
  }

  /** Adds the broadcast rules and the final drop rules to a table under construction. */
  method AddArpFlood(routingTable: map<nat, seq<Rule>>, t: Topology) returns (rt: map<nat, seq<Rule>>)
    requires PortsKnown(t) && DistinctIds(t)
    ensures forall d :: d in rt <==> d in routingTable || d in CoreIds(t) || d in EdgeIds(t)
    ensures forall d :: d in CoreIds(t) ==> Get(rt, d) == FloodedCore(t, routingTable, d)
    ensures forall j :: 0 <= j < |t.edges| ==> Get(rt, EdgeIds(t)[j]) == FloodedEdge(t, routingTable, j)
  {
    var cores := FloodCores(routingTable, t);
    var edges := FloodEdges(cores, t);
    var dropped := DropRest(edges, CoreIds(t));
    rt := DropRest(dropped, EdgeIds(t));
    CoresFlooded(t, routingTable, cores, edges, dropped, rt);
    EdgesFlooded(t, routingTable, cores, edges, dropped, rt);
  }

  ghost predicate Dropped(before: map<nat, seq<Rule>>, after: map<nat, seq<Rule>>, ids: seq<nat>)
  {
    forall d :: Get(after, d) == Get(before, d) + if d in ids then [DropRule] else []
  }

  ghost predicate CoresDone(t: Topology, before: map<nat, seq<Rule>>, after: map<nat, seq<Rule>>)
  {
    after.Keys == before.Keys &&
    forall d :: d in after ==> after[d] == before[d] + if d in CoreIds(t) then FloodRules(t) else []
  }

  ghost predicate EdgesDone(t: Topology, before: map<nat, seq<Rule>>, after: map<nat, seq<Rule>>)
    requires PortsKnown(t)
  {
    && (forall d :: d !in EdgeIds(t) ==> Get(after, d) == Get(before, d))
    && (forall j :: 0 <= j < |t.edges| ==> Get(after, EdgeIds(t)[j]) == Get(before, EdgeIds(t)[j]) + EdgeFlood(t, j))
  }

  lemma CoresFlooded(t: Topology, start: map<nat, seq<Rule>>, cores: map<nat, seq<Rule>>, edges: map<nat, seq<Rule>>,
                     dropped: map<nat, seq<Rule>>, rt: map<nat, seq<Rule>>)
    requires PortsKnown(t) && DistinctIds(t) && CoresDone(t, start, cores) && EdgesDone(t, cores, edges)
    requires Dropped(edges, dropped, CoreIds(t)) && Dropped(dropped, rt, EdgeIds(t))
    ensures forall d :: d in CoreIds(t) ==> Get(rt, d) == FloodedCore(t, start, d)
  {
    forall d | d in CoreIds(t) ensures Get(rt, d) == FloodedCore(t, start, d) {
      IdsDisjoint(t, d);
      assert Get(edges, d) == Get(cores, d);
      assert Get(dropped, d) == Get(edges, d) + [DropRule];
      assert Get(rt, d) == Get(dropped, d) + [];
    }
  }

  lemma EdgesFlooded(t: Topology, start: map<nat, seq<Rule>>, cores: map<nat, seq<Rule>>, edges: map<nat, seq<Rule>>,
                     dropped: map<nat, seq<Rule>>, rt: map<nat, seq<Rule>>)
    requires PortsKnown(t) && DistinctIds(t) && CoresDone(t, start, cores) && EdgesDone(t, cores, edges)
    requires Dropped(edges, dropped, CoreIds(t)) && Dropped(dropped, rt, EdgeIds(t))
    ensures forall j :: 0 <= j < |t.edges| ==> Get(rt, EdgeIds(t)[j]) == FloodedEdge(t, start, j)
  {
    forall j | 0 <= j < |t.edges| ensures Get(rt, EdgeIds(t)[j]) == FloodedEdge(t, start, j) {
      OneEdgeFlooded(t, start, cores, edges, dropped, rt, j);
    }
  }

  lemma OneEdgeFlooded(t: Topology, start: map<nat, seq<Rule>>, cores: map<nat, seq<Rule>>, edges: map<nat, seq<Rule>>,
                       dropped: map<nat, seq<Rule>>, rt: map<nat, seq<Rule>>, j: nat)
    requires PortsKnown(t) && DistinctIds(t) && CoresDone(t, start, cores) && EdgesDone(t, cores, edges)
    requires Dropped(edges, dropped, CoreIds(t)) && Dropped(dropped, rt, EdgeIds(t)) && j < |t.edges|
    ensures Get(rt, EdgeIds(t)[j]) == FloodedEdge(t, start, j)
  {
    var d := EdgeIds(t)[j];
    IdsDisjoint(t, d);
    assert d in EdgeIds(t);
    assert Get(edges, d) == Get(cores, d) + EdgeFlood(t, j);
    assert Get(dropped, d) == Get(edges, d) + [];
    assert Get(rt, d) == Get(dropped, d) + [DropRule];
    assert Get(cores, d) == Get(start, d) + [];
    EdgeFlooded(Get(start, d), Get(cores, d), Get(edges, d), Get(dropped, d), Get(rt, d), EdgeFlood(t, j));
  }

  lemma EdgeFlooded(start: seq<Rule>, cores: seq<Rule>, edges: seq<Rule>, dropped: seq<Rule>, rt: seq<Rule>, flood: seq<Rule>)
    requires cores == start + [] && edges == cores + flood && dropped == edges + [] && rt == dropped + [DropRule]
    ensures rt == start + flood + [DropRule]
  {
  }

  lemma IdsDisjoint(t: Topology, d: nat)
    requires DistinctIds(t)
    ensures d in CoreIds(t) ==> d !in EdgeIds(t)
  {
  }

  ghost function FloodedCore(t: Topology, routingTable: map<nat, seq<Rule>>, d: nat): seq<Rule>
  {
    (if d in routingTable then routingTable[d] + FloodRules(t) else []) + [DropRule]
  }

  ghost function FloodedEdge(t: Topology, routingTable: map<nat, seq<Rule>>, j: nat): seq<Rule>
    requires PortsKnown(t) && j < |t.edges|
  {
    Get(routingTable, EdgeIds(t)[j]) + EdgeFlood(t, j) + [DropRule]
  }

  method FloodCores(routingTable: map<nat, seq<Rule>>, t: Topology) returns (rt: map<nat, seq<Rule>>)
    requires DistinctIds(t)
    ensures CoresDone(t, routingTable, rt)
  {
    rt := routingTable;
    var ids := CoreIds(t);
    var i := 0;
    while i < |t.cores|
      invariant 0 <= i <= |t.cores| && rt.Keys == routingTable.Keys
      invariant forall d :: d in rt ==> rt[d] == routingTable[d] + if d in ids[..i] then FloodRules(t) else []
    {
      var d := t.cores[i].dpid;
      assert ids[..i + 1] == ids[..i] + [d];
      if d in rt {
        var r := FloodCore(t, rt[d]);
        rt := rt[d := r];
      }
      i := i + 1;
    }
    assert ids[..i] == ids;
  }

  ghost function EdgeFlood(t: Topology, j: nat): seq<Rule>
    requires PortsKnown(t) && j < |t.edges|
  {
    FromCoreRules(t, j) + FromHostRules(t, j)
  }

  method FloodEdges(routingTable: map<nat, seq<Rule>>, t: Topology) returns (rt: map<nat, seq<Rule>>)
    requires PortsKnown(t) && DistinctIds(t)
    ensures forall d :: d in rt <==> d in routingTable || d in EdgeIds(t)
    ensures EdgesDone(t, routingTable, rt)
  {
    hide EdgeFlood;
    rt := routingTable;
    var ids := EdgeIds(t);
    var j := 0;
    while j < |t.edges|
      invariant 0 <= j <= |t.edges|
      invariant forall d :: d in rt <==> d in routingTable || d in ids[..j]
      invariant forall d :: d !in ids[..j] ==> Get(rt, d) == Get(routingTable, d)
      invariant forall k :: 0 <= k < j ==> Get(rt, ids[k]) == Get(routingTable, ids[k]) + EdgeFlood(t, k)
    {
      var d := t.edges[j].dpid;
      assert ids[..j + 1] == ids[..j] + [d];
      var r := FloodEdge(t, j, if d !in rt then [] else rt[d]);
      rt := rt[d := r];
      j := j + 1;
    }
    assert ids[..j] == ids;
  }

  /** Ends the tables of the switches in `ids` with the rule that drops all else. */
  method DropRest(routingTable: map<nat, seq<Rule>>, ids: seq<nat>) returns (rt: map<nat, seq<Rule>>)
    requires forall i, j :: 0 <= i < j < |ids| ==> ids[i] != ids[j]
    ensures forall d :: d in rt <==> d in routingTable || d in ids
    ensures Dropped(routingTable, rt, ids)
  {
    rt := routingTable;
    var i := 0;
    while i < |ids|
      invariant 0 <= i <= |ids|
      invariant forall d :: d in rt <==> d in routingTable || d in ids[..i]
      invariant forall d :: Get(rt, d) == Get(routingTable, d) + if d in ids[..i] then [DropRule] else []
    {
      var d := ids[i];
      assert ids[..i + 1] == ids[..i] + [d];
      if d !in rt {
        rt := rt[d := []];
      }
      rt := rt[d := rt[d] + [DropRule]];
      i := i + 1;
    }
    assert ids[..i] == ids;
  }

  // ---------------------------------------------------------------- policy.py

  method CoreRules(t: Topology, i: nat) returns (r: seq<Rule>)
    requires PortsKnown(t) && i < |t.cores|
    ensures r == DownRules(t, i)
  {
    r := [];
    var k := 0;
    while k < |t.hosts|
      invariant 0 <= k <= |t.hosts|
      invariant r == DownRules(t, i)[..k]
    {
      var outport := PortOf(t, t.cores[i].name, t.hosts[k].switch);
      r := r + [Rule(Dst(t.hosts[k].eth), [Port(outport)], 2)];
      k := k + 1;
    }
  }

  /** The downward half of a table, for every core: the first loop of AdaptivePolicy and of StaticPolicy. */
  method Downward(t: Topology) returns (rt: map<nat, seq<Rule>>)
    requires PortsKnown(t) && DistinctIds(t)
    ensures forall d :: d in rt <==> d in CoreIds(t)
    ensures forall i :: 0 <= i < |t.cores| ==> rt[CoreIds(t)[i]] == DownRules(t, i)
  {
    rt := map[];
    var ids := CoreIds(t);
    var i := 0;
    while i < |t.cores|
      invariant 0 <= i <= |t.cores|
      invariant forall d :: d in rt <==> d in ids[..i]
      invariant forall k :: 0 <= k < i ==> ids[k] in ids[..i] && rt[ids[k]] == DownRules(t, k)
    {
      assert ids[..i + 1] == ids[..i] + [t.cores[i].dpid];
      var r := CoreRules(t, i);
      rt := rt[t.cores[i].dpid := r];
      i := i + 1;
    }
    assert ids[..i] == ids;
  }

  /** The core switch that serves a VLAN: the first that lists it, if any. */
  method GetVlanCore(t: Topology, vlan: nat) returns (r: Option<string>)
    ensures r == VlanCore(t.cores, vlan)
  {
    var i := 0;
    while i < |t.cores|
      invariant 0 <= i <= |t.cores|
      invariant VlanCore(t.cores, vlan) == VlanCore(t.cores[i..], vlan)
    {
      if vlan in t.cores[i].vlans {
        return Some(t.cores[i].name);
      }
      assert t.cores[i..][1..] == t.cores[i + 1..];
      i := i + 1;
    }
    return None;
  }

  function VlanCore(cores: seq<CoreSwitch>, vlan: nat): Option<string>
  {
    if cores == [] then None
    else if vlan in cores[0].vlans then Some(cores[0].name)
    else VlanCore(cores[1..], vlan)
  }

  /** StaticPolicy can be compiled: each host has a VLAN, and its first VLAN has a core. */
  ghost predicate VlansServed(t: Topology)
  {
    forall k :: 0 <= k < |t.hosts| ==> t.hosts[k].vlans != [] && VlanCore(t.cores, t.hosts[k].vlans[0]).Some?
  }

  /** The core that a host's first VLAN is assigned to. */
  ghost function StaticUp(t: Topology): (up: map<string, string>)
    requires VlansServed(t) && forall k, l :: 0 <= k < l < |t.hosts| ==> t.hosts[k].name != t.hosts[l].name
    ensures forall k :: 0 <= k < |t.hosts| ==>
      t.hosts[k].name in up && up[t.hosts[k].name] == VlanCore(t.cores, t.hosts[k].vlans[0]).value
  {
    map n | n in HostNames(t) :: VlanCore(t.cores, HostNamed(t.hosts, n).vlans[0]).value
  }

  ghost function HostNamed(hosts: seq<Host>, n: string): (h: Host)
    requires exists h :: h in hosts && h.name == n
    ensures h in hosts && h.name == n
  {
    var h :| h in hosts && h.name == n;
    h
  }

  function HostNames(t: Topology): set<string>
  {
    set h | h in t.hosts :: h.name
  }

  /** Every host through the first core. */
  ghost function DefaultUp(t: Topology): map<string, string>
    requires |t.cores| > 0
  {
    map n | n in HostNames(t) :: t.cores[0].name
  }

  ghost function CoreNames(t: Topology): set<string>
  {
    set c | c in t.cores :: c.name
  }

  lemma {:induction false} VlanCoreIsCore(cores: seq<CoreSwitch>, vlan: nat)
    requires VlanCore(cores, vlan).Some?
    ensures exists i :: 0 <= i < |cores| && cores[i].name == VlanCore(cores, vlan).value
  {
    if vlan !in cores[0].vlans {
      VlanCoreIsCore(cores[1..], vlan);
      var i :| 0 <= i < |cores[1..]| && cores[1..][i].name == VlanCore(cores, vlan).value;
      assert cores[i + 1].name == VlanCore(cores, vlan).value;
    }
  }

  /** The downward half `down`, and the upward half for the first `j` edge switches. */
  ghost predicate UpDone(t: Topology, down: map<nat, seq<Rule>>, table: map<nat, seq<Rule>>, up: map<string, string>, j: nat)
    requires PortsKnown(t) && ValidUp(t, up) && j <= |t.edges|
  {
    && (forall d :: d in table <==> d in down || d in EdgeIds(t)[..j])
    && (forall d :: d in down ==> d in table && table[d] == down[d])
    && (forall k :: 0 <= k < j ==> Get(table, EdgeIds(t)[k]) == UpRules(t, k, up))
  }

  function Put(table: map<nat, seq<Rule>>, d: nat, rules: seq<Rule>): map<nat, seq<Rule>>
  {
    table[d := rules]
  }

  lemma UpStep(t: Topology, down: map<nat, seq<Rule>>, table: map<nat, seq<Rule>>, up: map<string, string>, j: nat)
    requires PortsKnown(t) && DistinctIds(t) && ValidUp(t, up) && j < |t.edges| && UpDone(t, down, table, up, j)
    requires forall d :: d in down ==> d in CoreIds(t)
    ensures UpDone(t, down, Put(table, t.edges[j].dpid, UpRules(t, j, up)), up, j + 1)
  {
    var ids := EdgeIds(t);
    var after := Put(table, t.edges[j].dpid, UpRules(t, j, up));
    assert ids[..j + 1] == ids[..j] + [ids[j]];
    assert ids[j] == t.edges[j].dpid && ids[j] in ids;
    forall d | d in down ensures d in after && after[d] == down[d] {
      IdsDisjoint(t, d);
    }
    forall k | 0 <= k < j ensures Get(after, ids[k]) == UpRules(t, k, up) {
      EdgeIdsDiffer(t, k, j);
    }
  }

  lemma EdgeIdsDiffer(t: Topology, k: nat, j: nat)
    requires DistinctIds(t) && k < j < |t.edges|
    ensures EdgeIds(t)[k] != EdgeIds(t)[j]
  {
  }

  lemma UpFinished(t: Topology, down: map<nat, seq<Rule>>, table: map<nat, seq<Rule>>, up: map<string, string>)
    requires PortsKnown(t) && ValidUp(t, up) && UpDone(t, down, table, up, |t.edges|)
    ensures forall d :: d in table <==> d in down || d in EdgeIds(t)
    ensures forall j :: 0 <= j < |t.edges| ==> Get(table, EdgeIds(t)[j]) == UpRules(t, j, up)
  {
    assert EdgeIds(t)[..|t.edges|] == EdgeIds(t);
  }

  /** The rules of one edge switch, each other host through the core it is assigned to. */
  method AdaptiveEdgeRules(t: Topology, j: nat, assignments: map<string, string>) returns (rules: seq<Rule>)
    requires PortsKnown(t) && ValidUp(t, assignments) && j < |t.edges|
    ensures rules == UpRules(t, j, assignments)
  {
    var edge := t.edges[j];
    rules := [];
    var k := 0;
    while k < |t.hosts|
      invariant 0 <= k <= |t.hosts| && rules == UpRules(t, j, assignments)[..k]
    {
      var h := t.hosts[k];
      var outport;
      if h.name in edge.neighbors {
        outport := PortOf(t, edge.name, h.name);
      } else {
        var core := assignments[h.name];
        outport := PortOf(t, edge.name, core);
      }
      rules := rules + [Rule(Dst(h.eth), [Port(outport)], 2)];
      k := k + 1;
    }
  }

  method BuildAdaptive(t: Topology, assignments: map<string, string>) returns (rt: map<nat, seq<Rule>>)
    requires WellFormed(t) && ValidUp(t, assignments)
    ensures PortsKnown(t) && Compiled(t, rt, CoreNames(t), assignments)
  {
    WellFormedLookups(t);
    var routingTable := Downward(t);
    ghost var down := routingTable;
    var j := 0;
    while j < |t.edges|
      invariant 0 <= j <= |t.edges| && UpDone(t, down, routingTable, assignments, j)
    {
      var rules := AdaptiveEdgeRules(t, j, assignments);
      UpStep(t, down, routingTable, assignments, j);
      routingTable := Put(routingTable, t.edges[j].dpid, rules);
      j := j + 1;
    }
    rt := AddArpFlood(routingTable, t);
    FinishAllCores(t, down, routingTable, rt, assignments);
  }

  lemma FinishAllCores(t: Topology, down: map<nat, seq<Rule>>, half: map<nat, seq<Rule>>, rt: map<nat, seq<Rule>>, up: map<string, string>)
    requires PortsKnown(t) && DistinctIds(t) && ValidUp(t, up) && UpDone(t, down, half, up, |t.edges|)
    requires (forall d :: d in down <==> d in CoreIds(t)) && forall i :: 0 <= i < |t.cores| ==> down[CoreIds(t)[i]] == DownRules(t, i)
    requires forall d :: d in rt <==> d in half || d in CoreIds(t) || d in EdgeIds(t)
    requires forall d :: d in CoreIds(t) ==> Get(rt, d) == FloodedCore(t, half, d)
    requires forall j :: 0 <= j < |t.edges| ==> Get(rt, EdgeIds(t)[j]) == FloodedEdge(t, half, j)
    ensures Compiled(t, rt, CoreNames(t), up)
  {
    UpFinished(t, down, half, up);
    forall i | 0 <= i < |t.cores| ensures t.cores[i].name in CoreNames(t) && CoreIds(t)[i] in half && half[CoreIds(t)[i]] == DownRules(t, i) {
      assert t.cores[i] in t.cores;
      assert CoreIds(t)[i] in CoreIds(t);
    }
    FinishTable(t, half, rt, CoreNames(t), up);
  }

  /** The rules of one edge switch, each other host through the core of its first VLAN. */
  method StaticEdgeRules(t: Topology, j: nat) returns (rules: seq<Rule>)
    requires PortsKnown(t) && VlansServed(t) && j < |t.edges|
    requires forall k, l :: 0 <= k < l < |t.hosts| ==> t.hosts[k].name != t.hosts[l].name
    ensures ValidUp(t, StaticUp(t)) && rules == UpRules(t, j, StaticUp(t))
  {
    StaticUpValid(t);
    var edge := t.edges[j];
    rules := [];
    var k := 0;
    while k < |t.hosts|
      invariant 0 <= k <= |t.hosts| && rules == UpRules(t, j, StaticUp(t))[..k]
    {
      var host := t.hosts[k];
      var outPort;
      if host.name in edge.neighbors {
        outPort := PortOf(t, edge.name, host.name);
      } else {
        var vlanId := host.vlans[0];
        var coreSwitch := GetVlanCore(t, vlanId);
        outPort := PortOf(t, edge.name, coreSwitch.value);
      }
      rules := rules + [Rule(Dst(host.eth), [Port(outPort)], 2)];
      k := k + 1;
    }
  }

  method BuildStatic(t: Topology) returns (rt: map<nat, seq<Rule>>)
    requires WellFormed(t) && VlansServed(t)
    ensures PortsKnown(t) && ValidUp(t, StaticUp(t)) && Compiled(t, rt, CoreNames(t), StaticUp(t))
  {
    WellFormedLookups(t);
    StaticUpValid(t);
    var routingTable := Downward(t);
    ghost var down, up := routingTable, StaticUp(t);
    var j := 0;
    while j < |t.edges|
      invariant 0 <= j <= |t.edges| && UpDone(t, down, routingTable, up, j)
    {
      var rules := StaticEdgeRules(t, j);
      UpStep(t, down, routingTable, up, j);
      routingTable := Put(routingTable, t.edges[j].dpid, rules);
      j := j + 1;
    }
    rt := AddArpFlood(routingTable, t);
    FinishAllCores(t, down, routingTable, rt, up);
  }

  lemma StaticUpValid(t: Topology)
    requires VlansServed(t) && forall k, l :: 0 <= k < l < |t.hosts| ==> t.hosts[k].name != t.hosts[l].name
    ensures ValidUp(t, StaticUp(t))
  {
    forall k | 0 <= k < |t.hosts|
      ensures t.hosts[k].name in StaticUp(t) && IsCoreName(t, StaticUp(t)[t.hosts[k].name])
    {
      VlanCoreIsCore(t.cores, t.hosts[k].vlans[0]);
    }
  }

  /** The rules of one edge switch, every other host through the one core. */
  method DefaultEdgeRules(t: Topology, j: nat) returns (rules: seq<Rule>)
    requires PortsKnown(t) && |t.cores| > 0 && ValidUp(t, DefaultUp(t)) && j < |t.edges|
    ensures rules == UpRules(t, j, DefaultUp(t))
  {
    var edge := t.edges[j];
    rules := [];
    var k := 0;
    while k < |t.hosts|
      invariant 0 <= k <= |t.hosts| && rules == UpRules(t, j, DefaultUp(t))[..k]
    {
      var h := t.hosts[k];
      var outport;
      if h.name in edge.neighbors {
        outport := PortOf(t, edge.name, h.name);
      } else {
        outport := PortOf(t, edge.name, t.cores[0].name);
      }
      rules := rules + [Rule(Dst(h.eth), [Port(outport)], 2)];
      k := k + 1;
    }
  }

  lemma DefaultUpValid(t: Topology)
    requires |t.cores| > 0
    ensures ValidUp(t, DefaultUp(t))
  {
    assert t.cores[0].name == t.cores[0].name;
  }

  /** DefaultPolicy uses one core only: the others get no rules but the one that drops. */
  method BuildDefault(t: Topology) returns (rt: map<nat, seq<Rule>>)
    requires WellFormed(t)
    ensures PortsKnown(t) && ValidUp(t, DefaultUp(t)) && Compiled(t, rt, {t.cores[0].name}, DefaultUp(t))
  {
    WellFormedLookups(t);
    DefaultUpValid(t);
    var core := t.cores[0];
    var downward := CoreRules(t, 0);
    var routingTable := Put(map[], core.dpid, downward);
    ghost var down, up := routingTable, DefaultUp(t);
    assert CoreIds(t)[0] == core.dpid && CoreIds(t)[0] in CoreIds(t);
    var j := 0;
    while j < |t.edges|
      invariant 0 <= j <= |t.edges| && UpDone(t, down, routingTable, up, j)
    {
      var rules := DefaultEdgeRules(t, j);
      UpStep(t, down, routingTable, up, j);
      routingTable := Put(routingTable, t.edges[j].dpid, rules);
      j := j + 1;
    }
    rt := AddArpFlood(routingTable, t);
    FinishOneCore(t, down, routingTable, rt, up);
  }

  lemma FinishOneCore(t: Topology, down: map<nat, seq<Rule>>, half: map<nat, seq<Rule>>, rt: map<nat, seq<Rule>>, up: map<string, string>)
    requires WellFormed(t) && PortsKnown(t) && DistinctIds(t) && ValidUp(t, up) && UpDone(t, down, half, up, |t.edges|)
    requires down == map[t.cores[0].dpid := DownRules(t, 0)]
    requires forall d :: d in rt <==> d in half || d in CoreIds(t) || d in EdgeIds(t)
    requires forall d :: d in CoreIds(t) ==> Get(rt, d) == FloodedCore(t, half, d)
    requires forall j :: 0 <= j < |t.edges| ==> Get(rt, EdgeIds(t)[j]) == FloodedEdge(t, half, j)
    ensures Compiled(t, rt, {t.cores[0].name}, up)
  {
    hide UpRules, FloodedCore, FloodedEdge;
    UpFinished(t, down, half, up);
    OneCoreUsed(t, half);
    FinishTable(t, half, rt, {t.cores[0].name}, up);
  }

  lemma OneCoreUsed(t: Topology, half: map<nat, seq<Rule>>)
    requires WellFormed(t) && DistinctIds(t)
    requires forall d :: d in half <==> d == t.cores[0].dpid || d in EdgeIds(t)
    ensures forall i :: 0 <= i < |t.cores| ==> (CoreIds(t)[i] in half <==> t.cores[i].name == t.cores[0].name)
    ensures forall i :: 0 <= i < |t.cores| && t.cores[i].name == t.cores[0].name ==> i == 0
    ensures t.cores[0].dpid == CoreIds(t)[0] && CoreIds(t)[0] in CoreIds(t)
  {
    forall i | 0 <= i < |t.cores|
      ensures CoreIds(t)[i] in half <==> t.cores[i].name == t.cores[0].name
      ensures t.cores[i].name == t.cores[0].name ==> i == 0
    {
      assert CoreIds(t)[i] in CoreIds(t);
      IdsDisjoint(t, CoreIds(t)[i]);
    }
  }

  /** From the two halves and the flood rules to the finished table. */
  lemma FinishTable(t: Topology, half: map<nat, seq<Rule>>, rt: map<nat, seq<Rule>>, used: set<string>, up: map<string, string>)
    requires PortsKnown(t) && DistinctIds(t) && ValidUp(t, up)
    requires forall d :: d in rt <==> d in half || d in CoreIds(t) || d in EdgeIds(t)
    requires forall d :: d in half ==> d in CoreIds(t) || d in EdgeIds(t)
    requires forall d :: d in CoreIds(t) ==> Get(rt, d) == FloodedCore(t, half, d)
    requires forall j :: 0 <= j < |t.edges| ==> Get(rt, EdgeIds(t)[j]) == FloodedEdge(t, half, j)
    requires forall i :: 0 <= i < |t.cores| ==> (CoreIds(t)[i] in half <==> t.cores[i].name in used)
    requires forall i :: 0 <= i < |t.cores| && t.cores[i].name in used ==> half[CoreIds(t)[i]] == DownRules(t, i)
    requires forall j :: 0 <= j < |t.edges| ==> Get(half, EdgeIds(t)[j]) == UpRules(t, j, up)
    ensures Compiled(t, rt, used, up)
  {
    forall i | 0 <= i < |t.cores| ensures Get(rt, CoreIds(t)[i]) == CoreTable(t, i, t.cores[i].name in used) {
      assert CoreIds(t)[i] in CoreIds(t);
    }
  }
}
