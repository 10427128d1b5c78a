/**
 Putting the network together: the VLANs that the data centre gives to its cores
 (emulated-sdn-application/minidc/dc.py, writeConfig), and the network the controller then works with.
 */
module Datacenter {
  import opened Collections
  import opened FatTree
  import opened PortMap
  import Natural
  import N = Network
  import P = Policies
  import D = Delivery
  import R = AdaptiveRouting

  // ---------------------------------------------------------------- VLANs by residue

  function VlansOf(i: nat, n: nat, vlans: nat): seq<nat>
    requires n > 0
  {
    if vlans == 0 then []
    else VlansOf(i, n, vlans - 1) + if (vlans - 1) % n == i then [vlans - 1] else []
  }

  lemma {:induction false} VlansOfMember(i: nat, n: nat, vlans: nat, v: nat)
    requires n > 0
    ensures v in VlansOf(i, n, vlans) <==> v < vlans && v % n == i
  {
    if vlans > 0 {
      VlansOfMember(i, n, vlans - 1, v);
    }
  }

  /** The VLAN lists that `writeConfig` writes, one for each core switch. */
  method WriteVlans(numCores: nat, vlans: nat) returns (lists: seq<seq<nat>>)
    ensures |lists| == numCores
    ensures forall i :: 0 <= i < numCores ==> lists[i] == VlansOf(i, numCores, vlans)
  {
    lists := [];
    var coreNum := 0;
    while coreNum < numCores
      invariant 0 <= coreNum <= numCores && |lists| == coreNum
      invariant forall i :: 0 <= i < coreNum ==> lists[i] == VlansOf(i, numCores, vlans)
    {
      var v: seq<nat> := [];
      var vid := 0;
      while vid < vlans
        invariant 0 <= vid <= vlans && v == VlansOf(coreNum, numCores, vid)
      {
        if vid % numCores == coreNum {
          v := v + [vid];
        }
        vid := vid + 1;
      }
      lists := lists + [v];
      coreNum := coreNum + 1;
    }
  }

  /** The controller's cores carry the names `names` and the VLAN lists written for them, in any order. */
  ghost predicate VlansTold(cores: seq<N.CoreSwitch>, names: seq<string>, vlans: nat)
    requires names != []
  {
    && (forall c :: c in cores ==> exists i :: 0 <= i < |names| && IsCore(c, names, i, vlans))
    && (forall i :: 0 <= i < |names| ==> HasCore(cores, names, i, vlans))
  }

  ghost predicate HasCore(cores: seq<N.CoreSwitch>, names: seq<string>, i: nat, vlans: nat)
    requires i < |names|
  {
    exists c :: c in cores && IsCore(c, names, i, vlans)
  }

  predicate IsCore(c: N.CoreSwitch, names: seq<string>, i: nat, vlans: nat)
    requires i < |names|
  {
    c.name == names[i] && c.vlans == VlansOf(i, |names|, vlans)
  }

  /** Every VLAN belongs to exactly one core: whatever the order of the cores, `getVlanCore` finds the one with its residue. */
  lemma OneCorePerVlan(cores: seq<N.CoreSwitch>, names: seq<string>, vlans: nat, v: nat)
    requires names != [] && VlansTold(cores, names, vlans) && v < vlans
    ensures P.VlanCore(cores, v) == Some(names[v % |names|])
    ensures forall c :: c in cores && v in c.vlans ==> c.name == names[v % |names|]
  {
    forall c | c in cores && v in c.vlans ensures c.name == names[v % |names|] {
      var i: nat :| i < |names| && IsCore(c, names, i, vlans);
      VlansOfMember(i, |names|, vlans, v);
    }
    var k := v % |names|;
    assert HasCore(cores, names, k, vlans);
    var c :| c in cores && IsCore(c, names, k, vlans);
    VlansOfMember(k, |names|, vlans, v);
    OnlyCore(cores, v, names[k], c);
  }

  lemma {:induction false} OnlyCore(cores: seq<N.CoreSwitch>, v: nat, name: string, c: N.CoreSwitch)
    requires c in cores && v in c.vlans && forall d :: d in cores && v in d.vlans ==> d.name == name
    ensures P.VlanCore(cores, v) == Some(name)
  {
    if v !in cores[0].vlans {
      OnlyCore(cores[1..], v, name, c);
    }
  }

  /** With the VLANs so written, the static policy can be compiled for hosts in any of them. */
  lemma StaticServed(t: N.Topology, names: seq<string>, vlans: nat)
    requires names != [] && VlansTold(t.cores, names, vlans)
    requires forall h :: h in t.hosts ==> h.vlans != [] && h.vlans[0] < vlans
    ensures P.VlansServed(t)
  {
    forall k | 0 <= k < |t.hosts| ensures t.hosts[k].vlans != [] && P.VlanCore(t.cores, t.hosts[k].vlans[0]).Some? {
      assert t.hosts[k] in t.hosts;
      OneCorePerVlan(t.cores, names, vlans, t.hosts[k].vlans[0]);
    }
  }

  /** Under the static policy, packets for a host from another edge go through exactly the core with the residue of its first VLAN. */
  lemma StaticThroughVlanCore(t: N.Topology, rt: map<nat, seq<N.Rule>>, names: seq<string>, vlans: nat, l: nat, i: nat)
    requires N.WellFormed(t) && |t.edges| >= 2 && names != [] && VlansTold(t.cores, names, vlans)
    requires forall h :: h in t.hosts ==> h.vlans != [] && h.vlans[0] < vlans
    requires P.VlansServed(t) && P.PortsKnown(t) && P.ValidUp(t, P.StaticUp(t)) && P.Compiled(t, rt, P.CoreNames(t), P.StaticUp(t))
    requires l < |t.hosts| && i < |t.cores|
    ensures R.GoesThrough(t, rt, t.hosts[l].name, i) <==> t.cores[i].name == names[t.hosts[l].vlans[0] % |names|]
  {
    hide P.Compiled, N.Housed, N.Wired, VlansTold, R.GoesThrough;
    assert t.hosts[l] in t.hosts;
    OneCorePerVlan(t.cores, names, vlans, t.hosts[l].vlans[0]);
    D.AllCoresRun(t, rt, P.StaticUp(t));
    R.ThroughItsCore(t, rt, P.CoreNames(t), P.StaticUp(t), l, i);
  }

  // ---------------------------------------------------------------- the controller's network

  function CoreNames(cores: seq<N.CoreSwitch>): (r: seq<string>)
    ensures |r| == |cores|
  {
    seq(|cores|, i requires 0 <= i < |cores| => cores[i].name)
  }

  lemma OnceOnly(b: seq<string>, x: string)
    requires Distinct(b)
    ensures multiset(b)[x] <= 1
    decreases |b|
  {
    if b != [] {
      var n := |b| - 1;
      OnceOnly(b[..n], x);
      assert b == b[..n] + [b[n]];
    }
  }

  lemma SameDistinct(a: seq<string>, b: seq<string>)
    requires multiset(a) == multiset(b) && Distinct(b)
    ensures Distinct(a) && forall x :: x in a <==> x in b
  {
    forall x ensures x in a <==> x in b {
      assert x in a <==> x in multiset(a);
      assert x in b <==> x in multiset(b);
    }
    forall i, j | 0 <= i < j < |a| ensures a[i] != a[j] {
      OnceOnly(b, a[i]);
      assert a == a[..j] + a[j..];
      assert a[i] in a[..j] && a[j] in a[j..];
      assert multiset(a)[a[i]] == multiset(a[..j])[a[i]] + multiset(a[j..])[a[i]];
    }
  }

  /** Names, addresses and homes of the hosts: what reading the configuration gives (`ReadingGivesHosts`). */
  ghost predicate HostsRead(t: N.Topology)
  {
    && (forall k: nat :: k < |t.hosts| ==> N.HasHome(t, k))
    && (forall j, n :: 0 <= j < |t.edges| && n in t.edges[j].neighbors ==>
          exists k: nat :: N.Home(t, k, j) && t.hosts[k].name == n)
    && (forall k, l :: 0 <= k < l < |t.hosts| ==> t.hosts[k].eth != t.hosts[l].eth && t.hosts[k].name != t.hosts[l].name)
    && (forall s, p :: N.IsSwitch(t, s) && N.IsSwitch(t, p) && N.Dpid(t, s) == N.Dpid(t, p) ==> s == p)
  }

  // ---------------------------------------------------------------- reading the edge lines of the configuration

  /** The fields of a line once it is split: the switch, and the hosts that hang off it. */
  datatype HostField = HostField(name: string, eth: string, vlans: seq<nat>)
  datatype EdgeLine = EdgeLine(name: string, dpid: nat, hosts: seq<HostField>)

  function HostNames(line: EdgeLine): (names: seq<string>)
    ensures |names| == |line.hosts|
  {
    seq(|line.hosts|, k requires 0 <= k < |line.hosts| => line.hosts[k].name)
  }

  function EdgeFrom(line: EdgeLine): N.EdgeSwitch
  {
    N.EdgeSwitch(line.name, line.dpid, HostNames(line))
  }

  function HostFrom(line: EdgeLine, k: nat): N.Host
    requires k < |line.hosts|
  {
    N.Host(line.hosts[k].name, line.hosts[k].eth, line.name, line.hosts[k].vlans)
  }

  predicate Listed(cfg: seq<EdgeLine>, x: N.Host)
  {
    exists i, k :: 0 <= i < |cfg| && 0 <= k < |cfg[i].hosts| && x == HostFrom(cfg[i], k)
  }

  predicate IsLine(cfg: seq<EdgeLine>, e: N.EdgeSwitch)
  {
    exists i :: 0 <= i < |cfg| && e == EdgeFrom(cfg[i])
  }

  ghost predicate EdgesParsed(cfg: seq<EdgeLine>, s: map<string, N.EdgeSwitch>)
  {
    && (forall i :: 0 <= i < |cfg| ==> cfg[i].name in s)
    && (forall e :: e in s ==> s[e].name == e && IsLine(cfg, s[e]))
  }

  ghost predicate HostsParsed(cfg: seq<EdgeLine>, h: map<string, N.Host>)
  {
    && (forall x: N.Host :: Listed(cfg, x) ==> x.name in h)
    && (forall n :: n in h ==> h[n].name == n && Listed(cfg, h[n]))
  }

  method ParseEdges(cfg: seq<EdgeLine>) returns (s: map<string, N.EdgeSwitch>)
    ensures EdgesParsed(cfg, s)
  {
    s := map[];
    for i := 0 to |cfg|
      invariant EdgesParsed(cfg[..i], s)
    {
      var neighbors: seq<string> := [];
      for k := 0 to |cfg[i].hosts|
        invariant neighbors == HostNames(cfg[i])[..k]
      {
        neighbors := neighbors + [cfg[i].hosts[k].name];
      }
      assert neighbors == HostNames(cfg[i]);
      EdgeAdded(cfg, i, s);
      s := s[cfg[i].name := N.EdgeSwitch(cfg[i].name, cfg[i].dpid, neighbors)];
    }
    assert cfg[..|cfg|] == cfg;
  }

  lemma EdgeAdded(cfg: seq<EdgeLine>, i: nat, s: map<string, N.EdgeSwitch>)
    requires i < |cfg| && EdgesParsed(cfg[..i], s)
    ensures EdgesParsed(cfg[..i + 1], s[cfg[i].name := EdgeFrom(cfg[i])])
  {
    var t := s[cfg[i].name := EdgeFrom(cfg[i])];
    forall e | e in t ensures t[e].name == e && IsLine(cfg[..i + 1], t[e]) {
      if e == cfg[i].name {
        assert t[e] == EdgeFrom(cfg[..i + 1][i]);
      } else {
        var j :| 0 <= j < i && s[e] == EdgeFrom(cfg[..i][j]);
        assert t[e] == EdgeFrom(cfg[..i + 1][j]);
      }
    }
  }

  /** The hosts of the lines before number `i`, and the first `m` of line `i`, have been entered. */
  ghost predicate HostsSoFar(cfg: seq<EdgeLine>, h: map<string, N.Host>, i: nat, m: nat)
  {
    && (forall j, k :: 0 <= j < |cfg| && 0 <= k < |cfg[j].hosts| && (j < i || (j == i && k < m)) ==> cfg[j].hosts[k].name in h)
    && (forall n :: n in h ==> h[n].name == n && Listed(cfg, h[n]))
  }

  method ParseHosts(cfg: seq<EdgeLine>) returns (h: map<string, N.Host>)
    ensures HostsParsed(cfg, h)
  {
    h := map[];
    for i := 0 to |cfg|
      invariant HostsSoFar(cfg, h, i, 0)
    {
      for k := 0 to |cfg[i].hosts|
        invariant HostsSoFar(cfg, h, i, k)
      {
        assert Listed(cfg, HostFrom(cfg[i], k));
        var name, eth, vlans := cfg[i].hosts[k].name, cfg[i].hosts[k].eth, cfg[i].hosts[k].vlans;
        h := h[name := N.Host(name, eth, cfg[i].name, vlans)];
      }
    }
    forall x: N.Host | Listed(cfg, x) ensures x.name in h {
      var i, k := FieldOf(cfg, x);
    }
  }

  /** Each host is listed once, by one switch, with an address of its own. */
  ghost predicate HostsOnce(cfg: seq<EdgeLine>)
  {
    && (forall i, j :: 0 <= i < j < |cfg| ==> cfg[i].name != cfg[j].name)
    && (forall x: N.Host, y: N.Host :: Listed(cfg, x) && Listed(cfg, y) && (x.name == y.name || x.eth == y.eth) ==> x == y)
  }

  /** The values of the dictionaries, in any order. */
  ghost predicate ValuesOf(t: N.Topology, s: map<string, N.EdgeSwitch>, h: map<string, N.Host>)
  {
    && Distinct(t.hosts)
    && (forall e :: e in t.edges <==> e.name in s && s[e.name] == e)
    && (forall x :: x in t.hosts <==> x.name in h && h[x.name] == x)
  }

  lemma LineOf(cfg: seq<EdgeLine>, e: N.EdgeSwitch) returns (i: nat)
    requires IsLine(cfg, e)
    ensures i < |cfg| && e == EdgeFrom(cfg[i])
  {
    i :| 0 <= i < |cfg| && e == EdgeFrom(cfg[i]);
  }

  lemma FieldOf(cfg: seq<EdgeLine>, x: N.Host) returns (i: nat, k: nat)
    requires Listed(cfg, x)
    ensures i < |cfg| && k < |cfg[i].hosts| && x == HostFrom(cfg[i], k) && x.name in HostNames(cfg[i])
  {
    i, k :| 0 <= i < |cfg| && 0 <= k < |cfg[i].hosts| && x == HostFrom(cfg[i], k);
    assert HostNames(cfg[i])[k] == x.name;
  }

  /** The line about a switch is what is known of it. */
  lemma EdgeOfLine(t: N.Topology, cfg: seq<EdgeLine>, s: map<string, N.EdgeSwitch>, h: map<string, N.Host>, i: nat) returns (j: nat)
    requires EdgesParsed(cfg, s) && HostsOnce(cfg) && ValuesOf(t, s, h) && i < |cfg|
    ensures j < |t.edges| && t.edges[j] == EdgeFrom(cfg[i])
  {
    hide IsLine, Listed;
    var k := LineOf(cfg, s[cfg[i].name]);
    assert cfg[k].name == cfg[i].name;
    assert EdgeFrom(cfg[i]) in t.edges;
    j :| 0 <= j < |t.edges| && t.edges[j] == EdgeFrom(cfg[i]);
  }

  lemma HostOfEdge(t: N.Topology, cfg: seq<EdgeLine>, s: map<string, N.EdgeSwitch>, h: map<string, N.Host>, j: nat, n: string) returns (k: nat)
    requires EdgesParsed(cfg, s) && HostsParsed(cfg, h) && HostsOnce(cfg) && ValuesOf(t, s, h)
    requires j < |t.edges| && n in t.edges[j].neighbors
    ensures k < |t.hosts| && t.hosts[k].name == n && t.hosts[k].switch == t.edges[j].name
  {
    assert t.edges[j] in t.edges;
    var x := HostOfLine(cfg, t.edges[j], n);
    hide IsLine, Listed;
    assert x in t.hosts;
    k :| 0 <= k < |t.hosts| && t.hosts[k] == x;
  }

  lemma HostOfLine(cfg: seq<EdgeLine>, e: N.EdgeSwitch, n: string) returns (x: N.Host)
    requires IsLine(cfg, e) && n in e.neighbors
    ensures Listed(cfg, x) && x.name == n && x.switch == e.name
  {
    var i := LineOf(cfg, e);
    var m :| 0 <= m < |cfg[i].hosts| && HostNames(cfg[i])[m] == n;
    x := HostFrom(cfg[i], m);
  }

  lemma HostHasHome(t: N.Topology, cfg: seq<EdgeLine>, s: map<string, N.EdgeSwitch>, h: map<string, N.Host>, k: nat)
    requires EdgesParsed(cfg, s) && HostsParsed(cfg, h) && HostsOnce(cfg) && ValuesOf(t, s, h) && k < |t.hosts|
    ensures N.HasHome(t, k)
  {
    hide IsLine, Listed;
    assert t.hosts[k] in t.hosts;
    var i, m := FieldOf(cfg, t.hosts[k]);
    var j := EdgeOfLine(t, cfg, s, h, i);
    assert N.Home(t, k, j);
  }

  /** So the hosts that the controller knows are those that hang off its edge switches. */
  lemma ReadingGivesHosts(t: N.Topology, cfg: seq<EdgeLine>, s: map<string, N.EdgeSwitch>, h: map<string, N.Host>)
    requires EdgesParsed(cfg, s) && HostsParsed(cfg, h) && HostsOnce(cfg) && ValuesOf(t, s, h)
    requires forall s, p :: N.IsSwitch(t, s) && N.IsSwitch(t, p) && N.Dpid(t, s) == N.Dpid(t, p) ==> s == p
    ensures HostsRead(t)
  {
    hide IsLine, Listed;
    forall k: nat | k < |t.hosts| ensures N.HasHome(t, k) {
      HostHasHome(t, cfg, s, h, k);
    }
    forall j, n | 0 <= j < |t.edges| && n in t.edges[j].neighbors ensures exists k: nat :: N.Home(t, k, j) && t.hosts[k].name == n {
      var k := HostOfEdge(t, cfg, s, h, j, n);
      assert N.Home(t, k, j);
    }
    forall k, l | 0 <= k < l < |t.hosts| ensures t.hosts[k].eth != t.hosts[l].eth && t.hosts[k].name != t.hosts[l].name {
      assert t.hosts[k] in t.hosts && t.hosts[l] in t.hosts;
    }
  }

  /** What a line says of its switch is known of it. */
  lemma LineIsRead(t: N.Topology, cfg: seq<EdgeLine>, s: map<string, N.EdgeSwitch>, h: map<string, N.Host>, i: nat) returns (j: nat)
    requires EdgesParsed(cfg, s) && HostsOnce(cfg) && ValuesOf(t, s, h) && i < |cfg|
    ensures j < |t.edges| && t.edges[j].name == cfg[i].name && t.edges[j].dpid == cfg[i].dpid
    ensures |t.edges[j].neighbors| == |cfg[i].hosts|
    ensures forall k :: 0 <= k < |cfg[i].hosts| ==> t.edges[j].neighbors[k] == cfg[i].hosts[k].name
  {
    j := EdgeOfLine(t, cfg, s, h, i);
  }

  /** And what it says of each host is known of that. */
  lemma FieldIsRead(t: N.Topology, cfg: seq<EdgeLine>, s: map<string, N.EdgeSwitch>, h: map<string, N.Host>, i: nat, k: nat) returns (l: nat)
    requires HostsParsed(cfg, h) && HostsOnce(cfg) && ValuesOf(t, s, h) && i < |cfg| && k < |cfg[i].hosts|
    ensures var f := cfg[i].hosts[k];
      && l < |t.hosts| && t.hosts[l].name == f.name && t.hosts[l].eth == f.eth
      && t.hosts[l].switch == cfg[i].name && t.hosts[l].vlans == f.vlans
  {
    var x := HostFrom(cfg[i], k);
    assert Listed(cfg, x);
    assert x in t.hosts;
    l :| 0 <= l < |t.hosts| && t.hosts[l] == x;
  }

  /** The controller's view of the network built with `n` edge switches. */
  ghost predicate View(t: N.Topology, nodes: map<string, map<nat, string>>, n: nat, hostsPerEdge: nat)
  {
    && n >= 2 && HostsRead(t)
    && Told(n, hostsPerEdge, CoreNames(t.cores), t.edges)
    && (forall c :: c in CoreNames(t.cores) ==> Entry(t.ports, nodes, c, Natural.NaturalSort(EdgeNames(t.edges))))
    && (forall j :: 0 <= j < |t.edges| ==> Entry(t.ports, nodes, t.edges[j].name, EdgeList(CoreNames(t.cores), t.edges[j])))
  }

  lemma SwitchesKnown(t: N.Topology, nodes: map<string, map<nat, string>>, n: nat, hostsPerEdge: nat)
    requires View(t, nodes, n, hostsPerEdge)
    ensures Distinct(CoreNames(t.cores)) && Distinct(EdgeNames(t.edges)) && |t.cores| > 0
    ensures forall c :: c in CoreNames(t.cores) ==> c !in EdgeNames(t.edges)
    ensures forall c :: c in CoreNames(t.cores) <==> c in CoreSwitches(n, hostsPerEdge)
    ensures forall e :: e in EdgeNames(t.edges) <==> e in EdgeSwitches(n, hostsPerEdge)
  {
    var cs, es := CoreSwitches(n, hostsPerEdge), EdgeSwitches(n, hostsPerEdge);
    SwitchNamesSeparate(n, FirstSwitch(n, hostsPerEdge));
    SameDistinct(CoreNames(t.cores), cs);
    SameDistinct(EdgeNames(t.edges), es);
    assert cs[0] in cs;
  }

  /** Each edge switch's list is free of repetitions, holds the cores and its hosts, and they differ. */
  lemma EdgeKnown(t: N.Topology, nodes: map<string, map<nat, string>>, n: nat, hostsPerEdge: nat, j: nat)
    requires View(t, nodes, n, hostsPerEdge) && j < |t.edges|
    ensures var list := EdgeList(CoreNames(t.cores), t.edges[j]);
      && Distinct(list) && Distinct(t.edges[j].neighbors)
      && (forall x :: x in list <==> x in CoreNames(t.cores) || x in t.edges[j].neighbors)
      && (forall x :: x in t.edges[j].neighbors ==> x !in CoreNames(t.cores))
  {
    var e, cores := t.edges[j], CoreNames(t.cores);
    var k := EdgeIndex(t, nodes, n, hostsPerEdge, j);
    var hosts := HostsAt(k, n, NumHosts(n, hostsPerEdge));
    EdgeListIsReal(n, hostsPerEdge, cores, t.edges, e, k);
    HostsAtAscending(k, n, NumHosts(n, hostsPerEdge));
    SameDistinct(e.neighbors, hosts);
    HostsAreNotCores(n, hostsPerEdge, hosts);
    SwitchesKnown(t, nodes, n, hostsPerEdge);
  }

  lemma EdgeIndex(t: N.Topology, nodes: map<string, map<nat, string>>, n: nat, hostsPerEdge: nat, j: nat) returns (k: nat)
    requires View(t, nodes, n, hostsPerEdge) && j < |t.edges|
    ensures k < n && EdgeSwitches(n, hostsPerEdge)[k] == t.edges[j].name
    ensures multiset(t.edges[j].neighbors) == multiset(HostsAt(k, n, NumHosts(n, hostsPerEdge)))
  {
    SwitchesKnown(t, nodes, n, hostsPerEdge);
    assert EdgeNames(t.edges)[j] in EdgeNames(t.edges);
    k :| 0 <= k < n && EdgeSwitches(n, hostsPerEdge)[k] == t.edges[j].name;
  }

  lemma HostsAreNotCores(n: nat, hostsPerEdge: nat, hosts: seq<string>)
    requires n > 0 && forall x :: x in hosts ==> exists g: nat :: x == Natural.Numbered('h', g)
    ensures forall x :: x in hosts ==> x !in CoreSwitches(n, hostsPerEdge)
  {
    SwitchNamesSeparate(n, FirstSwitch(n, hostsPerEdge));
    HostsApart(CoreSwitches(n, hostsPerEdge), EdgeSwitches(n, hostsPerEdge), hosts);
  }

  lemma NumbersInjective(portOf: map<string, nat>, nodeAt: map<nat, string>, list: seq<string>, x: string, y: string)
    requires Numbers(portOf, nodeAt, list) && x in portOf && y in portOf && portOf[x] == portOf[y]
    ensures x == y
  {
  }

  lemma PortsWired(t: N.Topology, nodes: map<string, map<nat, string>>, n: nat, hostsPerEdge: nat)
    requires View(t, nodes, n, hostsPerEdge)
    ensures N.Wired(t)
  {
    SwitchesKnown(t, nodes, n, hostsPerEdge);
    forall s, p | N.Linked(t, s, p) ensures N.HasPort(t, s, p) {
      LinkHasPort(t, nodes, n, hostsPerEdge, s, p);
    }
    forall s, p, q | N.Linked(t, s, p) && N.Linked(t, s, q) && N.PortTo(t, s, p) == N.PortTo(t, s, q) ensures p == q {
      LinkHasPort(t, nodes, n, hostsPerEdge, s, p);
      LinkHasPort(t, nodes, n, hostsPerEdge, s, q);
      PlacesNamed(t, nodes, n, hostsPerEdge, s, p, q);
    }
  }

  lemma LinkHasPort(t: N.Topology, nodes: map<string, map<nat, string>>, n: nat, hostsPerEdge: nat, s: N.Place, p: N.Place)
    requires View(t, nodes, n, hostsPerEdge) && N.Linked(t, s, p)
    ensures N.HasPort(t, s, p)
    ensures exists list :: Entry(t.ports, nodes, N.Name(t, s), list)
  {
    if s.Core? {
      var list := Natural.NaturalSort(EdgeNames(t.edges));
      assert CoreNames(t.cores)[s.i] in CoreNames(t.cores);
      assert Entry(t.ports, nodes, N.Name(t, s), list);
      assert EdgeNames(t.edges)[p.j] in multiset(EdgeNames(t.edges));
      assert N.Name(t, p) in multiset(list);
    } else {
      var list := EdgeList(CoreNames(t.cores), t.edges[s.j]);
      assert Entry(t.ports, nodes, N.Name(t, s), list);
      EdgeKnown(t, nodes, n, hostsPerEdge, s.j);
      if p.Core? {
        assert CoreNames(t.cores)[p.i] in CoreNames(t.cores);
      }
    }
  }

  lemma PlacesNamed(t: N.Topology, nodes: map<string, map<nat, string>>, n: nat, hostsPerEdge: nat, s: N.Place, p: N.Place, q: N.Place)
    requires View(t, nodes, n, hostsPerEdge) && N.Linked(t, s, p) && N.Linked(t, s, q)
    requires N.HasPort(t, s, p) && N.HasPort(t, s, q) && N.PortTo(t, s, p) == N.PortTo(t, s, q)
    requires exists list :: Entry(t.ports, nodes, N.Name(t, s), list)
    ensures p == q
  {
    var list :| Entry(t.ports, nodes, N.Name(t, s), list);
    NumbersInjective(t.ports[N.Name(t, s)], nodes[N.Name(t, s)], list, N.Name(t, p), N.Name(t, q));
    SwitchesKnown(t, nodes, n, hostsPerEdge);
    if s.Core? {
      assert EdgeNames(t.edges)[p.j] == EdgeNames(t.edges)[q.j];
    } else {
      EdgeKnown(t, nodes, n, hostsPerEdge, s.j);
      if p.Core? {
        assert CoreNames(t.cores)[p.i] in CoreNames(t.cores);
      }
      if q.Core? {
        assert CoreNames(t.cores)[q.i] in CoreNames(t.cores);
      }
      if p.Core? && q.Core? {
        assert CoreNames(t.cores)[p.i] == CoreNames(t.cores)[q.i];
      }
    }
  }

  /**
   The network the controller works with is well formed, for every size: what is proved of well-formed
   networks holds of every fat tree that the emulator builds.
   */
  lemma NetworkWellFormed(t: N.Topology, nodes: map<string, map<nat, string>>, n: nat, hostsPerEdge: nat)
    requires View(t, nodes, n, hostsPerEdge)
    ensures N.WellFormed(t)
  {
    PortsWired(t, nodes, n, hostsPerEdge);
    SwitchesKnown(t, nodes, n, hostsPerEdge);
    forall i, j | 0 <= i < j < |t.cores| ensures t.cores[i].name != t.cores[j].name {
      assert CoreNames(t.cores)[i] != CoreNames(t.cores)[j];
    }
    forall i, j | 0 <= i < j < |t.edges| ensures t.edges[i].name != t.edges[j].name {
      assert EdgeNames(t.edges)[i] != EdgeNames(t.edges)[j];
    }
    forall j: nat | j < |t.edges| ensures Distinct(t.edges[j].neighbors) {
      EdgeKnown(t, nodes, n, hostsPerEdge, j);
    }
  }
}
