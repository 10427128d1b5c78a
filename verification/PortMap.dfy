/**
 The port map that the controller infers from names alone
 (emulated-sdn-application/minidc/controller/topo.py, setPorts), and why it is right: it equals the
 ports that building the network really assigned.
 */
module PortMap {
  import opened Collections
  import opened Natural
  import opened FatTree
  import N = Network

  /** `portOf` and `nodeAt`, the two halves of one entry of the controller's dictionary, number `list` from 1 on. */
  ghost predicate Numbers(portOf: map<string, nat>, nodeAt: map<nat, string>, list: seq<string>)
  {
    && (forall x :: x in portOf <==> x in list)
    && (forall x :: x in portOf ==> 1 <= portOf[x] <= |list| && list[portOf[x] - 1] == x)
    && (forall p :: p in nodeAt <==> 1 <= p <= |list|)
    && (forall p :: p in nodeAt ==> nodeAt[p] == list[p - 1])
  }

  lemma NumberNext(portOf: map<string, nat>, nodeAt: map<nat, string>, list: seq<string>, x: string)
    requires Numbers(portOf, nodeAt, list)
    ensures Numbers(portOf[x := |list| + 1], nodeAt[|list| + 1 := x], list + [x])
  {
  }

  function EdgeNames(edges: seq<N.EdgeSwitch>): (r: seq<string>)
    ensures |r| == |edges|
  {
    seq(|edges|, j requires 0 <= j < |edges| => edges[j].name)
  }

  /** One `for` loop of `setPorts`: goes on numbering with the nodes of `list`. */
  method NumberFrom(portOf: map<string, nat>, nodeAt: map<nat, string>, done: nat, ghost before: seq<string>, list: seq<string>)
    returns (portOf': map<string, nat>, nodeAt': map<nat, string>)
    requires Numbers(portOf, nodeAt, before) && done == |before|
    ensures Numbers(portOf', nodeAt', before + list)
  {
    portOf', nodeAt' := portOf, nodeAt;
    var i := done + 1;
    var k := 0;
    while k < |list|
      invariant 0 <= k <= |list| && i == done + k + 1
      invariant Numbers(portOf', nodeAt', before + list[..k])
    {
      NumberNext(portOf', nodeAt', before + list[..k], list[k]);
      assert before + list[..k + 1] == before + list[..k] + [list[k]];
      nodeAt' := nodeAt'[i := list[k]];
      portOf' := portOf'[list[k] := i];
      i := i + 1;
      k := k + 1;
    }
    assert list[..k] == list;
  }

  /** What the controller's dictionary says for a switch whose ports lead to `list` in order. */
  ghost predicate Entry(ports: map<string, map<string, nat>>, nodes: map<string, map<nat, string>>, s: string, list: seq<string>)
  {
    s in ports && s in nodes && Numbers(ports[s], nodes[s], list)
  }

  /** The neighbours of an edge switch, in the order the controller numbers them. */
  function EdgeList(cores: seq<string>, e: N.EdgeSwitch): seq<string>
  {
    NaturalSort(cores) + NaturalSort(e.neighbors)
  }

  method NumberCore(edgeNames: seq<string>) returns (portOf: map<string, nat>, nodeAt: map<nat, string>)
    ensures Numbers(portOf, nodeAt, NaturalSort(edgeNames))
  {
    portOf, nodeAt := NumberFrom(map[], map[], 0, [], NaturalSort(edgeNames));
    assert [] + NaturalSort(edgeNames) == NaturalSort(edgeNames);
  }

  method NumberEdge(cores: seq<string>, e: N.EdgeSwitch) returns (portOf: map<string, nat>, nodeAt: map<nat, string>)
    ensures Numbers(portOf, nodeAt, EdgeList(cores, e))
  {
    portOf, nodeAt := NumberCore(cores);
    portOf, nodeAt := NumberFrom(portOf, nodeAt, |NaturalSort(cores)|, NaturalSort(cores), NaturalSort(e.neighbors));
  }

  method SetPorts(cores: seq<string>, edges: seq<N.EdgeSwitch>)
    returns (ports: map<string, map<string, nat>>, nodes: map<string, map<nat, string>>)
    requires forall j, k :: 0 <= j < k < |edges| ==> edges[j].name != edges[k].name
    requires forall c, j :: c in cores && 0 <= j < |edges| ==> c != edges[j].name
    ensures forall c :: c in cores ==> Entry(ports, nodes, c, NaturalSort(EdgeNames(edges)))
    ensures forall j :: 0 <= j < |edges| ==> Entry(ports, nodes, edges[j].name, EdgeList(cores, edges[j]))
  {
    ports, nodes := SetCorePorts(cores, EdgeNames(edges));
    ghost var corePorts, coreNodes := ports, nodes;
    ports, nodes := SetEdgePorts(cores, edges, ports, nodes);
    forall c | c in cores ensures Entry(ports, nodes, c, NaturalSort(EdgeNames(edges))) {
      assert Entry(corePorts, coreNodes, c, NaturalSort(EdgeNames(edges)));
    }
  }

  method SetCorePorts(cores: seq<string>, edgeNames: seq<string>)
    returns (ports: map<string, map<string, nat>>, nodes: map<string, map<nat, string>>)
    ensures forall c :: c in cores ==> Entry(ports, nodes, c, NaturalSort(edgeNames))
  {
    ports, nodes := map[], map[];
    var i := 0;
    while i < |cores|
      invariant 0 <= i <= |cores|
      invariant forall k :: 0 <= k < i ==> Entry(ports, nodes, cores[k], NaturalSort(edgeNames))
    {
      var portOf, nodeAt := NumberCore(edgeNames);
      ports, nodes := ports[cores[i] := portOf], nodes[cores[i] := nodeAt];
      i := i + 1;
    }
  }

  method SetEdgePorts(cores: seq<string>, edges: seq<N.EdgeSwitch>,
                      ports0: map<string, map<string, nat>>, nodes0: map<string, map<nat, string>>)
    returns (ports: map<string, map<string, nat>>, nodes: map<string, map<nat, string>>)
    requires forall j, k :: 0 <= j < k < |edges| ==> edges[j].name != edges[k].name
    ensures forall j :: 0 <= j < |edges| ==> Entry(ports, nodes, edges[j].name, EdgeList(cores, edges[j]))
    ensures Untouched(ports0, nodes0, ports, nodes, edges)
  {
    ports, nodes := ports0, nodes0;
    var j := 0;
    while j < |edges|
      invariant 0 <= j <= |edges|
      invariant EdgesSet(cores, edges, ports, nodes, j) && Untouched(ports0, nodes0, ports, nodes, edges)
    {
      ghost var before, beforeNodes := ports, nodes;
      ports, nodes := SetEdgePort(cores, edges[j], ports, nodes, EdgeList(cores, edges[j]));
      EdgeSet(cores, edges, before, beforeNodes, ports, nodes, j);
      StillUntouched(ports0, nodes0, before, beforeNodes, ports, nodes, edges, j);
      j := j + 1;
    }
  }

  ghost predicate EdgesSet(cores: seq<string>, edges: seq<N.EdgeSwitch>, ports: map<string, map<string, nat>>,
                           nodes: map<string, map<nat, string>>, j: nat)
    requires j <= |edges|
  {
    forall k :: 0 <= k < j ==> Entry(ports, nodes, edges[k].name, EdgeList(cores, edges[k]))
  }

  /** Nothing but the entry of `x` has been set. */
  ghost predicate OneSet(before: map<string, map<string, nat>>, beforeNodes: map<string, map<nat, string>>,
                         ports: map<string, map<string, nat>>, nodes: map<string, map<nat, string>>, x: string)
  {
    forall y, l :: y != x && Entry(before, beforeNodes, y, l) ==> Entry(ports, nodes, y, l)
  }

  lemma EdgeSet(cores: seq<string>, edges: seq<N.EdgeSwitch>, before: map<string, map<string, nat>>,
                beforeNodes: map<string, map<nat, string>>, ports: map<string, map<string, nat>>,
                nodes: map<string, map<nat, string>>, j: nat)
    requires j < |edges| && forall j, k :: 0 <= j < k < |edges| ==> edges[j].name != edges[k].name
    requires EdgesSet(cores, edges, before, beforeNodes, j) && OneSet(before, beforeNodes, ports, nodes, edges[j].name)
    requires Entry(ports, nodes, edges[j].name, EdgeList(cores, edges[j]))
    ensures EdgesSet(cores, edges, ports, nodes, j + 1)
  {
    forall k | 0 <= k < j ensures Entry(ports, nodes, edges[k].name, EdgeList(cores, edges[k])) {
      assert Entry(before, beforeNodes, edges[k].name, EdgeList(cores, edges[k]));
      assert edges[k].name != edges[j].name;
    }
  }

  lemma StillUntouched(ports0: map<string, map<string, nat>>, nodes0: map<string, map<nat, string>>,
                       before: map<string, map<string, nat>>, beforeNodes: map<string, map<nat, string>>,
                       ports: map<string, map<string, nat>>, nodes: map<string, map<nat, string>>, edges: seq<N.EdgeSwitch>, j: nat)
    requires j < |edges| && Untouched(ports0, nodes0, before, beforeNodes, edges)
    requires OneSet(before, beforeNodes, ports, nodes, edges[j].name)
    ensures Untouched(ports0, nodes0, ports, nodes, edges)
  {
    forall s, list | Entry(ports0, nodes0, s, list) && (forall k :: 0 <= k < |edges| ==> edges[k].name != s)
      ensures Entry(ports, nodes, s, list)
    {
      assert Entry(before, beforeNodes, s, list);
      assert edges[j].name != s;
    }
  }

  method SetEdgePort(cores: seq<string>, e: N.EdgeSwitch, ports0: map<string, map<string, nat>>,
                     nodes0: map<string, map<nat, string>>, ghost list: seq<string>)
    returns (ports: map<string, map<string, nat>>, nodes: map<string, map<nat, string>>)
    requires list == EdgeList(cores, e)
    ensures Entry(ports, nodes, e.name, list)
    ensures OneSet(ports0, nodes0, ports, nodes, e.name)
  {
    var portOf, nodeAt := NumberEdge(cores, e);
    EntriesKept(ports0, nodes0, e.name, portOf, nodeAt);
    ports, nodes := ports0[e.name := portOf], nodes0[e.name := nodeAt];
  }

  ghost predicate Untouched(ports0: map<string, map<string, nat>>, nodes0: map<string, map<nat, string>>,
                            ports: map<string, map<string, nat>>, nodes: map<string, map<nat, string>>, edges: seq<N.EdgeSwitch>)
  {
    forall s, list :: Entry(ports0, nodes0, s, list) && (forall k :: 0 <= k < |edges| ==> edges[k].name != s) ==>
      Entry(ports, nodes, s, list)
  }

  lemma EntriesKept(ports: map<string, map<string, nat>>, nodes: map<string, map<nat, string>>, s: string,
                    portOf: map<string, nat>, nodeAt: map<nat, string>)
    ensures forall x, list :: x != s && Entry(ports, nodes, x, list) ==> Entry(ports[s := portOf], nodes[s := nodeAt], x, list)
  {
  }

  // ---------------------------------------------------------------- the guess is right

  /** The number of hosts of a network with `n` edge switches, and its two lists of switches. */
  function NumHosts(n: nat, hostsPerEdge: nat): nat { n * hostsPerEdge }

  function CoreSwitches(n: nat, hostsPerEdge: nat): seq<string>
    requires n > 0
  {
    Names('s', n + FirstSwitch(n, hostsPerEdge), n - 1)
  }

  function EdgeSwitches(n: nat, hostsPerEdge: nat): seq<string>
  {
    Names('s', FirstSwitch(n, hostsPerEdge), n)
  }

  /** All links of the built network, in order, and its switches: what the constructor leaves. */
  function BuiltLinks(n: nat, hostsPerEdge: nat): seq<Link>
    requires n > 0
  {
    SwitchLinks(CoreSwitches(n, hostsPerEdge), EdgeSwitches(n, hostsPerEdge))
    + HostLinks(EdgeSwitches(n, hostsPerEdge), NumHosts(n, hostsPerEdge))
  }

  ghost function BuiltPorts(n: nat, hostsPerEdge: nat): Ports<string>
    requires n > 0
  {
    PortsAfter(BuiltLinks(n, hostsPerEdge), Switches(n, hostsPerEdge))
  }

  function Switches(n: nat, hostsPerEdge: nat): set<string>
    requires n > 0
  {
    set s | s in CoreSwitches(n, hostsPerEdge) + EdgeSwitches(n, hostsPerEdge)
  }

  /** A controller that was told the names of the switches and the hosts at each, in any order. */
  ghost predicate Told(n: nat, hostsPerEdge: nat, cores: seq<string>, edges: seq<N.EdgeSwitch>)
    requires n > 0
  {
    && multiset(cores) == multiset(CoreSwitches(n, hostsPerEdge))
    && multiset(EdgeNames(edges)) == multiset(EdgeSwitches(n, hostsPerEdge))
    && (forall e, j :: e in edges && 0 <= j < n && e.name == EdgeSwitches(n, hostsPerEdge)[j] ==>
          multiset(e.neighbors) == multiset(HostsAt(j, n, NumHosts(n, hostsPerEdge))))
  }

  /** The dictionary entry and the real row of ports say the same, in both directions. */
  ghost predicate Agree(portOf: map<string, nat>, nodeAt: map<nat, string>, row: PortRow<string>)
  {
    && (forall x :: x in portOf ==> portOf[x] in row && row[portOf[x]].0 == x)
    && (forall p :: p in row ==> row[p].0 in portOf && portOf[row[p].0] == p)
    && (forall p :: p in nodeAt <==> p in row)
    && (forall p :: p in nodeAt ==> nodeAt[p] == row[p].0)
  }

  lemma ListedRowsAgree(portOf: map<string, nat>, nodeAt: map<nat, string>, list: seq<string>, row: PortRow<string>)
    requires Distinct(list) && Lists(row, list, 1) && Numbers(portOf, nodeAt, list)
    ensures Agree(portOf, nodeAt, row)
  {
    forall p | p in row ensures row[p].0 in portOf && portOf[row[p].0] == p {
      assert list[p - 1] in list;
    }
  }

  lemma {:induction false} HostsAtAscending(j: nat, n: nat, m: nat)
    requires n > 0
    ensures forall x :: x in HostsAt(j, n, m) ==> exists g: nat :: g <= m && x == Numbered('h', g)
    ensures Ascending(HostsAt(j, n, m)) && Distinct(HostsAt(j, n, m))
  {
    if m > 0 {
      HostsAtAscending(j, n, m - 1);
      var before := HostsAt(j, n, m - 1);
      forall x | x in before ensures x != Numbered('h', m) && NaturalLeq(x, Numbered('h', m)) && !NaturalLeq(Numbered('h', m), x) {
        var g: nat :| g <= m - 1 && x == Numbered('h', g);
        NumberedOrder('h', g, m);
        NumberedOrder('h', m, g);
      }
    }
  }

  lemma LinkEndsDiffer<T>(cores: seq<T>, edges: seq<T>, host: nat -> T, m: nat)
    requires Apart(cores, edges, host)
    ensures forall l :: l in SwitchLinks(cores, edges) + LinksTo(edges, host, m) ==> l.0 != l.1
  {
    SwitchLinkEnds(cores, edges);
    HostLinkEnds(edges, host, m);
    forall l | l in LinksTo(edges, host, m) ensures l.0 != l.1 {
      var h: nat :| l.1 == host(h);
    }
  }

  lemma {:induction false} SwitchLinkEnds<T>(cores: seq<T>, edges: seq<T>)
    ensures forall l :: l in SwitchLinks(cores, edges) ==> l.0 in cores && l.1 in edges
  {
    if cores != [] {
      SwitchLinkEnds(cores[..|cores| - 1], edges);
    }
  }

  lemma {:induction false} HostLinkEnds<T>(edges: seq<T>, host: nat -> T, m: nat)
    requires edges != []
    ensures forall l :: l in LinksTo(edges, host, m) ==> l.0 in edges && exists h: nat :: l.1 == host(h)
  {
    if m > 0 {
      HostLinkEnds(edges, host, m - 1);
    }
  }

  /**
   The controller's guess equals the ports really assigned, at every switch, for every size of network
   and whatever order the names come in: for each core, and for each edge switch.
   */
  lemma CorePortsAgree(n: nat, hostsPerEdge: nat, cores: seq<string>, edges: seq<N.EdgeSwitch>, c: string,
                       portOf: map<string, nat>, nodeAt: map<nat, string>)
    requires n > 0 && Told(n, hostsPerEdge, cores, edges) && c in CoreSwitches(n, hostsPerEdge)
    requires Numbers(portOf, nodeAt, NaturalSort(EdgeNames(edges)))
    ensures Agree(portOf, nodeAt, Row(BuiltPorts(n, hostsPerEdge), c))
  {
    var es := EdgeSwitches(n, hostsPerEdge);
    NamesAscend('s', FirstSwitch(n, hostsPerEdge), n);
    SortIsAscending(EdgeNames(edges), es);
    SwitchNamesSeparate(n, FirstSwitch(n, hostsPerEdge));
    CoreRow(n, hostsPerEdge, c);
    ListedRowsAgree(portOf, nodeAt, es, Row(BuiltPorts(n, hostsPerEdge), c));
  }

  lemma CoreRow(n: nat, hostsPerEdge: nat, c: string)
    requires n > 0 && c in CoreSwitches(n, hostsPerEdge)
    ensures Lists(Row(BuiltPorts(n, hostsPerEdge), c), EdgeSwitches(n, hostsPerEdge), 1)
  {
    var cs, es := CoreSwitches(n, hostsPerEdge), EdgeSwitches(n, hostsPerEdge);
    SwitchNamesSeparate(n, FirstSwitch(n, hostsPerEdge));
    assert Neighbors(BuiltLinks(n, hostsPerEdge), c) == es by { Layout(cs, es, NumHosts(n, hostsPerEdge)); }
    assert forall l :: l in BuiltLinks(n, hostsPerEdge) ==> l.0 != l.1 by { LinkEndsDiffer(cs, es, HostName, NumHosts(n, hostsPerEdge)); }
    PortsFollowLinks(BuiltLinks(n, hostsPerEdge), Switches(n, hostsPerEdge), c);
  }

  lemma EdgeRow(n: nat, hostsPerEdge: nat, j: nat)
    requires j < n
    ensures Lists(Row(BuiltPorts(n, hostsPerEdge), EdgeSwitches(n, hostsPerEdge)[j]),
                  CoreSwitches(n, hostsPerEdge) + HostsAt(j, n, NumHosts(n, hostsPerEdge)), 1)
  {
    var cs, es := CoreSwitches(n, hostsPerEdge), EdgeSwitches(n, hostsPerEdge);
    SwitchNamesSeparate(n, FirstSwitch(n, hostsPerEdge));
    EdgeNeighbors(n, hostsPerEdge, j);
    assert forall l :: l in BuiltLinks(n, hostsPerEdge) ==> l.0 != l.1 by { LinkEndsDiffer(cs, es, HostName, NumHosts(n, hostsPerEdge)); }
    assert es[j] in es;
    PortsFollowLinks(BuiltLinks(n, hostsPerEdge), Switches(n, hostsPerEdge), es[j]);
  }

  /** Host `g` is linked to one switch, whose number is the first plus the remainder of `g`. */
  lemma HostLinkedTo(n: nat, hostsPerEdge: nat, g: nat)
    requires n > 0 && 1 <= g <= NumHosts(n, hostsPerEdge)
    ensures Neighbors(BuiltLinks(n, hostsPerEdge), HostName(g)) == [Numbered('s', FirstSwitch(n, hostsPerEdge) + g % n)]
  {
    hide Numbered, Names, Neighbors, HostsAt, FirstSwitch, HostName;
    var cs, es := CoreSwitches(n, hostsPerEdge), EdgeSwitches(n, hostsPerEdge);
    SwitchNamesSeparate(n, FirstSwitch(n, hostsPerEdge));
    Layout(cs, es, NumHosts(n, hostsPerEdge));
    NameAt('s', FirstSwitch(n, hostsPerEdge), n, g % n);
  }

  /** Its only port is number 0, and leads there. */
  lemma HostRow(n: nat, hostsPerEdge: nat, g: nat)
    requires n > 0 && 1 <= g <= NumHosts(n, hostsPerEdge)
    ensures var row := Row(BuiltPorts(n, hostsPerEdge), HostName(g));
      row.Keys == {0} && row[0].0 == Numbered('s', FirstSwitch(n, hostsPerEdge) + g % n)
  {
    hide Numbered, Names, Neighbors, FirstSwitch, HostName, PortsAfter, BuiltLinks, Row;
    var cs, es := CoreSwitches(n, hostsPerEdge), EdgeSwitches(n, hostsPerEdge);
    SwitchNamesSeparate(n, FirstSwitch(n, hostsPerEdge));
    HostLinkedTo(n, hostsPerEdge, g);
    assert HostName(g) !in Switches(n, hostsPerEdge);
    BuiltEnds(n, hostsPerEdge);
    PortsFollowLinks(BuiltLinks(n, hostsPerEdge), Switches(n, hostsPerEdge), HostName(g));
  }

  lemma BuiltEnds(n: nat, hostsPerEdge: nat)
    requires n > 0
    ensures forall l :: l in BuiltLinks(n, hostsPerEdge) ==> l.0 != l.1
  {
    SwitchNamesSeparate(n, FirstSwitch(n, hostsPerEdge));
    LinkEndsDiffer(CoreSwitches(n, hostsPerEdge), EdgeSwitches(n, hostsPerEdge), HostName, NumHosts(n, hostsPerEdge));
  }

  /** Every edge switch is linked to all cores and to as many hosts as were asked for. */
  lemma EdgeLinkedTo(n: nat, hostsPerEdge: nat, j: nat)
    requires j < n
    ensures var there := Neighbors(BuiltLinks(n, hostsPerEdge), EdgeSwitches(n, hostsPerEdge)[j]);
      |there| == (n - 1) + hostsPerEdge && there[..n - 1] == CoreSwitches(n, hostsPerEdge)
      && forall g: nat :: HostName(g) in there[n - 1..] <==> 1 <= g <= NumHosts(n, hostsPerEdge) && g % n == j
  {
    hide Neighbors, BuiltLinks, Names, HostName;
    var cs, es := CoreSwitches(n, hostsPerEdge), EdgeSwitches(n, hostsPerEdge);
    SwitchNamesSeparate(n, FirstSwitch(n, hostsPerEdge));
    EdgeNeighbors(n, hostsPerEdge, j);
    EvenShares(j, n, hostsPerEdge);
    forall g: nat ensures HostName(g) in HostsAt(j, n, NumHosts(n, hostsPerEdge)) <==> 1 <= g <= NumHosts(n, hostsPerEdge) && g % n == j {
      HostsByRemainder(j, n, NumHosts(n, hostsPerEdge), g);
    }
  }

  lemma EdgeNeighbors(n: nat, hostsPerEdge: nat, j: nat)
    requires j < n
    ensures Neighbors(BuiltLinks(n, hostsPerEdge), EdgeSwitches(n, hostsPerEdge)[j])
         == CoreSwitches(n, hostsPerEdge) + HostsAt(j, n, NumHosts(n, hostsPerEdge))
  {
    var cs, es := CoreSwitches(n, hostsPerEdge), EdgeSwitches(n, hostsPerEdge);
    SwitchNamesSeparate(n, FirstSwitch(n, hostsPerEdge));
    Layout(cs, es, NumHosts(n, hostsPerEdge));
  }

  lemma EdgeListIsReal(n: nat, hostsPerEdge: nat, cores: seq<string>, edges: seq<N.EdgeSwitch>, e: N.EdgeSwitch, j: nat)
    requires n > 0 && Told(n, hostsPerEdge, cores, edges) && e in edges && j < n && e.name == EdgeSwitches(n, hostsPerEdge)[j]
    ensures EdgeList(cores, e) == CoreSwitches(n, hostsPerEdge) + HostsAt(j, n, NumHosts(n, hostsPerEdge))
    ensures Distinct(EdgeList(cores, e))
  {
    hide NaturalSort, Names, FirstSwitch, HostsAt, NumHosts, Ascending, Numbered;
    var hosts := HostsAt(j, n, NumHosts(n, hostsPerEdge));
    SwitchNamesSeparate(n, FirstSwitch(n, hostsPerEdge));
    NamesAscend('s', n + FirstSwitch(n, hostsPerEdge), n - 1);
    SortIsAscending(cores, CoreSwitches(n, hostsPerEdge));
    HostsAtAscending(j, n, NumHosts(n, hostsPerEdge));
    SortIsAscending(e.neighbors, hosts);
    HostsApart(CoreSwitches(n, hostsPerEdge), EdgeSwitches(n, hostsPerEdge), hosts);
    DistinctConcat(CoreSwitches(n, hostsPerEdge), hosts);
  }

  lemma HostsApart(cores: seq<string>, edges: seq<string>, hosts: seq<string>)
    requires Separate(cores, edges) && forall x :: x in hosts ==> exists g: nat :: x == Numbered('h', g)
    ensures forall x :: x in hosts ==> x !in cores
  {
    forall x | x in hosts ensures x !in cores {
      var g: nat :| x == Numbered('h', g);
      assert HostName(g) !in cores;
    }
  }

  lemma DistinctConcat(a: seq<string>, b: seq<string>)
    requires Distinct(a) && Distinct(b) && forall x :: x in b ==> x !in a
    ensures Distinct(a + b)
  {
    forall i, j | 0 <= i < j < |a + b| ensures (a + b)[i] != (a + b)[j] {
      if i < |a| <= j {
        assert (a + b)[j] == b[j - |a|] && b[j - |a|] in b;
      }
    }
  }

  lemma EdgePortsAgree(n: nat, hostsPerEdge: nat, cores: seq<string>, edges: seq<N.EdgeSwitch>, e: N.EdgeSwitch, j: nat,
                       portOf: map<string, nat>, nodeAt: map<nat, string>)
    requires n > 0 && Told(n, hostsPerEdge, cores, edges) && e in edges && j < n && e.name == EdgeSwitches(n, hostsPerEdge)[j]
    requires Numbers(portOf, nodeAt, EdgeList(cores, e))
    ensures Agree(portOf, nodeAt, Row(BuiltPorts(n, hostsPerEdge), e.name))
  {
    EdgeListIsReal(n, hostsPerEdge, cores, edges, e, j);
    EdgeRow(n, hostsPerEdge, j);
    ListedRowsAgree(portOf, nodeAt, EdgeList(cores, e), Row(BuiltPorts(n, hostsPerEdge), e.name));
  }
}
