/**
 What the compiled tables do to packets.

 For every well-formed network and every policy, a packet addressed to a host is delivered to that host
 and to nobody else after at most three switches; a broadcast dies out after three switches, although
 the core and edge switches form cycles, and the number of copies each host gets is exact.
 */
module Delivery {
  import opened Network
  import opened Policies

  // ---------------------------------------------------------------- which rule decides

  /** Some rule is selected, and every selected rule puts out `out`. */
  ghost predicate Decides(table: seq<Rule>, pkt: Packet, inport: nat, out: seq<Output>)
  {
    && (exists r :: Selected(table, pkt, inport, r))
    && (forall r :: Selected(table, pkt, inport, r) ==> r.output == out)
  }

  ghost predicate AllPriority(rules: seq<Rule>, p: nat)
  {
    forall r :: r in rules ==> r.priority == p
  }

  lemma DecideTop(hi: seq<Rule>, lo: seq<Rule>, pkt: Packet, inport: nat, r: Rule, p: nat)
    requires r in hi && Matches(r, pkt, inport) && AllPriority(hi, p) && forall q :: q in lo ==> q.priority < p
    requires forall q :: q in hi && Matches(q, pkt, inport) ==> q.output == r.output
    ensures Decides(hi + lo, pkt, inport, r.output)
  {
    assert Selected(hi + lo, pkt, inport, r);
  }

  lemma DecideSkip(hi: seq<Rule>, lo: seq<Rule>, pkt: Packet, inport: nat, out: seq<Output>)
    requires Decides(lo, pkt, inport, out) && forall q :: q in hi ==> !Matches(q, pkt, inport)
    ensures Decides(hi + lo, pkt, inport, out)
  {
    var r :| Selected(lo, pkt, inport, r);
    assert Selected(hi + lo, pkt, inport, r);
    forall q | Selected(hi + lo, pkt, inport, q) ensures q.output == out {
      assert Selected(lo, pkt, inport, q);
    }
  }

  /** The packet goes from one host to another: `dst` is the address of host `l`. */
  ghost predicate AddressedTo(t: Topology, pkt: Packet, l: nat)
  {
    l < |t.hosts| && pkt.dst == t.hosts[l].eth
  }

  /** The packet comes from host `k` and is addressed to no host. */
  ghost predicate Broadcast(t: Topology, pkt: Packet, k: nat)
  {
    k < |t.hosts| && pkt.src == t.hosts[k].eth && forall l :: 0 <= l < |t.hosts| ==> pkt.dst != t.hosts[l].eth
  }

  lemma CoreUnicast(t: Topology, i: nat, pkt: Packet, inport: nat, l: nat)
    requires PortsKnown(t) && Identified(t) && i < |t.cores| && AddressedTo(t, pkt, l)
    ensures Decides(CoreTable(t, i, true), pkt, inport, [Port(PortOf(t, t.cores[i].name, t.hosts[l].switch))])
  {
    var hi, lo := DownRules(t, i), FloodRules(t) + [DropRule];
    assert hi[l] in hi;
    DecideTop(hi, lo, pkt, inport, hi[l], 2);
    assert CoreTable(t, i, true) == hi + lo;
  }

  lemma CoreBroadcast(t: Topology, i: nat, used: bool, pkt: Packet, inport: nat, k: nat)
    requires PortsKnown(t) && i < |t.cores| && Broadcast(t, pkt, k)
    ensures Decides(CoreTable(t, i, used), pkt, inport, if used then [Flood] else [])
  {
    if used {
      var flood := FloodRules(t);
      assert flood[k] in flood;
      DecideTop(flood, [DropRule], pkt, inport, flood[k], 1);
      DecideSkip(DownRules(t, i), flood + [DropRule], pkt, inport, [Flood]);
      assert CoreTable(t, i, true) == DownRules(t, i) + (flood + [DropRule]);
    } else {
      DecideTop([DropRule], [], pkt, inport, DropRule, 0);
      assert CoreTable(t, i, false) == [DropRule] + [];
    }
  }

  lemma EdgeUnicast(t: Topology, j: nat, up: map<string, string>, pkt: Packet, inport: nat, l: nat)
    requires PortsKnown(t) && Identified(t) && ValidUp(t, up) && j < |t.edges| && AddressedTo(t, pkt, l)
    ensures Decides(EdgeTable(t, j, up), pkt, inport, UpRule(t, j, t.hosts[l], up).output)
  {
    var hi, lo := UpRules(t, j, up), EdgeFlood(t, j) + [DropRule];
    assert hi[l] in hi;
    DecideTop(hi, lo, pkt, inport, hi[l], 2);
    assert EdgeTable(t, j, up) == hi + lo;
  }

  /** Without a host address, the ingress port decides at an edge switch. */
  lemma EdgeBroadcast(t: Topology, j: nat, up: map<string, string>, pkt: Packet, inport: nat, k: nat, r: Rule)
    requires PortsKnown(t) && ValidUp(t, up) && j < |t.edges| && Broadcast(t, pkt, k)
    requires r in EdgeFlood(t, j) && Matches(r, pkt, inport)
    requires forall q :: q in EdgeFlood(t, j) && Matches(q, pkt, inport) ==> q.output == r.output
    ensures Decides(EdgeTable(t, j, up), pkt, inport, r.output)
  {
    var flood := EdgeFlood(t, j);
    DecideTop(flood, [DropRule], pkt, inport, r, 1);
    DecideSkip(UpRules(t, j, up), flood + [DropRule], pkt, inport, r.output);
    assert EdgeTable(t, j, up) == UpRules(t, j, up) + (flood + [DropRule]);
  }

  lemma FromCoreDecides(t: Topology, j: nat, up: map<string, string>, pkt: Packet, k: nat, i: nat)
    requires WellFormed(t) && PortsKnown(t) && ValidUp(t, up) && j < |t.edges| && i < |t.cores| && Broadcast(t, pkt, k)
    ensures Decides(EdgeTable(t, j, up), pkt, PortOf(t, t.edges[j].name, t.cores[i].name), HostPorts(t, j, t.edges[j].neighbors))
  {
    var inport := PortOf(t, t.edges[j].name, t.cores[i].name);
    var a, b := FromCoreRules(t, j), FromHostRules(t, j);
    assert a[i] in a;
    forall q | q in b ensures !Matches(q, pkt, inport) {
      var n :| 0 <= n < |b| && b[n] == q;
      PortsDiffer(t, j, i, n);
    }
    EdgeBroadcast(t, j, up, pkt, inport, k, a[i]);
  }

  lemma PortsDiffer(t: Topology, j: nat, i: nat, n: nat)
    requires WellFormed(t) && PortsKnown(t) && j < |t.edges| && i < |t.cores| && n < |t.edges[j].neighbors|
    ensures PortOf(t, t.edges[j].name, t.cores[i].name) != PortOf(t, t.edges[j].name, t.edges[j].neighbors[n])
  {
    NeighborsLinked(t, Edge(j));
    var p := At(t.edges[j].neighbors[n]);
    assert Hosts(t.edges[j].neighbors)[n] == p;
    assert p in Neighbors(t, Edge(j));
    assert Linked(t, Edge(j), Core(i)) && Linked(t, Edge(j), p);
  }

  lemma HostPortsDiffer(t: Topology, j: nat, m: nat, n: nat)
    requires WellFormed(t) && PortsKnown(t) && j < |t.edges| && m < n < |t.edges[j].neighbors|
    ensures PortOf(t, t.edges[j].name, t.edges[j].neighbors[m]) != PortOf(t, t.edges[j].name, t.edges[j].neighbors[n])
  {
    NeighborsLinked(t, Edge(j));
    var p, q := At(t.edges[j].neighbors[m]), At(t.edges[j].neighbors[n]);
    assert Hosts(t.edges[j].neighbors)[m] == p && Hosts(t.edges[j].neighbors)[n] == q;
    assert p in Neighbors(t, Edge(j)) && q in Neighbors(t, Edge(j));
    assert Linked(t, Edge(j), p) && Linked(t, Edge(j), q);
  }

  lemma FromHostDecides(t: Topology, j: nat, up: map<string, string>, pkt: Packet, k: nat, n: nat)
    requires WellFormed(t) && PortsKnown(t) && ValidUp(t, up) && j < |t.edges| && n < |t.edges[j].neighbors| && Broadcast(t, pkt, k)
    ensures Decides(EdgeTable(t, j, up), pkt, PortOf(t, t.edges[j].name, t.edges[j].neighbors[n]), FromHostRules(t, j)[n].output)
  {
    hide WellFormed, EdgeTable, Decides, Broadcast, ValidUp;
    var inport := PortOf(t, t.edges[j].name, t.edges[j].neighbors[n]);
    var a, b := FromCoreRules(t, j), FromHostRules(t, j);
    assert b[n] in b;
    forall q | q in a ensures !Matches(q, pkt, inport) {
      var i :| 0 <= i < |a| && a[i] == q;
      PortsDiffer(t, j, i, n);
    }
    forall q | q in b && Matches(q, pkt, inport) ensures q == b[n] {
      var m :| 0 <= m < |b| && b[m] == q;
      if m < n {
        HostPortsDiffer(t, j, m, n);
      } else if n < m {
        HostPortsDiffer(t, j, n, m);
      }
    }
    EdgeBroadcast(t, j, up, pkt, inport, k, b[n]);
  }

  // ---------------------------------------------------------------- where the copies go

  lemma PeersOfPort(t: Topology, s: Place, p: Place, inport: nat)
    requires Wired(t) && Housed(t) && Linked(t, s, p)
    ensures Peers(t, s, [Port(PortTo(t, s, p))], inport) == [p]
  {
    assert Peers(t, s, [], inport) == [];
  }

  lemma {:induction false} PeersOfPorts(t: Topology, s: Place, ps: seq<Place>, out: seq<Output>, inport: nat)
    requires Wired(t) && Housed(t) && IsSwitch(t, s) && |ps| == |out|
    requires forall k :: 0 <= k < |ps| ==> Linked(t, s, ps[k]) && out[k] == Port(PortTo(t, s, ps[k]))
    ensures Peers(t, s, out, inport) == ps
  {
    if out != [] {
      PeersOfPorts(t, s, ps[1..], out[1..], inport);
      assert ps == [ps[0]] + ps[1..];
    }
  }

  lemma HostsLinked(t: Topology, j: nat, names: seq<string>)
    requires WellFormed(t) && j < |t.edges| && forall n :: n in names ==> n in t.edges[j].neighbors
    ensures forall k :: 0 <= k < |names| ==> Linked(t, Edge(j), Hosts(names)[k])
  {
    NeighborsLinked(t, Edge(j));
    forall k | 0 <= k < |names| ensures Linked(t, Edge(j), Hosts(names)[k]) {
      assert names[k] in names;
      var m :| 0 <= m < |t.edges[j].neighbors| && t.edges[j].neighbors[m] == names[k];
      assert Hosts(t.edges[j].neighbors)[m] == At(names[k]);
      assert At(names[k]) in Neighbors(t, Edge(j));
    }
  }

  lemma PeersOfHosts(t: Topology, j: nat, names: seq<string>, inport: nat)
    requires WellFormed(t) && PortsKnown(t) && j < |t.edges| && forall n :: n in names ==> n in t.edges[j].neighbors
    ensures Peers(t, Edge(j), HostPorts(t, j, names), inport) == Hosts(names)
  {
    HostsLinked(t, j, names);
    PeersOfPorts(t, Edge(j), Hosts(names), HostPorts(t, j, names), inport);
  }

  function Cores(t: Topology): (r: seq<Place>)
    ensures |r| == |t.cores|
  {
    seq(|t.cores|, i requires 0 <= i => Core(i))
  }

  lemma PeersOfAll(t: Topology, j: nat, names: seq<string>, inport: nat)
    requires WellFormed(t) && PortsKnown(t) && j < |t.edges| && forall n :: n in names ==> n in t.edges[j].neighbors
    ensures Peers(t, Edge(j), CorePorts(t, j) + HostPorts(t, j, names), inport) == Cores(t) + Hosts(names)
  {
    HostsLinked(t, j, names);
    forall i | 0 <= i < |t.cores| ensures Linked(t, Edge(j), Cores(t)[i]) {
    }
    PeersOfPorts(t, Edge(j), Cores(t) + Hosts(names), CorePorts(t, j) + HostPorts(t, j, names), inport);
  }

  /** The tables of a compiled network, at every switch. */
  lemma TablesAt(t: Topology, rt: map<nat, seq<Rule>>, used: set<string>, up: map<string, string>)
    requires PortsKnown(t) && ValidUp(t, up) && Compiled(t, rt, used, up)
    ensures forall i: nat :: i < |t.cores| ==> TableAt(t, rt, Core(i)) == CoreTable(t, i, t.cores[i].name in used)
    ensures forall j: nat :: j < |t.edges| ==> TableAt(t, rt, Edge(j)) == EdgeTable(t, j, up)
  {
    forall i: nat | i < |t.cores| ensures TableAt(t, rt, Core(i)) == CoreTable(t, i, t.cores[i].name in used) {
      assert CoreIds(t)[i] == Dpid(t, Core(i)) && CoreIds(t)[i] in CoreIds(t);
    }
    forall j: nat | j < |t.edges| ensures TableAt(t, rt, Edge(j)) == EdgeTable(t, j, up) {
      assert EdgeIds(t)[j] == Dpid(t, Edge(j)) && EdgeIds(t)[j] in EdgeIds(t);
    }
  }

  // ---------------------------------------------------------------- delivery

  /** Every host is reached through a core whose table the policy fills. */
  ghost predicate UsesOwnCores(t: Topology, used: set<string>, up: map<string, string>)
    requires ValidUp(t, up)
  {
    forall k :: 0 <= k < |t.hosts| ==> up[t.hosts[k].name] in used
  }

  ghost predicate Running(t: Topology, rt: map<nat, seq<Rule>>, used: set<string>, up: map<string, string>)
  {
    WellFormed(t) && PortsKnown(t) && ValidUp(t, up) && Compiled(t, rt, used, up) && UsesOwnCores(t, used, up)
  }

  /** A switch that sends a packet one way only passes on the whole question. */
  lemma OneWay(t: Topology, rt: map<nat, seq<Rule>>, pkt: Packet, s: Place, inport: nat, p: Place, visited: set<Place>,
               x: string, hops: nat)
    requires Wired(t) && Housed(t) && Linked(t, s, p) && hops > 0 && s !in visited
    requires Next(t, rt, pkt, s, inport) == [p]
    ensures Copies(t, rt, pkt, s, inport, x, hops) == CopiesTo(t, rt, pkt, s, p, x, hops)
    ensures p.At? ==> Ends(t, rt, pkt, s, inport, visited, hops)
    ensures !p.At? && Linked(t, p, s) && Ends(t, rt, pkt, p, PortTo(t, p, s), visited + {s}, hops - 1)
      ==> Ends(t, rt, pkt, s, inport, visited, hops)
  {
    assert [p][1..] == [];
    assert CopiesVia(t, rt, pkt, s, [], x, hops) == 0;
  }

  lemma HostLinked(t: Topology, l: nat, b: nat)
    requires WellFormed(t) && Home(t, l, b)
    ensures Linked(t, Edge(b), At(t.hosts[l].name))
  {
  }

  /** At the destination's edge switch, or a neighbour of it: straight to the host. */
  lemma NextAtHome(t: Topology, rt: map<nat, seq<Rule>>, used: set<string>, up: map<string, string>, pkt: Packet,
                   l: nat, b: nat, inport: nat)
    requires Running(t, rt, used, up) && AddressedTo(t, pkt, l) && Home(t, l, b)
    ensures Next(t, rt, pkt, Edge(b), inport) == [At(t.hosts[l].name)]
  {
    TablesAt(t, rt, used, up);
    EdgeUnicast(t, b, up, pkt, inport, l);
    HostLinked(t, l, b);
    PeersOfPort(t, Edge(b), At(t.hosts[l].name), inport);
  }

  lemma NeighborsAreHome(t: Topology, l: nat, a: nat)
    requires WellFormed(t) && l < |t.hosts| && a < |t.edges|
    ensures t.hosts[l].name in t.edges[a].neighbors ==> Home(t, l, a)
  {
    if t.hosts[l].name in t.edges[a].neighbors {
      var k: nat :| Home(t, k, a) && t.hosts[k].name == t.hosts[l].name;
    }
  }

  lemma NextAway(t: Topology, rt: map<nat, seq<Rule>>, used: set<string>, up: map<string, string>, pkt: Packet,
                 l: nat, a: nat, i: nat, inport: nat)
    requires Running(t, rt, used, up) && AddressedTo(t, pkt, l) && a < |t.edges| && !Home(t, l, a)
    requires i < |t.cores| && t.cores[i].name == up[t.hosts[l].name]
    ensures Next(t, rt, pkt, Edge(a), inport) == [Core(i)]
  {
    TablesAt(t, rt, used, up);
    EdgeUnicast(t, a, up, pkt, inport, l);
    NeighborsAreHome(t, l, a);
    PeersOfPort(t, Edge(a), Core(i), inport);
  }

  lemma NextAtCore(t: Topology, rt: map<nat, seq<Rule>>, used: set<string>, up: map<string, string>, pkt: Packet,
                   l: nat, b: nat, i: nat, inport: nat)
    requires Running(t, rt, used, up) && AddressedTo(t, pkt, l) && Home(t, l, b)
    requires i < |t.cores| && t.cores[i].name == up[t.hosts[l].name]
    ensures Next(t, rt, pkt, Core(i), inport) == [Edge(b)]
  {
    TablesAt(t, rt, used, up);
    CoreUnicast(t, i, pkt, inport, l);
    PeersOfPort(t, Core(i), Edge(b), inport);
  }

  /**
   Unicast: from any edge switch `a`, a packet addressed to host `l` makes exactly one copy, which
   reaches exactly that host, passes at most three switches, and none of them twice.
   */
  lemma UnicastDelivered(t: Topology, rt: map<nat, seq<Rule>>, used: set<string>, up: map<string, string>, pkt: Packet,
                         l: nat, b: nat, a: nat, inport: nat, x: string)
    requires Running(t, rt, used, up) && AddressedTo(t, pkt, l) && Home(t, l, b) && a < |t.edges|
    ensures Ends(t, rt, pkt, Edge(a), inport, {}, 3)
    ensures Copies(t, rt, pkt, Edge(a), inport, x, 3) == if x == t.hosts[l].name then 1 else 0
  {
    if Home(t, l, a) {
      HostLinked(t, l, a);
      NextAtHome(t, rt, used, up, pkt, l, a, inport);
      OneWay(t, rt, pkt, Edge(a), inport, At(t.hosts[l].name), {}, x, 3);
    } else {
      UnicastAcross(t, rt, used, up, pkt, l, b, a, inport, x);
    }
  }

  lemma UnicastAcross(t: Topology, rt: map<nat, seq<Rule>>, used: set<string>, up: map<string, string>, pkt: Packet,
                      l: nat, b: nat, a: nat, inport: nat, x: string)
    requires Running(t, rt, used, up) && AddressedTo(t, pkt, l) && Home(t, l, b) && a < |t.edges| && !Home(t, l, a)
    ensures Ends(t, rt, pkt, Edge(a), inport, {}, 3)
    ensures Copies(t, rt, pkt, Edge(a), inport, x, 3) == if x == t.hosts[l].name then 1 else 0
  {
    hide Copies, Ends, Compiled, Identified;
    var i: nat :| i < |t.cores| && t.cores[i].name == up[t.hosts[l].name];
    var s, p := Edge(a), Core(i);
    assert Linked(t, s, p) && Linked(t, p, s);
    NextAway(t, rt, used, up, pkt, l, a, i, inport);
    DownFromCore(t, rt, used, up, pkt, l, b, i, PortTo(t, p, s), {} + {s}, x);
    OneWay(t, rt, pkt, s, inport, p, {}, x, 3);
  }

  lemma DownFromCore(t: Topology, rt: map<nat, seq<Rule>>, used: set<string>, up: map<string, string>, pkt: Packet,
                     l: nat, b: nat, i: nat, inport: nat, visited: set<Place>, x: string)
    requires Running(t, rt, used, up) && AddressedTo(t, pkt, l) && Home(t, l, b)
    requires i < |t.cores| && t.cores[i].name == up[t.hosts[l].name] && Core(i) !in visited && Edge(b) !in visited
    ensures Ends(t, rt, pkt, Core(i), inport, visited, 2)
    ensures Copies(t, rt, pkt, Core(i), inport, x, 2) == if x == t.hosts[l].name then 1 else 0
  {
    hide Compiled;
    var q := PortTo(t, Edge(b), Core(i));
    HostLinked(t, l, b);
    NextAtCore(t, rt, used, up, pkt, l, b, i, inport);
    NextAtHome(t, rt, used, up, pkt, l, b, q);
    OneWay(t, rt, pkt, Edge(b), q, At(t.hosts[l].name), visited + {Core(i)}, x, 1);
    OneWay(t, rt, pkt, Core(i), inport, Edge(b), visited, x, 2);
  }

  /** Whatever the policies, and however long the packet may travel: the same hosts get the same copies. */
  lemma PoliciesAgree(t: Topology, rt1: map<nat, seq<Rule>>, used1: set<string>, up1: map<string, string>,
                      rt2: map<nat, seq<Rule>>, used2: set<string>, up2: map<string, string>,
                      pkt: Packet, l: nat, a: nat, inport: nat, x: string, hops: nat)
    requires Running(t, rt1, used1, up1) && Running(t, rt2, used2, up2)
    requires AddressedTo(t, pkt, l) && a < |t.edges| && hops >= 3
    ensures Copies(t, rt1, pkt, Edge(a), inport, x, hops) == Copies(t, rt2, pkt, Edge(a), inport, x, hops)
  {
    assert HasHome(t, l);
    var b: nat :| b < |t.edges| && Home(t, l, b);
    UnicastDelivered(t, rt1, used1, up1, pkt, l, b, a, inport, x);
    UnicastDelivered(t, rt2, used2, up2, pkt, l, b, a, inport, x);
    MoreHops(t, rt1, pkt, Edge(a), inport, {}, x, 3, hops);
    MoreHops(t, rt2, pkt, Edge(a), inport, {}, x, 3, hops);
  }

  // ---------------------------------------------------------------- broadcast

  lemma NextUp(t: Topology, rt: map<nat, seq<Rule>>, used: set<string>, up: map<string, string>, pkt: Packet, k: nat, a: nat)
    requires Running(t, rt, used, up) && Broadcast(t, pkt, k) && Home(t, k, a)
    ensures Linked(t, Edge(a), At(t.hosts[k].name))
    ensures Next(t, rt, pkt, Edge(a), PortTo(t, Edge(a), At(t.hosts[k].name)))
         == Cores(t) + Hosts(Others(t.edges[a].neighbors, t.hosts[k].name))
  {
    hide Compiled, Identified, EdgeTable;
    HostLinked(t, k, a);
    TablesAt(t, rt, used, up);
    var ns := t.edges[a].neighbors;
    var n :| 0 <= n < |ns| && ns[n] == t.hosts[k].name;
    FromHostDecides(t, a, up, pkt, k, n);
    PeersOfAll(t, a, Others(ns, ns[n]), PortTo(t, Edge(a), At(t.hosts[k].name)));
  }

  lemma NextFlood(t: Topology, rt: map<nat, seq<Rule>>, used: set<string>, up: map<string, string>, pkt: Packet, k: nat,
                  i: nat, inport: nat)
    requires Running(t, rt, used, up) && Broadcast(t, pkt, k) && i < |t.cores|
    ensures forall p :: p in Neighbors(t, Core(i)) ==> Linked(t, Core(i), p)
    ensures Next(t, rt, pkt, Core(i), inport)
         == if t.cores[i].name in used then Except(t, Core(i), Neighbors(t, Core(i)), inport) else []
  {
    NeighborsLinked(t, Core(i));
    var out := if t.cores[i].name in used then [Flood] else [];
    assert Action(TableAt(t, rt, Core(i)), pkt, inport) == out by {
      TablesAt(t, rt, used, up);
      CoreBroadcast(t, i, t.cores[i].name in used, pkt, inport, k);
    }
    PeersOfFlood(t, Core(i), inport);
  }

  lemma PeersOfFlood(t: Topology, s: Place, inport: nat)
    requires Wired(t) && Housed(t) && IsSwitch(t, s) && forall p :: p in Neighbors(t, s) ==> Linked(t, s, p)
    ensures Peers(t, s, [Flood], inport) == Except(t, s, Neighbors(t, s), inport) && Peers(t, s, [], inport) == []
  {
    assert [Flood][1..] == [];
    assert Peers(t, s, [], inport) == [];
  }

  lemma NextDown(t: Topology, rt: map<nat, seq<Rule>>, used: set<string>, up: map<string, string>, pkt: Packet, k: nat,
                 j: nat, i: nat)
    requires Running(t, rt, used, up) && Broadcast(t, pkt, k) && i < |t.cores| && j < |t.edges|
    ensures Linked(t, Edge(j), Core(i)) && Linked(t, Core(i), Edge(j))
    ensures Next(t, rt, pkt, Edge(j), PortTo(t, Edge(j), Core(i))) == Hosts(t.edges[j].neighbors)
  {
    TablesAt(t, rt, used, up);
    FromCoreDecides(t, j, up, pkt, k, i);
    PeersOfHosts(t, j, t.edges[j].neighbors, PortTo(t, Edge(j), Core(i)));
  }

  function Occurs(names: seq<string>, x: string): nat
  {
    if names == [] then 0 else (if names[0] == x then 1 else 0) + Occurs(names[1..], x)
  }

  lemma {:induction false} OccursOnce(names: seq<string>, x: string)
    requires forall a, b :: 0 <= a < b < |names| ==> names[a] != names[b]
    ensures Occurs(names, x) == if x in names then 1 else 0
  {
    if names != [] {
      OccursOnce(names[1..], x);
    }
  }

  lemma {:induction false} OccursInOthers(names: seq<string>, host: string, x: string)
    ensures Occurs(Others(names, host), x) == if x == host then 0 else Occurs(names, x)
  {
    if names != [] {
      OccursInOthers(names[1..], host, x);
      assert ([names[0]] + Others(names[1..], host))[1..] == Others(names[1..], host);
      assert [] + Others(names[1..], host) == Others(names[1..], host);
    }
  }

  lemma {:induction false} CopiesViaHosts(t: Topology, rt: map<nat, seq<Rule>>, pkt: Packet, j: nat, names: seq<string>,
                                          x: string, hops: nat)
    requires WellFormed(t) && j < |t.edges| && hops > 0 && forall n :: n in names ==> n in t.edges[j].neighbors
    requires forall p :: p in Hosts(names) ==> Linked(t, Edge(j), p)
    ensures CopiesVia(t, rt, pkt, Edge(j), Hosts(names), x, hops) == Occurs(names, x)
  {
    if names != [] {
      assert Hosts(names)[1..] == Hosts(names[1..]);
      CopiesViaHosts(t, rt, pkt, j, names[1..], x, hops);
    }
  }

  lemma HostsLinkedIn(t: Topology, j: nat, names: seq<string>)
    requires WellFormed(t) && j < |t.edges| && forall n :: n in names ==> n in t.edges[j].neighbors
    ensures forall p :: p in Hosts(names) ==> Linked(t, Edge(j), p) && p.At?
  {
    HostsLinked(t, j, names);
  }

  /** A copy that comes down to edge switch `j` reaches its hosts once each, and ends. */
  lemma DownToHosts(t: Topology, rt: map<nat, seq<Rule>>, used: set<string>, up: map<string, string>, pkt: Packet, k: nat,
                    j: nat, i: nat, visited: set<Place>, x: string)
    requires Running(t, rt, used, up) && Broadcast(t, pkt, k) && i < |t.cores| && j < |t.edges| && Edge(j) !in visited
    ensures Linked(t, Edge(j), Core(i)) && Linked(t, Core(i), Edge(j))
    ensures Copies(t, rt, pkt, Edge(j), PortTo(t, Edge(j), Core(i)), x, 1) == if x in t.edges[j].neighbors then 1 else 0
    ensures Ends(t, rt, pkt, Edge(j), PortTo(t, Edge(j), Core(i)), visited, 1)
  {
    NextDown(t, rt, used, up, pkt, k, j, i);
    var names := t.edges[j].neighbors;
    HostsLinkedIn(t, j, names);
    CopiesViaHosts(t, rt, pkt, j, names, x, 1);
    OccursOnce(names, x);
  }

  /** The number of edge switches from `j` on, other than `a`, that have a host `x`. */
  function EdgesWith(t: Topology, a: nat, x: string, j: nat): nat
    requires j <= |t.edges|
    decreases |t.edges| - j
  {
    if j == |t.edges| then 0
    else (if j != a && x in t.edges[j].neighbors then 1 else 0) + EdgesWith(t, a, x, j + 1)
  }

  lemma {:induction false} EdgesWithHost(t: Topology, a: nat, l: nat, b: nat, j: nat)
    requires WellFormed(t) && Home(t, l, b) && j <= |t.edges|
    ensures EdgesWith(t, a, t.hosts[l].name, j) == if j <= b && b != a then 1 else 0
    decreases |t.edges| - j
  {
    if j < |t.edges| {
      EdgesWithHost(t, a, l, b, j + 1);
      NeighborsAreHome(t, l, j);
    }
  }

  lemma {:induction false} FloodVia(t: Topology, rt: map<nat, seq<Rule>>, used: set<string>, up: map<string, string>,
                                    pkt: Packet, k: nat, i: nat, a: nat, ps: seq<Place>, j: nat, x: string)
    requires Running(t, rt, used, up) && Broadcast(t, pkt, k) && i < |t.cores| && a < |t.edges| && j <= |t.edges|
    requires ps == Neighbors(t, Core(i))[j..] && forall p :: p in ps ==> Linked(t, Core(i), p)
    requires Linked(t, Core(i), Edge(a))
    requires forall p :: p in Except(t, Core(i), ps, PortTo(t, Core(i), Edge(a))) ==> Linked(t, Core(i), p)
    ensures CopiesVia(t, rt, pkt, Core(i), Except(t, Core(i), ps, PortTo(t, Core(i), Edge(a))), x, 2) == EdgesWith(t, a, x, j)
    decreases |t.edges| - j
  {
    if j < |t.edges| {
      EdgesWithNext(t, a, x, j);
      FloodTail(t, i, ps, j);
      hide EdgesWith, Compiled, Identified, Next;
      ExceptWithin(t, Core(i), ps[1..], PortTo(t, Core(i), Edge(a)));
      FloodVia(t, rt, used, up, pkt, k, i, a, ps[1..], j + 1, x);
      FloodHead(t, rt, used, up, pkt, k, i, a, ps, j, x);
    }
  }

  /** What the first edge of those left adds. */
  lemma FloodHead(t: Topology, rt: map<nat, seq<Rule>>, used: set<string>, up: map<string, string>,
                  pkt: Packet, k: nat, i: nat, a: nat, ps: seq<Place>, j: nat, x: string)
    requires Running(t, rt, used, up) && Broadcast(t, pkt, k) && i < |t.cores| && a < |t.edges| && j < |t.edges|
    requires ps != [] && ps[0] == Edge(j) && (forall p :: p in ps ==> Linked(t, Core(i), p)) && Linked(t, Core(i), Edge(a))
    requires forall p :: p in ps[1..] ==> Linked(t, Core(i), p)
    requires forall p :: p in Except(t, Core(i), ps[1..], PortTo(t, Core(i), Edge(a))) ==> Linked(t, Core(i), p)
    ensures var inport := PortTo(t, Core(i), Edge(a));
      var all, rest := Except(t, Core(i), ps, inport), Except(t, Core(i), ps[1..], inport);
      && (forall p :: p in all ==> Linked(t, Core(i), p))
      && CopiesVia(t, rt, pkt, Core(i), all, x, 2)
         == (if j != a && x in t.edges[j].neighbors then 1 else 0) + CopiesVia(t, rt, pkt, Core(i), rest, x, 2)
  {
    ExceptHead(t, i, a, ps, j);
    if j != a {
      ViaEdge(t, rt, used, up, pkt, k, i, j, Except(t, Core(i), ps[1..], PortTo(t, Core(i), Edge(a))), x);
    }
  }

  lemma FloodTail(t: Topology, i: nat, ps: seq<Place>, j: nat)
    requires WellFormed(t) && i < |t.cores| && j < |t.edges| && ps == Neighbors(t, Core(i))[j..]
    ensures ps != [] && ps[0] == Edge(j) && ps[1..] == Neighbors(t, Core(i))[j + 1..] && forall p :: p in ps[1..] ==> p in ps
  {
  }

  lemma EdgesWithNext(t: Topology, a: nat, x: string, j: nat)
    requires j < |t.edges|
    ensures EdgesWith(t, a, x, j) == (if j != a && x in t.edges[j].neighbors then 1 else 0) + EdgesWith(t, a, x, j + 1)
  {
  }

  /** The neighbour at the port that the packet came in by is left out. */
  lemma ExceptHead(t: Topology, i: nat, a: nat, ps: seq<Place>, j: nat)
    requires WellFormed(t) && i < |t.cores| && a < |t.edges| && j < |t.edges|
    requires ps != [] && ps[0] == Edge(j) && forall p :: p in ps ==> Linked(t, Core(i), p)
    requires forall p :: p in ps[1..] ==> Linked(t, Core(i), p)
    requires Linked(t, Core(i), Edge(a))
    ensures var inport := PortTo(t, Core(i), Edge(a));
      var rest := Except(t, Core(i), ps[1..], inport);
      Except(t, Core(i), ps, inport) == if j == a then rest else [Edge(j)] + rest
  {
    var rest := Except(t, Core(i), ps[1..], PortTo(t, Core(i), Edge(a)));
    assert Linked(t, Core(i), ps[0]);
    assert [] + rest == rest;
  }

  lemma ViaEdge(t: Topology, rt: map<nat, seq<Rule>>, used: set<string>, up: map<string, string>, pkt: Packet, k: nat,
                i: nat, j: nat, rest: seq<Place>, x: string)
    requires Running(t, rt, used, up) && Broadcast(t, pkt, k) && i < |t.cores| && j < |t.edges|
    requires forall p :: p in rest ==> Linked(t, Core(i), p)
    ensures Linked(t, Core(i), Edge(j)) && forall p :: p in [Edge(j)] + rest ==> Linked(t, Core(i), p)
    ensures CopiesVia(t, rt, pkt, Core(i), [Edge(j)] + rest, x, 2)
         == (if x in t.edges[j].neighbors then 1 else 0) + CopiesVia(t, rt, pkt, Core(i), rest, x, 2)
  {
    DownToHosts(t, rt, used, up, pkt, k, j, i, {}, x);
    assert ([Edge(j)] + rest)[1..] == rest;
  }

  /** What core `i` makes of a broadcast that edge switch `a` sends up. */
  lemma FloodFromCore(t: Topology, rt: map<nat, seq<Rule>>, used: set<string>, up: map<string, string>, pkt: Packet, k: nat,
                      i: nat, a: nat, l: nat, b: nat)
    requires Running(t, rt, used, up) && Broadcast(t, pkt, k) && i < |t.cores| && a < |t.edges| && Home(t, l, b)
    ensures Linked(t, Core(i), Edge(a)) && Linked(t, Edge(a), Core(i))
    ensures Copies(t, rt, pkt, Core(i), PortTo(t, Core(i), Edge(a)), t.hosts[l].name, 2)
         == if t.cores[i].name in used && b != a then 1 else 0
  {
    var s, inport, x := Core(i), PortTo(t, Core(i), Edge(a)), t.hosts[l].name;
    NextFlood(t, rt, used, up, pkt, k, i, inport);
    if t.cores[i].name in used {
      var ps := Neighbors(t, s);
      assert ps == ps[0..];
      ExceptWithin(t, s, ps, inport);
      FloodVia(t, rt, used, up, pkt, k, i, a, ps, 0, x);
      EdgesWithHost(t, a, l, b, 0);
    }
  }

  lemma FloodFromCoreEnds(t: Topology, rt: map<nat, seq<Rule>>, used: set<string>, up: map<string, string>, pkt: Packet,
                          k: nat, i: nat, a: nat)
    requires Running(t, rt, used, up) && Broadcast(t, pkt, k) && i < |t.cores| && a < |t.edges|
    ensures Linked(t, Core(i), Edge(a)) && Ends(t, rt, pkt, Core(i), PortTo(t, Core(i), Edge(a)), {Edge(a)}, 2)
  {
    hide Compiled, Identified, Broadcast, Except, Next;
    var s, inport := Core(i), PortTo(t, Core(i), Edge(a));
    NextFlood(t, rt, used, up, pkt, k, i, inport);
    ExceptWithin(t, s, Neighbors(t, s), inport);
    forall p | p in Next(t, rt, pkt, s, inport)
      ensures Linked(t, p, s) && Ends(t, rt, pkt, p, PortTo(t, p, s), {Edge(a)} + {s}, 1)
    {
      assert p.Edge? && p != Edge(a);
      DownToHosts(t, rt, used, up, pkt, k, p.j, i, {Edge(a)} + {s}, "");
    }
  }

  /** The number of cores from `i` on whose table the policy fills. */
  function UsedFrom(t: Topology, used: set<string>, i: nat): nat
    requires i <= |t.cores|
    decreases |t.cores| - i
  {
    if i == |t.cores| then 0 else (if t.cores[i].name in used then 1 else 0) + UsedFrom(t, used, i + 1)
  }

  lemma {:induction false} UpVia(t: Topology, rt: map<nat, seq<Rule>>, used: set<string>, up: map<string, string>, pkt: Packet,
                                 k: nat, a: nat, l: nat, b: nat, i: nat, next: seq<Place>, others: seq<string>)
    requires Running(t, rt, used, up) && Broadcast(t, pkt, k) && a < |t.edges| && Home(t, l, b) && i <= |t.cores|
    requires next == Cores(t)[i..] + Hosts(others) && forall n :: n in others ==> n in t.edges[a].neighbors
    requires forall p :: p in next ==> Linked(t, Edge(a), p)
    ensures CopiesVia(t, rt, pkt, Edge(a), next, t.hosts[l].name, 3)
         == (if b != a then UsedFrom(t, used, i) else 0) + Occurs(others, t.hosts[l].name)
    decreases |t.cores| - i
  {
    hide Compiled, Identified;
    if i == |t.cores| {
      assert next == Hosts(others);
      CopiesViaHosts(t, rt, pkt, a, others, t.hosts[l].name, 3);
    } else {
      assert next[0] == Core(i) && next[1..] == Cores(t)[i + 1..] + Hosts(others);
      FloodFromCore(t, rt, used, up, pkt, k, i, a, l, b);
      UpVia(t, rt, used, up, pkt, k, a, l, b, i + 1, next[1..], others);
    }
  }

  /**
   Broadcast copies are exact.  Of a packet that host `k` sends to no host in particular, `k` itself
   gets none, every other host on its edge switch gets one, and every host `l` on another edge switch
   gets one for each core whose table the policy fills.
   */
  lemma BroadcastCopies(t: Topology, rt: map<nat, seq<Rule>>, used: set<string>, up: map<string, string>, pkt: Packet,
                        k: nat, a: nat, l: nat, b: nat, hops: nat)
    requires Running(t, rt, used, up) && Broadcast(t, pkt, k) && Home(t, k, a) && Home(t, l, b) && hops >= 3
    ensures Linked(t, Edge(a), At(t.hosts[k].name))
    ensures Copies(t, rt, pkt, Edge(a), PortTo(t, Edge(a), At(t.hosts[k].name)), t.hosts[l].name, hops)
         == if l == k then 0 else if b == a then 1 else UsedFrom(t, used, 0)
  {
    var s, x := Edge(a), t.hosts[l].name;
    var others := Others(t.edges[a].neighbors, t.hosts[k].name);
    NextUp(t, rt, used, up, pkt, k, a);
    var inport := PortTo(t, s, At(t.hosts[k].name));
    PeersLinked(t, s, Action(TableAt(t, rt, s), pkt, inport), inport);
    assert Cores(t) == Cores(t)[0..];
    UpVia(t, rt, used, up, pkt, k, a, l, b, 0, Next(t, rt, pkt, s, inport), others);
    OccursInOthers(t.edges[a].neighbors, t.hosts[k].name, x);
    OccursOnce(t.edges[a].neighbors, x);
    NeighborsAreHome(t, l, a);
    BroadcastEnds(t, rt, used, up, pkt, k, a);
    MoreHops(t, rt, pkt, s, inport, {}, x, 3, hops);
  }

  /** A broadcast never loops: every copy ends after at most three switches, no switch seen twice. */
  lemma BroadcastEnds(t: Topology, rt: map<nat, seq<Rule>>, used: set<string>, up: map<string, string>, pkt: Packet,
                      k: nat, a: nat)
    requires Running(t, rt, used, up) && Broadcast(t, pkt, k) && Home(t, k, a)
    ensures Linked(t, Edge(a), At(t.hosts[k].name))
    ensures Ends(t, rt, pkt, Edge(a), PortTo(t, Edge(a), At(t.hosts[k].name)), {}, 3)
  {
    NextUp(t, rt, used, up, pkt, k, a);
    forall i: nat | i < |t.cores|
      ensures Linked(t, Core(i), Edge(a)) && Ends(t, rt, pkt, Core(i), PortTo(t, Core(i), Edge(a)), {Edge(a)}, 2)
    {
      FloodFromCoreEnds(t, rt, used, up, pkt, k, i, a);
    }
    UpEnds(t, rt, pkt, a, PortTo(t, Edge(a), At(t.hosts[k].name)), Others(t.edges[a].neighbors, t.hosts[k].name));
  }

  lemma UpEnds(t: Topology, rt: map<nat, seq<Rule>>, pkt: Packet, a: nat, inport: nat, others: seq<string>)
    requires Wired(t) && Housed(t) && a < |t.edges| && Next(t, rt, pkt, Edge(a), inport) == Cores(t) + Hosts(others)
    requires forall i: nat :: i < |t.cores| ==>
      Linked(t, Core(i), Edge(a)) && Ends(t, rt, pkt, Core(i), PortTo(t, Core(i), Edge(a)), {Edge(a)}, 2)
    ensures Ends(t, rt, pkt, Edge(a), inport, {}, 3)
  {
    assert {} + {Edge(a)} == {Edge(a)};
  }

  lemma {:induction false} AllUsed(t: Topology, used: set<string>, i: nat)
    requires i <= |t.cores| && forall c :: c in t.cores ==> c.name in used
    ensures UsedFrom(t, used, i) == |t.cores| - i
    decreases |t.cores| - i
  {
    if i < |t.cores| {
      AllUsed(t, used, i + 1);
    }
  }

  lemma {:induction false} FirstUsed(t: Topology, i: nat)
    requires 0 < i <= |t.cores| && Identified(t)
    ensures UsedFrom(t, {t.cores[0].name}, i) == 0
    decreases |t.cores| - i
  {
    if i < |t.cores| {
      FirstUsed(t, i + 1);
    }
  }

  /** Tables that use every core run, and a broadcast is copied through all of them: the static and adaptive policies. */
  lemma AllCoresRun(t: Topology, rt: map<nat, seq<Rule>>, up: map<string, string>)
    requires WellFormed(t) && PortsKnown(t) && ValidUp(t, up) && Compiled(t, rt, CoreNames(t), up)
    ensures Running(t, rt, CoreNames(t), up) && UsedFrom(t, CoreNames(t), 0) == |t.cores|
  {
    AllUsed(t, CoreNames(t), 0);
    forall k | 0 <= k < |t.hosts| ensures up[t.hosts[k].name] in CoreNames(t) {
      var i :| 0 <= i < |t.cores| && t.cores[i].name == up[t.hosts[k].name];
      assert t.cores[i] in t.cores;
    }
  }

  /** Tables that use the first core only run too, and copy a broadcast once: the default policy. */
  lemma OneCoreRuns(t: Topology, rt: map<nat, seq<Rule>>)
    requires WellFormed(t) && PortsKnown(t) && ValidUp(t, DefaultUp(t)) && Compiled(t, rt, {t.cores[0].name}, DefaultUp(t))
    ensures Running(t, rt, {t.cores[0].name}, DefaultUp(t)) && UsedFrom(t, {t.cores[0].name}, 0) == 1
  {
    FirstUsed(t, 1);
    forall k | 0 <= k < |t.hosts| ensures DefaultUp(t)[t.hosts[k].name] in {t.cores[0].name} {
      assert t.hosts[k] in t.hosts;
    }
  }
}
