/**
 Switches, rules and the journey of a packet.

 A network of core switches, edge switches and hosts (emulated-sdn-application/minidc/controller/topo.py),
 the flow rules a controller installs (controller.py, makeMatch), and what the switches then do with a
 packet: the matching rule of highest priority decides (OpenFlow Switch Specification 1.3, section 5.3),
 and FLOOD sends to every port except the one the packet came in by (section 4.5).
 */
module Network {

  datatype Host = Host(name: string, eth: string, switch: string, vlans: seq<nat>)
  datatype CoreSwitch = CoreSwitch(name: string, dpid: nat, vlans: seq<nat>)
  datatype EdgeSwitch = EdgeSwitch(name: string, dpid: nat, neighbors: seq<string>)

  /** The dictionaries of the controller's Topology, each as the sequence of its values. */
  datatype Topology = Topology(hosts: seq<Host>, cores: seq<CoreSwitch>, edges: seq<EdgeSwitch>,
                               ports: map<string, map<string, nat>>)

  datatype Match = Dst(eth: string) | Src(eth: string) | InPort(port: nat) | Any
  datatype Output = Port(port: nat) | Flood
  datatype Rule = Rule(match_: Match, output: seq<Output>, priority: nat)

  datatype Packet = Packet(src: string, dst: string)

  /** Where a packet can be: at a core or edge switch, by position, or at a host, by name. */
  datatype Place = Core(i: nat) | Edge(j: nat) | At(host: string)

  // ---------------------------------------------------------------- topologies

  predicate IsPlace(t: Topology, p: Place)
  {
    match p
    case Core(i) => i < |t.cores|
    case Edge(j) => j < |t.edges|
    case At(h) => exists k :: 0 <= k < |t.hosts| && t.hosts[k].name == h
  }

  predicate IsSwitch(t: Topology, p: Place)
  {
    IsPlace(t, p) && !p.At?
  }

  function Name(t: Topology, p: Place): string
    requires IsPlace(t, p)
  {
    match p
    case Core(i) => t.cores[i].name
    case Edge(j) => t.edges[j].name
    case At(h) => h
  }

  function Dpid(t: Topology, p: Place): nat
    requires IsSwitch(t, p)
  {
    if p.Core? then t.cores[p.i].dpid else t.edges[p.j].dpid
  }

  /** Whether a cable runs from switch `s` to `p`. */
  predicate Linked(t: Topology, s: Place, p: Place)
  {
    IsSwitch(t, s) && IsPlace(t, p) &&
    if s.Core? then p.Edge? else p.Core? || (p.At? && p.host in t.edges[s.j].neighbors)
  }

  predicate HasPort(t: Topology, s: Place, p: Place)
    requires IsPlace(t, s) && IsPlace(t, p)
  {
    Name(t, s) in t.ports && Name(t, p) in t.ports[Name(t, s)]
  }

  function PortTo(t: Topology, s: Place, p: Place): nat
    requires IsPlace(t, s) && IsPlace(t, p) && HasPort(t, s, p)
  {
    t.ports[Name(t, s)][Name(t, p)]
  }

  /** Every cable of a switch has a port of its own. */
  ghost predicate Wired(t: Topology)
  {
    && (forall s, p :: Linked(t, s, p) ==> HasPort(t, s, p))
    && (forall s, p, q :: Linked(t, s, p) && Linked(t, s, q) && PortTo(t, s, p) == PortTo(t, s, q) ==> p == q)
  }

  /** Datapath identifiers tell the switches apart, and addresses the hosts. */
  ghost predicate Identified(t: Topology)
  {
    && (forall s, p :: IsSwitch(t, s) && IsSwitch(t, p) && Dpid(t, s) == Dpid(t, p) ==> s == p)
    && (forall k, l :: 0 <= k < l < |t.hosts| ==> t.hosts[k].eth != t.hosts[l].eth && t.hosts[k].name != t.hosts[l].name)
    && (forall i, j :: 0 <= i < j < |t.cores| ==> t.cores[i].name != t.cores[j].name)
  }

  /** Host `k` hangs off edge switch `j`, and that switch lists it. */
  predicate Home(t: Topology, k: nat, j: nat)
  {
    k < |t.hosts| && j < |t.edges| && t.hosts[k].switch == t.edges[j].name && t.hosts[k].name in t.edges[j].neighbors
  }

  predicate HasHome(t: Topology, k: nat)
  {
    exists j: nat :: j < |t.edges| && Home(t, k, j)
  }

  ghost predicate Housed(t: Topology)
  {
    && (forall k: nat :: k < |t.hosts| ==> HasHome(t, k))
    && (forall j, n :: 0 <= j < |t.edges| && n in t.edges[j].neighbors ==>
          exists k: nat :: Home(t, k, j) && t.hosts[k].name == n)
    && (forall j, a, b :: 0 <= j < |t.edges| && 0 <= a < b < |t.edges[j].neighbors| ==>
          t.edges[j].neighbors[a] != t.edges[j].neighbors[b])
    && (forall i, j :: 0 <= i < j < |t.edges| ==> t.edges[i].name != t.edges[j].name)
  }

  ghost predicate WellFormed(t: Topology)
  {
    |t.cores| > 0 && Wired(t) && Identified(t) && Housed(t)
  }

  // ---------------------------------------------------------------- what a switch does

  predicate Matches(r: Rule, pkt: Packet, inport: nat)
  {
    match r.match_
    case Dst(e) => pkt.dst == e
    case Src(e) => pkt.src == e
    case InPort(p) => inport == p
    case Any => true
  }

  /** `r` matches, and no matching rule of the table has higher priority. */
  ghost predicate Selected(table: seq<Rule>, pkt: Packet, inport: nat, r: Rule)
  {
    r in table && Matches(r, pkt, inport) &&
    forall q :: q in table && Matches(q, pkt, inport) ==> q.priority <= r.priority
  }

  /** What the table does with the packet: some selected rule acts; a packet no rule matches is dropped. */
  ghost function Action(table: seq<Rule>, pkt: Packet, inport: nat): seq<Output>
  {
    if exists r :: Selected(table, pkt, inport, r) then
      var r :| Selected(table, pkt, inport, r);
      r.output
    else []
  }

  /** The neighbours of a switch, in order. */
  function Neighbors(t: Topology, s: Place): seq<Place>
    requires IsSwitch(t, s)
  {
    if s.Core? then seq(|t.edges|, j requires 0 <= j => Edge(j))
    else seq(|t.cores|, i requires 0 <= i => Core(i)) + Hosts(t.edges[s.j].neighbors)
  }

  function Hosts(names: seq<string>): seq<Place>
  {
    seq(|names|, k requires 0 <= k < |names| => At(names[k]))
  }

  /** Those of `ps` that are not on port `inport` of switch `s`. */
  function Except(t: Topology, s: Place, ps: seq<Place>, inport: nat): seq<Place>
    requires IsSwitch(t, s) && forall p :: p in ps ==> IsPlace(t, p) && HasPort(t, s, p)
  {
    if ps == [] then []
    else (if PortTo(t, s, ps[0]) == inport then [] else [ps[0]]) + Except(t, s, ps[1..], inport)
  }

  ghost function Peers(t: Topology, s: Place, out: seq<Output>, inport: nat): seq<Place>
    requires Wired(t) && Housed(t) && IsSwitch(t, s)
  {
    if out == [] then []
    else
      (match out[0]
       case Flood => NeighborsLinked(t, s); Except(t, s, Neighbors(t, s), inport)
       case Port(n) => if exists p :: Linked(t, s, p) && PortTo(t, s, p) == n
                       then var p :| Linked(t, s, p) && PortTo(t, s, p) == n; [p] else [])
      + Peers(t, s, out[1..], inport)
  }

  lemma NeighborsLinked(t: Topology, s: Place)
    requires Wired(t) && Housed(t) && IsSwitch(t, s)
    ensures forall p :: p in Neighbors(t, s) ==> Linked(t, s, p)
  {
    forall p | p in Neighbors(t, s) ensures Linked(t, s, p) {
      if s.Edge? && p.At? {
        assert p.host in t.edges[s.j].neighbors;
        var k: nat :| Home(t, k, s.j) && t.hosts[k].name == p.host;
      }
    }
  }

  /** The rules a switch holds; a switch the table does not mention holds none. */
  function TableAt(t: Topology, rt: map<nat, seq<Rule>>, s: Place): seq<Rule>
    requires IsSwitch(t, s)
  {
    if Dpid(t, s) in rt then rt[Dpid(t, s)] else []
  }

  /** Where the copies go that switch `s` makes of a packet coming in by `inport`. */
  ghost function Next(t: Topology, rt: map<nat, seq<Rule>>, pkt: Packet, s: Place, inport: nat): seq<Place>
    requires Wired(t) && Housed(t) && IsSwitch(t, s)
  {
    Peers(t, s, Action(TableAt(t, rt, s), pkt, inport), inport)
  }

  lemma {:induction false} PeersLinked(t: Topology, s: Place, out: seq<Output>, inport: nat)
    requires Wired(t) && Housed(t) && IsSwitch(t, s)
    ensures forall p :: p in Peers(t, s, out, inport) ==> Linked(t, s, p)
  {
    if out != [] {
      PeersLinked(t, s, out[1..], inport);
      NeighborsLinked(t, s);
      ExceptWithin(t, s, Neighbors(t, s), inport);
    }
  }

  lemma {:induction false} ExceptWithin(t: Topology, s: Place, ps: seq<Place>, inport: nat)
    requires IsSwitch(t, s) && forall p :: p in ps ==> IsPlace(t, p) && HasPort(t, s, p)
    ensures forall p :: p in Except(t, s, ps, inport) <==> p in ps && PortTo(t, s, p) != inport
  {
    if ps != [] {
      ExceptWithin(t, s, ps[1..], inport);
    }
  }

  /** Cables have two ends. */
  lemma LinkedBack(t: Topology, s: Place, p: Place)
    requires Wired(t) && Linked(t, s, p) && !p.At?
    ensures Linked(t, p, s) && HasPort(t, p, s)
  {
  }

  // ---------------------------------------------------------------- the journey of a packet

  /**
   How many copies of the packet reach host `x`, when a copy enters switch `s` by `inport` and each
   copy may still pass `hops` switches.
   */
  ghost function Copies(t: Topology, rt: map<nat, seq<Rule>>, pkt: Packet, s: Place, inport: nat, x: string, hops: nat): nat
    requires Wired(t) && Housed(t) && IsSwitch(t, s)
    decreases hops, 1, 0
  {
    if hops == 0 then 0
    else
      var next := Next(t, rt, pkt, s, inport);
      PeersLinked(t, s, Action(TableAt(t, rt, s), pkt, inport), inport);
      CopiesVia(t, rt, pkt, s, next, x, hops)
  }

  ghost function CopiesVia(t: Topology, rt: map<nat, seq<Rule>>, pkt: Packet, s: Place, next: seq<Place>, x: string,
                           hops: nat): nat
    requires Wired(t) && Housed(t) && IsSwitch(t, s) && hops > 0 && forall p :: p in next ==> Linked(t, s, p)
    decreases hops, 0, |next|
  {
    if next == [] then 0
    else CopiesTo(t, rt, pkt, s, next[0], x, hops) + CopiesVia(t, rt, pkt, s, next[1..], x, hops)
  }

  ghost function CopiesTo(t: Topology, rt: map<nat, seq<Rule>>, pkt: Packet, s: Place, p: Place, x: string, hops: nat): nat
    requires Wired(t) && Housed(t) && hops > 0 && Linked(t, s, p)
    decreases hops, 0, 0
  {
    if p.At? then (if p.host == x then 1 else 0)
    else
      LinkedBack(t, s, p);
      Copies(t, rt, pkt, p, PortTo(t, p, s), x, hops - 1)
  }

  /**
   Every copy comes to an end after at most `hops` switches, and no copy visits a switch twice; the
   switches in `visited` are those it has been at.
   */
  ghost predicate Ends(t: Topology, rt: map<nat, seq<Rule>>, pkt: Packet, s: Place, inport: nat, visited: set<Place>, hops: nat)
    requires Wired(t) && Housed(t) && IsSwitch(t, s)
    decreases hops
  {
    hops > 0 && s !in visited &&
    forall p :: p in Next(t, rt, pkt, s, inport) ==>
      p.At? || (Linked(t, p, s) && Ends(t, rt, pkt, p, PortTo(t, p, s), visited + {s}, hops - 1))
  }

  /** Once every copy has ended, allowing more hops changes nothing. */
  lemma {:induction false} MoreHops(t: Topology, rt: map<nat, seq<Rule>>, pkt: Packet, s: Place, inport: nat,
                                    visited: set<Place>, x: string, hops: nat, more: nat)
    requires Wired(t) && Housed(t) && IsSwitch(t, s) && hops <= more && Ends(t, rt, pkt, s, inport, visited, hops)
    ensures Copies(t, rt, pkt, s, inport, x, more) == Copies(t, rt, pkt, s, inport, x, hops)
    decreases hops, 1, 0
  {
    PeersLinked(t, s, Action(TableAt(t, rt, s), pkt, inport), inport);
    MoreHopsVia(t, rt, pkt, s, Next(t, rt, pkt, s, inport), visited + {s}, x, hops, more);
  }

  lemma {:induction false} MoreHopsVia(t: Topology, rt: map<nat, seq<Rule>>, pkt: Packet, s: Place, next: seq<Place>,
                                       visited: set<Place>, x: string, hops: nat, more: nat)
    requires Wired(t) && Housed(t) && IsSwitch(t, s) && 0 < hops <= more && forall p :: p in next ==> Linked(t, s, p)
    requires forall p :: p in next ==>
      p.At? || (Linked(t, p, s) && Ends(t, rt, pkt, p, PortTo(t, p, s), visited, hops - 1))
    ensures CopiesVia(t, rt, pkt, s, next, x, more) == CopiesVia(t, rt, pkt, s, next, x, hops)
    decreases hops, 0, |next|
  {
    if next != [] {
      var p := next[0];
      if !p.At? {
        LinkedBack(t, s, p);
        MoreHops(t, rt, pkt, p, PortTo(t, p, s), visited, x, hops - 1, more - 1);
      }
      MoreHopsVia(t, rt, pkt, s, next[1..], visited, x, hops, more);
    }
  }
}
