/**
 The fat-tree network as the emulator builds it (emulated-sdn-application/minidc/topo.py over
 ext/mininet/mininet/topo.py), where a port number is the number of links a node already has.
 */
module FatTree {
  import opened Collections
  import opened Decimal
  import opened Natural

  type Link = (string, string)
  type PortRow<T> = map<nat, (T, nat)>          // what is at each port: the node there, and its port
  type Ports<T> = map<T, PortRow<T>>

  // ---------------------------------------------------------------- port assignment

  /** The neighbours of `x` in the order of its links. */
  function Neighbors<T(==)>(links: seq<(T, T)>, x: T): seq<T>
  {
    if links == [] then []
    else
      var n := |links| - 1;
      Neighbors(links[..n], x) + Extra(links[n], x)
  }

  function Extra<T(==)>(l: (T, T), x: T): seq<T>
  {
    if x == l.0 then [l.1] else if x == l.1 then [l.0] else []
  }

  function Base<T(==)>(switches: set<T>, x: T): nat
  {
    if x in switches then 1 else 0
  }

  function Row<T(==)>(ports: Ports<T>, x: T): PortRow<T>
  {
    if x in ports then ports[x] else map[]
  }

  /** `ports` with one more link, at the given port of each end. */
  function WithLink<T(==)>(ports: Ports<T>, l: (T, T), sport: nat, dport: nat): Ports<T>
  {
    ports[l.0 := Row(ports, l.0)[sport := (l.1, dport)]][l.1 := Row(ports, l.1)[dport := (l.0, sport)]]
  }

  /** The ports after a sequence of links: each link takes the next free number at both ends. */
  function PortsAfter<T(==)>(links: seq<(T, T)>, switches: set<T>): Ports<T>
  {
    if links == [] then map[]
    else
      var n := |links| - 1;
      var ports := PortsAfter(links[..n], switches);
      WithLink(ports, links[n], |Row(ports, links[n].0)| + Base(switches, links[n].0),
               |Row(ports, links[n].1)| + Base(switches, links[n].1))
  }

  /** A row of ports that leads, from number `base` on, to the nodes of `list` in order, and nowhere else. */
  ghost predicate Lists<T>(row: PortRow<T>, list: seq<T>, base: nat)
  {
    && |row| == |list|
    && (forall p :: p in row <==> base <= p < base + |list|)
    && (forall p :: p in row ==> row[p].0 == list[p - base])
  }

  lemma RowAppend<T>(row: PortRow<T>, list: seq<T>, base: nat, x: T, back: nat)
    requires Lists(row, list, base)
    ensures Lists(row[|row| + base := (x, back)], list + [x], base)
  {
    var r := row[|row| + base := (x, back)];
    assert |row| + base !in row;
    assert |r| == |row| + 1;
  }

  lemma RowWithLink<T>(ports: Ports<T>, l: (T, T), sport: nat, dport: nat, x: T)
    requires l.0 != l.1
    ensures Row(WithLink(ports, l, sport, dport), x)
         == if x == l.0 then Row(ports, x)[sport := (l.1, dport)]
            else if x == l.1 then Row(ports, x)[dport := (l.0, sport)] else Row(ports, x)
  {
  }

  lemma OneMoreLink<T>(ports: Ports<T>, l: (T, T), switches: set<T>, list: seq<T>, x: T)
    requires l.0 != l.1 && Lists(Row(ports, x), list, Base(switches, x))
    ensures var after := WithLink(ports, l, |Row(ports, l.0)| + Base(switches, l.0), |Row(ports, l.1)| + Base(switches, l.1));
            Lists(Row(after, x), list + Extra(l, x), Base(switches, x))
  {
    hide WithLink, Lists;
    var sport, dport := |Row(ports, l.0)| + Base(switches, l.0), |Row(ports, l.1)| + Base(switches, l.1);
    RowWithLink(ports, l, sport, dport, x);
    if x == l.0 {
      RowAppend(Row(ports, x), list, Base(switches, x), l.1, dport);
    } else if x == l.1 {
      RowAppend(Row(ports, x), list, Base(switches, x), l.0, sport);
    } else {
      assert list + [] == list;
    }
  }

  lemma LastLink<T>(links: seq<(T, T)>, switches: set<T>, x: T)
    requires links != []
    ensures var n := |links| - 1;
      var ports := PortsAfter(links[..n], switches);
      && PortsAfter(links, switches) == WithLink(ports, links[n], |Row(ports, links[n].0)| + Base(switches, links[n].0),
                                                 |Row(ports, links[n].1)| + Base(switches, links[n].1))
      && Neighbors(links, x) == Neighbors(links[..n], x) + Extra(links[n], x)
  {
  }

  lemma LastLinkListed<T>(links: seq<(T, T)>, switches: set<T>, x: T)
    requires links != [] && links[|links| - 1].0 != links[|links| - 1].1
    requires var before := links[..|links| - 1];
      Lists(Row(PortsAfter(before, switches), x), Neighbors(before, x), Base(switches, x))
    ensures Lists(Row(PortsAfter(links, switches), x), Neighbors(links, x), Base(switches, x))
  {
    LastLink(links, switches, x);
    hide PortsAfter, Neighbors, Lists, Row, WithLink;
    var n := |links| - 1;
    OneMoreLink(PortsAfter(links[..n], switches), links[n], switches, Neighbors(links[..n], x), x);
  }

  /** Real ports are numbered in the order of a node's links: switches from 1, hosts from 0. */
  lemma {:induction false} PortsFollowLinks<T>(links: seq<(T, T)>, switches: set<T>, x: T)
    requires forall l :: l in links ==> l.0 != l.1
    ensures Lists(Row(PortsAfter(links, switches), x), Neighbors(links, x), Base(switches, x))
  {
    if links != [] {
      hide PortsAfter, Neighbors, Lists, Row;
      var n := |links| - 1;
      assert links[n] in links;
      PortsFollowLinks(links[..n], switches, x);
      LastLinkListed(links, switches, x);
    }
  }

  /** Every cable has two ends, each of which says where the other is. */
  ghost predicate TwoEnds<T(!new)>(ports: Ports<T>)
  {
    forall x, p :: p in Row(ports, x) ==> BackAt(ports, x, p)
  }

  predicate BackAt<T(==)>(ports: Ports<T>, x: T, p: nat)
    requires p in Row(ports, x)
  {
    var (y, q) := Row(ports, x)[p];
    q in Row(ports, y) && Row(ports, y)[q] == (x, p)
  }

  lemma FreshPort<T>(row: PortRow<T>, list: seq<T>, base: nat)
    requires Lists(row, list, base)
    ensures |row| + base !in row
  {
  }

  lemma BackStays<T(!new)>(ports: Ports<T>, l: (T, T), sport: nat, dport: nat, x: T, p: nat)
    requires TwoEnds(ports) && l.0 != l.1 && sport !in Row(ports, l.0) && dport !in Row(ports, l.1)
    requires p in Row(WithLink(ports, l, sport, dport), x)
    ensures BackAt(WithLink(ports, l, sport, dport), x, p)
  {
    hide WithLink, Row;
    RowWithLink(ports, l, sport, dport, l.0);
    RowWithLink(ports, l, sport, dport, l.1);
    RowWithLink(ports, l, sport, dport, x);
    if p in Row(ports, x) {
      assert BackAt(ports, x, p);
      RowWithLink(ports, l, sport, dport, Row(ports, x)[p].0);
    }
  }

  ghost predicate ListedAt<T(!new)>(links: seq<(T, T)>, switches: set<T>, x: T)
  {
    Lists(Row(PortsAfter(links, switches), x), Neighbors(links, x), Base(switches, x))
  }

  lemma {:induction false} CablesHaveTwoEnds<T(!new)>(links: seq<(T, T)>, switches: set<T>)
    requires forall l :: l in links ==> l.0 != l.1
    ensures TwoEnds(PortsAfter(links, switches))
  {
    if links != [] {
      hide PortsAfter, Neighbors, Lists, Row, WithLink, TwoEnds;
      var n := |links| - 1;
      var l, before := links[n], links[..n];
      assert l in links;
      CablesHaveTwoEnds(before, switches);
      PortsFollowLinks(before, switches, l.0);
      PortsFollowLinks(before, switches, l.1);
      LastCable(links, switches);
    }
  }

  lemma LastCable<T(!new)>(links: seq<(T, T)>, switches: set<T>)
    requires links != []
    requires var l, before := links[|links| - 1], links[..|links| - 1];
      l.0 != l.1 && TwoEnds(PortsAfter(before, switches)) && ListedAt(before, switches, l.0) && ListedAt(before, switches, l.1)
    ensures TwoEnds(PortsAfter(links, switches))
  {
    hide PortsAfter, Neighbors, Lists, Row, WithLink, TwoEnds, Base;
    var n := |links| - 1;
    var l, before := links[n], links[..n];
    LastLink(links, switches, l.0);
    OneMoreCable(PortsAfter(before, switches), l, Neighbors(before, l.0), Neighbors(before, l.1), Base(switches, l.0), Base(switches, l.1));
  }

  lemma OneMoreCable<T(!new)>(ports: Ports<T>, l: (T, T), list0: seq<T>, list1: seq<T>, base0: nat, base1: nat)
    requires TwoEnds(ports) && l.0 != l.1 && Lists(Row(ports, l.0), list0, base0) && Lists(Row(ports, l.1), list1, base1)
    ensures TwoEnds(WithLink(ports, l, |Row(ports, l.0)| + base0, |Row(ports, l.1)| + base1))
  {
    hide Lists, Row, WithLink, BackAt;
    FreshPort(Row(ports, l.0), list0, base0);
    FreshPort(Row(ports, l.1), list1, base1);
    var sport, dport := |Row(ports, l.0)| + base0, |Row(ports, l.1)| + base1;
    forall x, p | p in Row(WithLink(ports, l, sport, dport), x) ensures BackAt(WithLink(ports, l, sport, dport), x, p) {
      BackStays(ports, l, sport, dport, x, p);
    }
  }

  // ---------------------------------------------------------------- the layout

  function FirstSwitch(n: nat, hostsPerEdge: nat): nat
  {
    if n * hostsPerEdge + 1 > 101 then n * hostsPerEdge + 1 else 101
  }

  function Names(letter: char, first: nat, count: nat): (r: seq<string>)
    ensures |r| == count
  {
    seq(count, k requires 0 <= k < count => Numbered(letter, first + k))
  }

  function CoreLinks<T>(core: T, edges: seq<T>): (r: seq<(T, T)>)
    ensures |r| == |edges|
  {
    seq(|edges|, j requires 0 <= j < |edges| => (core, edges[j]))
  }

  /** Each core switch in turn to every edge switch. */
  function SwitchLinks<T>(cores: seq<T>, edges: seq<T>): seq<(T, T)>
  {
    if cores == [] then []
    else SwitchLinks(cores[..|cores| - 1], edges) + CoreLinks(cores[|cores| - 1], edges)
  }

  function HostName(h: nat): string
  {
    Numbered('h', h)
  }

  /** Hosts 1 to `m` in turn to the edge switch that their number picks. */
  function LinksTo<T>(edges: seq<T>, host: nat -> T, m: nat): seq<(T, T)>
    requires edges != []
  {
    if m == 0 then [] else LinksTo(edges, host, m - 1) + [(edges[Pick(m, |edges|)], host(m))]
  }

  function HostLinks(edges: seq<string>, m: nat): seq<Link>
    requires edges != []
  {
    LinksTo(edges, HostName, m)
  }

  /** The hosts among 1 to `m` that hang off edge switch number `j` of `n`. */
  function HangingOff<T>(host: nat -> T, j: nat, n: nat, m: nat): seq<T>
    requires n > 0
  {
    if m == 0 then [] else HangingOff(host, j, n, m - 1) + if Pick(m, n) == j then [host(m)] else []
  }

  function HostsAt(j: nat, n: nat, m: nat): seq<string>
    requires n > 0
  {
    HangingOff(HostName, j, n, m)
  }

  /** The index of the edge switch that host number `h` goes to. */
  function Pick(h: nat, n: nat): (r: nat)
    requires n > 0
    ensures r < n
  {
    h % n
  }

  ghost predicate Injective<T>(host: nat -> T)
  {
    forall g: nat, h: nat :: host(g) == host(h) ==> g == h
  }

  /** Switches do not clash with each other or with hosts, nor hosts with each other. */
  ghost predicate Apart<T>(cores: seq<T>, edges: seq<T>, host: nat -> T)
  {
    && edges != [] && Distinct(cores) && Distinct(edges)
    && (forall c :: c in cores ==> c !in edges)
    && (forall h: nat :: host(h) !in cores && host(h) !in edges)
    && Injective(host)
  }

  ghost predicate Separate(cores: seq<string>, edges: seq<string>)
  {
    Apart(cores, edges, HostName)
  }

  lemma {:induction false} NeighborsConcat<T>(a: seq<(T, T)>, b: seq<(T, T)>, x: T)
    ensures Neighbors(a + b, x) == Neighbors(a, x) + Neighbors(b, x)
  {
    if b == [] {
      assert a + b == a;
    } else {
      var n := |b| - 1;
      assert (a + b)[..|a + b| - 1] == a + b[..n];
      NeighborsConcat(a, b[..n], x);
    }
  }

  lemma {:induction false} CoreLinkNeighbors<T>(core: T, edges: seq<T>, x: T)
    requires Distinct(edges) && core !in edges
    ensures Neighbors(CoreLinks(core, edges), x) == if x == core then edges else if x in edges then [core] else []
  {
    if edges != [] {
      var n := |edges| - 1;
      assert CoreLinks(core, edges)[..n] == CoreLinks(core, edges[..n]);
      CoreLinkNeighbors(core, edges[..n], x);
      assert edges == edges[..n] + [edges[n]];
    }
  }

  lemma LastNotBefore<T>(front: seq<T>, last: T)
    requires Distinct(front + [last])
    ensures last !in front
  {
    var all := front + [last];
    forall i | 0 <= i < |front| ensures front[i] != last {
      assert all[i] == front[i] && all[|front|] == last;
    }
  }

  lemma OneMoreCore<T>(front: seq<T>, core: T, edges: seq<T>, x: T, before: seq<T>, last: seq<T>)
    requires Distinct(front + [core]) && (forall c :: c in front + [core] ==> c !in edges)
    requires before == (if x in front then edges else if x in edges then front else [])
    requires last == (if x == core then edges else if x in edges then [core] else [])
    ensures before + last == if x in front + [core] then edges else if x in edges then front + [core] else []
  {
    assert core in front + [core];
    LastNotBefore(front, core);
    if x in front {
      assert x in front + [core];
    }
  }

  lemma SwitchLinksLast<T>(cores: seq<T>, edges: seq<T>, x: T)
    requires cores != []
    ensures var n := |cores| - 1;
      Neighbors(SwitchLinks(cores, edges), x) == Neighbors(SwitchLinks(cores[..n], edges), x) + Neighbors(CoreLinks(cores[n], edges), x)
  {
    var n := |cores| - 1;
    NeighborsConcat(SwitchLinks(cores[..n], edges), CoreLinks(cores[n], edges), x);
  }

  lemma {:induction false} SwitchLinkNeighbors<T>(cores: seq<T>, edges: seq<T>, x: T)
    requires Distinct(cores) && Distinct(edges) && forall c :: c in cores ==> c !in edges
    ensures Neighbors(SwitchLinks(cores, edges), x) == if x in cores then edges else if x in edges then cores else []
  {
    if cores != [] {
      var n := |cores| - 1;
      assert cores == cores[..n] + [cores[n]];
      SwitchLinkNeighbors(cores[..n], edges, x);
      CoreLinkNeighbors(cores[n], edges, x);
      SwitchLinksLast(cores, edges, x);
      OneMoreCore(cores[..n], cores[n], edges, x, Neighbors(SwitchLinks(cores[..n], edges), x), Neighbors(CoreLinks(cores[n], edges), x));
    }
  }

  lemma LinksToLast<T>(edges: seq<T>, host: nat -> T, m: nat, x: T)
    requires edges != [] && m > 0
    ensures Neighbors(LinksTo(edges, host, m), x)
         == Neighbors(LinksTo(edges, host, m - 1), x) + Extra((edges[Pick(m, |edges|)], host(m)), x)
  {
    var links := LinksTo(edges, host, m);
    assert links[..|links| - 1] == LinksTo(edges, host, m - 1);
  }

  lemma {:induction false} LinksAtEdge<T>(edges: seq<T>, host: nat -> T, m: nat, j: nat)
    requires Distinct(edges) && j < |edges| && forall h: nat :: host(h) !in edges
    ensures Neighbors(LinksTo(edges, host, m), edges[j]) == HangingOff(host, j, |edges|, m)
  {
    if m > 0 {
      LinksAtEdge(edges, host, m - 1, j);
      LinksToLast(edges, host, m, edges[j]);
      ExtraAtEdge(edges, Pick(m, |edges|), j, host(m));
    }
  }

  lemma ExtraAtEdge<T>(edges: seq<T>, e: nat, j: nat, host: T)
    requires Distinct(edges) && e < |edges| && j < |edges| && host !in edges
    ensures Extra((edges[e], host), edges[j]) == if e == j then [host] else []
  {
    assert edges[j] in edges;
  }

  lemma OtherLink<T>(edges: seq<T>, host: T, e: nat, c: T)
    requires e < |edges| && c !in edges && host != c
    ensures Extra((edges[e], host), c) == []
  {
    assert edges[e] in edges;
  }

  lemma NothingMore<T>(x: seq<T>, y: seq<T>)
    requires x == [] && y == []
    ensures x + y == []
  {
  }

  lemma {:induction false} LinksElsewhere<T>(edges: seq<T>, host: nat -> T, m: nat, c: T)
    requires edges != [] && c !in edges && forall h: nat :: host(h) != c
    ensures Neighbors(LinksTo(edges, host, m), c) == []
  {
    if m > 0 {
      OtherLink(edges, host(m), Pick(m, |edges|), c);
      LinksToLast(edges, host, m, c);
      LinksElsewhere(edges, host, m - 1, c);
      NothingMore(Neighbors(LinksTo(edges, host, m - 1), c), Extra((edges[Pick(m, |edges|)], host(m)), c));
    }
  }

  lemma ExtraAtHost<T>(edges: seq<T>, e: nat, host: nat -> T, m: nat, g: nat)
    requires e < |edges| && Injective(host) && forall h: nat :: host(h) !in edges
    ensures Extra((edges[e], host(m)), host(g)) == if g == m then [edges[e]] else []
  {
    assert edges[e] in edges;
  }

  lemma {:induction false} LinksAtHost<T>(edges: seq<T>, host: nat -> T, m: nat, g: nat)
    requires edges != [] && Injective(host) && forall h: nat :: host(h) !in edges
    ensures Neighbors(LinksTo(edges, host, m), host(g)) == if 1 <= g <= m then [edges[Pick(g, |edges|)]] else []
  {
    if m > 0 {
      hide Neighbors, LinksTo, Pick;
      LinksAtHost(edges, host, m - 1, g);
      LinksToLast(edges, host, m, host(g));
      ExtraAtHost(edges, Pick(m, |edges|), host, m, g);
    }
  }

  lemma HostNamesDiffer()
    ensures Injective(HostName)
  {
    forall g: nat, h: nat | HostName(g) == HostName(h) ensures g == h {
      NumberedOrder('h', g, h);
    }
  }

  /** The links between switches come before any others. */
  lemma SwitchesFirst<T>(cores: seq<T>, edges: seq<T>, others: seq<(T, T)>, x: T)
    requires Distinct(cores) && Distinct(edges) && forall c :: c in cores ==> c !in edges
    ensures Neighbors(SwitchLinks(cores, edges) + others, x)
         == (if x in cores then edges else if x in edges then cores else []) + Neighbors(others, x)
  {
    SwitchLinkNeighbors(cores, edges, x);
    NeighborsConcat(SwitchLinks(cores, edges), others, x);
  }

  lemma CoreLayout<T>(cores: seq<T>, edges: seq<T>, host: nat -> T, m: nat, c: T)
    requires Apart(cores, edges, host) && c in cores
    ensures Neighbors(SwitchLinks(cores, edges) + LinksTo(edges, host, m), c) == edges
  {
    SwitchesFirst(cores, edges, LinksTo(edges, host, m), c);
    LinksElsewhere(edges, host, m, c);
    assert edges + [] == edges;
  }

  lemma EdgeLayout<T>(cores: seq<T>, edges: seq<T>, host: nat -> T, m: nat, j: nat)
    requires Apart(cores, edges, host) && j < |edges|
    ensures Neighbors(SwitchLinks(cores, edges) + LinksTo(edges, host, m), edges[j]) == cores + HangingOff(host, j, |edges|, m)
  {
    SwitchesFirst(cores, edges, LinksTo(edges, host, m), edges[j]);
    LinksAtEdge(edges, host, m, j);
    assert edges[j] in edges;
  }

  lemma HostLayout<T>(cores: seq<T>, edges: seq<T>, host: nat -> T, m: nat, g: nat)
    requires Apart(cores, edges, host)
    ensures Neighbors(SwitchLinks(cores, edges) + LinksTo(edges, host, m), host(g))
         == if 1 <= g <= m then [edges[Pick(g, |edges|)]] else []
  {
    SwitchesFirst(cores, edges, LinksTo(edges, host, m), host(g));
    LinksAtHost(edges, host, m, g);
    var there := Neighbors(LinksTo(edges, host, m), host(g));
    assert [] + there == there;
  }

  /** What each node is linked to, in order, in the finished network with hosts h1..hm. */
  lemma Layout(cores: seq<string>, edges: seq<string>, m: nat)
    requires Separate(cores, edges)
    ensures var links := SwitchLinks(cores, edges) + HostLinks(edges, m);
      && (forall c :: c in cores ==> Neighbors(links, c) == edges)
      && (forall j :: 0 <= j < |edges| ==> Neighbors(links, edges[j]) == cores + HostsAt(j, |edges|, m))
      && (forall g: nat :: Neighbors(links, HostName(g)) == if 1 <= g <= m then [edges[g % |edges|]] else [])
  {
    forall c | c in cores ensures Neighbors(SwitchLinks(cores, edges) + HostLinks(edges, m), c) == edges {
      CoreLayout(cores, edges, HostName, m, c);
    }
    forall j | 0 <= j < |edges|
      ensures Neighbors(SwitchLinks(cores, edges) + HostLinks(edges, m), edges[j]) == cores + HostsAt(j, |edges|, m)
    {
      EdgeLayout(cores, edges, HostName, m, j);
    }
    forall g: nat
      ensures Neighbors(SwitchLinks(cores, edges) + HostLinks(edges, m), HostName(g))
           == if 1 <= g <= m then [edges[g % |edges|]] else []
    {
      HostLayout(cores, edges, HostName, m, g);
    }
  }

  // ---------------------------------------------------------------- which hosts hang off which switch

  lemma MultiplesApart(d: nat, q: nat, n: nat)
    requires d < q
    ensures d * n + n <= q * n
  {
    assert q * n == d * n + n + (q - d - 1) * n;
    assert (q - d - 1) * n >= 0;
  }

  lemma OneRemainder(d: nat, s: nat, q: nat, r: nat, n: nat)
    requires d * n + s == q * n + r && s < n && r < n
    ensures s == r
  {
    if d < q {
      MultiplesApart(d, q, n);
    } else if q < d {
      MultiplesApart(q, d, n);
    }
  }

  lemma RemainderOf(q: nat, n: nat, r: nat)
    requires r < n
    ensures (q * n + r) % n == r
  {
    var x := q * n + r;
    OneRemainder(x / n, x % n, q, r, n);
  }

  /** Edge switch number `j` of `n` has exactly the hosts whose number leaves that remainder. */
  lemma {:induction false} WhoHangsOff<T>(host: nat -> T, j: nat, n: nat, m: nat, g: nat)
    requires n > 0 && Injective(host)
    ensures host(g) in HangingOff(host, j, n, m) <==> 1 <= g <= m && g % n == j
  {
    if m > 0 {
      WhoHangsOff(host, j, n, m - 1, g);
    }
  }

  lemma {:induction false} HowManyHangOff<T>(host: nat -> T, j: nat, n: nat, q: nat, r: nat)
    requires j < n && r < n
    ensures |HangingOff(host, j, n, q * n + r)| == q + if 1 <= j <= r then 1 else 0
    decreases q, r
  {
    RemainderOf(q, n, r);
    if r > 0 {
      HowManyHangOff(host, j, n, q, r - 1);
    } else if q > 0 {
      assert q * n + r == ((q - 1) * n + (n - 1)) + 1;
      HowManyHangOff(host, j, n, q - 1, n - 1);
    }
  }

  /** Host `g` hangs off edge switch number `g % n`, and off no other. */
  lemma HostsByRemainder(j: nat, n: nat, m: nat, g: nat)
    requires n > 0
    ensures HostName(g) in HostsAt(j, n, m) <==> 1 <= g <= m && g % n == j
  {
    HostNamesDiffer();
    WhoHangsOff(HostName, j, n, m, g);
  }

  /** Every edge switch gets its share: `hostsPerEdge` of them. */
  lemma EvenShares(j: nat, n: nat, hostsPerEdge: nat)
    requires j < n
    ensures |HostsAt(j, n, n * hostsPerEdge)| == hostsPerEdge
  {
    hide HangingOff, HostName;
    HowManyHangOff(HostName, j, n, hostsPerEdge, 0);
    assert hostsPerEdge * n == n * hostsPerEdge;
  }

  /** Switches are numbered after all hosts, and from 101 at least: no number is used twice. */
  lemma NumberedAfterHosts(n: nat, hostsPerEdge: nat, g: nat)
    requires g <= n * hostsPerEdge
    ensures g < FirstSwitch(n, hostsPerEdge) && 101 <= FirstSwitch(n, hostsPerEdge)
    ensures FirstSwitch(n, hostsPerEdge) != 101 ==> FirstSwitch(n, hostsPerEdge) - 1 == n * hostsPerEdge
  {
  }

  // ---------------------------------------------------------------- building it

  function Adjacent<T(==)>(links: map<T, seq<T>>, x: T): seq<T>
  {
    if x in links then links[x] else []
  }

  ghost predicate SameLinks<T(!new)>(links: map<T, seq<T>>, trace: seq<(T, T)>)
  {
    forall x :: Adjacent(links, x) == Neighbors(trace, x)
  }

  lemma NeighborsStep<T>(trace: seq<(T, T)>, l: (T, T), x: T)
    ensures Neighbors(trace + [l], x) == Neighbors(trace, x) + Extra(l, x)
  {
    assert (trace + [l])[..|trace|] == trace;
  }

  lemma AdjacentStep<T(!new)>(links: map<T, seq<T>>, trace: seq<(T, T)>, l: (T, T))
    requires SameLinks(links, trace) && l.0 != l.1
    ensures SameLinks(links[l.0 := Adjacent(links, l.0) + [l.1]][l.1 := Adjacent(links, l.1) + [l.0]], trace + [l])
  {
    var after := links[l.0 := Adjacent(links, l.0) + [l.1]][l.1 := Adjacent(links, l.1) + [l.0]];
    forall x ensures Adjacent(after, x) == Neighbors(trace + [l], x) {
      NeighborsStep(trace, l, x);
      assert Adjacent(links, x) == Neighbors(trace, x);
      assert Adjacent(after, x) == Adjacent(links, x) + Extra(l, x);
    }
  }

  lemma PortsAfterStep<T>(trace: seq<(T, T)>, l: (T, T), switches: set<T>)
    ensures var ports := PortsAfter(trace, switches);
            PortsAfter(trace + [l], switches)
            == WithLink(ports, l, |Row(ports, l.0)| + Base(switches, l.0), |Row(ports, l.1)| + Base(switches, l.1))
  {
    hide WithLink, Row, Base;
    assert (trace + [l])[..|trace|] == trace;
  }

  function WithRows<T(==)>(ports: Ports<T>, src: T, dst: T): Ports<T>
  {
    ports[src := Row(ports, src)][dst := Row(ports, dst)]
  }

  lemma RowsEnsured<T>(ports: Ports<T>, src: T, dst: T)
    requires src != dst
    ensures var rows := WithRows(ports, src, dst);
      src in rows && dst in rows && rows[src] == Row(ports, src) && rows[dst] == Row(ports, dst)
  {
  }

  /** `ports[x][p] = entry` */
  function SetEntry<T(==)>(ports: Ports<T>, x: T, p: nat, entry: (T, nat)): Ports<T>
    requires x in ports
  {
    ports[x := Row(ports, x)[p := entry]]
  }

  lemma SetBothEnds<T>(ports: Ports<T>, src: T, dst: T, sport: nat, dport: nat)
    requires src != dst
    ensures SetEntry(SetEntry(WithRows(ports, src, dst), src, sport, (dst, dport)), dst, dport, (src, sport))
         == WithLink(ports, (src, dst), sport, dport)
  {
  }

  /** The emulator's network: mininet's port bookkeeping, and the fat tree built with it. */
  class FattreeTopology {
    var switches: set<string>
    var ports: Ports<string>
    var links: map<string, seq<string>>
    var coreSwitches: seq<string>
    var edgeSwitches: seq<string>
    var hosts: seq<string>
    ghost var trace: seq<Link>           // every link added, in order

    ghost predicate Valid()
      reads this
    {
      ports == PortsAfter(trace, switches)
    }

    constructor (numEdgeSwitches: nat, hostsPerEdge: nat)
      requires numEdgeSwitches > 0
      ensures Valid()
      ensures edgeSwitches == Names('s', FirstSwitch(numEdgeSwitches, hostsPerEdge), numEdgeSwitches)
      ensures coreSwitches == Names('s', numEdgeSwitches + FirstSwitch(numEdgeSwitches, hostsPerEdge), numEdgeSwitches - 1)
      ensures hosts == Names('h', 1, numEdgeSwitches * hostsPerEdge)
      ensures switches == set s | s in coreSwitches + edgeSwitches
      ensures trace == SwitchLinks(coreSwitches, edgeSwitches) + HostLinks(edgeSwitches, numEdgeSwitches * hostsPerEdge)
      ensures SameLinks(links, trace)
    {
      switches, ports, links, trace := {}, map[], map[], [];
      coreSwitches, edgeSwitches, hosts := [], [], [];
      new;
      var firstSwitch := FirstSwitch(numEdgeSwitches, hostsPerEdge);
      AddSwitches(numEdgeSwitches, firstSwitch);
      SwitchNamesSeparate(numEdgeSwitches, firstSwitch);
      LinkSwitches();
      AddHosts(numEdgeSwitches * hostsPerEdge, firstSwitch);
    }

    /** The two loops that name the switches. */
    method AddSwitches(n: nat, firstSwitch: nat)
      requires n > 0 && switches == {} && links == map[] && coreSwitches == [] && edgeSwitches == []
      modifies this`switches, this`links, this`coreSwitches, this`edgeSwitches
      ensures edgeSwitches == Names('s', firstSwitch, n) && coreSwitches == Names('s', n + firstSwitch, n - 1)
      ensures switches == set s | s in coreSwitches + edgeSwitches
      ensures forall x :: Adjacent(links, x) == []
    {
      var i := 0;
      while i < n - 1
        invariant 0 <= i <= n - 1 && coreSwitches == Names('s', n + firstSwitch, n - 1)[..i] && edgeSwitches == []
        invariant switches == (set s | s in coreSwitches) && forall x :: x in links ==> links[x] == []
      {
        var switch := Numbered('s', n + firstSwitch + i);
        switches := switches + {switch};
        coreSwitches := coreSwitches + [switch];
        links := links[switch := []];
        i := i + 1;
      }
      var j := 0;
      while j < n
        invariant 0 <= j <= n && edgeSwitches == Names('s', firstSwitch, n)[..j]
        invariant coreSwitches == Names('s', n + firstSwitch, n - 1)
        invariant switches == (set s | s in coreSwitches + edgeSwitches) && forall x :: x in links ==> links[x] == []
      {
        var switch := Numbered('s', firstSwitch + j);
        switches := switches + {switch};
        edgeSwitches := edgeSwitches + [switch];
        links := links[switch := []];
        j := j + 1;
      }
    }

    /** `setdefault` of both rows. */
    method EnsureRows(src: string, dst: string)
      modifies this`ports
      ensures ports == WithRows(old(ports), src, dst)
    {
      if src !in ports {
        ports := ports[src := map[]];
      }
      if dst !in ports {
        ports := ports[dst := map[]];
      }
    }

    /** mininet's `addPort` without explicit numbers: the next free one at each end. */
    method AddPort(src: string, dst: string) returns (sport: nat, dport: nat)
      requires Valid() && src != dst
      modifies this`ports, this`trace
      ensures Valid() && trace == old(trace) + [(src, dst)]
      ensures ports == WithLink(old(ports), (src, dst), sport, dport)
    {
      hide WithLink, WithRows, PortsAfter, Row;
      PortsAfterStep(trace, (src, dst), switches);
      ghost var before := ports;
      trace := trace + [(src, dst)];
      EnsureRows(src, dst);
      RowsEnsured(before, src, dst);
      sport := |ports[src]| + if src in switches then 1 else 0;
      dport := |ports[dst]| + if dst in switches then 1 else 0;
      EnterPorts(src, dst, sport, dport, before);
    }

    method EnterPorts(src: string, dst: string, sport: nat, dport: nat, ghost before: Ports<string>)
      requires src != dst && ports == WithRows(before, src, dst)
      modifies this`ports
      ensures ports == WithLink(before, (src, dst), sport, dport)
    {
      RowsEnsured(before, src, dst);
      SetBothEnds(before, src, dst, sport, dport);
      ports := SetEntry(ports, src, sport, (dst, dport));
      ports := SetEntry(ports, dst, dport, (src, sport));
    }

    /** A link as `build` makes it: a port at each end, and each end in the other's list. */
    method AddLink(src: string, dst: string)
      requires Valid() && src != dst && SameLinks(links, trace)
      modifies this`ports, this`trace, this`links
      ensures Valid() && trace == old(trace) + [(src, dst)] && SameLinks(links, trace)
    {
      AdjacentStep(links, trace, (src, dst));
      var sport, dport := AddPort(src, dst);
      links := links[src := Adjacent(links, src) + [dst]];
      links := links[dst := Adjacent(links, dst) + [src]];
    }

    method LinkSwitches()
      requires Valid() && trace == [] && SameLinks(links, trace)
      requires Separate(coreSwitches, edgeSwitches)
      modifies this`ports, this`trace, this`links
      ensures Valid() && trace == SwitchLinks(coreSwitches, edgeSwitches) && SameLinks(links, trace)
    {
      hide PortsAfter, SameLinks;
      var i := 0;
      while i < |coreSwitches|
        invariant 0 <= i <= |coreSwitches| && Valid() && SameLinks(links, trace)
        invariant trace == SwitchLinks(coreSwitches[..i], edgeSwitches)
      {
        ghost var done := trace;
        var s1 := coreSwitches[i];
        var j := 0;
        while j < |edgeSwitches|
          invariant 0 <= j <= |edgeSwitches| && Valid() && SameLinks(links, trace)
          invariant trace == done + CoreLinks(s1, edgeSwitches)[..j]
        {
          var s2 := edgeSwitches[j];
          assert s1 in coreSwitches && s2 in edgeSwitches;
          AddLink(s1, s2);
          j := j + 1;
        }
        assert coreSwitches[..i + 1][..i] == coreSwitches[..i];
        i := i + 1;
      }
      assert coreSwitches[..i] == coreSwitches;
    }

    method AddHosts(numHosts: nat, firstSwitch: nat)
      requires Valid() && hosts == [] && SameLinks(links, trace)
      requires Separate(coreSwitches, edgeSwitches) && edgeSwitches == Names('s', firstSwitch, |edgeSwitches|)
      requires trace == SwitchLinks(coreSwitches, edgeSwitches)
      modifies this`ports, this`trace, this`links, this`hosts
      ensures Valid() && SameLinks(links, trace) && hosts == Names('h', 1, numHosts)
      ensures trace == old(trace) + HostLinks(edgeSwitches, numHosts)
    {
      var h := 1;
      while h <= numHosts
        invariant 1 <= h <= numHosts + 1 && Valid() && SameLinks(links, trace)
        invariant hosts == Names('h', 1, numHosts)[..h - 1]
        invariant trace == SwitchLinks(coreSwitches, edgeSwitches) + HostLinks(edgeSwitches, h - 1)
      {
        NextHost(h, firstSwitch);
        h := h + 1;
      }
    }

    method NextHost(h: nat, firstSwitch: nat)
      requires h > 0 && Valid() && SameLinks(links, trace)
      requires Separate(coreSwitches, edgeSwitches) && edgeSwitches == Names('s', firstSwitch, |edgeSwitches|)
      requires trace == SwitchLinks(coreSwitches, edgeSwitches) + HostLinks(edgeSwitches, h - 1)
      modifies this`ports, this`trace, this`links, this`hosts
      ensures Valid() && SameLinks(links, trace) && hosts == old(hosts) + [HostName(h)]
      ensures trace == SwitchLinks(coreSwitches, edgeSwitches) + HostLinks(edgeSwitches, h)
    {
      hide SwitchLinks, LinksTo, Neighbors, SameLinks, PortsAfter;
      NextHostUnlinked(coreSwitches, edgeSwitches, HostName, h - 1, h);
      AddHost(h, firstSwitch);
      LinksGrow(coreSwitches, edgeSwitches, HostName, h);
    }

    method AddHost(h: nat, firstSwitch: nat)
      requires h > 0 && Valid() && SameLinks(links, trace)
      requires Separate(coreSwitches, edgeSwitches) && edgeSwitches == Names('s', firstSwitch, |edgeSwitches|)
      requires Neighbors(trace, HostName(h)) == []
      modifies this`ports, this`trace, this`links, this`hosts
      ensures Valid() && SameLinks(links, trace) && hosts == old(hosts) + [HostName(h)]
      ensures trace == old(trace) + [(edgeSwitches[Pick(h, |edgeSwitches|)], HostName(h))]
    {
      var host := Numbered('h', h);
      hosts := hosts + [host];
      var switchNum := firstSwitch + Pick(h, |edgeSwitches|);
      var switch := Numbered('s', switchNum);
      SwitchNamed(edgeSwitches, firstSwitch, Pick(h, |edgeSwitches|));
      HostNotSwitch(coreSwitches, edgeSwitches, HostName, Pick(h, |edgeSwitches|), h);
      AddHostLink(switch, host);
    }

    method AddHostLink(switch: string, host: string)
      requires Valid() && SameLinks(links, trace) && switch != host && Neighbors(trace, host) == []
      modifies this`ports, this`trace, this`links
      ensures Valid() && SameLinks(links, trace) && trace == old(trace) + [(switch, host)]
    {
      FirstLink(links, trace, switch, host);
      var sport, dport := AddPort(switch, host);
      links := links[host := [switch]];
      links := links[switch := Adjacent(links, switch) + [host]];
    }
  }

  lemma SwitchNamed(edges: seq<string>, firstSwitch: nat, p: nat)
    requires p < |edges| && edges == Names('s', firstSwitch, |edges|)
    ensures Numbered('s', firstSwitch + p) == edges[p] && edges[p] in edges
  {
  }

  lemma LinksGrow<T>(cores: seq<T>, edges: seq<T>, host: nat -> T, h: nat)
    requires h > 0 && edges != []
    ensures SwitchLinks(cores, edges) + LinksTo(edges, host, h - 1) + [(edges[Pick(h, |edges|)], host(h))]
         == SwitchLinks(cores, edges) + LinksTo(edges, host, h)
  {
    LinkAppended(SwitchLinks(cores, edges), LinksTo(edges, host, h - 1), (edges[Pick(h, |edges|)], host(h)));
  }

  lemma HostNotSwitch<T>(cores: seq<T>, edges: seq<T>, host: nat -> T, e: nat, h: nat)
    requires Apart(cores, edges, host) && e < |edges|
    ensures edges[e] != host(h)
  {
    assert edges[e] in edges;
  }

  lemma NextHostUnlinked<T>(cores: seq<T>, edges: seq<T>, host: nat -> T, m: nat, h: nat)
    requires Apart(cores, edges, host) && h > m
    ensures Neighbors(SwitchLinks(cores, edges) + LinksTo(edges, host, m), host(h)) == []
  {
    HostLayout(cores, edges, host, m, h);
  }

  lemma LinkAppended<T>(a: seq<(T, T)>, b: seq<(T, T)>, l: (T, T))
    ensures a + b + [l] == a + (b + [l])
  {
  }

  /** A host's list is set, not appended to; it was empty before. */
  lemma FirstLink<T(!new)>(links: map<T, seq<T>>, trace: seq<(T, T)>, switch: T, host: T)
    requires SameLinks(links, trace) && switch != host && Neighbors(trace, host) == []
    ensures SameLinks(links[host := [switch]][switch := Adjacent(links[host := [switch]], switch) + [host]], trace + [(switch, host)])
  {
    AdjacentStep(links, trace, (switch, host));
    var l: map<T, seq<T>> := links[host := [switch]];
    assert Adjacent(l, switch) == Adjacent(links, switch);
    assert Adjacent(links, host) == [];
    assert [] + [switch] == [switch];
    assert l[switch := Adjacent(l, switch) + [host]]
        == links[switch := Adjacent(links, switch) + [host]][host := Adjacent(links, host) + [switch]];
  }

  lemma NamePair(letter: char, x: nat, y: nat)
    requires !IsDigit(letter) && x < y
    ensures Numbered(letter, x) != Numbered(letter, y) && NaturalLeq(Numbered(letter, x), Numbered(letter, y))
    ensures !NaturalLeq(Numbered(letter, y), Numbered(letter, x))
  {
    NumberedOrder(letter, x, y);
    NumberedOrder(letter, y, x);
  }

  lemma NameAt(letter: char, first: nat, count: nat, i: nat)
    requires i < count
    ensures Names(letter, first, count)[i] == Numbered(letter, first + i)
  {
  }

  lemma NamesAscend(letter: char, first: nat, count: nat)
    requires !IsDigit(letter)
    ensures Distinct(Names(letter, first, count)) && Ascending(Names(letter, first, count))
  {
    hide Numbered, NaturalLeq, Names;
    var names := Names(letter, first, count);
    forall i, j | 0 <= i < j < count
      ensures names[i] != names[j] && NaturalLeq(names[i], names[j]) && !NaturalLeq(names[j], names[i])
    {
      NameAt(letter, first, count, i);
      NameAt(letter, first, count, j);
      NamePair(letter, first + i, first + j);
    }
  }

  lemma NumberedStart(letter: char, n: nat)
    ensures |Numbered(letter, n)| > 0 && Numbered(letter, n)[0] == letter
  {
  }

  lemma NamesDiffer(a: seq<string>, first: nat, c: char, n: nat)
    requires a == Names('s', first, |a|) && (c == 'h' || (c == 's' && (n < first || first + |a| <= n)))
    ensures Numbered(c, n) !in a
  {
    forall j | 0 <= j < |a| ensures a[j] != Numbered(c, n) {
      if c == 's' {
        NumberedOrder('s', first + j, n);
      } else {
        NumberedStart('s', first + j);
        NumberedStart('h', n);
      }
    }
  }

  lemma SwitchNamesSeparate(n: nat, first: nat)
    requires n > 0
    ensures Separate(Names('s', n + first, n - 1), Names('s', first, n))
  {
    var edges, cores := Names('s', first, n), Names('s', n + first, n - 1);
    NamesAscend('s', first, n);
    NamesAscend('s', n + first, n - 1);
    forall i | 0 <= i < |cores| ensures cores[i] !in edges {
      NamesDiffer(edges, first, 's', n + first + i);
    }
    HostNamesDiffer();
    forall h: nat ensures HostName(h) !in cores && HostName(h) !in edges {
      NamesDiffer(edges, first, 'h', h);
      NamesDiffer(cores, n + first, 'h', h);
    }
  }
}
