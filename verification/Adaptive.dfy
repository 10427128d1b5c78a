/**
 The adaptive policy's redistribution of hosts over core switches
 (emulated-sdn-application/minidc/controller/policy.py, class AdaptivePolicy).

 `redistribute` sorts the hosts by the bytes they received, largest first, and puts each on the core
 switch that carries the least so far.
 */
module Adaptive {
  import opened Collections
  import opened Balancing
  import opened Natural

  /** One element of the list that `redistribute` sorts: the bytes a host received, and the host. */
  datatype Stat = Stat(bytes: nat, host: string)

  // ---------------------------------------------------------------- sorting

  /** `x` comes before `y` in the list sorted in reverse: tuples compare bytes first, names next. */
  predicate Before(x: Stat, y: Stat)
  {
    y.bytes < x.bytes || (x.bytes == y.bytes && StringLeq(y.host, x.host))
  }

  lemma BeforeTransitive(x: Stat, y: Stat, z: Stat)
    requires Before(x, y) && Before(y, z)
    ensures Before(x, z)
  {
    if x.bytes == y.bytes && y.bytes == z.bytes {
      StringLeqTransitive(z.host, y.host, x.host);
    }
  }

  ghost predicate Sorted(s: seq<Stat>)
  {
    forall i, j :: 0 <= i < j < |s| ==> Before(s[i], s[j])
  }

  function Insert(x: Stat, s: seq<Stat>): (r: seq<Stat>)
    ensures multiset(r) == multiset(s) + multiset{x}
  {
    if s == [] then [x]
    else if Before(x, s[0]) then [x] + s
    else
      var r := [s[0]] + Insert(x, s[1..]);
      assert s == [s[0]] + s[1..];
      r
  }

  lemma {:induction false} InsertSorted(x: Stat, s: seq<Stat>)
    requires Sorted(s)
    ensures Sorted(Insert(x, s))
  {
    if s != [] {
      StringLeqTotal(x.host, s[0].host);
      if Before(x, s[0]) {
        forall j | 0 <= j < |s| ensures Before(x, s[j]) {
          if j > 0 {
            BeforeTransitive(x, s[0], s[j]);
          }
        }
      } else {
        InsertSorted(x, s[1..]);
        var r := Insert(x, s[1..]);
        forall j | 0 <= j < |r| ensures Before(s[0], r[j]) {
          assert r[j] in multiset(r);
          assert r[j] in multiset(s[1..]) + multiset{x};
        }
      }
    }
  }

  /** `stats.sort(reverse=True)` */
  function SortDescending(s: seq<Stat>): (r: seq<Stat>)
    ensures multiset(r) == multiset(s)
  {
    if s == [] then []
    else
      assert s == [s[0]] + s[1..];
      Insert(s[0], SortDescending(s[1..]))
  }

  lemma {:induction false} SortDescendingSorted(s: seq<Stat>)
    ensures Sorted(SortDescending(s))
  {
    if s != [] {
      SortDescendingSorted(s[1..]);
      InsertSorted(s[0], SortDescending(s[1..]));
    }
  }

  ghost predicate DistinctHosts(s: seq<Stat>)
  {
    forall i, j :: 0 <= i < j < |s| ==> s[i].host != s[j].host
  }

  lemma {:induction false} InsertDistinct(x: Stat, s: seq<Stat>)
    requires DistinctHosts(s) && forall i :: 0 <= i < |s| ==> s[i].host != x.host
    ensures DistinctHosts(Insert(x, s))
  {
    if s != [] && !Before(x, s[0]) {
      InsertDistinct(x, s[1..]);
      var r := Insert(x, s[1..]);
      forall j | 0 <= j < |r| ensures r[j].host != s[0].host {
        assert r[j] in multiset(r);
        assert r[j] in multiset(s[1..]) + multiset{x};
      }
    }
  }

  lemma {:induction false} SortDistinct(s: seq<Stat>)
    requires DistinctHosts(s)
    ensures DistinctHosts(SortDescending(s))
  {
    if s != [] {
      SortDistinct(s[1..]);
      var r := SortDescending(s[1..]);
      forall j | 0 <= j < |r| ensures r[j].host != s[0].host {
        assert r[j] in multiset(r);
        assert r[j] in multiset(s[1..]);
      }
      InsertDistinct(s[0], r);
    }
  }

  // ---------------------------------------------------------------- assignments

  function Bytes(s: seq<Stat>): (p: seq<nat>)
    ensures |p| == |s|
  {
    seq(|s|, k requires 0 <= k < |s| => s[k].bytes)
  }

  /** The cores that an assignment of hosts gives to the hosts of `s`, in order. */
  function Chosen(s: seq<Stat>, assignment: map<string, string>): (a: seq<string>)
    requires forall k :: 0 <= k < |s| ==> s[k].host in assignment
    ensures |a| == |s|
  {
    seq(|s|, k requires 0 <= k < |s| => assignment[s[k].host])
  }

  /** `assignment` puts every host of `s` on one of `cores`. */
  ghost predicate Serves(assignment: map<string, string>, s: seq<Stat>, cores: seq<string>)
  {
    forall k :: 0 <= k < |s| ==> s[k].host in assignment && assignment[s[k].host] in cores
  }

  /** The traffic that an assignment sends through core `c`. */
  function Traffic(s: seq<Stat>, assignment: map<string, string>, c: string): nat
    requires forall k :: 0 <= k < |s| ==> s[k].host in assignment
  {
    Load(Bytes(s), Chosen(s, assignment), c)
  }

  class AdaptivePolicy {
    const cores: seq<string>                 // the core switches of the topology
    var utilization: map<string, nat>
    var assignments: map<string, string>

    ghost predicate Valid()
      reads this
    {
      cores != [] && Distinct(cores) && forall c :: c in utilization ==> c in cores
    }

    constructor (cores: seq<string>, hosts: seq<string>)
      requires cores != [] && Distinct(cores)
      ensures Valid() && this.cores == cores && utilization == map[]
      ensures assignments == map h | h in hosts :: cores[0]
    {
      this.cores := cores;
      utilization := map[];
      assignments := map h | h in hosts :: cores[0];
    }

    /** The least utilized switch; the dictionary is read in whatever order its keys come. */
    method MinUtilization() returns (r: string)
      requires utilization != map[]
      ensures r in utilization && forall c :: c in utilization ==> utilization[r] <= utilization[c]
    {
      var least: Option<nat> := None;        // the seed, which every number compares below
      r := "";
      var todo := utilization.Keys;
      while todo != {}
        invariant todo <= utilization.Keys
        invariant least.None? ==> todo == utilization.Keys
        invariant least.Some? ==> r in utilization && utilization[r] == least.value
        invariant least.Some? ==> forall c :: c in utilization && c !in todo ==> least.value <= utilization[c]
      {
        var switch :| switch in todo;
        if least.None? || utilization[switch] < least.value {
          least := Some(utilization[switch]);
          r := switch;
        }
        todo := todo - {switch};
      }
      assert utilization.Keys != {};
    }

    /**
     Balances the load.  Every host that received something is put on a core, the utilizations are the
     traffic so assigned, no traffic is lost, and no other assignment whatever can do better by more
     than the largest-first factor.
     */
    method Redistribute(hostBw: seq<Stat>)
      requires Valid() && DistinctHosts(hostBw)
      modifies this
      ensures Valid()
      ensures Kept(old(assignments), assignments, Hosts(hostBw))
      ensures Serves(assignments, SortDescending(hostBw), cores)
      ensures forall c :: c in cores ==>
        c in utilization && utilization[c] == Traffic(SortDescending(hostBw), assignments, c)
      ensures Greedy(Bytes(SortDescending(hostBw)), Chosen(SortDescending(hostBw), assignments), cores)
    {
      var stats := SortDescending(hostBw);
      SortDistinct(hostBw);
      HostsSorted(hostBw);
      Reset();
      ghost var chosen: seq<string> := [];
      var i := 0;
      while i < |stats|
        invariant 0 <= i <= |stats| && |chosen| == i
        invariant Tracked()
        invariant Progress(stats, chosen, cores, utilization, old(assignments), assignments)
      {
        ghost var core := PlaceNext(stats, i, chosen, old(assignments));
        chosen := chosen + [core];
        i := i + 1;
      }
      assert stats[..i] == stats;
      FollowsAll(stats, chosen, cores, utilization, assignments);
    }

    /** Each core has a utilization, and nothing else has. */
    ghost predicate Tracked()
      reads this`utilization
    {
      utilization.Keys == set c | c in cores
    }

    method PlaceNext(stats: seq<Stat>, i: nat, ghost chosen: seq<string>, ghost before: map<string, string>)
      returns (ghost chosenCore: string)
      requires i == |chosen| < |stats| && DistinctHosts(stats) && cores != [] && Tracked()
      requires Progress(stats, chosen, cores, utilization, before, assignments)
      modifies this
      ensures Tracked() && Progress(stats, chosen + [chosenCore], cores, utilization, before, assignments)
    {
      hide Progress, Follows, Recorded, Kept, Hosts;
      ghost var used, earlier := utilization, assignments;
      var core := Place(stats[i]);
      chosenCore := core;
      OnePlaced(stats, chosen, cores, used, before, earlier, core);
    }

    method Reset()
      requires Valid()
      modifies this`utilization
      ensures utilization == map c | c in cores :: 0
    {
      var i := 0;
      while i < |cores|
        invariant 0 <= i <= |cores|
        invariant forall c :: c in utilization ==> c in cores
        invariant forall j :: 0 <= j < i ==> cores[j] in utilization && utilization[cores[j]] == 0
      {
        utilization := utilization[cores[i] := 0];
        i := i + 1;
      }
    }

    /** Puts one host on the least utilized core. */
    method Place(stat: Stat) returns (core: string)
      requires cores != [] && Tracked()
      modifies this
      ensures core in cores
      ensures forall c :: c in cores ==> old(utilization[core]) <= old(utilization[c])
      ensures utilization == old(utilization)[core := old(utilization[core]) + stat.bytes]
      ensures assignments == old(assignments)[stat.host := core]
    {
      assert cores[0] in utilization;
      core := MinUtilization();
      assignments := assignments[stat.host := core];
      utilization := utilization[core := utilization[core] + stat.bytes];
    }
  }

  ghost predicate Recorded(stats: seq<Stat>, chosen: seq<string>, assignment: map<string, string>)
    requires |chosen| <= |stats|
  {
    forall k :: 0 <= k < |chosen| ==> stats[k].host in assignment && assignment[stats[k].host] == chosen[k]
  }

  /** Only the hosts in `touched` may have changed. */
  ghost predicate Kept(before: map<string, string>, after: map<string, string>, touched: set<string>)
  {
    after.Keys == before.Keys + touched && forall h :: h in before && h !in touched ==> after[h] == before[h]
  }

  /** The cores chosen so far were chosen greedily, and `used` is what they carry. */
  ghost predicate Follows(stats: seq<Stat>, chosen: seq<string>, cores: seq<string>, used: map<string, nat>)
    requires |chosen| <= |stats|
  {
    var p := Bytes(stats)[..|chosen|];
    Greedy(p, chosen, cores) && Carry(p, chosen, cores, used)
  }

  lemma LoadLast(p: seq<nat>, a: seq<string>, x: nat, core: string, c: string)
    requires |p| == |a|
    ensures Load(p + [x], a + [core], c) == Load(p, a, c) + if core == c then x else 0
  {
    assert (p + [x])[..|p|] == p && (a + [core])[..|a|] == a;
  }

  lemma GreedyLast(p: seq<nat>, a: seq<string>, x: nat, core: string, cores: seq<string>)
    requires |p| == |a| && Greedy(p, a, cores)
    requires core in cores && forall c :: c in cores ==> Load(p, a, core) <= Load(p, a, c)
    ensures Greedy(p + [x], a + [core], cores)
  {
    var p', a' := p + [x], a + [core];
    forall k, c | 0 <= k < |a'| && c in cores
      ensures a'[k] in cores && Load(p'[..k], a'[..k], a'[k]) <= Load(p'[..k], a'[..k], c)
    {
      assert p'[..k] == p[..k] && a'[..k] == a[..k];
      if k == |a| {
        assert p[..k] == p && a[..k] == a;
      } else {
        assert Load(p[..k], a[..k], a[k]) <= Load(p[..k], a[..k], c);
      }
    }
  }

  lemma BytesNext(stats: seq<Stat>, n: nat)
    requires n < |stats|
    ensures Bytes(stats)[..n + 1] == Bytes(stats)[..n] + [stats[n].bytes]
  {
  }

  /** `used` is what each core carries. */
  ghost predicate Carry(p: seq<nat>, a: seq<string>, cores: seq<string>, used: map<string, nat>)
    requires |p| == |a|
  {
    forall c :: c in cores ==> c in used && used[c] == Load(p, a, c)
  }

  lemma CarryNext(p: seq<nat>, a: seq<string>, cores: seq<string>, used: map<string, nat>, x: nat, core: string)
    requires |p| == |a| && Carry(p, a, cores, used) && core in cores
    ensures Carry(p + [x], a + [core], cores, used[core := used[core] + x])
  {
    forall c | c in cores ensures Load(p + [x], a + [core], c) == Load(p, a, c) + if core == c then x else 0 {
      LoadLast(p, a, x, core, c);
    }
  }

  lemma FollowsStep(stats: seq<Stat>, chosen: seq<string>, cores: seq<string>, used: map<string, nat>, core: string)
    requires |chosen| < |stats| && Follows(stats, chosen, cores, used)
    requires core in cores && forall c :: c in cores ==> used[core] <= used[c]
    ensures Follows(stats, chosen + [core], cores, used[core := used[core] + stats[|chosen|].bytes])
  {
    var n := |chosen|;
    var p, x := Bytes(stats)[..n], stats[n].bytes;
    BytesNext(stats, n);
    GreedyLast(p, chosen, x, core, cores);
    CarryNext(p, chosen, cores, used, x, core);
  }

  lemma FollowsAll(stats: seq<Stat>, chosen: seq<string>, cores: seq<string>, used: map<string, nat>,
                   assignment: map<string, string>)
    requires |chosen| == |stats| && Follows(stats, chosen, cores, used) && Recorded(stats, chosen, assignment)
    requires cores != []
    ensures Serves(assignment, stats, cores) && Greedy(Bytes(stats), Chosen(stats, assignment), cores)
    ensures forall c :: c in cores ==> c in used && used[c] == Traffic(stats, assignment, c)
  {
    assert Bytes(stats)[..|chosen|] == Bytes(stats);
    assert chosen == Chosen(stats, assignment);
    assert cores[0] in cores;
  }

  ghost function Hosts(s: seq<Stat>): set<string>
  {
    set x | x in s :: x.host
  }

  lemma HostsSorted(s: seq<Stat>)
    ensures Hosts(SortDescending(s)) == Hosts(s)
  {
    assert forall x :: x in SortDescending(s) <==> x in multiset(SortDescending(s));
    assert forall x :: x in s <==> x in multiset(s);
  }

  lemma RecordStep(stats: seq<Stat>, chosen: seq<string>, before: map<string, string>, assignment: map<string, string>,
                   core: string)
    requires |chosen| < |stats| && DistinctHosts(stats)
    requires Recorded(stats, chosen, assignment) && Kept(before, assignment, Hosts(stats[..|chosen|]))
    ensures var a := assignment[stats[|chosen|].host := core];
            Recorded(stats, chosen + [core], a) && Kept(before, a, Hosts(stats[..|chosen| + 1]))
  {
    var n := |chosen|;
    HostsNext(stats, n);
    var a := assignment[stats[n].host := core];
    forall k | 0 <= k < n ensures stats[k].host in a && a[stats[k].host] == chosen[k] {
      assert stats[k].host != stats[n].host;
    }
  }

  lemma HostsNext(stats: seq<Stat>, n: nat)
    requires n < |stats|
    ensures Hosts(stats[..n + 1]) == Hosts(stats[..n]) + {stats[n].host}
  {
    assert stats[..n + 1] == stats[..n] + [stats[n]];
  }

  /** The first hosts have been placed. */
  ghost predicate Progress(stats: seq<Stat>, chosen: seq<string>, cores: seq<string>, used: map<string, nat>,
                           before: map<string, string>, assignment: map<string, string>)
  {
    && |chosen| <= |stats| && Follows(stats, chosen, cores, used)
    && Recorded(stats, chosen, assignment) && Kept(before, assignment, Hosts(stats[..|chosen|]))
  }

  lemma OnePlaced(stats: seq<Stat>, chosen: seq<string>, cores: seq<string>, used: map<string, nat>,
                  before: map<string, string>, assignment: map<string, string>, core: string)
    requires |chosen| < |stats| && DistinctHosts(stats) && Progress(stats, chosen, cores, used, before, assignment)
    requires core in cores && forall c :: c in cores ==> used[core] <= used[c]
    ensures Progress(stats, chosen + [core], cores, used[core := used[core] + stats[|chosen|].bytes],
                     before, assignment[stats[|chosen|].host := core])
  {
    FollowsStep(stats, chosen, cores, used, core);
    RecordStep(stats, chosen, before, assignment, core);
  }

  /** Redistribution conserves the traffic: the cores together carry what the hosts received. */
  lemma TrafficConserved(s: seq<Stat>, assignment: map<string, string>, cores: seq<string>)
    requires Distinct(cores) && Serves(assignment, s, cores)
    ensures LoadSum(Bytes(s), Chosen(s, assignment), cores) == Sum(Bytes(s))
  {
    LoadConserved(Bytes(s), Chosen(s, assignment), cores);
  }

  /**
   The quality of what `Redistribute` leaves behind, against any other assignment of the same hosts
   to the same cores: by the greedy choice alone, and by the greedy choice on the sorted list.
   */
  lemma NearOptimal(hostBw: seq<Stat>, assignment: map<string, string>, other: map<string, string>,
                    cores: seq<string>, limit: nat)
    requires Distinct(cores) && cores != []
    requires Serves(assignment, SortDescending(hostBw), cores) && Serves(other, SortDescending(hostBw), cores)
    requires Greedy(Bytes(SortDescending(hostBw)), Chosen(SortDescending(hostBw), assignment), cores)
    requires forall c :: c in cores ==> Traffic(SortDescending(hostBw), other, c) <= limit
    ensures forall c :: c in cores ==>
      |cores| * Traffic(SortDescending(hostBw), assignment, c) <= (2 * |cores| - 1) * limit
    ensures forall c :: c in cores ==>
      3 * |cores| * Traffic(SortDescending(hostBw), assignment, c) <= (4 * |cores| - 1) * limit
  {
    hide *;
    var stats := SortDescending(hostBw);
    SortDescendingSorted(hostBw);
    SortedBytes(stats);
    BothBounds(stats, assignment, other, cores, limit);
  }

  lemma SortedBytes(stats: seq<Stat>)
    requires Sorted(stats)
    ensures Descending(Bytes(stats))
  {
  }

  lemma BothBounds(stats: seq<Stat>, assignment: map<string, string>, other: map<string, string>, cores: seq<string>, limit: nat)
    requires Distinct(cores) && cores != [] && Serves(assignment, stats, cores) && Serves(other, stats, cores)
    requires Greedy(Bytes(stats), Chosen(stats, assignment), cores) && Descending(Bytes(stats))
    requires forall c :: c in cores ==> Traffic(stats, other, c) <= limit
    ensures forall c :: c in cores ==> |cores| * Traffic(stats, assignment, c) <= (2 * |cores| - 1) * limit
    ensures forall c :: c in cores ==> 3 * |cores| * Traffic(stats, assignment, c) <= (4 * |cores| - 1) * limit
  {
    hide Load, Greedy, Descending;
    GreedyBound(Bytes(stats), Chosen(stats, assignment), Chosen(stats, other), cores, limit);
    LargestFirstBound(Bytes(stats), Chosen(stats, assignment), Chosen(stats, other), cores, limit);
  }
}
