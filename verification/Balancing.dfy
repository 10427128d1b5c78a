/**
 Placing loads on machines: the arithmetic behind the adaptive routing policy.

 A list of jobs `p` and a list of choices `a` say that job `k`, of size `p[k]`, was put on machine
 `a[k]`.  A choice list is greedy when every job went to a machine that carried the least load at the
 time.  The two results compare the fullest machine of a greedy placement with the fullest machine of
 ANY other placement of the same jobs.
 */
module Balancing {
  import opened Collections

  function Load(p: seq<nat>, a: seq<string>, c: string): nat
    requires |p| == |a|
  {
    if |p| == 0 then 0
    else
      var n := |p| - 1;
      Load(p[..n], a[..n], c) + if a[n] == c then p[n] else 0
  }

  /** The number of jobs on machine `c`. */
  function Count(a: seq<string>, c: string): nat
  {
    if |a| == 0 then 0
    else
      var n := |a| - 1;
      Count(a[..n], c) + if a[n] == c then 1 else 0
  }

  function Sum(p: seq<nat>): nat
  {
    if |p| == 0 then 0 else Sum(p[..|p| - 1]) + p[|p| - 1]
  }

  function LoadSum(p: seq<nat>, a: seq<string>, cores: seq<string>): nat
    requires |p| == |a|
  {
    if cores == [] then 0 else Load(p, a, cores[0]) + LoadSum(p, a, cores[1..])
  }

  function CountSum(a: seq<string>, cores: seq<string>): nat
  {
    if cores == [] then 0 else Count(a, cores[0]) + CountSum(a, cores[1..])
  }

  ghost predicate Into(a: seq<string>, cores: seq<string>)
  {
    forall k :: 0 <= k < |a| ==> a[k] in cores
  }

  /** Every job went to a machine that carried the least load when the job was placed. */
  ghost predicate Greedy(p: seq<nat>, a: seq<string>, cores: seq<string>)
    requires |p| == |a|
  {
    forall k, c :: 0 <= k < |a| && c in cores ==>
      a[k] in cores && Load(p[..k], a[..k], a[k]) <= Load(p[..k], a[..k], c)
  }

  ghost predicate Descending(p: seq<nat>)
  {
    forall i, j :: 0 <= i <= j < |p| ==> p[j] <= p[i]
  }

  ghost predicate Fits(p: seq<nat>, a: seq<string>, cores: seq<string>, limit: nat)
    requires |p| == |a|
  {
    forall c :: c in cores ==> Load(p, a, c) <= limit
  }

  // ---------------------------------------------------------------- conservation

  lemma {:induction false} LoadSumStep(p: seq<nat>, a: seq<string>, cores: seq<string>)
    requires |p| == |a| > 0 && Distinct(cores)
    ensures LoadSum(p, a, cores)
         == LoadSum(p[..|p| - 1], a[..|p| - 1], cores) + if a[|a| - 1] in cores then p[|p| - 1] else 0
  {
    if cores != [] {
      LoadSumStep(p, a, cores[1..]);
    }
  }

  lemma {:induction false} CountSumStep(a: seq<string>, cores: seq<string>)
    requires |a| > 0 && Distinct(cores)
    ensures CountSum(a, cores) == CountSum(a[..|a| - 1], cores) + if a[|a| - 1] in cores then 1 else 0
  {
    if cores != [] {
      CountSumStep(a, cores[1..]);
    }
  }

  /** No load is lost: the machines together carry exactly the jobs. */
  lemma {:induction false} LoadConserved(p: seq<nat>, a: seq<string>, cores: seq<string>)
    requires |p| == |a| && Distinct(cores) && Into(a, cores)
    ensures LoadSum(p, a, cores) == Sum(p)
  {
    if |p| == 0 {
      EmptyLoads(cores);
    } else {
      LoadSumStep(p, a, cores);
      LoadConserved(p[..|p| - 1], a[..|p| - 1], cores);
    }
  }

  lemma {:induction false} EmptyLoads(cores: seq<string>)
    ensures LoadSum([], [], cores) == 0 && CountSum([], cores) == 0
  {
    if cores != [] {
      EmptyLoads(cores[1..]);
    }
  }

  lemma {:induction false} CountConserved(a: seq<string>, cores: seq<string>)
    requires Distinct(cores) && Into(a, cores)
    ensures CountSum(a, cores) == |a|
  {
    if |a| == 0 {
      EmptyLoads(cores);
    } else {
      CountSumStep(a, cores);
      CountConserved(a[..|a| - 1], cores);
    }
  }

  // ---------------------------------------------------------------- single machines

  lemma {:induction false} LoadPrefix(p: seq<nat>, a: seq<string>, c: string, k: nat)
    requires |p| == |a| && k <= |p|
    ensures Load(p[..k], a[..k], c) <= Load(p, a, c)
    decreases |p|
  {
    if k < |p| {
      var n := |p| - 1;
      assert p[..n][..k] == p[..k] && a[..n][..k] == a[..k];
      LoadPrefix(p[..n], a[..n], c, k);
    } else {
      assert p[..k] == p && a[..k] == a;
    }
  }

  lemma {:induction false} JobInLoad(p: seq<nat>, a: seq<string>, k: nat)
    requires |p| == |a| && k < |p|
    ensures p[k] <= Load(p, a, a[k])
  {
    LoadPrefix(p, a, a[k], k + 1);
    assert p[..k + 1][..k] == p[..k] && a[..k + 1][..k] == a[..k];
  }

  lemma {:induction false} TwoJobsInLoad(p: seq<nat>, a: seq<string>, j: nat, k: nat)
    requires |p| == |a| && j < k < |p| && a[j] == a[k]
    ensures p[j] + p[k] <= Load(p, a, a[k])
  {
    LoadPrefix(p, a, a[k], k + 1);
    assert p[..k + 1][..k] == p[..k] && a[..k + 1][..k] == a[..k];
    JobInLoad(p[..k], a[..k], j);
  }

  lemma MoreJobs(count: nat, least: nat, load: nat, x: nat)
    requires count * least <= load && least <= x
    ensures (count + 1) * least <= load + x
  {
    OneMore(count, least);
  }

  /** A machine with `n` jobs of size at least `least` carries at least `n * least`. */
  lemma {:induction false} LoadAtLeast(p: seq<nat>, a: seq<string>, c: string, least: nat)
    requires |p| == |a| && forall k :: 0 <= k < |p| ==> least <= p[k]
    ensures Count(a, c) * least <= Load(p, a, c)
    ensures Count(a, c) == 0 ==> Load(p, a, c) == 0
  {
    if |p| > 0 {
      var n := |p| - 1;
      LoadAtLeast(p[..n], a[..n], c, least);
      MoreJobs(Count(a[..n], c), least, Load(p[..n], a[..n], c), p[n]);
    }
  }

  lemma {:induction false} OnlyJob(p: seq<nat>, a: seq<string>, c: string) returns (k: nat)
    requires |p| == |a| && Count(a, c) == 1
    ensures k < |a| && a[k] == c && Load(p, a, c) == p[k]
  {
    var n := |a| - 1;
    if a[n] == c {
      k := n;
      LoadAtLeast(p[..n], a[..n], c, 0);
    } else {
      k := OnlyJob(p[..n], a[..n], c);
    }
  }

  lemma {:induction false} SomeJob(a: seq<string>, c: string) returns (k: nat)
    requires Count(a, c) >= 1
    ensures k < |a| && a[k] == c
  {
    var n := |a| - 1;
    if a[n] == c {
      k := n;
    } else {
      k := SomeJob(a[..n], c);
    }
  }

  lemma {:induction false} AnotherJob(a: seq<string>, j: nat) returns (k: nat)
    requires j < |a| && Count(a, a[j]) >= 2
    ensures k < |a| && k != j && a[k] == a[j]
  {
    var n := |a| - 1;
    if j == n {
      k := SomeJob(a[..n], a[j]);
    } else if a[n] == a[j] {
      k := n;
    } else {
      k := AnotherJob(a[..n], j);
    }
  }

  // ---------------------------------------------------------------- counting machines

  lemma {:induction false} CountAtMost(a: seq<string>, cores: seq<string>, ones: set<string>)
    requires Distinct(cores) && forall c :: c in ones ==> c in cores
    requires forall c :: c in cores ==> Count(a, c) <= if c in ones then 1 else 2
    ensures CountSum(a, cores) + |ones| <= 2 * |cores|
  {
    if cores == [] {
      assert ones == {};
    } else {
      CountAtMost(a, cores[1..], ones - {cores[0]});
    }
  }

  lemma {:induction false} CountAtLeast(a: seq<string>, cores: seq<string>, ones: set<string>)
    requires Distinct(cores) && forall c :: c in ones ==> c in cores
    requires forall c :: c in cores ==> Count(a, c) >= if c in ones then 1 else 2
    ensures CountSum(a, cores) + |ones| >= 2 * |cores|
  {
    if cores == [] {
      assert ones == {};
    } else {
      CountAtLeast(a, cores[1..], ones - {cores[0]});
    }
  }

  lemma {:induction false} InjectiveImage(s: set<string>, f: map<string, string>) returns (image: set<string>)
    requires forall c :: c in s ==> c in f
    requires forall c, d :: c in s && d in s && c != d ==> f[c] != f[d]
    ensures |image| == |s| && forall h :: h in image <==> exists c :: c in s && f[c] == h
    decreases s
  {
    if s == {} {
      image := {};
    } else {
      var c :| c in s;
      var rest := InjectiveImage(s - {c}, f);
      image := rest + {f[c]};
      assert f[c] !in rest;
    }
  }

  lemma {:induction false} OnlyJobs(p: seq<nat>, a: seq<string>, s: set<string>) returns (job: map<string, nat>)
    requires |p| == |a| && forall c :: c in s ==> Count(a, c) == 1
    ensures job.Keys == s
    ensures forall c :: c in s ==> job[c] < |a| && a[job[c]] == c && p[job[c]] == Load(p, a, c)
    decreases s
  {
    if s == {} {
      job := map[];
    } else {
      var c :| c in s;
      job := OnlyJobs(p, a, s - {c});
      var k := OnlyJob(p, a, c);
      job := job[c := k];
    }
  }

  // ---------------------------------------------------------------- the two bounds

  lemma OneMore(k: nat, x: nat)
    ensures (k + 1) * x == x + k * x
  {
  }

  lemma ScaleStep(k: nat, x: nat, y: nat)
    requires x <= y
    ensures k * x <= k * y
  {
  }

  lemma Unscale(x: nat, y: nat, k: nat)
    requires x * k < y * k
    ensures x < y
  {
  }

  /** The machine that got the last job carried at most the average of the jobs before it. */
  lemma {:induction false} LeastBelowAverage(p: seq<nat>, a: seq<string>, cores: seq<string>, least: nat)
    requires |p| == |a| && forall c :: c in cores ==> least <= Load(p, a, c)
    ensures |cores| * least <= LoadSum(p, a, cores)
  {
    if cores != [] {
      LeastBelowAverage(p, a, cores[1..], least);
      OneMore(|cores[1..]|, least);
    }
  }

  lemma {:induction false} SumBelowLimit(p: seq<nat>, b: seq<string>, cores: seq<string>, limit: nat)
    requires |p| == |b| && Fits(p, b, cores, limit)
    ensures LoadSum(p, b, cores) <= |cores| * limit
  {
    if cores != [] {
      SumBelowLimit(p, b, cores[1..], limit);
      OneMore(|cores[1..]|, limit);
    }
  }

  /** Any placement that fits keeps fitting when its last job is taken away. */
  lemma FitsPrefix(p: seq<nat>, b: seq<string>, cores: seq<string>, limit: nat)
    requires |p| == |b| > 0 && Fits(p, b, cores, limit) && Into(b, cores)
    ensures Fits(p[..|p| - 1], b[..|p| - 1], cores, limit) && Into(b[..|p| - 1], cores)
  {
    forall c | c in cores ensures Load(p[..|p| - 1], b[..|p| - 1], c) <= limit {
      LoadPrefix(p, b, c, |p| - 1);
    }
  }

  lemma GreedyPrefix(p: seq<nat>, a: seq<string>, cores: seq<string>)
    requires |p| == |a| > 0 && Greedy(p, a, cores) && cores != []
    ensures Greedy(p[..|p| - 1], a[..|p| - 1], cores) && Into(a, cores)
    ensures forall c :: c in cores ==>
      Load(p[..|p| - 1], a[..|p| - 1], a[|p| - 1]) <= Load(p[..|p| - 1], a[..|p| - 1], c)
  {
    var n := |p| - 1;
    forall k, c | 0 <= k < n && c in cores
      ensures a[..n][k] in cores && Load(p[..n][..k], a[..n][..k], a[..n][k]) <= Load(p[..n][..k], a[..n][..k], c)
    {
      assert p[..n][..k] == p[..k] && a[..n][..k] == a[..k];
    }
    assert cores[0] in cores;
  }

  /** What any placement needs leaves room, on average, for the least loaded machine and the last job. */
  lemma AverageRoom(p: seq<nat>, a: seq<string>, b: seq<string>, cores: seq<string>, limit: nat, least: nat, x: nat)
    requires |p| == |a| + 1 == |b| > 0 && Distinct(cores) && cores != [] && x == least + p[|p| - 1]
    requires Into(a, cores) && Into(b, cores) && Fits(p, b, cores, limit)
    requires forall c :: c in cores ==> least <= Load(p[..|p| - 1], a, c)
    ensures |cores| * x <= |cores| * limit + (|cores| - 1) * p[|p| - 1]
  {
    var n := |p| - 1;
    LeastBelowAverage(p[..n], a, cores, least);
    LoadConserved(p[..n], a, cores);
    LoadConserved(p, b, cores);
    SumBelowLimit(p, b, cores, limit);
    MeanStep(|cores|, least, p[n], limit, x);
  }

  /** What the last job adds: the load it lands on is at most the mean of what any placement needs. */
  lemma LastJobBound(p: seq<nat>, a: seq<string>, b: seq<string>, cores: seq<string>, limit: nat)
    requires |p| == |a| == |b| > 0 && Distinct(cores) && cores != []
    requires Greedy(p, a, cores) && Into(b, cores) && Fits(p, b, cores, limit)
    ensures |cores| * Load(p, a, a[|p| - 1]) <= |cores| * limit + (|cores| - 1) * p[|p| - 1]
    ensures p[|p| - 1] <= limit
  {
    var n := |p| - 1;
    var least := Load(p[..n], a[..n], a[n]);
    GreedyPrefix(p, a, cores);
    AverageRoom(p, a[..n], b, cores, limit, least, Load(p, a, a[n]));
    assert p[n] <= limit by { JobInLoad(p, b, n); }
  }

  lemma MeanStep(m: nat, least: nat, q: nat, limit: nat, x: nat)
    requires m >= 1 && m * least + q <= m * limit && x == least + q
    ensures m * x <= m * limit + (m - 1) * q
  {
    assert m * (least + q) == m * least + m * q;
    OneMore(m - 1, q);
  }

  lemma AnyOrderStep(m: nat, x: nat, q: nat, limit: nat)
    requires m >= 1 && q <= limit && m * x <= m * limit + (m - 1) * q
    ensures m * x <= (2 * m - 1) * limit
  {
    ScaleStep(m - 1, q, limit);
    assert (2 * m - 1) * limit == m * limit + (m - 1) * limit;
  }

  /**
   List scheduling: whatever the order of the jobs, the greedy choice alone keeps every machine within
   (2m-1)/m of any placement.
   */
  lemma {:induction false} GreedyBound(p: seq<nat>, a: seq<string>, b: seq<string>, cores: seq<string>, limit: nat)
    requires |p| == |a| == |b| && Distinct(cores) && cores != []
    requires Greedy(p, a, cores) && Into(b, cores) && Fits(p, b, cores, limit)
    ensures forall c :: c in cores ==> |cores| * Load(p, a, c) <= (2 * |cores| - 1) * limit
  {
    var m := |cores|;
    if |p| > 0 {
      var n := |p| - 1;
      GreedyPrefix(p, a, cores);
      FitsPrefix(p, b, cores, limit);
      GreedyBound(p[..n], a[..n], b[..n], cores, limit);
      LastJobBound(p, a, b, cores, limit);
      AnyOrderStep(m, Load(p, a, a[n]), p[n], limit);
    } else {
      ScaleStep(2 * m - 1, 0, limit);
    }
  }

  /** While all jobs exceed a third of what another placement needs, greedy needs no more than that placement. */
  lemma {:induction false} LargeJobs(p: seq<nat>, a: seq<string>, b: seq<string>, cores: seq<string>, limit: nat)
    requires |p| == |a| == |b| && Distinct(cores) && cores != []
    requires Greedy(p, a, cores) && Descending(p) && Into(b, cores) && Fits(p, b, cores, limit)
    requires forall k :: 0 <= k < |p| ==> limit < 3 * p[k]
    ensures Fits(p, a, cores, limit)
  {
    if |p| > 0 {
      var n := |p| - 1;
      GreedyPrefix(p, a, cores);
      FitsPrefix(p, b, cores, limit);
      LargeJobs(p[..n], a[..n], b[..n], cores, limit);
      RoomForLastJob(p, a, b, cores, limit);
    }
  }

  /**
   The counting argument.  If the last job overflows even the least loaded machine, every machine
   carrying a single job carries one that no placement can pair with anything; two jobs each on the
   remaining machines are then one too few for the jobs there are.
   */
  lemma RoomForLastJob(p: seq<nat>, a: seq<string>, b: seq<string>, cores: seq<string>, limit: nat)
    requires |p| == |a| == |b| > 0 && Distinct(cores) && cores != []
    requires Greedy(p, a, cores) && Descending(p) && Into(b, cores) && Fits(p, b, cores, limit)
    requires forall k :: 0 <= k < |p| ==> limit < 3 * p[k]
    ensures Load(p, a, a[|p| - 1]) <= limit
  {
    if limit < Load(p, a, a[|p| - 1]) {
      var n := |p| - 1;
      GreedyPrefix(p, a, cores);
      forall c | c in cores ensures Count(a[..n], c) >= 1 {
        LoadAtLeast(p[..n], a[..n], c, 0);
        JobInLoad(p, b, n);
      }
      var single := set c | c in cores && Count(a[..n], c) == 1;
      CountAtLeast(a[..n], cores, single);
      CountConserved(a[..n], cores);
      var hosts := UnpairedMachines(p, a[..n], b, cores, limit, single);
      forall h | h in cores ensures Count(b, h) <= if h in hosts then 1 else 2 {
        AtMostTwo(p, b, h, limit);
      }
      CountAtMost(b, cores, hosts);
      CountConserved(b, cores);
      assert false;
    }
  }

  /** The jobs that are alone and too large to be paired take up one machine each in any placement. */
  lemma UnpairedMachines(p: seq<nat>, a: seq<string>, b: seq<string>, cores: seq<string>, limit: nat,
                         single: set<string>) returns (hosts: set<string>)
    requires |p| == |a| + 1 == |b| && Descending(p) && Into(b, cores) && Fits(p, b, cores, limit)
    requires forall c :: c in single ==> Count(a, c) == 1 && limit < Load(p[..|p| - 1], a, c) + p[|p| - 1]
    ensures |hosts| == |single| && forall h :: h in hosts ==> h in cores && Count(b, h) <= 1
  {
    var job := OnlyJobs(p[..|p| - 1], a, single);
    var host := map c | c in single :: b[job[c]];
    forall c, d | c in single && d in single && c != d ensures host[c] != host[d] {
      assert a[job[c]] == c && a[job[d]] == d;
      PairOverflows(p, b, cores, limit, job[c], job[d]);
    }
    hosts := InjectiveImage(single, host);
    forall h | h in hosts ensures h in cores && Count(b, h) <= 1 {
      var c :| c in single && host[c] == h;
      if Count(b, h) >= 2 {
        var k := AnotherJob(b, job[c]);
        PairOverflows(p, b, cores, limit, job[c], k);
      }
    }
  }

  /** A job that already fills its machine up to the last job's size cannot share a machine. */
  lemma PairOverflows(p: seq<nat>, b: seq<string>, cores: seq<string>, limit: nat, j: nat, k: nat)
    requires |p| == |b| > 0 && Descending(p) && Into(b, cores) && Fits(p, b, cores, limit)
    requires j < |p| && k < |p| && j != k && limit < p[j] + p[|p| - 1]
    ensures b[j] != b[k]
  {
    assert p[|p| - 1] <= p[k];
    if b[j] == b[k] {
      if j < k {
        TwoJobsInLoad(p, b, j, k);
      } else {
        TwoJobsInLoad(p, b, k, j);
      }
      assert false;
    }
  }

  lemma AtMostTwo(p: seq<nat>, b: seq<string>, h: string, limit: nat)
    requires |p| == |b| && Load(p, b, h) <= limit
    requires forall k :: 0 <= k < |p| ==> limit < 3 * p[k]
    ensures Count(b, h) <= 2
  {
    var least := limit / 3 + 1;
    LoadAtLeast(p, b, h, least);
    Unscale(Count(b, h), 3, least);
  }

  /**
   Largest first: when the jobs come in descending order, every machine stays within (4m-1)/3m of any
   placement.
   */
  lemma {:induction false} LargestFirstBound(p: seq<nat>, a: seq<string>, b: seq<string>, cores: seq<string>, limit: nat)
    requires |p| == |a| == |b| && Distinct(cores) && cores != []
    requires Greedy(p, a, cores) && Descending(p) && Into(b, cores) && Fits(p, b, cores, limit)
    ensures forall c :: c in cores ==> 3 * |cores| * Load(p, a, c) <= (4 * |cores| - 1) * limit
  {
    var m := |cores|;
    if |p| == 0 {
      ScaleStep(4 * m - 1, 0, limit);
    } else {
      var n := |p| - 1;
      var q := p[n];
      if limit < 3 * q {
        LargeJobs(p, a, b, cores, limit);
        forall c | c in cores ensures 3 * m * Load(p, a, c) <= (4 * m - 1) * limit {
          ScaleStep(3 * m, Load(p, a, c), limit);
          WithinRatio(m, limit);
        }
      } else {
        GreedyPrefix(p, a, cores);
        FitsPrefix(p, b, cores, limit);
        LargestFirstBound(p[..n], a[..n], b[..n], cores, limit);
        LastJobBound(p, a, b, cores, limit);
        ScaleStep(m - 1, 3 * q, limit);
        SmallLastJob(m, Load(p, a, a[n]), q, limit);
      }
    }
  }

  lemma WithinRatio(m: nat, limit: nat)
    requires m >= 1
    ensures 3 * m * limit <= (4 * m - 1) * limit
  {
    ScaleStep(limit, 3 * m, 4 * m - 1);
  }

  lemma SmallLastJob(m: nat, x: nat, q: nat, limit: nat)
    requires m >= 1 && m * x <= m * limit + (m - 1) * q && (m - 1) * (3 * q) <= (m - 1) * limit
    ensures 3 * m * x <= (4 * m - 1) * limit
  {
    assert (m - 1) * (3 * q) == 3 * ((m - 1) * q);
    assert 3 * m * x == 3 * (m * x);
    assert (4 * m - 1) * limit == 3 * (m * limit) + (m - 1) * limit;
  }

  // ---------------------------------------------------------------- the largest-first bound is reached

  /** Two jobs of each size from 2m - 1 down to m + 1, and three of size m. */
  function TightJob(m: nat, k: nat): nat
    requires k <= 2 * m
  {
    if k < 2 * m then 2 * m - 1 - k / 2 else m
  }

  function TightJobs(m: nat): (p: seq<nat>)
    ensures |p| == 2 * m + 1
  {
    seq(2 * m + 1, k requires 0 <= k <= 2 * m => TightJob(m, k))
  }

  /** Greedily, the jobs go once up and once down the machines, and the last one on the first machine. */
  function FoldedCore(m: nat, k: nat): nat
    requires k <= 2 * m
  {
    if k < m then k else if k < 2 * m then 2 * m - 1 - k else 0
  }

  /** It is better to put the three smallest jobs together, and to fold the others over the other machines. */
  function PairedCore(m: nat, k: nat): nat
    requires 0 < m && k <= 2 * m
  {
    if k < m - 1 then k else if k < 2 * m - 2 then 2 * m - 3 - k else m - 1
  }

  function Folded(cores: seq<string>): (a: seq<string>)
    requires cores != []
    ensures |a| == 2 * |cores| + 1 && Into(a, cores)
  {
    seq(2 * |cores| + 1, k requires 0 <= k <= 2 * |cores| => cores[FoldedCore(|cores|, k)])
  }

  function Paired(cores: seq<string>): (b: seq<string>)
    requires cores != []
    ensures |b| == 2 * |cores| + 1 && Into(b, cores)
  {
    seq(2 * |cores| + 1, k requires 0 <= k <= 2 * |cores| => cores[PairedCore(|cores|, k)])
  }

  lemma LoadNext(p: seq<nat>, a: seq<string>, c: string, k: nat)
    requires k < |p| == |a|
    ensures Load(p[..k + 1], a[..k + 1], c) == Load(p[..k], a[..k], c) + if a[k] == c then p[k] else 0
  {
    assert p[..k + 1][..k] == p[..k] && a[..k + 1][..k] == a[..k];
  }

  /** What machine `c` carries of the first `k` jobs. */
  function FoldedLoad(m: nat, c: nat, k: nat): nat
    requires c < m && k <= 2 * m + 1
  {
    (if c < k then TightJob(m, c) else 0) + (if 2 * m - 1 - c < k then TightJob(m, 2 * m - 1 - c) else 0)
    + if k == 2 * m + 1 && c == 0 then m else 0
  }

  function PairedLoad(m: nat, c: nat, k: nat): nat
    requires c < m && k <= 2 * m + 1
  {
    if c == m - 1 then SmallestLoad(m, k)
    else (if c < k then TightJob(m, c) else 0) + if 2 * m - 3 - c < k then TightJob(m, 2 * m - 3 - c) else 0
  }

  function SmallestLoad(m: nat, k: nat): nat
  {
    if k <= 2 * m - 2 then 0 else if k == 2 * m - 1 then m else if k == 2 * m then 2 * m else 3 * m
  }

  lemma FoldedNext(m: nat, c: nat, k: nat)
    requires c < m && k <= 2 * m
    ensures FoldedLoad(m, c, k + 1) == FoldedLoad(m, c, k) + if FoldedCore(m, k) == c then TightJob(m, k) else 0
  {
  }

  lemma PairedNext(m: nat, c: nat, k: nat)
    requires c < m && k <= 2 * m
    ensures PairedLoad(m, c, k + 1) == PairedLoad(m, c, k) + if PairedCore(m, k) == c then TightJob(m, k) else 0
  {
  }

  lemma SameCore(cores: seq<string>, i: nat, j: nat)
    requires Distinct(cores) && i < |cores| && j < |cores|
    ensures cores[i] == cores[j] <==> i == j
  {
  }

  lemma FoldedLoadNext(cores: seq<string>, c: nat, k: nat)
    requires Distinct(cores) && c < |cores| && k <= 2 * |cores|
    ensures Load(TightJobs(|cores|)[..k + 1], Folded(cores)[..k + 1], cores[c])
         == Load(TightJobs(|cores|)[..k], Folded(cores)[..k], cores[c]) + if FoldedCore(|cores|, k) == c then TightJob(|cores|, k) else 0
  {
    LoadNext(TightJobs(|cores|), Folded(cores), cores[c], k);
    SameCore(cores, FoldedCore(|cores|, k), c);
  }

  lemma {:induction false} FoldedLoads(cores: seq<string>, c: nat, k: nat)
    requires Distinct(cores) && c < |cores| && k <= 2 * |cores| + 1
    ensures Load(TightJobs(|cores|)[..k], Folded(cores)[..k], cores[c]) == FoldedLoad(|cores|, c, k)
  {
    if k > 0 {
      FoldedLoads(cores, c, k - 1);
      FoldedLoadNext(cores, c, k - 1);
      FoldedNext(|cores|, c, k - 1);
    }
  }

  lemma PairedLoadNext(cores: seq<string>, c: nat, k: nat)
    requires Distinct(cores) && c < |cores| && k <= 2 * |cores|
    ensures Load(TightJobs(|cores|)[..k + 1], Paired(cores)[..k + 1], cores[c])
         == Load(TightJobs(|cores|)[..k], Paired(cores)[..k], cores[c]) + if PairedCore(|cores|, k) == c then TightJob(|cores|, k) else 0
  {
    LoadNext(TightJobs(|cores|), Paired(cores), cores[c], k);
    SameCore(cores, PairedCore(|cores|, k), c);
  }

  lemma {:induction false} PairedLoads(cores: seq<string>, c: nat, k: nat)
    requires Distinct(cores) && c < |cores| && k <= 2 * |cores| + 1
    ensures Load(TightJobs(|cores|)[..k], Paired(cores)[..k], cores[c]) == PairedLoad(|cores|, c, k)
  {
    if k > 0 {
      PairedLoads(cores, c, k - 1);
      PairedLoadNext(cores, c, k - 1);
      PairedNext(|cores|, c, k - 1);
    }
  }

  /** Each machine gets 3m - 1 from the first 2m jobs. */
  lemma FoldedEven(m: nat, c: nat)
    requires c < m
    ensures TightJob(m, c) + TightJob(m, 2 * m - 1 - c) == 3 * m - 1
  {
  }

  lemma PairedEven(m: nat, c: nat)
    requires c < m - 1
    ensures TightJob(m, c) + TightJob(m, 2 * m - 3 - c) == 3 * m
  {
  }

  lemma FoldedLeast(m: nat, k: nat, c: nat)
    requires k <= 2 * m && c < m
    ensures FoldedLoad(m, FoldedCore(m, k), k) <= FoldedLoad(m, c, k)
  {
    FoldedEven(m, c);
    FoldedEven(m, FoldedCore(m, k));
  }

  lemma FoldedIsGreedy(cores: seq<string>)
    requires Distinct(cores) && cores != []
    ensures Greedy(TightJobs(|cores|), Folded(cores), cores)
  {
    var m, p, a := |cores|, TightJobs(|cores|), Folded(cores);
    forall k, c | 0 <= k < |a| && c in cores ensures a[k] in cores && Load(p[..k], a[..k], a[k]) <= Load(p[..k], a[..k], c) {
      var i :| 0 <= i < m && cores[i] == c;
      FoldedLoads(cores, i, k);
      FoldedLoads(cores, FoldedCore(m, k), k);
      FoldedLeast(m, k, i);
    }
  }

  lemma PairedFits(cores: seq<string>)
    requires Distinct(cores) && cores != []
    ensures Fits(TightJobs(|cores|), Paired(cores), cores, 3 * |cores|)
  {
    var m, p, b := |cores|, TightJobs(|cores|), Paired(cores);
    assert p[..2 * m + 1] == p && b[..2 * m + 1] == b;
    forall c | c in cores ensures Load(p, b, c) <= 3 * m {
      var i :| 0 <= i < m && cores[i] == c;
      PairedLoads(cores, i, 2 * m + 1);
      if i < m - 1 {
        PairedEven(m, i);
      }
    }
  }

  lemma TightDescending(m: nat)
    ensures Descending(TightJobs(m))
  {
  }

  lemma FoldedFirst(cores: seq<string>)
    requires Distinct(cores) && cores != []
    ensures Load(TightJobs(|cores|), Folded(cores), cores[0]) == 4 * |cores| - 1
  {
    var m, p, a := |cores|, TightJobs(|cores|), Folded(cores);
    FoldedLoads(cores, 0, 2 * m + 1);
    assert p[..2 * m + 1] == p && a[..2 * m + 1] == a;
    FoldedEven(m, 0);
  }

  lemma ReachesRatio(m: nat)
    ensures 3 * m * (4 * m - 1) == (4 * m - 1) * (3 * m)
  {
  }

  /**
   The largest-first bound cannot be lowered for any number of machines: with the jobs above it loads a
   machine with 4m - 1 where 3m are enough.
   */
  lemma LargestFirstIsTight(cores: seq<string>)
    requires Distinct(cores) && cores != []
    ensures var m := |cores|;
      var p, a, b := TightJobs(m), Folded(cores), Paired(cores);
      && Descending(p) && Greedy(p, a, cores) && Into(b, cores) && Fits(p, b, cores, 3 * m)
      && 3 * m * Load(p, a, cores[0]) == (4 * m - 1) * (3 * m)
  {
    TightDescending(|cores|);
    FoldedIsGreedy(cores);
    PairedFits(cores);
    FoldedFirst(cores);
    ReachesRatio(|cores|);
  }
}
