/**
 * The selector (getIP): split an address list into candidates, probe every
 * candidate once, collect the results in the order the probes finished,
 * sort them by latency and return the first address whose loss rate passes
 * the filter, or "" when none does.
 *
 * The concurrent fan-out is modelled by its post-join state: `arrival` lists
 * the candidate indices in the order their results came out of the channel,
 * and may be any permutation.  The sort is an in-place insertion sort; it is
 * stable, but because the arrival order is arbitrary every order of equal
 * latencies can come out of it, as with an unstable library sort.  The
 * contract of GetIP does not mention `arrival`, so it holds for every
 * collection order and every tie order.
 */
module Select {
  import opened Probe
  import Text

  /** strings.Split(strings.Trim(content, "\n"), "\n"). */
  function Candidates(content: string): (ips: seq<string>)
    ensures |ips| >= 1
    ensures forall k :: 0 <= k < |ips| ==> '\n' !in ips[k]
    ensures Text.Join(ips) == Text.Trim(content)
  {
    Text.JoinSplit(Text.Trim(content));
    Text.Split(Text.Trim(content))
  }

  /** One probe per candidate: result k belongs to candidate k. */
  function ProbeAll(ips: seq<string>, probes: seq<ProbeOutcome>): (pool: seq<LatencyResult>)
    requires |probes| == |ips|
    ensures |pool| == |ips|
    ensures forall k :: 0 <= k < |pool| ==> pool[k].ip == ips[k]
    ensures forall k :: 0 <= k < |pool| ==> pool[k] == GetLatency(ips[k], probes[k])
  {
    seq(|ips|, k requires 0 <= k < |ips| => GetLatency(ips[k], probes[k]))
  }

  /** `arrival` is an order in which the n probe results can leave the channel:
      every index exactly once. */
  predicate IsArrivalOrder(arrival: seq<nat>, n: nat) {
    |arrival| == n &&
    (forall j :: 0 <= j < n ==> arrival[j] < n) &&
    (forall k :: 0 <= k < n ==> k in arrival)
  }

  /** Results in non-decreasing latency. */
  predicate SortedByLatency(s: seq<LatencyResult>) {
    forall i, j :: 0 <= i < j < |s| ==> s[i].latency <= s[j].latency
  }

  /** `ip` is a possible answer of the selector for `pool`: it is "" and no
      result passes the filter, or it is the address of a result that passes
      the filter and whose latency is minimal among those that pass. */
  ghost predicate MaySelect(pool: seq<LatencyResult>, ip: string) {
    (ip == "" && forall k :: 0 <= k < |pool| ==> !Acceptable(pool[k])) ||
    (exists k :: 0 <= k < |pool| && pool[k].ip == ip && Acceptable(pool[k]) &&
                 forall j :: 0 <= j < |pool| && Acceptable(pool[j]) ==> pool[k].latency <= pool[j].latency)
  }

  /** Exchange two results of the slice being sorted. */
  method Swap(a: array<LatencyResult>, i: nat, j: nat)
    requires i < a.Length && j < a.Length
    modifies a
    ensures a[..] == old(a[..])[i := old(a[j])][j := old(a[i])]
    ensures multiset(a[..]) == multiset(old(a[..]))
  {
    a[i], a[j] := a[j], a[i];
  }

  /** sort.Slice(results, by latency), in place. */
  method SortByLatency(a: array<LatencyResult>)
    modifies a
    ensures SortedByLatency(a[..])
    ensures multiset(a[..]) == multiset(old(a[..]))
  {
    var i := 0;
    while i < a.Length
      invariant 0 <= i <= a.Length
      invariant forall p, q :: 0 <= p < q < i ==> a[p].latency <= a[q].latency
      invariant multiset(a[..]) == multiset(old(a[..]))
    {
      var j := i;
      while j > 0 && a[j - 1].latency > a[j].latency
        invariant 0 <= j <= i
        invariant forall p, q :: 0 <= p < q <= i && q != j ==> a[p].latency <= a[q].latency
        invariant multiset(a[..]) == multiset(old(a[..]))
      {
        Swap(a, j - 1, j);
        j := j - 1;
      }
      i := i + 1;
    }
  }

  /** The distinct values of a sequence, no more of them than elements. */
  function ValuesOf(s: seq<nat>): (r: set<nat>)
    ensures forall x :: x in r <==> x in s
    ensures |r| <= |s|
  {
    if s == [] then {}
    else
      assert s == s[..|s| - 1] + [s[|s| - 1]];
      ValuesOf(s[..|s| - 1]) + {s[|s| - 1]}
  }

  /** The indices 0..n-1, of which there are n. */
  function Indices(n: nat): (r: set<nat>)
    ensures forall k: nat :: k in r <==> k < n
    ensures |r| == n
  {
    if n == 0 then {} else Indices(n - 1) + {n - 1}
  }

  /** No index arrives twice: n arrivals that cover all of 0..n-1 are
      pairwise distinct. */
  lemma ArrivalIsInjective(arrival: seq<nat>, n: nat, i: nat, j: nat)
    requires IsArrivalOrder(arrival, n)
    requires i < j < n
    ensures arrival[i] != arrival[j]
  {
    if arrival[i] == arrival[j] {
      var rest := arrival[..j] + arrival[j + 1..];
      forall k: nat | k < n ensures k in rest {
        assert k in arrival;
        var q :| 0 <= q < |arrival| && arrival[q] == k;
        if q == j {
          assert rest[i] == k;
        } else if q < j {
          assert rest[q] == k;
        } else {
          assert rest[q - 1] == k;
        }
      }
      CoverNeedsLength(rest, n);
    }
  }

  /** A sequence in which each of 0..n-1 occurs has at least n elements. */
  lemma CoverNeedsLength(s: seq<nat>, n: nat)
    requires forall k: nat :: k < n ==> k in s
    ensures n <= |s|
  {
    var range := Indices(n);
    var values := ValuesOf(s);
    assert range <= values;
    assert values == range + (values - range);
  }

  /** Taking the last index out of an arrival order leaves an arrival order
      of the others. */
  lemma DropLastArrival(arrival: seq<nat>, m: nat, p: nat)
    requires IsArrivalOrder(arrival, m + 1)
    requires p < |arrival| && arrival[p] == m
    ensures IsArrivalOrder(arrival[..p] + arrival[p + 1..], m)
  {
    var arrival' := arrival[..p] + arrival[p + 1..];
    forall j | 0 <= j < m ensures arrival'[j] < m {
      if j < p {
        assert arrival'[j] == arrival[j];
        ArrivalIsInjective(arrival, m + 1, j, p);
      } else {
        assert arrival'[j] == arrival[j + 1];
        ArrivalIsInjective(arrival, m + 1, p, j + 1);
      }
    }
    forall k | 0 <= k < m ensures k in arrival' {
      assert k in arrival;
      var q :| 0 <= q < |arrival| && arrival[q] == k;
      if q < p {
        assert arrival'[q] == k;
      } else {
        assert arrival'[q - 1] == k;
      }
    }
  }

  /** Taking out the element at p takes one copy of it out of the multiset. */
  lemma RemoveAt(s: seq<LatencyResult>, p: nat)
    requires p < |s|
    ensures multiset(s) == multiset(s[..p] + s[p + 1..]) + multiset{s[p]}
  {
    assert s == s[..p] + [s[p]] + s[p + 1..];
  }

  /** Draining the channel in an arrival order collects the probes' results,
      each exactly once: a permutation of the pool. */
  lemma {:induction false} CollectedCoversPool(pool: seq<LatencyResult>, collected: seq<LatencyResult>, arrival: seq<nat>)
    requires IsArrivalOrder(arrival, |pool|)
    requires |collected| == |pool|
    requires forall j :: 0 <= j < |collected| ==> collected[j] == pool[arrival[j]]
    ensures multiset(collected) == multiset(pool)
    decreases |pool|
  {
    if |pool| > 0 {
      var m := |pool| - 1;
      assert m in arrival;
      var p :| 0 <= p < |arrival| && arrival[p] == m;
      var arrival' := arrival[..p] + arrival[p + 1..];
      var collected' := collected[..p] + collected[p + 1..];
      DropLastArrival(arrival, m, p);
      forall j | 0 <= j < m ensures collected'[j] == pool[..m][arrival'[j]] {
        if j < p {
          assert collected'[j] == collected[j] && arrival'[j] == arrival[j];
        } else {
          assert collected'[j] == collected[j + 1] && arrival'[j] == arrival[j + 1];
        }
      }
      CollectedCoversPool(pool[..m], collected', arrival');
      RemoveAt(collected, p);
      RemoveAt(pool, m);
      assert pool[..m] + pool[m + 1..] == pool[..m];
    }
  }

  /** A rearrangement has the same members. */
  lemma SameMembers(a: seq<LatencyResult>, b: seq<LatencyResult>)
    requires multiset(a) == multiset(b)
    ensures forall x :: x in a <==> x in b
  {
    forall x ensures x in a <==> x in b {
      assert x in a <==> x in multiset(a);
      assert x in b <==> x in multiset(b);
    }
  }

  /** The first passing result of a latency-sorted arrangement of the pool is
      a possible answer for the pool. */
  lemma {:induction false} FirstAcceptableOfSorted(pool: seq<LatencyResult>, sorted: seq<LatencyResult>, i: nat)
    requires multiset(pool) == multiset(sorted)
    requires SortedByLatency(sorted)
    requires i < |sorted| && Acceptable(sorted[i])
    requires forall j :: 0 <= j < i ==> !Acceptable(sorted[j])
    ensures MaySelect(pool, sorted[i].ip)
  {
    SameMembers(pool, sorted);
    assert sorted[i] in pool;
    var k :| 0 <= k < |pool| && pool[k] == sorted[i];
    forall j | 0 <= j < |pool| && Acceptable(pool[j]) ensures pool[k].latency <= pool[j].latency {
      assert pool[j] in sorted;
      var m :| 0 <= m < |sorted| && sorted[m] == pool[j];
      assert m >= i;
    }
  }

  /** If no result of an arrangement of the pool passes, "" is the answer. */
  lemma {:induction false} NoneAcceptableOfSorted(pool: seq<LatencyResult>, sorted: seq<LatencyResult>)
    requires multiset(pool) == multiset(sorted)
    requires forall j :: 0 <= j < |sorted| ==> !Acceptable(sorted[j])
    ensures MaySelect(pool, "")
  {
    SameMembers(pool, sorted);
    forall k | 0 <= k < |pool| ensures !Acceptable(pool[k]) {
      assert pool[k] in sorted;
    }
  }

  /** The fan-out and the channel drain: a fresh array holding the results
      in the order they arrived. */
  method Collect(ips: seq<string>, probes: seq<ProbeOutcome>, arrival: seq<nat>) returns (results: array<LatencyResult>)
    requires |probes| == |ips|
    requires IsArrivalOrder(arrival, |ips|)
    ensures fresh(results)
    ensures multiset(results[..]) == multiset(ProbeAll(ips, probes))
  {
    ghost var pool := ProbeAll(ips, probes);
    results := new LatencyResult[|ips|];
    var n := 0;
    while n < |ips|
      invariant 0 <= n <= |ips|
      invariant forall j :: 0 <= j < n ==> results[j] == pool[arrival[j]]
    {
      var k := arrival[n];
      results[n] := GetLatency(ips[k], probes[k]);
      n := n + 1;
    }
    CollectedCoversPool(pool, results[..], arrival);
  }

  /** The scan of the sorted results: the first one that passes the filter. */
  method FirstAcceptable(results: array<LatencyResult>, ghost pool: seq<LatencyResult>) returns (ip: string)
    requires multiset(pool) == multiset(results[..])
    requires SortedByLatency(results[..])
    ensures (ip == "" && forall j :: 0 <= j < results.Length ==> !Acceptable(results[j])) ||
            (exists i :: 0 <= i < results.Length && Acceptable(results[i]) && results[i].ip == ip &&
                         forall j :: 0 <= j < i ==> !Acceptable(results[j]))
    ensures MaySelect(pool, ip)
  {
    var i := 0;
    while i < results.Length
      invariant 0 <= i <= results.Length
      invariant forall j :: 0 <= j < i ==> !Acceptable(results[j])
    {
      if Acceptable(results[i]) {
        ip := results[i].ip;
        FirstAcceptableOfSorted(pool, results[..], i);
        return;
      }
      i := i + 1;
    }
    ip := "";
    NoneAcceptableOfSorted(pool, results[..]);
  }

  /** getIP over the probe outcome of every candidate and the order in which
      the results arrived. */
  method GetIP(content: string, probes: seq<ProbeOutcome>, arrival: seq<nat>) returns (ip: string)
    requires |probes| == |Candidates(content)|
    requires IsArrivalOrder(arrival, |probes|)
    ensures MaySelect(ProbeAll(Candidates(content), probes), ip)
  {
    var ips := Candidates(content);
    var results := Collect(ips, probes, arrival);
    SortByLatency(results);
    ip := FirstAcceptable(results, ProbeAll(ips, probes));
  }

  /** When no passing result carries an empty address, "" is a possible answer
      exactly when nothing passes the filter. */
  lemma NoWinnerIffNoneAcceptable(pool: seq<LatencyResult>)
    requires forall k :: 0 <= k < |pool| && Acceptable(pool[k]) ==> pool[k].ip != ""
    ensures MaySelect(pool, "") <==> forall k :: 0 <= k < |pool| ==> !Acceptable(pool[k])
  {
  }

  /** When the passing results have pairwise distinct latencies, there is only
      one non-empty possible answer: the address with the minimum latency. */
  lemma DistinctLatenciesDetermineWinner(pool: seq<LatencyResult>, ip1: string, ip2: string)
    requires forall i, j :: 0 <= i < j < |pool| && Acceptable(pool[i]) && Acceptable(pool[j]) ==>
               pool[i].latency != pool[j].latency
    requires MaySelect(pool, ip1) && MaySelect(pool, ip2)
    ensures ip1 == ip2
  {
  }

  /** If every probe failed to construct a pinger, the selector answers "". */
  lemma UnreachablePoolSelectsNothing(ips: seq<string>, probes: seq<ProbeOutcome>, ip: string)
    requires |probes| == |ips|
    requires forall k :: 0 <= k < |probes| ==> probes[k].PingerError?
    requires MaySelect(ProbeAll(ips, probes), ip)
    ensures ip == ""
  {
    var pool := ProbeAll(ips, probes);
    forall k | 0 <= k < |pool| ensures !Acceptable(pool[k]) {
      SentinelNeverAcceptable(ips[k]);
    }
  }

  /** Content holding only newlines (or nothing) is one empty candidate. */
  lemma BlankContentIsOneEmptyCandidate(content: string)
    requires Text.AllNewlines(content)
    ensures Candidates(content) == [""]
  {
    assert Text.Trim(content) == "";
  }
}
