/** Counting files as they are processed, and adding up summaries of all threads of all slaves. */
module Accounting {

  function Total(s: seq<nat>): nat {
    if |s| == 0 then 0 else s[0] + Total(s[1..])
  }

  lemma {:induction false} TotalUpdate(s: seq<nat>, i: nat, v: nat)
    requires i < |s|
    ensures Total(s[i := v]) == Total(s) - s[i] + v
  {
    if i == 0 {
      assert s[0 := v][1..] == s[1..];
    } else {
      assert s[i := v][1..] == s[1..][i - 1 := v];
      TotalUpdate(s[1..], i - 1, v);
    }
  }

  lemma {:induction false} TotalMonotone(s: seq<nat>, t: seq<nat>)
    requires |s| == |t| && forall i | 0 <= i < |s| :: s[i] <= t[i]
    ensures Total(s) <= Total(t)
    ensures Total(s) == Total(t) ==> s == t
  {
    if |s| > 0 {
      TotalMonotone(s[1..], t[1..]);
      assert s == [s[0]] + s[1..] && t == [t[0]] + t[1..];
    }
  }

  // ----- the progress bar

  /** How many of the first `n` reports come from a source. */
  function Reports(arrivals: seq<nat>, n: nat, source: nat): nat
    requires n <= |arrivals|
  {
    if n == 0 then 0
    else Reports(arrivals, n - 1, source) + if arrivals[n - 1] == source then 1 else 0
  }

  /** The counts of all the sources after `n` reports. */
  function Counts(arrivals: seq<nat>, n: nat, sources: nat): (counts: seq<nat>)
    requires n <= |arrivals|
    ensures |counts| == sources
  {
    seq(sources, (s: nat) => Reports(arrivals, n, s))
  }

  predicate FromSources(arrivals: seq<nat>, sources: nat) {
    forall i | 0 <= i < |arrivals| :: arrivals[i] < sources
  }

  lemma {:induction false} AllZero(s: seq<nat>)
    requires forall i | 0 <= i < |s| :: s[i] == 0
    ensures Total(s) == 0
  {
    if |s| > 0 {
      AllZero(s[1..]);
    }
  }

  lemma CountsNext(arrivals: seq<nat>, n: nat, sources: nat)
    requires n < |arrivals| && arrivals[n] < sources
    ensures
      var counts := Counts(arrivals, n, sources);
      Counts(arrivals, n + 1, sources) == counts[arrivals[n] := counts[arrivals[n]] + 1]
  {
  }

  /** The counts add up to the number of the reports received, in every arrival order. */
  lemma {:induction false} CountsAddUp(arrivals: seq<nat>, n: nat, sources: nat)
    requires n <= |arrivals| && FromSources(arrivals, sources)
    ensures Total(Counts(arrivals, n, sources)) == n
  {
    var counts := Counts(arrivals, n, sources);
    if n == 0 {
      AllZero(counts);
    } else {
      CountsAddUp(arrivals, n - 1, sources);
      CountsNext(arrivals, n - 1, sources);
      var before := Counts(arrivals, n - 1, sources);
      TotalUpdate(before, arrivals[n - 1], before[arrivals[n - 1]] + 1);
    }
  }

  lemma {:induction false} ReportsGrow(arrivals: seq<nat>, n: nat, m: nat, source: nat)
    requires n <= m <= |arrivals|
    ensures Reports(arrivals, n, source) <= Reports(arrivals, m, source)
  {
    if n < m {
      ReportsGrow(arrivals, n, m - 1, source);
    }
  }

  /** If every source reports once for each of its files, then in every arrival order no count ever
      exceeds its goal, and the sum of the counts reaches the sum of the goals exactly when every
      count has reached its goal. */
  lemma GoalsReached(arrivals: seq<nat>, n: nat, goals: seq<nat>)
    requires n <= |arrivals| && FromSources(arrivals, |goals|)
    requires Counts(arrivals, |arrivals|, |goals|) == goals
    ensures forall s | 0 <= s < |goals| :: Counts(arrivals, n, |goals|)[s] <= goals[s]
    ensures n == Total(goals) <==> Counts(arrivals, n, |goals|) == goals
    ensures Total(goals) == |arrivals|
  {
    var counts := Counts(arrivals, n, |goals|);
    forall s | 0 <= s < |goals|
      ensures counts[s] <= goals[s]
    {
      ReportsGrow(arrivals, n, |arrivals|, s);
      assert goals[s] == Counts(arrivals, |arrivals|, |goals|)[s];
    }
    CountsAddUp(arrivals, n, |goals|);
    CountsAddUp(arrivals, |arrivals|, |goals|);
    TotalMonotone(counts, goals);
  }

  /** Counts the reports of the sources, in the order in which they arrive, until there are as many as
      all the files together. Every report is received, and each count ends at its goal. */
  method CountReports(counts: array<nat>, goals: seq<nat>, arrivals: seq<nat>) returns (sum: nat)
    requires counts.Length == |goals| && forall s | 0 <= s < |goals| :: counts[s] == 0
    requires FromSources(arrivals, |goals|) && Counts(arrivals, |arrivals|, |goals|) == goals
    modifies counts
    ensures counts[..] == goals
    ensures sum == Total(goals) == |arrivals|
  {
    var goalSum: nat := 0;
    for s := 0 to |goals|
      modifies {}
      invariant goalSum == Total(goals[..s])
    {
      TotalSnoc(goals[..s], goals[s]);
      assert goals[..s + 1] == goals[..s] + [goals[s]];
      goalSum := goalSum + goals[s];
    }
    assert goals[..|goals|] == goals;
    GoalsReached(arrivals, 0, goals);
    sum := 0;
    for i := 0 to goalSum
      invariant sum == i
      invariant counts[..] == Counts(arrivals, i, |goals|)
    {
      CountsNext(arrivals, i, |goals|);
      var source := arrivals[i];
      counts[source] := counts[source] + 1;
      sum := sum + 1;
    }
  }

  // ----- summaries

  const WORD: nat := 0x1_0000_0000_0000_0000

  /** Addition of 64 bit counters. */
  function Add(a: nat, b: nat): nat {
    (a + b) % WORD
  }

  function SumOf(xs: seq<nat>): nat {
    if |xs| == 0 then 0 else Add(SumOf(xs[..|xs| - 1]), xs[|xs| - 1])
  }

  lemma {:induction false} SumIsTotal(xs: seq<nat>)
    ensures SumOf(xs) == Total(xs) % WORD
  {
    if |xs| > 0 {
      var front := xs[..|xs| - 1];
      SumIsTotal(front);
      TotalSnoc(front, xs[|xs| - 1]);
      assert xs == front + [xs[|xs| - 1]];
      WrapOnce(Total(front), xs[|xs| - 1]);
    }
  }

  lemma WrapOnce(a: nat, b: nat)
    ensures Add(a % WORD, b) == (a + b) % WORD
  {
    assert (a % WORD + b) % WORD == (a + b) % WORD;
  }

  lemma {:induction false} TotalSnoc(s: seq<nat>, x: nat)
    ensures Total(s + [x]) == Total(s) + x
  {
    if |s| == 0 {
      assert s + [x] == [x];
    } else {
      assert (s + [x])[1..] == s[1..] + [x];
      TotalSnoc(s[1..], x);
    }
  }

  /** One counter of a summary: thread `t` of a slave adds its private value in one atomic step. The
      steps of the slave's threads, for all counters, come in some order. */
  datatype Addition = Addition(thread: nat, counter: nat)

  function Shared(privates: seq<seq<nat>>, steps: seq<Addition>, counter: nat): nat
    requires forall i | 0 <= i < |steps| ::
      steps[i].thread < |privates| && steps[i].counter < |privates[steps[i].thread]|
  {
    if |steps| == 0 then 0
    else
      var last := steps[|steps| - 1];
      var before := Shared(privates, steps[..|steps| - 1], counter);
      if last.counter == counter then Add(before, privates[last.thread][counter]) else before
  }

  /** The values added to one counter so far, by thread; zero where a thread has not added yet. */
  function Added(privates: seq<seq<nat>>, steps: seq<Addition>, counter: nat): (r: seq<nat>)
    requires forall t | 0 <= t < |privates| :: counter < |privates[t]|
    ensures |r| == |privates|
  {
    seq(|privates|, t requires 0 <= t < |privates| =>
      if Addition(t, counter) in steps then privates[t][counter] else 0)
  }

  /** No update is lost or doubled: if every thread adds each counter once, in whatever order the
      steps come, the shared counter ends as the sum over the threads. */
  lemma {:induction false} SharedConserves(privates: seq<seq<nat>>, steps: seq<Addition>, counter: nat)
    requires forall i | 0 <= i < |steps| ::
      steps[i].thread < |privates| && steps[i].counter < |privates[steps[i].thread]|
    requires forall t | 0 <= t < |privates| :: counter < |privates[t]|
    requires forall i, j | 0 <= i < j < |steps| :: steps[i] != steps[j]
    ensures Shared(privates, steps, counter) == Total(Added(privates, steps, counter)) % WORD
  {
    if |steps| == 0 {
      AllZero(Added(privates, steps, counter));
    } else {
      var front, last := steps[..|steps| - 1], steps[|steps| - 1];
      SharedConserves(privates, front, counter);
      assert steps == front + [last] && last !in front;
      AddedNext(privates, front, last, counter);
      if last.counter == counter {
        var before := Added(privates, front, counter);
        TotalUpdate(before, last.thread, privates[last.thread][counter]);
        WrapOnce(Total(before), privates[last.thread][counter]);
      }
    }
  }

  lemma AddedNext(privates: seq<seq<nat>>, front: seq<Addition>, last: Addition, counter: nat)
    requires last.thread < |privates| && last !in front
    requires forall t | 0 <= t < |privates| :: counter < |privates[t]|
    ensures var before, after := Added(privates, front, counter), Added(privates, front + [last], counter);
      if last.counter == counter then before[last.thread] == 0 &&
        after == before[last.thread := privates[last.thread][counter]]
      else after == before
  {
  }

  /** What one thread counts: the sum over its records. */
  function Privates(records: seq<seq<nat>>): (r: seq<nat>)
    ensures |r| == |records|
  {
    seq(|records|, t requires 0 <= t < |records| => SumOf(records[t]))
  }

  function Totals(records: seq<seq<nat>>): (r: seq<nat>)
    ensures |r| == |records|
  {
    seq(|records|, t requires 0 <= t < |records| => Total(records[t]))
  }

  lemma {:induction false} WrappedTotals(a: seq<nat>, b: seq<nat>)
    requires |a| == |b| && forall i | 0 <= i < |a| :: a[i] == b[i] % WORD
    ensures Total(a) % WORD == Total(b) % WORD
  {
    if |a| > 0 {
      WrappedTotals(a[1..], b[1..]);
      SameRemainders(a[0], b[0], Total(a[1..]), Total(b[1..]));
    }
  }

  lemma SameRemainders(a: nat, b: nat, x: nat, y: nat)
    requires a == b % WORD && x % WORD == y % WORD
    ensures (a + x) % WORD == (b + y) % WORD
  {
    var p, q, r := b / WORD, x / WORD, y / WORD;
    assert b == WORD * p + a && x == WORD * q + x % WORD && y == WORD * r + x % WORD;
    assert b + y == a + x + WORD * (p + r - q);
  }

  lemma {:induction false} ReducedSum(slaves: seq<seq<seq<nat>>>, reduced: seq<nat>)
    requires |reduced| == |slaves|
    requires forall s | 0 <= s < |slaves| :: reduced[s] == Total(Privates(slaves[s])) % WORD
    ensures SumOf(reduced) == Total(SlaveTotals(slaves)) % WORD
  {
    var all := SlaveTotals(slaves);
    forall s | 0 <= s < |slaves|
      ensures reduced[s] == all[s] % WORD
    {
      forall t | 0 <= t < |slaves[s]|
        ensures Privates(slaves[s])[t] == Totals(slaves[s])[t] % WORD
      {
        SumIsTotal(slaves[s][t]);
      }
      WrappedTotals(Privates(slaves[s]), Totals(slaves[s]));
    }
    SumIsTotal(reduced);
    WrappedTotals(reduced, all);
  }

  function SlaveTotals(slaves: seq<seq<seq<nat>>>): (r: seq<nat>)
    ensures |r| == |slaves|
  {
    seq(|slaves|, s requires 0 <= s < |slaves| => Total(Totals(slaves[s])))
  }

  /** A slave: `values[t][c]` are the values of counter `c` in the records of thread `t`, `steps` the
      order in which the threads have added their private sums to the shared counters. */
  datatype Slave = Slave(values: seq<seq<seq<nat>>>, steps: seq<Addition>) {
    /** Every thread adds each counter once. */
    ghost predicate Complete(counters: nat) {
      && (forall t | 0 <= t < |values| :: |values[t]| == counters)
      && (forall i | 0 <= i < |steps| :: steps[i].thread < |values| && steps[i].counter < counters)
      && (forall i, j | 0 <= i < j < |steps| :: steps[i] != steps[j])
      && (forall t, c | 0 <= t < |values| && 0 <= c < counters :: Addition(t, c) in steps)
    }

    function PrivateSums(): (r: seq<seq<nat>>)
      ensures |r| == |values|
    {
      seq(|values|, t requires 0 <= t < |values| => Privates(values[t]))
    }

    /** The values of one counter, by thread. */
    function Column(counters: nat, counter: nat): (r: seq<seq<nat>>)
      requires Complete(counters) && counter < counters
      ensures |r| == |values|
    {
      seq(|values|, t requires 0 <= t < |values| => values[t][counter])
    }

    /** The shared counter the slave sends to the master. */
    function Sent(counters: nat, counter: nat): nat
      requires Complete(counters)
    {
      Shared(PrivateSums(), steps, counter)
    }

    lemma SentIsSum(counters: nat, counter: nat)
      requires Complete(counters) && counter < counters
      ensures Sent(counters, counter) == Total(Privates(Column(counters, counter))) % WORD
    {
      SharedConserves(PrivateSums(), steps, counter);
      assert Added(PrivateSums(), steps, counter) == Privates(Column(counters, counter));
    }
  }

  /** The values of one counter on all slaves, by thread. */
  function Columns(slaves: seq<Slave>, counters: nat, counter: nat): (r: seq<seq<seq<nat>>>)
    requires counter < counters && forall s | 0 <= s < |slaves| :: slaves[s].Complete(counters)
    ensures |r| == |slaves|
  {
    seq(|slaves|, s requires 0 <= s < |slaves| => slaves[s].Column(counters, counter))
  }

  /** The master's total of a counter is the sum over all records counted by all threads of all slaves,
      modulo the width of the counters, in whatever order the threads of each slave add. */
  lemma ReducedTotal(slaves: seq<Slave>, counters: nat, counter: nat, reduced: seq<nat>)
    requires counter < counters && forall s | 0 <= s < |slaves| :: slaves[s].Complete(counters)
    requires |reduced| == |slaves|
    requires forall s | 0 <= s < |slaves| ::
      slaves[s].Complete(counters) && reduced[s] == slaves[s].Sent(counters, counter)
    ensures SumOf(reduced) == Total(SlaveTotals(Columns(slaves, counters, counter))) % WORD
  {
    forall s | 0 <= s < |slaves|
      ensures reduced[s] == Total(Privates(Columns(slaves, counters, counter)[s])) % WORD
    {
      slaves[s].SentIsSum(counters, counter);
    }
    ReducedSum(Columns(slaves, counters, counter), reduced);
  }
}
