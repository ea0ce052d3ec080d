/** Sort, aggregation and Top-N queries from the flow files to the printed records: files are handed
    to threads in any way, an index may rule files out, messages arrive in any order, and still the
    answer is that of one machine reading every file. */
module EndToEnd {
  import opened Ordering
  import opened Interleaving
  import opened Aggregation
  import opened SortMode
  import opened Tput
  import opened Rounding
  import opened Options
  import opened Bloom
  import opened BloomThreads

  /** The files of all slaves and the thread that gets each of them; `skipped` are the files for
      which the index is negative. A memory holds a view of a matching record. */
  datatype Plan<!T, !U> = Plan(matches: T -> bool, view: T -> U, files: seq<seq<T>>, skipped: set<nat>,
                               owner: seq<nat>, threads: nat) {
    ghost predicate Valid() {
      && |owner| == |files| && (forall i | 0 <= i < |owner| :: owner[i] < threads)
      && (forall i, j | 0 <= i < |files| && i in skipped && 0 <= j < |files[i]| :: !matches(files[i][j]))
    }

    function Kept(s: seq<T>): seq<U> {
      if |s| == 0 then [] else (if matches(s[0]) then [view(s[0])] else []) + Kept(s[1..])
    }

    /** What a thread has put into its memory once the first `n` files are done. */
    function Share(thread: nat, n: nat): seq<U>
      requires n <= |files| == |owner|
    {
      if n == 0 then []
      else Share(thread, n - 1) + if owner[n - 1] == thread && n - 1 !in skipped then Kept(files[n - 1]) else []
    }

    function Shares(n: nat): (r: seq<seq<U>>)
      requires n <= |files| == |owner|
      ensures |r| == threads
    {
      seq(threads, (t: nat) => Share(t, n))
    }

    /** One machine reads every file. */
    function OnOneMachine(): seq<U> {
      Kept(Flatten(files))
    }

    lemma {:induction false} KeptAppend(a: seq<T>, b: seq<T>)
      ensures Kept(a + b) == Kept(a) + Kept(b)
    {
      if |a| == 0 {
        assert a + b == b;
      } else {
        assert (a + b)[1..] == a[1..] + b;
        KeptAppend(a[1..], b);
        AppendAssociates(if matches(a[0]) then [view(a[0])] else [], Kept(a[1..]), Kept(b));
      }
    }

    // ----- where a view comes from

    /** The positions of matching records with the view `y`. */
    ghost function Places(s: seq<T>, y: U): set<nat> {
      set i: nat | i < |s| && matches(s[i]) && view(s[i]) == y
    }

    /** Every matching record is kept, once, and no other. */
    lemma {:induction false} KeptCount(s: seq<T>, y: U)
      ensures multiset(Kept(s))[y] == |Places(s, y)|
    {
      if |s| == 0 {
        assert Places(s, y) == {};
      } else {
        var front, x := s[..|s| - 1], s[|s| - 1];
        assert s == front + [x];
        KeptCount(front, y);
        KeptLast(front, x, y);
        PlacesLast(front, x, y);
      }
    }

    lemma KeptLast(front: seq<T>, x: T, y: U)
      ensures multiset(Kept(front + [x]))[y] == multiset(Kept(front))[y] + if matches(x) && view(x) == y then 1 else 0
    {
      KeptAppend(front, [x]);
      assert [x][1..] == [];
      assert Kept([x]) == if matches(x) then [view(x)] else [];
      CountInBoth(Kept(front), Kept([x]), y);
    }

    lemma PlacesLast(front: seq<T>, x: T, y: U)
      ensures |Places(front + [x], y)| == |Places(front, y)| + if matches(x) && view(x) == y then 1 else 0
    {
      var last: set<nat> := if matches(x) && view(x) == y then {|front|} else {};
      assert Places(front + [x], y) == Places(front, y) + last;
      SizeOfBoth(Places(front, y), last);
    }

    /** The number of such positions in the first `n` files, and in those of them that a thread gets. */
    ghost function PlaceCount(n: nat, y: U): nat
      requires n <= |files|
    {
      if n == 0 then 0 else PlaceCount(n - 1, y) + |Places(files[n - 1], y)|
    }

    ghost function PlaceCountOf(thread: nat, n: nat, y: U): nat
      requires n <= |files| == |owner|
    {
      if n == 0 then 0
      else PlaceCountOf(thread, n - 1, y) + if owner[n - 1] == thread then |Places(files[n - 1], y)| else 0
    }

    lemma {:induction false} OneMachineCount(n: nat, y: U)
      requires n <= |files|
      ensures multiset(Kept(Flatten(files[..n])))[y] == PlaceCount(n, y)
    {
      if n > 0 {
        OneMachineCount(n - 1, y);
        OneMachineNext(n - 1, y);
        KeptCount(files[n - 1], y);
      }
    }

    lemma OneMachineNext(n: nat, y: U)
      requires n < |files|
      ensures multiset(Kept(Flatten(files[..n + 1])))[y] ==
        multiset(Kept(Flatten(files[..n])))[y] + multiset(Kept(files[n]))[y]
    {
      KeptNext(n);
      CountInBoth(Kept(Flatten(files[..n])), Kept(files[n]), y);
    }

    /** What a thread has in its memory is exactly what matches in its files, each record once. */
    lemma {:induction false} ShareCount(thread: nat, n: nat, y: U)
      requires Valid() && n <= |files|
      ensures multiset(Share(thread, n))[y] == PlaceCountOf(thread, n, y)
    {
      if n == 0 {
        ShareStart(thread, y);
      } else {
        ShareCount(thread, n - 1, y);
        ShareStep(thread, n, y);
      }
    }

    lemma ShareStart(thread: nat, y: U)
      requires |owner| == |files|
      ensures multiset(Share(thread, 0))[y] == PlaceCountOf(thread, 0, y)
    {
    }

    lemma ShareStep(thread: nat, n: nat, y: U)
      requires Valid() && 0 < n <= |files| && multiset(Share(thread, n - 1))[y] == PlaceCountOf(thread, n - 1, y)
      ensures multiset(Share(thread, n))[y] == PlaceCountOf(thread, n, y)
    {
      ShareNext(thread, n - 1, y);
      KeptCount(files[n - 1], y);
    }

    lemma ShareNext(thread: nat, n: nat, y: U)
      requires Valid() && n < |files|
      ensures multiset(Share(thread, n + 1))[y] ==
        multiset(Share(thread, n))[y] + if owner[n] == thread then multiset(Kept(files[n]))[y] else 0
    {
      if n in skipped {
        NothingKept(files[n]);
      }
      CountInBoth(Share(thread, n), if owner[n] == thread && n !in skipped then Kept(files[n]) else [], y);
    }

    lemma {:induction false} NothingKept(s: seq<T>)
      requires forall j | 0 <= j < |s| :: !matches(s[j])
      ensures Kept(s) == []
    {
      if |s| > 0 {
        NothingKept(s[1..]);
      }
    }

    lemma SharesNext(n: nat)
      requires Valid() && n < |files|
      ensures var before, o := Shares(n), owner[n];
        Shares(n + 1) == before[o := before[o] + Kept(files[n])]
    {
      if n in skipped {
        NothingKept(files[n]);
      }
      var before, o := Shares(n), owner[n];
      var after := before[o := before[o] + Kept(files[n])];
      forall t: nat | t < threads
        ensures Shares(n + 1)[t] == after[t]
      {
        assert Shares(n + 1)[t] == Share(t, n + 1) && before[t] == Share(t, n);
      }
    }

    lemma SharesStart()
      requires Valid()
      ensures Flatten(Shares(0)) == Kept(Flatten(files[..0])) == []
    {
      assert forall t | 0 <= t < threads :: Shares(0)[t] == [];
      FlattenEmpty(Shares(0));
    }

    lemma SharesAdd(n: nat)
      requires Valid() && n < |files|
      ensures multiset(Flatten(Shares(n + 1))) == multiset(Flatten(Shares(n))) + multiset(Kept(files[n]))
    {
      SharesNext(n);
      FlattenExtend(Shares(n), owner[n], Kept(files[n]));
    }

    lemma KeptNext(n: nat)
      requires n < |files|
      ensures Kept(Flatten(files[..n + 1])) == Kept(Flatten(files[..n])) + Kept(files[n])
    {
      assert files[..n + 1] == files[..n] + [files[n]];
      FlattenAppend(files[..n], [files[n]]);
      FlattenOne(files[n]);
      KeptAppend(Flatten(files[..n]), files[n]);
    }

    /** Every matching record of the first `n` files is in exactly one memory, once. */
    ghost predicate Covered(n: nat)
      requires n <= |files| == |owner|
    {
      multiset(Flatten(Shares(n))) == multiset(Kept(Flatten(files[..n])))
    }

    lemma CoveredStart()
      requires Valid()
      ensures Covered(0)
    {
      SharesStart();
    }

    lemma CoveredNext(n: nat)
      requires Valid() && n < |files| && Covered(n)
      ensures Covered(n + 1)
    {
      SharesAdd(n);
      KeptNext(n);
      SumOfParts(Kept(Flatten(files[..n])), Kept(files[n]), Flatten(Shares(n)));
    }

    lemma AllCovered(n: nat)
      requires Valid() && n <= |files|
      ensures Covered(n)
    {
      CoveredStart();
      for i := 0 to n
        invariant Covered(i)
      {
        CoveredNext(i);
      }
    }

    /** However often a view is in the memories, it comes from so many positions of matching records, and in
        each memory from so many positions of that thread's files: every matching record of the first `n`
        files is in exactly one memory, once. */
    lemma SharesContents(n: nat)
      requires Valid() && n <= |files|
      ensures forall y :: multiset(Flatten(Shares(n)))[y] == PlaceCount(n, y)
      ensures forall t, y | 0 <= t < threads :: multiset(Shares(n)[t])[y] == PlaceCountOf(t, n, y)
    {
      AllCovered(n);
      forall y
        ensures multiset(Flatten(Shares(n)))[y] == PlaceCount(n, y)
      {
        OneMachineCount(n, y);
      }
      forall t, y | 0 <= t < threads
        ensures multiset(Shares(n)[t])[y] == PlaceCountOf(t, n, y)
      {
        ShareCount(t, n, y);
      }
    }

    /** The one machine has every matching record of every file once. */
    lemma OnOneMachineContents()
      ensures forall y :: multiset(OnOneMachine())[y] == PlaceCount(|files|, y)
    {
      forall y
        ensures multiset(OnOneMachine())[y] == PlaceCount(|files|, y)
      {
        OneMachineCount(|files|, y);
        assert files[..|files|] == files;
      }
    }

    lemma AllShares()
      requires Valid()
      ensures multiset(Flatten(Shares(|files|))) == multiset(OnOneMachine())
    {
      AllCovered(|files|);
      assert files[..|files|] == files;
    }
  }

  lemma CountInBoth<U>(a: seq<U>, b: seq<U>, y: U)
    ensures multiset(a + b)[y] == multiset(a)[y] + multiset(b)[y]
  {
  }

  lemma SizeOfBoth<P>(a: set<P>, b: set<P>)
    requires a !! b
    ensures |a + b| == |a| + |b|
  {
  }

  lemma SumOfParts<U>(a: seq<U>, b: seq<U>, a': seq<U>)
    requires multiset(a') == multiset(a)
    ensures multiset(a + b) == multiset(a') + multiset(b)
  {
  }

  lemma {:induction false} FlattenExtend<U>(ss: seq<seq<U>>, i: nat, x: seq<U>)
    requires i < |ss|
    ensures multiset(Flatten(ss[i := ss[i] + x])) == multiset(Flatten(ss)) + multiset(x)
  {
    var longer := ss[i := ss[i] + x];
    if i == 0 {
      assert longer[1..] == ss[1..];
    } else {
      assert longer[1..] == ss[1..][i - 1 := ss[i] + x];
      FlattenExtend(ss[1..], i - 1, x);
    }
  }

  /** An index that cannot be loaded rules nothing out, and neither does a thread without a tree. */
  predicate RuledOut(tree: Option<Tree>, index: Option<Address -> bool>) {
    tree.Some? && !FileMayMatch(index, tree.value)
  }

  /** If the filter is safe for the number of threads of every slave, the files that the threads' trees
      rule out hold no matching record, in every interleaving of the builds. Thread `t` has the tree
      `trees[t]` and belongs to a slave with `team[t]` threads. */
  lemma IndexAllowed<U>(f: Filter, team: seq<nat>, trees: seq<Option<Tree>>, indexes: seq<Option<Address -> bool>>,
                        plan: Plan<Flow, U>)
    requires |team| == |trees| == plan.threads
    requires forall t | 0 <= t < plan.threads :: SafeForThreads(f, team[t]) && TreeOfRun(f, team[t], trees[t])
    requires |indexes| == |plan.files| == |plan.owner|
    requires forall i | 0 <= i < |plan.owner| :: plan.owner[i] < plan.threads
    requires forall i | 0 <= i < |indexes| && indexes[i].Some? :: IndexOf(indexes[i].value, plan.files[i])
    requires forall flow :: plan.matches(flow) == Match(f, flow)
    requires forall i | 0 <= i < |indexes| && i in plan.skipped :: RuledOut(trees[plan.owner[i]], indexes[i])
    ensures plan.Valid()
  {
    forall i, j | 0 <= i < |plan.files| && i in plan.skipped && 0 <= j < |plan.files[i]|
      ensures !plan.matches(plan.files[i][j])
    {
      assert plan.files[i][j] in plan.files[i];
      var t := plan.owner[i];
      RunTreeSound(f, team[t], trees[t]);
      assert RuledOut(trees[t], indexes[i]);
    }
  }

  /** Sorting: the printed records are those of one machine that sorts everything. */
  lemma SortQuery<T, U(!new)>(plan: Plan<T, U>, le: (U, U) -> bool, limit: nat, lists: seq<seq<U>>,
                              order: seq<(nat, U)>)
    requires plan.Valid() && TotalPreorder(le) && Antisymmetric(le) && |lists| == plan.threads
    requires forall t | 0 <= t < |lists| :: Listing(le, lists[t], multiset(plan.Shares(|plan.files|)[t]))
    requires Interleaves(order, Truncated(lists, limit))
    ensures Cut(Sort(le, Untag(order)), limit) == Cut(Sort(le, plan.OnOneMachine()), limit)
  {
    plan.AllShares();
    SameFlattened(lists, plan.Shares(|plan.files|));
    SortModeExact(le, lists, limit, order, plan.OnOneMachine());
  }

  /** The listings of the threads' memories. */
  ghost predicate Memories(fs: seq<AggrFunc>, shares: seq<seq<Record>>, locals: seq<seq<Record>>) {
    |locals| == |shares| &&
    forall t | 0 <= t < |locals| :: multiset(locals[t]) == multiset(RecordsOf(Aggregate(fs, shares[t])))
  }

  /** Aggregation: the master's memory is the one machine's. */
  lemma AggregationQuery<T>(plan: Plan<T, Record>, fs: seq<AggrFunc>, sent: seq<seq<Record>>, order: seq<(nat, Record)>)
    requires plan.Valid() && Memories(fs, plan.Shares(|plan.files|), sent)
    requires Interleaves(order, sent)
    ensures Aggregate(fs, Untag(order)) == Aggregate(fs, plan.OnOneMachine())
  {
    plan.AllShares();
    InterleavesContents(order, sent);
    MasterAggregatesAll(fs, plan.Shares(|plan.files|), sent, Untag(order), plan.OnOneMachine());
  }

  /** Top-N: where the code's threshold suffices, it prints the first records of the one machine's
      aggregation. For the queries that are always exact that is so whenever the bottom is below 2^53. */
  lemma TopNQuery<T>(plan: Plan<T, Record>, q: Query, round: real -> real, le: (Record, Record) -> bool,
                     locals: seq<seq<Record>>, partial: seq<Record>, final: seq<Record>, onOne: seq<Record>)
    requires plan.Valid() && 0 < plan.threads < 0x1_0000_0000_0000_0000 && q.Enabled() && RoundsToDouble(round)
    requires Suffices(q, plan.threads, Bottom(q, partial), CodeThreshold(round, Bottom(q, partial), plan.threads))
      || (AlwaysExact(q, plan.threads) && Bottom(q, partial) < 0x20_0000_0000_0000)
    requires Memories(q.funcs, plan.Shares(|plan.files|), locals)
    requires forall t | 0 <= t < |locals| :: SortedBy(q.Before, locals[t])
    requires Refines(q, le) && Antisymmetric(le)
    requires Tput.Run(q, CodeThreshold(round, Bottom(q, partial), plan.threads), locals, partial, final, le)
    requires Listing(le, onOne, multiset(RecordsOf(Aggregate(q.funcs, plan.OnOneMachine()))))
    ensures Cut(final, q.limit) == Cut(onOne, q.limit)
  {
    var shares := plan.Shares(|plan.files|);
    forall t | 0 <= t < |locals|
      ensures Local(q, locals[t])
    {
      ListingDistinct(locals[t], Aggregate(q.funcs, shares[t]));
    }
    CodeSufficesIff(q, plan.threads, round);
    TputExact(q, CodeThreshold(round, Bottom(q, partial), plan.threads), locals, partial, final, le);
    var l :| Listing(le, l, multiset(RecordsOf(Aggregate(q.funcs, Flatten(locals))))) &&
      Cut(l, q.limit) == Cut(final, q.limit);
    plan.AllShares();
    MasterAggregatesAll(q.funcs, shares, locals, Flatten(locals), plan.OnOneMachine());
    ListingUnique(le, l, onOne);
  }
}
