/** The threads of a process each build a tree of their own from the same filter, all at the same time.
    The address count and the error code are shared; every access to them is a step of its own, and a
    schedule picks the thread that takes each step. */
module BloomThreads {
  import opened Options
  import opened Ordering
  import opened Bloom
  import Accounting

  /** What the build does at a leaf: an equality with a full address, one with a netmask, another
      comparison of an address, or a node that is skipped. */
  datatype Visit = Plain | Netmask | Comparison | Skip

  function Visits(f: Filter): seq<Visit> {
    match f
    case Addr(eq, masked, _, _, _) => [if !eq then Comparison else if masked then Netmask else Plain]
    case And(l, r) => Visits(l) + Visits(r)
    case Or(l, r) => Visits(l) + Visits(r)
    case _ => [Skip]
  }

  predicate Counts(v: Visit) {
    v.Plain? || v.Netmask?
  }

  function Counted(vs: seq<Visit>): nat {
    if |vs| == 0 then 0 else Counted(vs[..|vs| - 1]) + if Counts(vs[|vs| - 1]) then 1 else 0
  }

  /** `verdicts` says for each leaf visited so far whether it was built, `within` how many were counted
      within the limit; `write` is an error not stored yet, `code` what was read at the end. */
  datatype Thread = Thread(verdicts: seq<bool>, within: nat, write: Option<Code>, code: Option<Code>)

  datatype Process = Process(ipCount: nat, code: Code, threads: seq<Thread>)

  function Start(k: nat): Process {
    Process(0, Ok, seq(k, _ => Thread([], 0, None, None)))
  }

  /** The visit of a leaf that is counted: the count is raised and compared with the limit. */
  function CountStep(v: Visit, count: nat, t: Thread): Thread {
    if count > MAX_IP_ADDRESSES then t.(verdicts := t.verdicts + [false], write := Some(Limit))
    else if v.Netmask? then t.(verdicts := t.verdicts + [false], within := t.within + 1, write := Some(Masked))
    else t.(verdicts := t.verdicts + [true], within := t.within + 1)
  }

  function Step(vs: seq<Visit>, s: Process, i: nat): Process
    requires i < |s.threads|
  {
    var t := s.threads[i];
    if t.write.Some? then Process(s.ipCount, t.write.value, s.threads[i := t.(write := None)])
    else if |t.verdicts| < |vs| then
      var v, skipped := vs[|t.verdicts|], t.(verdicts := t.verdicts + [false]);
      match v
      case Skip => Process(s.ipCount, Ok, s.threads[i := skipped])
      case Comparison => Process(s.ipCount, NoEquality, s.threads[i := skipped])
      case _ => Process(s.ipCount + 1, s.code, s.threads[i := CountStep(v, s.ipCount + 1, t)])
    else if t.code.None? then s.(threads := s.threads[i := t.(code := Some(s.code))])
    else s
  }

  /** The run of a schedule. */
  function Run(vs: seq<Visit>, s: Process, schedule: seq<nat>): Process
    decreases schedule
  {
    if |schedule| == 0 then s
    else Run(vs, if schedule[0] < |s.threads| then Step(vs, s, schedule[0]) else s, schedule[1..])
  }

  /** The tree a thread ends up with. */
  function Assembled(f: Filter, verdicts: seq<bool>): Option<Tree>
    requires |verdicts| == |Visits(f)|
  {
    match f
    case Addr(_, _, _, addr, _) => if verdicts[0] then Some(Leaf(addr)) else None
    case And(l, r) => Prune(true, Assembled(l, verdicts[..|Visits(l)|]), Assembled(r, verdicts[|Visits(l)|..]))
    case Or(l, r) => Prune(false, Assembled(l, verdicts[..|Visits(l)|]), Assembled(r, verdicts[|Visits(l)|..]))
    case _ => None
  }

  /** The tree a thread uses once it has read the code. */
  function Used(f: Filter, t: Thread): Option<Tree>
    requires |t.verdicts| == |Visits(f)|
  {
    if t.code == Some(Ok) then Assembled(f, t.verdicts) else None
  }

  predicate Finished(vs: seq<Visit>, t: Thread) {
    t.code.Some? && |t.verdicts| == |vs|
  }

  /** In no interleaving of `k` threads a thread skips a file with a matching record. */
  ghost predicate SoundForThreads(f: Filter, k: nat) {
    forall schedule: seq<nat>, i: nat ::
      var s := Run(Visits(f), Start(k), schedule);
      i < |s.threads| && Finished(Visits(f), s.threads[i]) ==> TreeSound(f, Used(f, s.threads[i]))
  }

  // ----- the condition

  /** How many leaves are counted before the last skipped node. */
  function BeforeLastSkip(vs: seq<Visit>): nat {
    if |vs| == 0 then 0
    else if vs[|vs| - 1].Skip? then Counted(vs[..|vs| - 1]) else BeforeLastSkip(vs[..|vs| - 1])
  }

  /** Alone and below the limit, a thread finds no error at the end: no leaf was refused, or a node was
      skipped afterwards. */
  predicate Quiet(vs: seq<Visit>) {
    |vs| == 0 || vs[|vs| - 1].Skip? || (vs[|vs| - 1].Plain? && Quiet(vs[..|vs| - 1]))
  }

  predicate EndsInSkip(vs: seq<Visit>) {
    |vs| > 0 && vs[|vs| - 1].Skip?
  }

  /** Among `k` threads one may have exactly `t` of its leaves counted within the limit and still find no
      error at the end. Either its own last visit clears the code, or another thread does, which then
      has a skipped node ahead of it while the count runs full. */
  predicate Reachable(vs: seq<Visit>, k: nat, t: nat) {
    var n := Counted(vs);
    && k > 0 && t <= MAX_IP_ADDRESSES && t <= n
    && if t == n then Quiet(vs) || (k > 1 && Skip in vs)
       else (EndsInSkip(vs) && t + (k - 1) * n >= MAX_IP_ADDRESSES) || Cleared(vs, k, t)
  }

  predicate Cleared(vs: seq<Visit>, k: nat, t: nat) {
    k > 1 && Skip in vs && t + (k - 2) * Counted(vs) + BeforeLastSkip(vs) >= MAX_IP_ADDRESSES
  }

  /** Can be evaluated before the query: no number of leaves that one of the threads may have within the
      limit makes a half OR. */
  predicate SafeForThreads(f: Filter, k: nat) {
    forall t: nat | t <= MAX_IP_ADDRESSES && Reachable(Visits(f), k, t) :: !HalfOr(f, State(MAX_IP_ADDRESSES - t, Ok))
  }

  // ----- counting visits

  lemma CountedNext(vs: seq<Visit>, n: nat)
    requires n < |vs|
    ensures Counted(vs[..n + 1]) == Counted(vs[..n]) + if Counts(vs[n]) then 1 else 0
  {
    assert vs[..n + 1][..n] == vs[..n];
  }

  lemma {:induction false} CountedGrows(vs: seq<Visit>, n: nat, m: nat)
    requires n <= m <= |vs|
    ensures Counted(vs[..n]) <= Counted(vs[..m])
  {
    if n < m {
      CountedGrows(vs, n, m - 1);
      CountedNext(vs, m - 1);
    }
  }

  lemma CountedAll(vs: seq<Visit>, n: nat)
    requires n <= |vs|
    ensures Counted(vs[..n]) <= Counted(vs)
  {
    CountedGrows(vs, n, |vs|);
    assert vs[..|vs|] == vs;
  }

  lemma {:induction false} CountedAppend(a: seq<Visit>, b: seq<Visit>)
    ensures Counted(a + b) == Counted(a) + Counted(b)
  {
    if |b| == 0 {
      assert a + b == a;
    } else {
      assert (a + b)[..|a + b| - 1] == a + b[..|b| - 1];
      CountedAppend(a, b[..|b| - 1]);
    }
  }

  lemma {:induction false} SkipAhead(vs: seq<Visit>, n: nat)
    requires n < |vs| && vs[n].Skip?
    ensures Counted(vs[..n]) <= BeforeLastSkip(vs)
  {
    var front := vs[..|vs| - 1];
    if vs[|vs| - 1].Skip? {
      CountedGrows(vs, n, |vs| - 1);
    } else {
      SkipAhead(front, n);
      assert front[..n] == vs[..n];
    }
  }

  // ----- which leaves are built

  /** The verdicts if the first `within` leaves that are counted are within the limit. */
  function Verdicts(vs: seq<Visit>, within: int): (r: seq<bool>)
    ensures |r| == |vs|
  {
    if |vs| == 0 then []
    else
      var front := vs[..|vs| - 1];
      Verdicts(front, within) + [vs[|vs| - 1].Plain? && Counted(front) < within]
  }

  lemma {:induction false} VerdictsAppend(a: seq<Visit>, b: seq<Visit>, within: int)
    ensures Verdicts(a + b, within) == Verdicts(a, within) + Verdicts(b, within - Counted(a))
  {
    if |b| == 0 {
      assert a + b == a;
    } else {
      var front := b[..|b| - 1];
      assert (a + b)[..|a + b| - 1] == a + front;
      VerdictsAppend(a, front, within);
      CountedAppend(a, front);
    }
  }

  lemma VerdictsNext(vs: seq<Visit>, n: nat, within: int)
    requires n < |vs|
    ensures Verdicts(vs[..n + 1], within) == Verdicts(vs[..n], within) + [vs[n].Plain? && Counted(vs[..n]) < within]
  {
    assert vs[..n + 1][..n] == vs[..n];
  }

  /** Beyond what was visited the limit makes no difference. */
  lemma {:induction false} VerdictsWithin(vs: seq<Visit>, a: int, b: int)
    requires Counted(vs) <= a && Counted(vs) <= b
    ensures Verdicts(vs, a) == Verdicts(vs, b)
  {
    if |vs| > 0 {
      VerdictsWithin(vs[..|vs| - 1], a, b);
    }
  }

  lemma {:induction false} BuildCounts(f: Filter, s: State)
    ensures Build(f, s).1.ipCount == s.ipCount + Counted(Visits(f))
  {
    if f.And? || f.Or? {
      BuildCounts(f.left, s);
      BuildCounts(f.right, Build(f.left, s).1);
      CountedAppend(Visits(f.left), Visits(f.right));
    } else {
      assert Visits(f)[..0] == [];
    }
  }

  /** A thread with its first leaves within the limit has the tree of a build that starts that much below
      the limit. */
  lemma {:induction false} AssembledIsBuilt(f: Filter, s: State)
    ensures Assembled(f, Verdicts(Visits(f), MAX_IP_ADDRESSES - s.ipCount)) == Build(f, s).0
  {
    if f.And? || f.Or? {
      var s1 := Build(f.left, s).1;
      BuildCounts(f.left, s);
      var here, after := MAX_IP_ADDRESSES - s.ipCount, MAX_IP_ADDRESSES - s1.ipCount;
      AssembledIsBuilt(f.left, s);
      AssembledIsBuilt(f.right, s1);
      AssembledNode(f, s, s1, Verdicts(Visits(f.left), here), Verdicts(Visits(f.right), after));
      VerdictsSplit(f, here, after);
    } else {
      AssembledLeaf(f, s);
    }
  }

  lemma AssembledLeaf(f: Filter, s: State)
    requires !f.And? && !f.Or?
    ensures Assembled(f, Verdicts(Visits(f), MAX_IP_ADDRESSES - s.ipCount)) == Build(f, s).0
  {
    VerdictOfOne(Visits(f)[0], MAX_IP_ADDRESSES - s.ipCount);
  }

  lemma VerdictOfOne(v: Visit, within: int)
    ensures Verdicts([v], within) == [v.Plain? && 0 < within]
  {
    assert [v][..0] == [];
  }

  lemma AssembledNode(f: Filter, s: State, s1: State, a: seq<bool>, b: seq<bool>)
    requires (f.And? || f.Or?) && s1 == Build(f.left, s).1 && |a| == |Visits(f.left)| && |b| == |Visits(f.right)|
    requires Assembled(f.left, a) == Build(f.left, s).0 && Assembled(f.right, b) == Build(f.right, s1).0
    ensures Assembled(f, a + b) == Build(f, s).0
  {
    AssembledSplit(f, a, b);
    BuildSplit(f, s);
  }

  lemma BuildSplit(f: Filter, s: State)
    requires f.And? || f.Or?
    ensures Build(f, s).0 == Prune(f.And?, Build(f.left, s).0, Build(f.right, Build(f.left, s).1).0)
  {
  }

  lemma VerdictsSplit(f: Filter, within: int, after: int)
    requires (f.And? || f.Or?) && after == within - Counted(Visits(f.left))
    ensures Verdicts(Visits(f), within) == Verdicts(Visits(f.left), within) + Verdicts(Visits(f.right), after)
  {
    VerdictsAppend(Visits(f.left), Visits(f.right), within);
  }

  lemma AssembledSplit(f: Filter, a: seq<bool>, b: seq<bool>)
    requires (f.And? || f.Or?) && |a| == |Visits(f.left)| && |b| == |Visits(f.right)|
    ensures Assembled(f, a + b) == Prune(f.And?, Assembled(f.left, a), Assembled(f.right, b))
  {
    assert (a + b)[..|a|] == a && (a + b)[|a|..] == b;
  }

  // ----- what every interleaving keeps

  /** The last leaf that was visited and not built has left an error, and no node was skipped since. */
  predicate InError(vs: seq<Visit>, within: int) {
    |vs| > 0 &&
    var front, v := vs[..|vs| - 1], vs[|vs| - 1];
    if v.Plain? && Counted(front) < within then InError(front, within) else !v.Skip?
  }

  lemma InErrorNext(vs: seq<Visit>, n: nat, within: int)
    requires n < |vs|
    ensures InError(vs[..n + 1], within) <==>
      if vs[n].Plain? && Counted(vs[..n]) < within then InError(vs[..n], within) else !vs[n].Skip?
  {
    assert vs[..n + 1][..n] == vs[..n];
  }

  lemma {:induction false} InErrorWithin(vs: seq<Visit>, a: int, b: int)
    requires Counted(vs) <= a && Counted(vs) <= b
    ensures InError(vs, a) == InError(vs, b)
  {
    if |vs| > 0 {
      InErrorWithin(vs[..|vs| - 1], a, b);
    }
  }

  lemma {:induction false} QuietOrError(vs: seq<Visit>, within: int)
    requires Counted(vs) <= within
    ensures Quiet(vs) <==> !InError(vs, within)
  {
    if |vs| > 0 {
      QuietOrError(vs[..|vs| - 1], within);
    }
  }

  lemma EndsInSkipOrError(vs: seq<Visit>, within: nat)
    requires within < Counted(vs)
    ensures EndsInSkip(vs) || InError(vs, within)
  {
  }

  /** If the thread is in error and the code is not, another thread has cleared it, in time. */
  predicate Excused(vs: seq<Visit>, k: nat, visited: seq<Visit>, within: nat) {
    InError(visited, within) ==> k > 1 && Skip in vs && (within < Counted(visited) ==> Cleared(vs, k, within))
  }

  /** `others` is what the other threads have counted. */
  ghost predicate ThreadInv(vs: seq<Visit>, k: nat, ipCount: nat, code: Code, t: Thread) {
    && |t.verdicts| <= |vs|
    && var visited := vs[..|t.verdicts|];
    && t.within <= MAX_IP_ADDRESSES && t.within <= Counted(visited) <= ipCount
    && t.verdicts == Verdicts(visited, t.within)
    && (t.within < Counted(visited) ==>
          ipCount > MAX_IP_ADDRESSES && t.within + (ipCount - Counted(visited)) >= MAX_IP_ADDRESSES)
    && (t.write.Some? ==> t.write.value != Ok && t.code.None?)
    && (t.write.None? && code == Ok ==> Excused(vs, k, visited, t.within))
    && (t.code.Some? ==> |t.verdicts| == |vs|)
    && (t.code == Some(Ok) ==> Excused(vs, k, visited, t.within))
  }

  /** How many leaves each thread has counted. */
  function CountsOf(vs: seq<Visit>, threads: seq<Thread>): (r: seq<nat>)
    requires forall i | 0 <= i < |threads| :: |threads[i].verdicts| <= |vs|
    ensures |r| == |threads|
  {
    seq(|threads|, i requires 0 <= i < |threads| => Counted(vs[..|threads[i].verdicts|]))
  }

  ghost predicate Inv(vs: seq<Visit>, s: Process) {
    && (forall i | 0 <= i < |s.threads| :: ThreadInv(vs, |s.threads|, s.ipCount, s.code, s.threads[i]))
    && s.ipCount == Accounting.Total(CountsOf(vs, s.threads))
  }

  lemma StartInv(vs: seq<Visit>, k: nat)
    ensures Inv(vs, Start(k)) && |Start(k).threads| == k
  {
    assert vs[..0] == [];
    Accounting.AllZero(CountsOf(vs, Start(k).threads));
  }

  lemma CountsOfUpdate(vs: seq<Visit>, threads: seq<Thread>, i: nat, t: Thread)
    requires forall j | 0 <= j < |threads| :: |threads[j].verdicts| <= |vs|
    requires i < |threads| && |t.verdicts| <= |vs|
    ensures Accounting.Total(CountsOf(vs, threads[i := t])) ==
      Accounting.Total(CountsOf(vs, threads)) - Counted(vs[..|threads[i].verdicts|]) + Counted(vs[..|t.verdicts|])
  {
    var counts := CountsOf(vs, threads);
    assert CountsOf(vs, threads[i := t]) == counts[i := Counted(vs[..|t.verdicts|])];
    Accounting.TotalUpdate(counts, i, Counted(vs[..|t.verdicts|]));
  }

  /** All threads but two count no more than all of their leaves. */
  lemma {:induction false} TotalBoundTwo(counts: seq<nat>, i: nat, j: nat, n: nat)
    requires i < j < |counts| && forall x | 0 <= x < |counts| :: counts[x] <= n
    ensures Accounting.Total(counts) <= counts[i] + counts[j] + (|counts| - 2) * n
  {
    if i == 0 {
      TotalBoundOne(counts[1..], j - 1, n);
    } else {
      TotalBoundTwo(counts[1..], i - 1, j - 1, n);
      OneMore(|counts| - 3, n);
    }
  }

  lemma {:induction false} TotalBoundOne(counts: seq<nat>, j: nat, n: nat)
    requires j < |counts| && forall x | 0 <= x < |counts| :: counts[x] <= n
    ensures Accounting.Total(counts) <= counts[j] + (|counts| - 1) * n
  {
    if j == 0 {
      TotalBound(counts[1..], n);
    } else {
      TotalBoundOne(counts[1..], j - 1, n);
      OneMore(|counts| - 2, n);
    }
  }

  lemma {:induction false} TotalBound(counts: seq<nat>, n: nat)
    requires forall x | 0 <= x < |counts| :: counts[x] <= n
    ensures Accounting.Total(counts) <= |counts| * n
  {
    if |counts| > 0 {
      TotalBound(counts[1..], n);
      OneMore(|counts| - 1, n);
    }
  }

  /** When a thread skips a node, what the others have counted bounds what any of them has within. */
  lemma SkipClears(vs: seq<Visit>, s: Process, i: nat, j: nat)
    requires Inv(vs, s) && i < |s.threads| && j < |s.threads| && i != j
    requires |s.threads[j].verdicts| < |vs| && vs[|s.threads[j].verdicts|].Skip?
    ensures Excused(vs, |s.threads|, vs[..|s.threads[i].verdicts|], s.threads[i].within)
  {
    var counts, n := CountsOf(vs, s.threads), Counted(vs);
    assert ThreadInv(vs, |s.threads|, s.ipCount, s.code, s.threads[i]);
    forall x | 0 <= x < |counts|
      ensures counts[x] <= n
    {
      assert ThreadInv(vs, |s.threads|, s.ipCount, s.code, s.threads[x]);
      CountedAll(vs, |s.threads[x].verdicts|);
    }
    TotalBoundTwo(counts, if i < j then i else j, if i < j then j else i, n);
    SkipAhead(vs, |s.threads[j].verdicts|);
  }

  lemma NextVisit(vs: seq<Visit>, n: nat, within: nat)
    requires n < |vs| && within <= Counted(vs[..n])
    ensures Counted(vs[..n + 1]) == Counted(vs[..n]) + if Counts(vs[n]) then 1 else 0
    ensures Verdicts(vs[..n + 1], within) == Verdicts(vs[..n], within) + [false]
    ensures InError(vs[..n + 1], within) == !vs[n].Skip?
  {
    CountedNext(vs, n);
    VerdictsNext(vs, n, within);
    InErrorNext(vs, n, within);
  }

  /** A leaf that is counted within the limit. */
  lemma NextWithin(vs: seq<Visit>, n: nat)
    requires n < |vs| && Counts(vs[n])
    ensures var c := Counted(vs[..n]);
      && Counted(vs[..n + 1]) == c + 1
      && Verdicts(vs[..n + 1], c + 1) == Verdicts(vs[..n], c) + [vs[n].Plain?]
      && (vs[n].Plain? ==> InError(vs[..n + 1], c + 1) == InError(vs[..n], c))
  {
    var c := Counted(vs[..n]);
    CountedNext(vs, n);
    VerdictsNext(vs, n, c + 1);
    VerdictsWithin(vs[..n], c, c + 1);
    InErrorNext(vs, n, c + 1);
    InErrorWithin(vs[..n], c, c + 1);
  }

  lemma OwnInv(vs: seq<Visit>, s: Process, i: nat)
    requires Inv(vs, s) && i < |s.threads|
    ensures var s' := Step(vs, s, i); ThreadInv(vs, |s.threads|, s'.ipCount, s'.code, s'.threads[i])
  {
    var t := s.threads[i];
    var n := |t.verdicts|;
    assert ThreadInv(vs, |s.threads|, s.ipCount, s.code, t);
    if t.write.None? && n < |vs| {
      if Counts(vs[n]) {
        CountInv(vs, |s.threads|, s.ipCount, s.code, t);
      } else {
        NextVisit(vs, n, t.within);
      }
    }
  }

  lemma CountInv(vs: seq<Visit>, k: nat, ipCount: nat, code: Code, t: Thread)
    requires ThreadInv(vs, k, ipCount, code, t) && t.write.None? && |t.verdicts| < |vs| && Counts(vs[|t.verdicts|])
    ensures ThreadInv(vs, k, ipCount + 1, code, CountStep(vs[|t.verdicts|], ipCount + 1, t))
  {
    var n := |t.verdicts|;
    if ipCount + 1 > MAX_IP_ADDRESSES {
      NextVisit(vs, n, t.within);
    } else {
      NextWithin(vs, n);
    }
  }

  lemma OtherInv(vs: seq<Visit>, s: Process, i: nat, j: nat)
    requires Inv(vs, s) && i < |s.threads| && j < |s.threads| && i != j
    ensures var s' := Step(vs, s, i); ThreadInv(vs, |s.threads|, s'.ipCount, s'.code, s'.threads[j])
  {
    var t, u := s.threads[i], s.threads[j];
    assert ThreadInv(vs, |s.threads|, s.ipCount, s.code, t) && ThreadInv(vs, |s.threads|, s.ipCount, s.code, u);
    if t.write.None? && |t.verdicts| < |vs| && vs[|t.verdicts|].Skip? {
      SkipClears(vs, s, j, i);
    }
  }

  lemma StepTotal(vs: seq<Visit>, s: Process, i: nat)
    requires Inv(vs, s) && i < |s.threads|
    ensures var s' := Step(vs, s, i);
      && |s'.threads| == |s.threads| && (forall j | 0 <= j < |s'.threads| :: |s'.threads[j].verdicts| <= |vs|)
      && s'.ipCount == Accounting.Total(CountsOf(vs, s'.threads))
  {
    var s' := Step(vs, s, i);
    var t := s.threads[i];
    forall j | 0 <= j < |s.threads|
      ensures |s.threads[j].verdicts| <= |vs|
    {
      assert ThreadInv(vs, |s.threads|, s.ipCount, s.code, s.threads[j]);
    }
    assert s'.threads == s.threads[i := s'.threads[i]];
    CountsOfUpdate(vs, s.threads, i, s'.threads[i]);
    if |t.verdicts| < |vs| {
      CountedNext(vs, |t.verdicts|);
    }
  }

  lemma StepInv(vs: seq<Visit>, s: Process, i: nat)
    requires Inv(vs, s) && i < |s.threads|
    ensures Inv(vs, Step(vs, s, i)) && |Step(vs, s, i).threads| == |s.threads|
  {
    var s' := Step(vs, s, i);
    StepTotal(vs, s, i);
    OwnInv(vs, s, i);
    forall j | 0 <= j < |s.threads|
      ensures ThreadInv(vs, |s.threads|, s'.ipCount, s'.code, s'.threads[j])
    {
      if j != i {
        OtherInv(vs, s, i, j);
      }
    }
  }

  /** The invariant holds in every interleaving. */
  lemma {:induction false} RunInv(vs: seq<Visit>, s: Process, schedule: seq<nat>)
    requires Inv(vs, s)
    ensures Inv(vs, Run(vs, s, schedule)) && |Run(vs, s, schedule).threads| == |s.threads|
    decreases schedule
  {
    if |schedule| > 0 {
      if schedule[0] < |s.threads| {
        StepInv(vs, s, schedule[0]);
        RunInv(vs, Step(vs, s, schedule[0]), schedule[1..]);
      } else {
        RunInv(vs, s, schedule[1..]);
      }
    }
  }

  /** A thread that found no error has a number of leaves within the limit that the condition knows. */
  lemma ReadOkReachable(vs: seq<Visit>, s: Process, i: nat)
    requires Inv(vs, s) && i < |s.threads| && s.threads[i].code == Some(Ok)
    ensures Reachable(vs, |s.threads|, s.threads[i].within)
    ensures s.threads[i].verdicts == Verdicts(vs, s.threads[i].within)
  {
    var t, k := s.threads[i], |s.threads|;
    assert ThreadInv(vs, k, s.ipCount, s.code, t);
    assert vs[..|vs|] == vs;
    if t.within < Counted(vs) {
      EndsInSkipOrError(vs, t.within);
      OthersBound(vs, s, i);
    } else {
      QuietOrError(vs, t.within);
    }
  }

  lemma OthersBound(vs: seq<Visit>, s: Process, i: nat)
    requires Inv(vs, s) && i < |s.threads|
    ensures s.ipCount <= Counted(vs[..|s.threads[i].verdicts|]) + (|s.threads| - 1) * Counted(vs)
  {
    var counts := CountsOf(vs, s.threads);
    forall x | 0 <= x < |counts|
      ensures counts[x] <= Counted(vs)
    {
      assert ThreadInv(vs, |s.threads|, s.ipCount, s.code, s.threads[x]);
      CountedAll(vs, |s.threads[x].verdicts|);
    }
    TotalBoundOne(counts, i, Counted(vs));
  }

  // ----- every number the condition knows can come up

  function Shared(s: Process): State {
    State(s.ipCount, s.code)
  }

  /** What a series of visits does to the shared variables if nobody interferes. */
  function AfterVisits(vs: seq<Visit>, s: State): State {
    if |vs| == 0 then s
    else
      var before := AfterVisits(vs[..|vs| - 1], s);
      match vs[|vs| - 1]
      case Skip => State(before.ipCount, Ok)
      case Comparison => State(before.ipCount, NoEquality)
      case v =>
        State(before.ipCount + 1,
              if before.ipCount + 1 > MAX_IP_ADDRESSES then Limit else if v.Netmask? then Masked else before.code)
  }

  lemma {:induction false} AfterVisitsCounts(vs: seq<Visit>, s: State)
    ensures AfterVisits(vs, s).ipCount == s.ipCount + Counted(vs)
  {
    if |vs| > 0 {
      AfterVisitsCounts(vs[..|vs| - 1], s);
    }
  }

  lemma {:induction false} QuietEnds(vs: seq<Visit>, s: State)
    requires Quiet(vs) && s.code == Ok && s.ipCount + Counted(vs) <= MAX_IP_ADDRESSES
    ensures AfterVisits(vs, s).code == Ok
  {
    if |vs| > 0 && vs[|vs| - 1].Plain? {
      QuietEnds(vs[..|vs| - 1], s);
      AfterVisitsCounts(vs[..|vs| - 1], s);
    }
  }

  lemma {:induction false} RunAppend(vs: seq<Visit>, s: Process, a: seq<nat>, b: seq<nat>)
    ensures Run(vs, s, a + b) == Run(vs, Run(vs, s, a), b)
    decreases a
  {
    if |a| == 0 {
      assert a + b == b;
    } else {
      assert (a + b)[1..] == a[1..] + b;
      RunAppend(vs, if a[0] < |s.threads| then Step(vs, s, a[0]) else s, a[1..], b);
    }
  }

  /** Thread `i` alone goes on from `n` visited leaves to `m`. */
  ghost predicate Alone(vs: seq<Visit>, s: Process, s': Process, i: nat, m: nat) {
    && |s'.threads| == |s.threads| && i < |s.threads| && |s.threads[i].verdicts| <= m <= |vs|
    && (forall j | 0 <= j < |s.threads| && j != i :: s'.threads[j] == s.threads[j])
    && |s'.threads[i].verdicts| == m && s'.threads[i].write.None? && s'.threads[i].code == s.threads[i].code
    && Shared(s') == AfterVisits(vs[|s.threads[i].verdicts|..m], Shared(s))
    && s'.threads[i].within == s.threads[i].within + Room(s.ipCount, Counted(vs[|s.threads[i].verdicts|..m]))
  }

  /** How many of `n` more leaves are within the limit. */
  function Room(ipCount: nat, n: nat): nat {
    if ipCount >= MAX_IP_ADDRESSES then 0 else if ipCount + n <= MAX_IP_ADDRESSES then n else MAX_IP_ADDRESSES - ipCount
  }

  predicate Ready(vs: seq<Visit>, s: Process, i: nat) {
    i < |s.threads| && s.threads[i].write.None? && |s.threads[i].verdicts| <= |vs|
  }

  lemma VisitOne(vs: seq<Visit>, s: Process, i: nat) returns (schedule: seq<nat>)
    requires Ready(vs, s, i) && |s.threads[i].verdicts| < |vs|
    ensures Alone(vs, s, Run(vs, s, schedule), i, |s.threads[i].verdicts| + 1)
  {
    var n := |s.threads[i].verdicts|;
    var s1 := Step(vs, s, i);
    OneVisit(vs[n], Shared(s));
    assert vs[n..n + 1] == [vs[n]] && [vs[n]][..0] == [];
    if s1.threads[i].write.None? {
      schedule := [i];
      RunOne(vs, s, i);
    } else {
      schedule := [i] + [i];
      RunOne(vs, s, i);
      RunOne(vs, s1, i);
      RunAppend(vs, s, [i], [i]);
    }
  }

  lemma RunOne(vs: seq<Visit>, s: Process, i: nat)
    requires i < |s.threads|
    ensures Run(vs, s, [i]) == Step(vs, s, i)
  {
    assert [i][1..] == [];
  }

  lemma OneVisit(v: Visit, s: State)
    ensures AfterVisits([v], s) == match v
      case Skip => State(s.ipCount, Ok)
      case Comparison => State(s.ipCount, NoEquality)
      case _ => State(s.ipCount + 1,
        if s.ipCount + 1 > MAX_IP_ADDRESSES then Limit else if v.Netmask? then Masked else s.code)
  {
    assert [v][..0] == [];
  }

  lemma {:induction false} VisitUpTo(vs: seq<Visit>, s: Process, i: nat, m: nat) returns (schedule: seq<nat>)
    requires Ready(vs, s, i) && |s.threads[i].verdicts| <= m <= |vs|
    ensures Alone(vs, s, Run(vs, s, schedule), i, m)
    decreases m
  {
    var n := |s.threads[i].verdicts|;
    if n == m {
      schedule := [];
      assert vs[n..m] == [];
    } else {
      var first := VisitUpTo(vs, s, i, m - 1);
      var s1 := Run(vs, s, first);
      var last := VisitOne(vs, s1, i);
      schedule := first + last;
      RunAppend(vs, s, first, last);
      AloneTwice(vs, s, s1, Run(vs, s1, last), i, m);
    }
  }

  lemma AloneTwice(vs: seq<Visit>, s: Process, s1: Process, s2: Process, i: nat, m: nat)
    requires m > 0 && Alone(vs, s, s1, i, m - 1) && Alone(vs, s1, s2, i, m)
    ensures Alone(vs, s, s2, i, m)
  {
    var n := |s.threads[i].verdicts|;
    var part := vs[n..m];
    assert part[..|part| - 1] == vs[n..m - 1] && vs[m - 1..m] == [part[|part| - 1]];
    OneVisit(vs[m - 1], Shared(s1));
    AfterVisitsCounts(vs[n..m - 1], Shared(s));
    AfterVisitsCounts([vs[m - 1]], Shared(s1));
    CountedAppend(vs[n..m - 1], [vs[m - 1]]);
  }

  /** Thread `i` goes on from what a schedule has left. */
  lemma GoOn(vs: seq<Visit>, k: nat, schedule: seq<nat>, i: nat, m: nat) returns (longer: seq<nat>)
    requires Ready(vs, Run(vs, Start(k), schedule), i)
    requires |Run(vs, Start(k), schedule).threads[i].verdicts| <= m <= |vs|
    ensures Alone(vs, Run(vs, Start(k), schedule), Run(vs, Start(k), longer), i, m)
    ensures var s, s' := Run(vs, Start(k), schedule), Run(vs, Start(k), longer);
      s'.ipCount == s.ipCount + Counted(vs[..m]) - Counted(vs[..|s.threads[i].verdicts|])
  {
    var s := Run(vs, Start(k), schedule);
    var n := |s.threads[i].verdicts|;
    var more := VisitUpTo(vs, s, i, m);
    longer := schedule + more;
    RunAppend(vs, Start(k), schedule, more);
    AfterVisitsCounts(vs[n..m], Shared(s));
    assert vs[..m] == vs[..n] + vs[n..m];
    CountedAppend(vs[..n], vs[n..m]);
  }

  predicate Untouched(t: Thread) {
    t == Thread([], 0, None, None)
  }

  /** All threads from `from` on visit all of their leaves. */
  lemma {:induction false} OthersDone(vs: seq<Visit>, k: nat, schedule: seq<nat>, from: nat) returns (longer: seq<nat>)
    requires var s := Run(vs, Start(k), schedule);
      from <= |s.threads| == k && forall j | from <= j < k :: Untouched(s.threads[j])
    ensures var s, s' := Run(vs, Start(k), schedule), Run(vs, Start(k), longer);
      && |s'.threads| == k && (forall j | 0 <= j < from :: s'.threads[j] == s.threads[j])
      && s'.ipCount == s.ipCount + (k - from) * Counted(vs)
    decreases k - from
  {
    if from == k {
      longer := schedule;
    } else {
      var next := OtherDone(vs, k, schedule, from);
      longer := OthersDone(vs, k, next, from + 1);
      OneMore(k - from - 1, Counted(vs));
    }
  }

  lemma OtherDone(vs: seq<Visit>, k: nat, schedule: seq<nat>, i: nat) returns (longer: seq<nat>)
    requires var s := Run(vs, Start(k), schedule); i < |s.threads| == k && Untouched(s.threads[i])
    ensures var s, s' := Run(vs, Start(k), schedule), Run(vs, Start(k), longer);
      && |s'.threads| == k && (forall j | 0 <= j < k && j != i :: s'.threads[j] == s.threads[j])
      && s'.ipCount == s.ipCount + Counted(vs)
  {
    longer := GoOn(vs, k, schedule, i, |vs|);
    assert vs[..|vs|] == vs && vs[..0] == [];
  }

  lemma WithinFull(vs: seq<Visit>, k: nat, schedule: seq<nat>, i: nat)
    requires var s := Run(vs, Start(k), schedule); i < |s.threads| && s.ipCount <= MAX_IP_ADDRESSES
    ensures var t := Run(vs, Start(k), schedule).threads[i];
      |t.verdicts| <= |vs| && t.within == Counted(vs[..|t.verdicts|])
  {
    var s := Run(vs, Start(k), schedule);
    StartInv(vs, k);
    RunInv(vs, Start(k), schedule);
    assert ThreadInv(vs, |s.threads|, s.ipCount, s.code, s.threads[i]);
  }

  /** Thread 0 is done and the code is clear. */
  ghost predicate ReadsOk(vs: seq<Visit>, s: Process, k: nat, t: nat) {
    && |s.threads| == k > 0 && Ready(vs, s, 0) && s.code == Ok
    && |s.threads[0].verdicts| == |vs| && s.threads[0].code.None? && s.threads[0].within == t
  }

  lemma {:induction false} PositionOf(vs: seq<Visit>, t: nat) returns (p: nat)
    requires t < Counted(vs)
    ensures p < |vs| && Counted(vs[..p]) == t
  {
    var front := vs[..|vs| - 1];
    if t < Counted(front) {
      p := PositionOf(front, t);
      assert front[..p] == vs[..p];
    } else {
      p := |vs| - 1;
    }
  }

  lemma {:induction false} LastSkip(vs: seq<Visit>) returns (p: nat)
    requires Skip in vs
    ensures p < |vs| && vs[p].Skip? && Counted(vs[..p]) == BeforeLastSkip(vs)
  {
    var front, last := vs[..|vs| - 1], vs[|vs| - 1];
    if last.Skip? {
      p := |vs| - 1;
    } else {
      assert vs == front + [last];
      p := LastSkip(front);
      assert front[..p] == vs[..p];
    }
  }

  lemma EndsOk(vs: seq<Visit>, n: nat, m: nat, s: State)
    requires n < m <= |vs| && vs[m - 1].Skip?
    ensures AfterVisits(vs[n..m], s).code == Ok
  {
    assert vs[n..m][|vs[n..m]| - 1] == vs[m - 1];
  }

  /** Alone, without an error that is left. */
  lemma ReachAlone(vs: seq<Visit>, k: nat, t: nat) returns (schedule: seq<nat>)
    requires k > 0 && t == Counted(vs) <= MAX_IP_ADDRESSES && Quiet(vs)
    ensures ReadsOk(vs, Run(vs, Start(k), schedule), k, t)
  {
    schedule := GoOn(vs, k, [], 0, |vs|);
    assert vs[0..|vs|] == vs == vs[..|vs|] && vs[..0] == [];
    QuietEnds(vs, State(0, Ok));
    WithinFull(vs, k, schedule, 0);
  }

  /** All leaves within the limit, then another thread skips a node. */
  lemma ReachCleared(vs: seq<Visit>, k: nat, t: nat) returns (schedule: seq<nat>)
    requires k > 1 && t == Counted(vs) <= MAX_IP_ADDRESSES && Skip in vs
    ensures ReadsOk(vs, Run(vs, Start(k), schedule), k, t)
  {
    var first := GoOn(vs, k, [], 0, |vs|);
    assert vs[..|vs|] == vs && vs[..0] == [];
    WithinFull(vs, k, first, 0);
    var p := LastSkip(vs);
    schedule := GoOn(vs, k, first, 1, p + 1);
    EndsOk(vs, 0, p + 1, Shared(Run(vs, Start(k), first)));
  }

  /** Thread 0 has exactly `t` leaves within the limit and the next one ahead. */
  lemma PauseAt(vs: seq<Visit>, k: nat, t: nat) returns (schedule: seq<nat>)
    requires k > 0 && t < Counted(vs) && t <= MAX_IP_ADDRESSES
    ensures var s := Run(vs, Start(k), schedule);
      && |s.threads| == k && Ready(vs, s, 0) && |s.threads[0].verdicts| < |vs| && s.threads[0].code.None?
      && s.threads[0].within == t == s.ipCount && forall j | 1 <= j < k :: Untouched(s.threads[j])
  {
    var p := PositionOf(vs, t);
    schedule := GoOn(vs, k, [], 0, p);
    assert vs[..0] == [];
    WithinFull(vs, k, schedule, 0);
  }

  /** The others fill the count, the own last visit clears the code. */
  lemma ReachByOwnSkip(vs: seq<Visit>, k: nat, t: nat) returns (schedule: seq<nat>)
    requires k > 0 && t < Counted(vs) && t <= MAX_IP_ADDRESSES
    requires EndsInSkip(vs) && t + (k - 1) * Counted(vs) >= MAX_IP_ADDRESSES
    ensures ReadsOk(vs, Run(vs, Start(k), schedule), k, t)
  {
    var first := PauseAt(vs, k, t);
    var others := OthersDone(vs, k, first, 1);
    var s := Run(vs, Start(k), others);
    schedule := GoOn(vs, k, others, 0, |vs|);
    EndsOk(vs, |s.threads[0].verdicts|, |vs|, Shared(s));
  }

  /** The others fill the count, but one of them stops before a node it skips after thread 0 is done. */
  lemma ReachByOther(vs: seq<Visit>, k: nat, t: nat) returns (schedule: seq<nat>)
    requires t < Counted(vs) && t <= MAX_IP_ADDRESSES && Cleared(vs, k, t)
    ensures ReadsOk(vs, Run(vs, Start(k), schedule), k, t)
  {
    var p := LastSkip(vs);
    var first := PauseAt(vs, k, t);
    var others := OthersDone(vs, k, first, 2);
    assert Untouched(Run(vs, Start(k), others).threads[1]) && vs[..0] == [];
    var full := GoOn(vs, k, others, 1, p);
    var done := GoOn(vs, k, full, 0, |vs|);
    schedule := GoOn(vs, k, done, 1, p + 1);
    EndsOk(vs, p, p + 1, Shared(Run(vs, Start(k), done)));
  }

  lemma Reach(vs: seq<Visit>, k: nat, t: nat) returns (schedule: seq<nat>)
    requires Reachable(vs, k, t)
    ensures var s := Run(vs, Start(k), schedule);
      |s.threads| == k > 0 && Finished(vs, s.threads[0]) && s.threads[0].code == Some(Ok) && s.threads[0].within == t
  {
    var ready;
    if t == Counted(vs) {
      if Quiet(vs) {
        ready := ReachAlone(vs, k, t);
      } else {
        ready := ReachCleared(vs, k, t);
      }
    } else if EndsInSkip(vs) && t + (k - 1) * Counted(vs) >= MAX_IP_ADDRESSES {
      ready := ReachByOwnSkip(vs, k, t);
    } else {
      ready := ReachByOther(vs, k, t);
    }
    schedule := ready + [0];
    RunAppend(vs, Start(k), ready, [0]);
    RunOne(vs, Run(vs, Start(k), ready), 0);
  }

  // ----- the exact condition

  lemma {:induction false} SameVisits(f: Filter, g: Filter)
    requires SameShape(f, g)
    ensures Visits(f) == Visits(g)
  {
    if f.And? || f.Or? {
      SameVisits(f.left, g.left);
      SameVisits(f.right, g.right);
    }
  }

  /** What a thread uses is no tree or a tree of a number of leaves the condition knows. */
  lemma UsedIsBuilt(f: Filter, k: nat, schedule: seq<nat>, i: nat)
    requires var s := Run(Visits(f), Start(k), schedule); i < |s.threads| && Finished(Visits(f), s.threads[i])
    ensures var t := Run(Visits(f), Start(k), schedule).threads[i];
      t.code == Some(Ok) ==>
        Reachable(Visits(f), k, t.within) && Used(f, t) == Build(f, State(MAX_IP_ADDRESSES - t.within, Ok)).0
  {
    var s := Run(Visits(f), Start(k), schedule);
    StartInv(Visits(f), k);
    RunInv(Visits(f), Start(k), schedule);
    if s.threads[i].code == Some(Ok) {
      ReadOkReachable(Visits(f), s, i);
      AssembledIsBuilt(f, State(MAX_IP_ADDRESSES - s.threads[i].within, Ok));
    }
  }

  lemma ThreadIsSound(f: Filter, k: nat, schedule: seq<nat>, i: nat)
    requires SafeForThreads(f, k)
    requires var s := Run(Visits(f), Start(k), schedule); i < |s.threads| && Finished(Visits(f), s.threads[i])
    ensures TreeSound(f, Used(f, Run(Visits(f), Start(k), schedule).threads[i]))
  {
    var t := Run(Visits(f), Start(k), schedule).threads[i];
    UsedIsBuilt(f, k, schedule, i);
    if t.code == Some(Ok) {
      BuiltTreeSound(f, State(MAX_IP_ADDRESSES - t.within, Ok));
    }
  }

  /** In some interleaving a thread skips a match of some filter of the shape. */
  lemma UnsoundRun(f: Filter, k: nat, t: nat) returns (g: Filter, schedule: seq<nat>)
    requires Reachable(Visits(f), k, t) && HalfOr(f, State(MAX_IP_ADDRESSES - t, Ok))
    ensures SameShape(f, g) && Visits(g) == Visits(f)
    ensures var s := Run(Visits(g), Start(k), schedule);
      0 < |s.threads| && Finished(Visits(g), s.threads[0]) && !TreeSound(g, Used(g, s.threads[0]))
  {
    g := BuiltTreeUnsound(f, State(MAX_IP_ADDRESSES - t, Ok));
    SameVisits(f, g);
    schedule := Reach(Visits(g), k, t);
    UsedIsBuilt(g, k, schedule, 0);
  }

  lemma {:induction false} SafeShapes(f: Filter, g: Filter, k: nat)
    requires SameShape(f, g) && SafeForThreads(f, k)
    ensures SafeForThreads(g, k)
  {
    SameVisits(f, g);
    forall t: nat | t <= MAX_IP_ADDRESSES && Reachable(Visits(g), k, t)
      ensures !HalfOr(g, State(MAX_IP_ADDRESSES - t, Ok))
    {
      ShapeDecides(f, g, State(MAX_IP_ADDRESSES - t, Ok));
    }
  }

  /** For which filters and how many threads the index is sound in every interleaving, whatever addresses
      and tests are put into the filter. */
  lemma ThreadsSoundIff(f: Filter, k: nat)
    ensures (forall g | SameShape(f, g) :: SoundForThreads(g, k)) <==> SafeForThreads(f, k)
  {
    if SafeForThreads(f, k) {
      forall g | SameShape(f, g)
        ensures SoundForThreads(g, k)
      {
        SafeShapes(f, g, k);
        SafeIsSound(g, k);
      }
    } else {
      var t: nat :| t <= MAX_IP_ADDRESSES && Reachable(Visits(f), k, t) && HalfOr(f, State(MAX_IP_ADDRESSES - t, Ok));
      var g, schedule := UnsoundRun(f, k, t);
      assert !SoundForThreads(g, k);
    }
  }

  lemma SafeIsSound(f: Filter, k: nat)
    requires SafeForThreads(f, k)
    ensures SoundForThreads(f, k)
  {
    forall schedule: seq<nat>, i: nat |
      var s := Run(Visits(f), Start(k), schedule); i < |s.threads| && Finished(Visits(f), s.threads[i])
      ensures TreeSound(f, Used(f, Run(Visits(f), Start(k), schedule).threads[i]))
    {
      ThreadIsSound(f, k, schedule, i);
    }
  }

  /** The tree a thread ends up with when `k` threads of its slave build at the same time. */
  ghost predicate TreeOfRun(f: Filter, k: nat, tree: Option<Tree>) {
    exists schedule: seq<nat>, i: nat ::
      var s := Run(Visits(f), Start(k), schedule);
      i < |s.threads| && Finished(Visits(f), s.threads[i]) && tree == Used(f, s.threads[i])
  }

  lemma RunTreeSound(f: Filter, k: nat, tree: Option<Tree>)
    requires SafeForThreads(f, k) && TreeOfRun(f, k, tree)
    ensures TreeSound(f, tree)
  {
    var schedule: seq<nat>, i: nat :|
      var s := Run(Visits(f), Start(k), schedule);
      i < |s.threads| && Finished(Visits(f), s.threads[i]) && tree == Used(f, s.threads[i]);
    ThreadIsSound(f, k, schedule, i);
  }

  // ----- filters of addresses only

  lemma {:induction false} NothingSkipped(f: Filter)
    requires OnlyAddresses(f)
    ensures Skip !in Visits(f)
  {
    if f.And? || f.Or? {
      NothingSkipped(f.left);
      NothingSkipped(f.right);
    }
  }

  lemma {:induction false} QuietIsPlain(vs: seq<Visit>)
    requires Skip !in vs && Quiet(vs)
    ensures forall v | v in vs :: v.Plain?
  {
    if |vs| > 0 {
      QuietIsPlain(vs[..|vs| - 1]);
      assert vs == vs[..|vs| - 1] + [vs[|vs| - 1]];
    }
  }

  lemma {:induction false} AllPlainBuilt(f: Filter, s: State)
    requires OnlyAddresses(f) && (forall v | v in Visits(f) :: v.Plain?) &&
      s.ipCount + Counted(Visits(f)) <= MAX_IP_ADDRESSES
    ensures Build(f, s).0.Some? && !HalfOr(f, s)
  {
    if f.And? || f.Or? {
      CountedAppend(Visits(f.left), Visits(f.right));
      AllPlainBuilt(f.left, s);
      BuildCounts(f.left, s);
      AllPlainBuilt(f.right, Build(f.left, s).1);
    } else {
      assert Visits(f)[0] in Visits(f) && Visits(f)[..0] == [];
    }
  }

  /** Filters of addresses only are sound for any number of threads in every interleaving: nobody clears
      an error. */
  lemma AddressFiltersSafe(f: Filter, k: nat)
    requires OnlyAddresses(f)
    ensures SafeForThreads(f, k)
  {
    NothingSkipped(f);
    forall t: nat | t <= MAX_IP_ADDRESSES && Reachable(Visits(f), k, t)
      ensures !HalfOr(f, State(MAX_IP_ADDRESSES - t, Ok))
    {
      QuietIsPlain(Visits(f));
      AllPlainBuilt(f, State(MAX_IP_ADDRESSES - t, Ok));
    }
  }

  // ----- builds one after another

  /** What `k` builds of a filter leave behind in a fresh process. */
  function After(f: Filter, k: nat): State {
    if k == 0 then State(0, Ok) else Build(f, After(f, k - 1)).1
  }

  lemma {:induction false} AfterVisitsAppend(a: seq<Visit>, b: seq<Visit>, s: State)
    ensures AfterVisits(a + b, s) == AfterVisits(b, AfterVisits(a, s))
  {
    if |b| == 0 {
      assert a + b == a;
    } else {
      assert (a + b)[..|a + b| - 1] == a + b[..|b| - 1];
      AfterVisitsAppend(a, b[..|b| - 1], s);
    }
  }

  /** A build without interference makes its visits. */
  lemma {:induction false} BuildVisits(f: Filter, s: State)
    ensures Build(f, s).1 == AfterVisits(Visits(f), s)
  {
    if f.And? || f.Or? {
      BuildVisits(f.left, s);
      BuildVisits(f.right, Build(f.left, s).1);
      AfterVisitsAppend(Visits(f.left), Visits(f.right), s);
    } else {
      OneVisit(Visits(f)[0], s);
      assert Visits(f) == [Visits(f)[0]];
    }
  }

  /** The first `n` threads have built one after another. */
  ghost predicate InTurnUpTo(f: Filter, k: nat, n: nat, s: Process) {
    && |s.threads| == k && n <= k && Shared(s) == After(f, n)
    && (forall i | 0 <= i < n :: Finished(Visits(f), s.threads[i]) && Used(f, s.threads[i]) == Init(f, After(f, i)))
    && (forall i | n <= i < k :: Untouched(s.threads[i]))
  }

  /** Builds one after another are one of the interleavings. */
  lemma {:induction false} InTurn(f: Filter, k: nat, n: nat) returns (schedule: seq<nat>)
    requires n <= k
    ensures InTurnUpTo(f, k, n, Run(Visits(f), Start(k), schedule))
  {
    if n == 0 {
      schedule := [];
    } else {
      var before := InTurn(f, k, n - 1);
      schedule := NextInTurn(f, k, n - 1, before);
    }
  }

  lemma NextInTurn(f: Filter, k: nat, n: nat, before: seq<nat>) returns (schedule: seq<nat>)
    requires n < k && InTurnUpTo(f, k, n, Run(Visits(f), Start(k), before))
    ensures InTurnUpTo(f, k, n + 1, Run(Visits(f), Start(k), schedule))
  {
    var vs := Visits(f);
    var s := Run(vs, Start(k), before);
    assert Untouched(s.threads[n]);
    var visited := GoOn(vs, k, before, n, |vs|);
    var s1 := Run(vs, Start(k), visited);
    assert vs[0..|vs|] == vs;
    BuildVisits(f, Shared(s));
    WholeBuild(f, k, visited, n, Shared(s));
    schedule := visited + [n];
    RunAppend(vs, Start(k), visited, [n]);
    RunOne(vs, s1, n);
  }

  /** A thread that nobody has interfered with has the specified tree. */
  lemma WholeBuild(f: Filter, k: nat, schedule: seq<nat>, i: nat, before: State)
    requires var s := Run(Visits(f), Start(k), schedule);
      && i < |s.threads| && |s.threads[i].verdicts| == |Visits(f)|
      && s.threads[i].within == Room(before.ipCount, Counted(Visits(f)))
    ensures Assembled(f, Run(Visits(f), Start(k), schedule).threads[i].verdicts) == Build(f, before).0
  {
    var vs, s := Visits(f), Run(Visits(f), Start(k), schedule);
    StartInv(vs, k);
    RunInv(vs, Start(k), schedule);
    assert ThreadInv(vs, |s.threads|, s.ipCount, s.code, s.threads[i]);
    assert vs[..|vs|] == vs;
    VerdictsRoom(vs, before.ipCount);
    AssembledIsBuilt(f, before);
  }

  lemma VerdictsRoom(vs: seq<Visit>, ipCount: nat)
    ensures Verdicts(vs, Room(ipCount, Counted(vs))) == Verdicts(vs, MAX_IP_ADDRESSES - ipCount)
  {
    if ipCount >= MAX_IP_ADDRESSES {
      NoneWithin(vs, MAX_IP_ADDRESSES - ipCount);
    } else if ipCount + Counted(vs) <= MAX_IP_ADDRESSES {
      VerdictsWithin(vs, Counted(vs), MAX_IP_ADDRESSES - ipCount);
    }
  }

  lemma {:induction false} NoneWithin(vs: seq<Visit>, within: int)
    requires within <= 0
    ensures Verdicts(vs, within) == Verdicts(vs, 0)
  {
    if |vs| > 0 {
      NoneWithin(vs[..|vs| - 1], within);
    }
  }

  // ----- one thread too many

  function Ips(a: Address, b: Address, c: Address): Filter {
    Or(Or(Ip(a), Ip(b)), Ip(c))
  }

  /** "(ip a or ip b or ip c) and port > 1024": three threads are sound in every interleaving, four are not.
      If they build one after another the fourth has room for one of the addresses only, and the test of
      the port clears the error. */
  lemma FourthThreadSkips(a: Address, b: Address, c: Address) returns (schedule: seq<nat>)
    requires b != a
    ensures var f := And(Ips(a, b, c), Other(1));
      && SafeForThreads(f, 3) && !SafeForThreads(f, 4)
      && var s := Run(Visits(f), Start(4), schedule);
      && |s.threads| == 4 && Finished(Visits(f), s.threads[3])
      && Used(f, s.threads[3]) == Some(Leaf(a)) && !TreeSound(f, Used(f, s.threads[3]))
  {
    var f := And(Ips(a, b, c), Other(1));
    IpsVisits(a, b, c);
    ThreeThreadsSafe(a, b, c);
    schedule := InTurn(f, 4, 4);
    AfterThree(a, b, c);
    OneAddressBuilt(a, b, c);
    var flow := Flow(b, b, test => test == 1);
    IpsMatched(a, b, c, flow);
    Refutes(f, Some(Leaf(a)), [flow], x => x == b, flow);
    if SafeForThreads(f, 4) {
      ThreadIsSound(f, 4, schedule, 3);
    }
  }

  lemma IpVisits(a: Address)
    ensures Visits(Ip(a)) == [Plain, Plain]
  {
    assert Visits(Addr(true, false, Source, a, 0)) == Visits(Addr(true, false, Destination, a, 0)) == [Plain];
  }

  lemma IpsVisits(a: Address, b: Address, c: Address)
    ensures var vs := Visits(And(Ips(a, b, c), Other(1)));
      vs == [Plain, Plain, Plain, Plain, Plain, Plain, Skip] && Counted(vs) == 6 && BeforeLastSkip(vs) == 6
  {
    var f := And(Ips(a, b, c), Other(1));
    IpVisits(a);
    IpVisits(b);
    IpVisits(c);
    assert Visits(Or(Ip(a), Ip(b))) == [Plain, Plain, Plain, Plain];
    assert Visits(Ips(a, b, c)) == [Plain, Plain, Plain, Plain, Plain, Plain];
    CountedAppend([Plain, Plain], [Plain, Plain]);
    CountedAppend([Plain, Plain, Plain, Plain], [Plain, Plain]);
    var two, six := [Plain, Plain], [Plain, Plain, Plain, Plain, Plain, Plain];
    assert two[..1] == [Plain] && [Plain][..0] == [];
    assert [Plain, Plain] + [Plain, Plain] == [Plain, Plain, Plain, Plain] && [Plain, Plain, Plain, Plain] + two == six;
    assert Visits(f) == six + [Skip] && Visits(f)[..6] == six;
  }

  lemma ThreeThreadsSafe(a: Address, b: Address, c: Address)
    ensures SafeForThreads(And(Ips(a, b, c), Other(1)), 3)
  {
    var f := And(Ips(a, b, c), Other(1));
    IpsVisits(a, b, c);
    forall t: nat | t <= MAX_IP_ADDRESSES && Reachable(Visits(f), 3, t)
      ensures !HalfOr(f, State(MAX_IP_ADDRESSES - t, Ok))
    {
      assert t == 6;
      AllAddressesBuilt(a, b, c, State(14, Ok));
    }
  }

  lemma AfterThree(a: Address, b: Address, c: Address)
    ensures After(And(Ips(a, b, c), Other(1)), 3) == State(18, Ok)
  {
    var f := And(Ips(a, b, c), Other(1));
    IpsVisits(a, b, c);
    forall s: State | s.ipCount + 6 <= MAX_IP_ADDRESSES
      ensures Build(f, s).1 == State(s.ipCount + 6, Ok)
    {
      AllAddressesBuilt(a, b, c, s);
      BuildCounts(f, s);
    }
    assert After(f, 0) == State(0, Ok);
    assert After(f, 1) == Build(f, After(f, 0)).1 == State(6, Ok);
    assert After(f, 2) == Build(f, After(f, 1)).1 == State(12, Ok);
  }

  lemma IpsMatched(a: Address, b: Address, c: Address, flow: Flow)
    requires flow.src == b
    ensures Match(Ips(a, b, c), flow)
  {
    assert Match(Addr(true, false, Source, b, 0), flow);
    assert Match(Ip(b), flow);
    assert Match(Or(Ip(a), Ip(b)), flow);
  }

  lemma AllAddressesBuilt(a: Address, b: Address, c: Address, s: State)
    requires s.ipCount + 6 <= MAX_IP_ADDRESSES
    ensures var f := And(Ips(a, b, c), Other(1)); !HalfOr(f, s) && Build(f, s).1.code == Ok
  {
    var s2, s4, s6 := s.(ipCount := s.ipCount + 2), s.(ipCount := s.ipCount + 4), s.(ipCount := s.ipCount + 6);
    IpBuilt(a, s);
    IpBuilt(b, s2);
    IpBuilt(c, s4);
    OrBuilt(Ip(a), Ip(b), s, Some(Leaf(a)), s2, Some(Leaf(b)), s4);
    OrBuilt(Or(Ip(a), Ip(b)), Ip(c), s, Prune(false, Some(Leaf(a)), Some(Leaf(b))), s4, Some(Leaf(c)), s6);
    assert !HalfOr(Ips(a, b, c), s);
  }

  lemma OneAddressBuilt(a: Address, b: Address, c: Address)
    ensures Build(And(Ips(a, b, c), Other(1)), State(18, Ok)) == (Some(Leaf(a)), State(24, Ok))
  {
    var s := State(18, Ok);
    IpBuilt(a, s);
    IpRefused(b, State(20, Ok));
    IpRefused(c, State(22, Limit));
    OrBuilt(Ip(a), Ip(b), s, Some(Leaf(a)), State(20, Ok), None, State(22, Limit));
    OrBuilt(Or(Ip(a), Ip(b)), Ip(c), s, Some(Leaf(a)), State(22, Limit), None, State(24, Limit));
    assert Build(Ips(a, b, c), s) == (Some(Leaf(a)), State(24, Limit));
  }

  // ----- an error cleared by another thread

  /** "port > 1024 and (src ip a or src ip b/24)": one thread is sound, and so are any number of builds one
      after another. Of two at once the first may find the error of the netmask cleared by the second. */
  function NetmaskFilter(a: Address, b: Address): Filter {
    And(Other(1), Or(Addr(true, false, Source, a, 0), Addr(true, true, Source, b, 2)))
  }

  lemma SecondThreadClears(a: Address, b: Address) returns (schedule: seq<nat>)
    ensures var f := NetmaskFilter(a, b);
      && SafeForThreads(f, 1) && (forall n: nat :: Sound(f, After(f, n))) && !SafeForThreads(f, 2)
      && var s := Run(Visits(f), Start(2), schedule);
      && |s.threads| == 2 && Finished(Visits(f), s.threads[0])
      && Used(f, s.threads[0]) == Some(Leaf(a)) && !TreeSound(f, Used(f, s.threads[0]))
  {
    var f := NetmaskFilter(a, b);
    NetmaskVisits(a, b);
    schedule := Reach(Visits(f), 2, 2);
    UsedIsBuilt(f, 2, schedule, 0);
    NetmaskBuilt(a, b, State(18, Ok));
    NetmaskMissed(a, b);
    forall n: nat
      ensures Sound(f, After(f, n))
    {
      NetmaskBuilt(a, b, After(f, n));
    }
    if SafeForThreads(f, 2) {
      ThreadIsSound(f, 2, schedule, 0);
    }
  }

  lemma NetmaskVisits(a: Address, b: Address)
    ensures var vs := Visits(NetmaskFilter(a, b));
      vs == [Skip, Plain, Netmask] && Counted(vs) == 2 && !Quiet(vs) && Skip in vs
  {
    var vs := [Skip, Plain, Netmask];
    var l, r := Addr(true, false, Source, a, 0), Addr(true, true, Source, b, 2);
    assert Visits(l) == [Plain] && Visits(r) == [Netmask] && Visits(Other(1)) == [Skip];
    assert Visits(Or(l, r)) == [Plain] + [Netmask];
    assert Visits(NetmaskFilter(a, b)) == [Skip] + ([Plain] + [Netmask]) == vs && vs[0] == Skip;
    assert vs[..2] == [Skip, Plain] && [Skip, Plain][..1] == [Skip] && [Skip][..0] == [];
  }

  /** Alone the error of the netmask, or of the limit, stays. */
  lemma NetmaskBuilt(a: Address, b: Address, s: State)
    ensures Build(NetmaskFilter(a, b), s).1.code != Ok
    ensures s.ipCount < MAX_IP_ADDRESSES ==> Build(NetmaskFilter(a, b), s).0 == Some(Leaf(a))
  {
    var l, r := Addr(true, false, Source, a, 0), Addr(true, true, Source, b, 2);
    var s1 := State(s.ipCount, Ok);
    LeafBuilt(Source, a, s1);
    var (lt, s2) := Build(l, s1);
    var (rt, s3) := Build(r, s2);
    assert rt.None? && s3.code != Ok;
    OrBuilt(l, r, s1, lt, s2, rt, s3);
    assert Build(Other(1), s) == (None, s1);
    assert Build(NetmaskFilter(a, b), s) == (Prune(true, None, Prune(false, lt, rt)), s3);
  }

  lemma NetmaskMissed(a: Address, b: Address)
    ensures !TreeSound(NetmaskFilter(a, b), Some(Leaf(a)))
  {
    var f := NetmaskFilter(a, b);
    var y := if a == HERE then ELSEWHERE else HERE;
    var flow := Flow(y, y, test => true);
    assert flow.tests(1) && flow.tests(2);
    assert Match(Addr(true, true, Source, b, 2), flow);
    Refutes(f, Some(Leaf(a)), [flow], x => x == y, flow);
  }
}
