/** One Top-N query from the sources' memories to the printed records. The phases do not overlap
    (see TputProtocol), so their steps are carried out one phase after another; the order in which
    messages reach the master within a phase is arbitrary. */
module TputSession {
  import opened Ordering
  import opened Aggregation
  import opened Tput
  import opened TputMemory
  import opened Rounding

  ghost function Orders(sources: seq<HashMemory>): (r: seq<seq<Record>>)
    reads sources
    ensures |r| == |sources|
  {
    seq(|sources|, i requires 0 <= i < |sources| reads sources => sources[i].order)
  }

  ghost predicate ValidSources(q: Query, sources: seq<HashMemory>)
    reads sources
  {
    forall i | 0 <= i < |sources| :: sources[i].Valid() && sources[i].query == q
  }

  /** `deliver(phase, sent)` is the order in which the records of a phase arrive. */
  ghost predicate Delivers(deliver: (nat, seq<seq<Record>>) -> seq<Record>) {
    forall phase, sent :: multiset(deliver(phase, sent)) == multiset(Flatten(sent))
  }

  lemma SourcesAreLocals(q: Query, sources: seq<HashMemory>)
    requires ValidSources(q, sources)
    ensures Locals(q, Orders(sources))
  {
    forall i | 0 <= i < |sources|
      ensures Local(q, Orders(sources)[i])
    {
      assert sources[i].Valid();
      ListingDistinct(sources[i].order, sources[i].contents);
    }
  }

  /** What every source sends in phase 1. */
  method SendPhase1(q: Query, sources: seq<HashMemory>) returns (sent: seq<seq<Record>>)
    ensures sent == Phase1Sent(q, Orders(sources))
  {
    sent := [];
    for i := 0 to |sources|
      invariant |sent| == i && sent == Phase1Sent(q, Orders(sources))[..i]
    {
      var part := sources[i].FirstRecords(q.limit);
      sent := sent + [part];
    }
  }

  method SendPhase2(q: Query, sources: seq<HashMemory>, threshold: nat) returns (sent: seq<seq<Record>>)
    requires ValidSources(q, sources)
    ensures sent == Phase2Sent(q, threshold, Orders(sources))
  {
    ghost var all := Phase2Sent(q, threshold, Orders(sources));
    sent := [];
    for i := 0 to |sources|
      invariant sent == all[..i]
    {
      var part := SendPrefix(q, sources[i], threshold);
      PrefixNext(all, i);
      sent := sent + [part];
    }
    assert all[..|sources|] == all;
  }

  method SendPrefix(q: Query, source: HashMemory, threshold: nat) returns (sent: seq<Record>)
    requires source.Valid() && source.query == q
    ensures sent == Cut(source.order, ThresholdCount(q, threshold, source.order))
  {
    var count := source.FindThresholdCount(threshold);
    sent := source.FirstRecords(count);
  }

  method SendPhase3(q: Query, sources: seq<HashMemory>, received: seq<Record>) returns (sent: seq<seq<Record>>)
    requires ValidSources(q, sources) && DistinctKeys(received)
    ensures SameContents(sent, Phase3Sent(KeysOf(received), Orders(sources)))
  {
    ghost var all := Phase3Sent(KeysOf(received), Orders(sources));
    sent := [];
    for i := 0 to |sources|
      invariant SameContents(sent, all[..i])
    {
      var part := sources[i].LookUpEach(received);
      SameNext(sent, all, i, part);
      sent := sent + [part];
    }
    assert all[..|sources|] == all;
  }

  lemma PrefixNext<T>(s: seq<T>, i: nat)
    requires i < |s|
    ensures s[..i + 1] == s[..i] + [s[i]]
  {
  }

  lemma SameNext(a: seq<seq<Record>>, all: seq<seq<Record>>, i: nat, x: seq<Record>)
    requires i < |all| && SameContents(a, all[..i]) && multiset(x) == multiset(all[i])
    ensures SameContents(a + [x], all[..i + 1])
  {
  }

  /** Lists of the same records, each in any order. */
  ghost predicate SameContents(a: seq<seq<Record>>, b: seq<seq<Record>>) {
    |a| == |b| && forall i | 0 <= i < |a| :: multiset(a[i]) == multiset(b[i])
  }

  lemma CandidatesReceived(q: Query, sent: seq<Record>, received: seq<Record>)
    requires multiset(received) == multiset(RecordsOf(Aggregate(q.funcs, sent)))
    ensures DistinctKeys(received) && KeysOf(received) == KeysOf(sent)
  {
    ListingDistinct(received, Aggregate(q.funcs, sent));
    forall k
      ensures k in Aggregate(q.funcs, sent) <==> k in KeysOf(sent)
    {
      AggregateMember(q.funcs, sent, k);
    }
  }

  /** The master fills an empty memory with the records of a phase, in the order they arrive. */
  method Collect(q: Query, le: (Record, Record) -> bool, arrived: seq<Record>, ghost sent: seq<Record>)
    returns (memory: HashMemory)
    requires Refines(q, le) && multiset(arrived) == multiset(sent)
    ensures fresh(memory) && memory.query == q && memory.le == le
    ensures Listing(le, memory.order, multiset(RecordsOf(Aggregate(q.funcs, sent))))
  {
    memory := new HashMemory(q, le);
    memory.WriteEach(arrived);
    WriteAllConfluent(q.funcs, map[], arrived, sent);
  }

  /** In two listings of the same records the entries at a position sort alike. */
  lemma SamePosition(q: Query, a: seq<Record>, b: seq<Record>, j: nat)
    requires Listing(q.Before, a, multiset(b)) && SortedBy(q.Before, b) && j < |a| && j < |b|
    ensures q.Before(a[j], b[j])
  {
    var e := multiset(b[..j + 1]);
    assert b == b[..j + 1] + b[j + 1..];
    assert TotalPreorder(q.Before);
    if !q.Before(a[j], b[j]) {
      BeforeMeansEarly(q.Before, a, e, b[j], j);
      SubMultisetSize(e, multiset(a[..j]));
    }
  }

  /** The bottom depends on the partial sums only, not on how ties come out. */
  lemma BottomUnique(q: Query, a: seq<Record>, b: seq<Record>)
    requires q.limit > 0 && SortedBy(q.Before, a) && SortedBy(q.Before, b) && multiset(a) == multiset(b)
    ensures Bottom(q, a) == Bottom(q, b)
  {
    assert |multiset(a)| == |multiset(b)|;
    if |a| > 0 {
      var j := if |a| < q.limit then |a| - 1 else q.limit - 1;
      SamePosition(q, a, b, j);
      SamePosition(q, b, a, j);
    }
  }

  /** The master's part of phase 1, for the records that have arrived. */
  method MasterPhase1(q: Query, arrived: seq<Record>, ghost locals: seq<seq<Record>>)
    returns (bottom: nat, ghost partial: seq<Record>)
    requires q.Enabled() && multiset(arrived) == multiset(Flatten(Phase1Sent(q, locals)))
    ensures PartialListing(q, locals, partial)
    ensures bottom == Bottom(q, partial)
    ensures forall p :: PartialListing(q, locals, p) ==> bottom == Bottom(q, p)
  {
    assert TotalPreorder(q.Before);
    var memory := Collect(q, q.Before, arrived, Flatten(Phase1Sent(q, locals)));
    bottom := memory.FindBottom();
    partial := memory.order;
    forall p | PartialListing(q, locals, p)
      ensures bottom == Bottom(q, p)
    {
      BottomUnique(q, partial, p);
    }
  }

  /** The master's part of phase 2: the candidates, once each. */
  method MasterPhase2(q: Query, le: (Record, Record) -> bool, arrived: seq<Record>, ghost threshold: nat,
                      ghost locals: seq<seq<Record>>)
    returns (received: seq<Record>)
    requires Refines(q, le) && multiset(arrived) == multiset(Flatten(Phase2Sent(q, threshold, locals)))
    ensures DistinctKeys(received) && KeysOf(received) == Candidates(q, threshold, locals)
  {
    ghost var sent := Flatten(Phase2Sent(q, threshold, locals));
    var memory := Collect(q, le, arrived, sent);
    received := memory.FirstRecords(0);
    CandidatesReceived(q, sent, received);
  }

  /** Phase 1: the sources' first records give a bound for the last total wanted. */
  method Phase1(q: Query, sources: seq<HashMemory>, deliver: (nat, seq<seq<Record>>) -> seq<Record>)
    returns (bottom: nat, ghost partial: seq<Record>)
    requires q.Enabled() && ValidSources(q, sources) && Delivers(deliver)
    ensures PartialListing(q, Orders(sources), partial)
    ensures bottom == Bottom(q, partial)
    ensures forall p :: PartialListing(q, Orders(sources), p) ==> bottom == Bottom(q, p)
  {
    var sent := SendPhase1(q, sources);
    bottom, partial := MasterPhase1(q, deliver(1, sent), Orders(sources));
  }

  /** Phase 2: everything that could make up the bound. The threshold is rounded as the code does. */
  method Phase2(q: Query, le: (Record, Record) -> bool, sources: seq<HashMemory>, bottom: nat, round: real -> real,
                deliver: (nat, seq<seq<Record>>) -> seq<Record>) returns (received: seq<Record>)
    requires |sources| > 0 && Refines(q, le) && ValidSources(q, sources) && Delivers(deliver) && RoundsToDouble(round)
    ensures DistinctKeys(received)
    ensures KeysOf(received) == Candidates(q, CodeThreshold(round, bottom, |sources|), Orders(sources))
  {
    var threshold := CodeThreshold(round, bottom, |sources|);
    var sent := SendPhase2(q, sources, threshold);
    received := MasterPhase2(q, le, deliver(2, sent), threshold, Orders(sources));
  }

  /** Phase 3: the exact records of the candidates. */
  method Phase3(q: Query, le: (Record, Record) -> bool, sources: seq<HashMemory>, received: seq<Record>,
                deliver: (nat, seq<seq<Record>>) -> seq<Record>) returns (memory: HashMemory)
    requires Refines(q, le) && ValidSources(q, sources) && Delivers(deliver) && DistinctKeys(received)
    ensures Listing(le, memory.order,
              multiset(RecordsOf(Aggregate(q.funcs, Flatten(Phase3Sent(KeysOf(received), Orders(sources)))))))
  {
    var sent := SendPhase3(q, sources, received);
    SameFlattened(sent, Phase3Sent(KeysOf(received), Orders(sources)));
    memory := Collect(q, le, deliver(3, sent), Flatten(Phase3Sent(KeysOf(received), Orders(sources))));
  }

  /** The whole query. It is a run of the protocol with the code's threshold, and exact whenever that
      threshold suffices: for the queries that are always exact, whenever the bottom is below 2^53. */
  method TopN(q: Query, le: (Record, Record) -> bool, sources: seq<HashMemory>, round: real -> real,
              deliver: (nat, seq<seq<Record>>) -> seq<Record>)
    returns (printed: seq<Record>, ghost partial: seq<Record>, ghost final: seq<Record>)
    requires q.Enabled() && 0 < |sources| < 0x1_0000_0000_0000_0000 && Refines(q, le) && RoundsToDouble(round)
    requires ValidSources(q, sources) && Delivers(deliver)
    ensures Run(q, CodeThreshold(round, Bottom(q, partial), |sources|), Orders(sources), partial, final, le)
    ensures printed == Cut(final, q.limit)
    ensures Suffices(q, |sources|, Bottom(q, partial), CodeThreshold(round, Bottom(q, partial), |sources|)) ==>
      IsExact(q, le, Orders(sources), printed)
    ensures AlwaysExact(q, |sources|) && BottomBelow(q, Orders(sources), 0x20_0000_0000_0000) ==>
      IsExact(q, le, Orders(sources), printed)
  {
    ghost var locals := Orders(sources);
    var bottom;
    bottom, partial := Phase1(q, sources, deliver);
    var received := Phase2(q, le, sources, bottom, round, deliver);
    var memory := Phase3(q, le, sources, received, deliver);
    printed := memory.FirstRecords(q.limit);
    final := memory.order;
    ghost var threshold := CodeThreshold(round, bottom, |sources|);
    assert locals == Orders(sources);
    assert Run(q, threshold, locals, partial, final, le);
    SourcesAreLocals(q, sources);
    PrintsExactly(q, le, locals, round, partial, final);
  }

  /** Where the code's threshold suffices the first records of the final memory are exact. */
  lemma PrintsExactly(q: Query, le: (Record, Record) -> bool, locals: seq<seq<Record>>, round: real -> real,
                      partial: seq<Record>, final: seq<Record>)
    requires q.Enabled() && 0 < |locals| < 0x1_0000_0000_0000_0000 && Refines(q, le) && RoundsToDouble(round)
    requires Locals(q, locals) && Run(q, CodeThreshold(round, Bottom(q, partial), |locals|), locals, partial, final, le)
    ensures Suffices(q, |locals|, Bottom(q, partial), CodeThreshold(round, Bottom(q, partial), |locals|)) ==>
      IsExact(q, le, locals, Cut(final, q.limit))
    ensures AlwaysExact(q, |locals|) && BottomBelow(q, locals, 0x20_0000_0000_0000) ==>
      IsExact(q, le, locals, Cut(final, q.limit))
  {
    var threshold := CodeThreshold(round, Bottom(q, partial), |locals|);
    CodeSufficesIff(q, |locals|, round);
    if Suffices(q, |locals|, Bottom(q, partial), threshold) {
      TputExact(q, threshold, locals, partial, final, le);
    }
  }

  /** The bottom that phase 1 finds, the same for all ways to break ties, is below a limit. */
  ghost predicate BottomBelow(q: Query, locals: seq<seq<Record>>, limit: nat)
    requires q.limit > 0
  {
    forall partial | PartialListing(q, locals, partial) :: Bottom(q, partial) < limit
  }

  /** The records are the first of a listing of the aggregation of all sources. */
  ghost predicate IsExact(q: Query, le: (Record, Record) -> bool, locals: seq<seq<Record>>, printed: seq<Record>) {
    exists l :: Listing(le, l, multiset(RecordsOf(Aggregate(q.funcs, Flatten(locals))))) && printed == Cut(l, q.limit)
  }

  /** End to end: if every thread aggregated its own flow records and ties are broken by a total
      order, the protocol's answer is the answer computed on one machine from all flow records. */
  lemma TopNOnOneMachine(q: Query, le: (Record, Record) -> bool, sources: seq<HashMemory>, parts: seq<seq<Record>>,
                         flat: seq<Record>, l: seq<Record>, onOne: seq<Record>)
    requires Refines(q, le) && Antisymmetric(le) && ValidSources(q, sources) && |parts| == |sources|
    requires forall i | 0 <= i < |sources| :: sources[i].contents == Aggregate(q.funcs, parts[i])
    requires multiset(flat) == multiset(Flatten(parts))
    requires Listing(le, l, multiset(RecordsOf(Aggregate(q.funcs, Flatten(Orders(sources))))))
    requires Listing(le, onOne, multiset(RecordsOf(Aggregate(q.funcs, flat))))
    ensures l == onOne
  {
    var orders := Orders(sources);
    forall i | 0 <= i < |parts|
      ensures multiset(orders[i]) == multiset(RecordsOf(Aggregate(q.funcs, parts[i])))
    {
      assert sources[i].Valid();
    }
    MasterAggregatesAll(q.funcs, parts, orders, Flatten(orders), flat);
    ListingUnique(le, l, onOne);
  }
}
