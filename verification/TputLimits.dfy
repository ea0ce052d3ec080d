/** Exactly which thresholds, and so which queries, the Top-N protocol answers exactly on all data. */
module TputLimits {
  import opened Ordering
  import opened Aggregation
  import opened Tput
  import opened TputLosses
  import opened Rounding

  /** Every run with this bottom and this threshold is exact, whatever the data and the ties. */
  ghost predicate ExactFor(q: Query, sources: nat, bottom: nat, threshold: nat)
    requires q.limit > 0
  {
    forall locals, partial, final, le ::
      && |locals| == sources && Locals(q, locals) && Refines(q, le)
      && Run(q, threshold, locals, partial, final, le) && Bottom(q, partial) == bottom
      ==> Exact(q, locals, final, le)
  }

  /** The thresholds that suffice are exactly those that are exact on all data: for every query, number
      of sources, bottom and threshold. */
  lemma ExactForIff(q: Query, sources: nat, bottom: nat, threshold: nat)
    requires q.Enabled() && sources > 0
    ensures ExactFor(q, sources, bottom, threshold) <==> Suffices(q, sources, bottom, threshold)
  {
    if Suffices(q, sources, bottom, threshold) {
      forall locals, partial, final, le |
        && |locals| == sources && Locals(q, locals) && Refines(q, le)
        && Run(q, threshold, locals, partial, final, le) && Bottom(q, partial) == bottom
        ensures Exact(q, locals, final, le)
      {
        TputExact(q, threshold, locals, partial, final, le);
      }
    } else {
      var locals, partial, final, le := LosingData(q, sources, bottom, threshold);
      assert Run(q, threshold, locals, partial, final, le) && Bottom(q, partial) == bottom &&
        !Exact(q, locals, final, le);
    }
  }

  lemma LosingData(q: Query, sources: nat, bottom: nat, threshold: nat)
    returns (locals: seq<seq<Record>>, partial: seq<Record>, final: seq<Record>, le: (Record, Record) -> bool)
    requires q.Enabled() && sources > 0 && !Suffices(q, sources, bottom, threshold)
    ensures |locals| == sources && Locals(q, locals) && Refines(q, le)
    ensures Run(q, threshold, locals, partial, final, le) && Bottom(q, partial) == bottom
    ensures !Exact(q, locals, final, le)
  {
    PreferRefines(q, [0]);
    PreferRefines(q, [1]);
    le := Prefer(q, [1]);
    if q.limit >= 2 && !q.Within(bottom, threshold) {
      locals := LosingSecond(q, sources, threshold, bottom);
      partial, final := SomeRun(q, threshold, locals, le);
      LosesSecond(q, sources, threshold, bottom, threshold, partial, final, le);
    } else if q.dir.Desc? {
      BelowThreshold(bottom, sources, threshold);
      if q.limit >= 2 {
        locals := EvenSources(q, sources, bottom, threshold - 1, threshold + bottom);
        partial, final := SomeRun(q, threshold, locals, le);
        LosesEven(q, sources, bottom, threshold, partial, final, le);
      } else {
        locals, le := TopSources(q, sources, bottom, [Valued(q, 0, threshold - 1)]), Prefer(q, [0]);
        partial, final := SomeRun(q, threshold, locals, le);
        LosesTop(q, sources, bottom, threshold, partial, final);
      }
    } else if threshold < bottom {
      locals := LosingThin(q, sources, bottom, threshold);
      partial, final := SomeRun(q, threshold, locals, le);
      LosesThin(q, sources, bottom, threshold, partial, final);
    } else {
      locals := LosingBetween(q, sources, bottom, threshold);
      partial, final := SomeRun(q, threshold, locals, le);
      LosesBetween(q, sources, bottom, threshold, partial, final);
    }
  }

  /** Parts just below a threshold that is too large can add up to the bottom. */
  lemma BelowThreshold(b: nat, m: nat, t: nat)
    requires m > 0 && t > CeilDiv(b, m)
    ensures b <= m * (t - 1)
  {
    CeilDivTight(b, m);
    ProductAtLeast(m, CeilDiv(b, m), t - 1);
  }

  // ----- the code's threshold

  /** Every run of the code with a bottom below 2^53 is exact, for one way to break ties. */
  ghost predicate ExactOnAllData(q: Query, sources: nat, round: real -> real, le: (Record, Record) -> bool)
    requires q.limit > 0 && sources > 0 && RoundsToDouble(round)
  {
    forall locals, partial, final ::
      && |locals| == sources && Locals(q, locals) && Bottom(q, partial) < 0x20_0000_0000_0000
      && Run(q, CodeThreshold(round, Bottom(q, partial), sources), locals, partial, final, le)
      ==> Exact(q, locals, final, le)
  }

  /** With bottoms below 2^53 the code is exact on all data just when the order is descending, or there
      is one source, or the sort key is an aggregation key and one record is wanted. */
  lemma ExactOnAllDataIff(q: Query, sources: nat, round: real -> real, le: (Record, Record) -> bool)
    requires q.Enabled() && 0 < sources < 0x1_0000_0000_0000_0000 && RoundsToDouble(round) && Refines(q, le)
    ensures ExactOnAllData(q, sources, round, le) <==> AlwaysExact(q, sources)
  {
    if AlwaysExact(q, sources) {
      CodeSufficesIff(q, sources, round);
      forall locals, partial, final |
        && |locals| == sources && Locals(q, locals) && Bottom(q, partial) < 0x20_0000_0000_0000
        && Run(q, CodeThreshold(round, Bottom(q, partial), sources), locals, partial, final, le)
        ensures Exact(q, locals, final, le)
      {
        TputExact(q, CodeThreshold(round, Bottom(q, partial), sources), locals, partial, final, le);
      }
    } else {
      var locals, partial, final := CodeLoses(q, sources, round, le);
    }
  }

  lemma CodeLoses(q: Query, sources: nat, round: real -> real, le: (Record, Record) -> bool)
    returns (locals: seq<seq<Record>>, partial: seq<Record>, final: seq<Record>)
    requires q.Enabled() && 0 < sources < 0x1_0000_0000_0000_0000 && RoundsToDouble(round) && Refines(q, le)
    requires !AlwaysExact(q, sources)
    ensures |locals| == sources && Locals(q, locals) && Bottom(q, partial) < 0x20_0000_0000_0000
    ensures Run(q, CodeThreshold(round, Bottom(q, partial), sources), locals, partial, final, le)
    ensures !Exact(q, locals, final, le)
  {
    ThresholdIsCeilDiv(1, sources, round);
    ThresholdIsCeilDiv(2, sources, round);
    CeilOfOne(sources);
    CeilOfTwo(sources);
    if q.limit == 1 {
      locals := LosingSmall(q, sources);
      partial, final := SomeRun(q, 1, locals, le);
      SmallBottom(q, sources);
      BottomIs(q, locals, partial, 1, {});
      LosesSmall(q, sources, partial, final, le);
    } else {
      locals := LosingSecond(q, sources, 0, 2);
      partial, final := SomeRun(q, 1, locals, le);
      LosesSecond(q, sources, 0, 2, 1, partial, final, le);
    }
  }

  lemma CeilOfOne(m: nat)
    requires m > 0
    ensures CeilDiv(1, m) == 1
  {
    CeilDivTight(1, m);
  }

  /** With bottoms of 54 bits and one source, descending, the code is exact on all data just when the
      bottom is not three more than a multiple of four: such a bottom is rounded up. */
  lemma LargeBottomIff(q: Query, round: real -> real, b: nat)
    requires q.Enabled() && q.dir.Desc? && q.limit > 1 && RoundsToEven(round)
    requires 0x20_0000_0000_0000 <= b <= 0x40_0000_0000_0000
    ensures ExactFor(q, 1, b, CodeThreshold(round, b, 1)) <==> b % 4 != 3
  {
    LargeBottom(q, round, b);
    ExactForIff(q, 1, b, CodeThreshold(round, b, 1));
  }

  /** The same for any number of sources, descending by a volume. */
  lemma LargeBottomSourcesIff(q: Query, round: real -> real, sources: nat, b: nat)
    requires q.Enabled() && q.dir.Desc? && q.sort.InVals? && q.limit > 1 && RoundsToEven(round) && sources > 0
    requires 0x20_0000_0000_0000 <= b <= 0x40_0000_0000_0000
    ensures ExactFor(q, sources, b, CodeThreshold(round, b, sources)) <==>
      !(b % 4 == 3 && b % sources == 0 && round((b + 1) as real / sources as real) > (b / sources) as real)
  {
    LargeBottomSources(q, round, sources, b);
    ExactForIff(q, sources, b, CodeThreshold(round, b, sources));
  }

  /** For every bottom, however large, the two roundings decide. */
  lemma CodeExactIff(q: Query, round: real -> real, sources: nat, b: nat)
    requires q.Enabled() && q.dir.Desc? && q.sort.InVals? && q.limit > 1 && RoundsToDouble(round) && sources > 0
    ensures ExactFor(q, sources, b, CodeThreshold(round, b, sources)) <==>
      round(round(b as real) / sources as real) <= CeilDiv(b, sources) as real
  {
    CodeSuffices(q, round, sources, b);
    ExactForIff(q, sources, b, CodeThreshold(round, b, sources));
  }

  /** One source holds 2^60 and 2^53 + 3, and two records are wanted: the second is lost. */
  lemma LosesLarge(q: Query, round: real -> real, partial: seq<Record>, final: seq<Record>,
                   le: (Record, Record) -> bool)
    requires q.Enabled() && q.dir.Desc? && q.limit == 2 && RoundsToEven(round) && Refines(q, le)
    requires Run(q, CodeThreshold(round, Bottom(q, partial), 1),
      LosingSecond(q, 1, 0x1000_0000_0000_0000, 0x20_0000_0000_0003),
                 partial, final, le)
    ensures var locals := LosingSecond(q, 1, 0x1000_0000_0000_0000, 0x20_0000_0000_0003);
      && Locals(q, locals) && Bottom(q, partial) == 0x20_0000_0000_0003
      && CodeThreshold(round, Bottom(q, partial), 1) == 0x20_0000_0000_0004
      && !Exact(q, locals, final, le)
  {
    var near, far := 0x1000_0000_0000_0000, 0x20_0000_0000_0003;
    SecondBottom(q, near, far, partial);
    LargeExample(round);
    LosesSecond(q, 1, near, far, far + 1, partial, final, le);
  }

  lemma SecondBottom(q: Query, near: nat, far: nat, partial: seq<Record>)
    requires q.Enabled() && q.limit >= 2 && near != far && q.Within(near, far)
    requires PartialListing(q, LosingSecond(q, 1, near, far), partial)
    ensures Bottom(q, partial) == far
  {
    SecondData(q, 1, near, far);
    BottomIs(q, LosingSecond(q, 1, near, far), partial, far, {Valued(q, 0, near).key});
  }

  // ----- ascending by a volume: a record small in total may be small nowhere

  /** Source 1 holds a:1, b:10, c:100, source 2 holds c:1, a:100. */
  function LosingSmall(q: Query, sources: nat): (r: seq<seq<Record>>)
    requires sources >= 2
    ensures |r| == sources
  {
    Padded([[Valued(q, 0, 1), Valued(q, 1, 10), Valued(q, 2, 100)], [Valued(q, 2, 1), Valued(q, 0, 100)]], sources)
  }

  lemma LosesSmall(q: Query, sources: nat, partial: seq<Record>, final: seq<Record>, le: (Record, Record) -> bool)
    requires q.Enabled() && q.dir.Asc? && q.sort.InVals? && sources >= 2 && q.limit == 1 && Refines(q, le)
    requires Run(q, CeilDiv(Bottom(q, partial), sources), LosingSmall(q, sources), partial, final, le)
    ensures Locals(q, LosingSmall(q, sources)) && Bottom(q, partial) == 1
    ensures !Exact(q, LosingSmall(q, sources), final, le)
  {
    var locals := LosingSmall(q, sources);
    SmallBottom(q, sources);
    BottomIs(q, locals, partial, 1, {});
    CeilOfOne(sources);
    SmallNoCandidate(q, sources);
    SmallNearTop(q, sources, le);
    LostRecord(q, 1, locals, partial, final, le, [1], {});
  }

  lemma SmallBottom(q: Query, sources: nat)
    requires q.Enabled() && q.dir.Asc? && q.sort.InVals? && sources >= 2 && q.limit == 1
    ensures BottomAt(q, LosingSmall(q, sources), 1, {})
  {
    var a, c := Valued(q, 0, 1), Valued(q, 2, 1);
    var left, right := [a, Valued(q, 1, 10), Valued(q, 2, 100)], [c, Valued(q, 0, 100)];
    assert Cut(left, 1) == [a] && Cut(right, 1) == [c];
    assert Phase1Sent(q, [left, right]) == [[a], [c]];
    Phase1Padded(q, [left, right], sources);
    FlattenPadded([[a], [c]], sources);
    FlattenTwo([a], [c]);
    var sent := [a] + [c];
    forall k: nat
      ensures Volume(q.sort.pos, [k], sent) == if k == 0 || k == 2 then 1 else 0
    {
      VolumeAppend(q.sort.pos, [k], [a], [c]);
      VolumeOne(q, 0, 1, k);
      VolumeOne(q, 2, 1, k);
    }
    assert sent[0] in sent;
    BottomFrom(q, LosingSmall(q, sources), sent, 1, {}, [0]);
  }

  /** The bottom is 1, so is the threshold, and b is nowhere that small. */
  lemma SmallNoCandidate(q: Query, sources: nat)
    requires q.Enabled() && q.dir.Asc? && q.sort.InVals? && sources >= 2
    ensures Locals(q, LosingSmall(q, sources)) && [1] !in Candidates(q, 1, LosingSmall(q, sources))
  {
    var left, right := [Valued(q, 0, 1), Valued(q, 1, 10), Valued(q, 2, 100)], [Valued(q, 2, 1), Valued(q, 0, 100)];
    var locals := LosingSmall(q, sources);
    assert [0][0] != [1][0] && [0][0] != [2][0] && [1][0] != [2][0];
    assert Local(q, left) && Local(q, right);
    LocalsPadded(q, [left, right], sources);
    forall i, r: Record | 0 <= i < sources && r in locals[i] && r.key == [1]
      ensures i == 0 && r == Valued(q, 1, 10)
    {
      assert i < 2;
    }
    NotCandidate(q, 1, locals, [1]);
  }

  /** Taken together, b comes first. */
  lemma SmallNearTop(q: Query, sources: nat, le: (Record, Record) -> bool)
    requires q.Enabled() && q.dir.Asc? && q.sort.InVals? && sources >= 2 && Refines(q, le)
    ensures NearTop(q, Aggregate(q.funcs, Flatten(LosingSmall(q, sources))), le, [1], {})
  {
    var left, right := [Valued(q, 0, 1), Valued(q, 1, 10), Valued(q, 2, 100)], [Valued(q, 2, 1), Valued(q, 0, 100)];
    FlattenPadded([left, right], sources);
    FlattenTwo(left, right);
    var all := left + right;
    SmallVolumes(q);
    assert all[1] == left[1] && all[1] in all;
    KeysWritten(q.funcs, all);
    forall k | k in KeysOf(all)
      ensures k == [0] || k == [1] || k == [2]
    {
      var r :| r in all && r.key == k;
      assert r in left || r in right;
    }
    StrictNearTop(q, all, le, [1], {});
  }

  lemma SmallVolumes(q: Query)
    requires q.sort.InVals?
    ensures var all := [Valued(q, 0, 1), Valued(q, 1, 10), Valued(q, 2, 100)] + [Valued(q, 2, 1), Valued(q, 0, 100)];
      Volume(q.sort.pos, [0], all) == Volume(q.sort.pos, [2], all) == 101 && Volume(q.sort.pos, [1], all) == 10
  {
    var a, b, c, c', a' := Valued(q, 0, 1), Valued(q, 1, 10), Valued(q, 2, 100), Valued(q, 2, 1), Valued(q, 0, 100);
    assert [a, b, c] == [a] + [b] + [c] && [c', a'] == [c'] + [a'];
    VolumesOfThree(q, 0, 1, 1, 10, 2, 100);
    forall k: nat | k < 3
      ensures Volume(q.sort.pos, [k], [a, b, c] + [c', a']) == if k == 1 then 10 else 101
    {
      VolumeAppend(q.sort.pos, [k], [a, b, c], [c', a']);
      VolumeAppend(q.sort.pos, [k], [c'], [a']);
      VolumeOne(q, 2, 1, k);
      VolumeOne(q, 0, 100, k);
    }
  }
}
