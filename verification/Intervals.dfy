/** Time ranges are aligned to the rotation interval of the flow files, then every interval of the
    range is visited. */
module Intervals {
  import opened Calendar

  const INTERVAL: int := 300

  class TmVar {
    var tm: Tm

    constructor (tm: Tm)
      ensures this.tm == tm
    {
      this.tm := tm;
    }
  }

  /** Normalises its argument in place, which keeps its point in time. */
  method MktimeUtc(v: TmVar) returns (epoch: int)
    modifies v
    ensures Normalized(v.tm) && Epoch(v.tm) == old(Epoch(v.tm)) == epoch
  {
    NormalSame(v.tm);
    v.tm := Normal(v.tm);
    epoch := Epoch(v.tm);
  }

  /** The greatest multiple of the interval not above `e`. */
  function Down(e: int): (d: int)
    ensures d % INTERVAL == 0 && d <= e < d + INTERVAL
  {
    e - e % INTERVAL
  }

  /** The least multiple of the interval not below `e`. */
  function Up(e: int): (u: int)
    ensures u % INTERVAL == 0 && u - INTERVAL < e <= u
  {
    Down(e + INTERVAL - 1)
  }

  /** On the way down to a multiple nothing else is one. */
  lemma OnlyMultipleBelow(start: int, e: int)
    requires Down(start) <= e <= start
    ensures CMod(e, INTERVAL) == 0 <==> e == Down(start)
  {
    RemainderZero(e);
    Between(Down(start), e);
  }

  lemma OnlyMultipleAbove(start: int, e: int)
    requires start <= e <= Up(start)
    ensures CMod(e, INTERVAL) == 0 <==> e == Up(start)
  {
    RemainderZero(e);
    Between(Up(start) - INTERVAL, e);
  }

  /** The remainder of C is zero for multiples only, also of negative numbers. */
  lemma RemainderZero(e: int)
    ensures CMod(e, INTERVAL) == 0 <==> e % INTERVAL == 0
  {
  }

  lemma Between(d: int, e: int)
    requires d % INTERVAL == 0 && d <= e <= d + INTERVAL
    ensures e % INTERVAL == 0 <==> e == d || e == d + INTERVAL
  {
  }

  predicate Aligned(t: Tm) {
    Normalized(t) && t.sec == 0 && t.min % 5 == 0
  }

  /** Moves a time by some seconds. */
  method Move(v: TmVar, seconds: int) returns (epoch: int)
    modifies v
    ensures Normalized(v.tm) && Epoch(v.tm) == epoch == old(Epoch(v.tm)) + seconds
  {
    v.tm := v.tm.(sec := v.tm.sec + seconds);
    epoch := MktimeUtc(v);
  }

  /** Goes back second by second to the start of the interval. */
  method AlignBegin(v: TmVar) returns (ghost steps: nat)
    modifies v
    ensures Aligned(v.tm) && Epoch(v.tm) == Down(old(Epoch(v.tm)))
    ensures steps < INTERVAL
  {
    var epoch := MktimeUtc(v);
    ghost var start, goal := epoch, Down(epoch);
    steps := 0;
    OnlyMultipleBelow(start, epoch);
    while CMod(epoch, INTERVAL) != 0
      invariant Normalized(v.tm) && epoch == Epoch(v.tm)
      invariant epoch == start - steps && goal <= epoch
      invariant CMod(epoch, INTERVAL) == 0 <==> epoch == goal
      decreases epoch - goal
    {
      epoch := Move(v, -1);
      steps := steps + 1;
      OnlyMultipleBelow(start, epoch);
    }
    FiveMinutes(v.tm);
  }

  /** Goes forward second by second to the end of the interval. */
  method AlignEnd(v: TmVar) returns (ghost steps: nat)
    modifies v
    ensures Aligned(v.tm) && Epoch(v.tm) == Up(old(Epoch(v.tm)))
    ensures steps < INTERVAL
  {
    var epoch := MktimeUtc(v);
    ghost var start, goal := epoch, Up(epoch);
    steps := 0;
    OnlyMultipleAbove(start, epoch);
    while CMod(epoch, INTERVAL) != 0
      invariant Normalized(v.tm) && epoch == Epoch(v.tm)
      invariant epoch == start + steps && epoch <= goal
      invariant CMod(epoch, INTERVAL) == 0 <==> epoch == goal
      decreases goal - epoch
    {
      epoch := Move(v, 1);
      steps := steps + 1;
      OnlyMultipleAbove(start, epoch);
    }
    FiveMinutes(v.tm);
  }

  lemma DiffOfEpochs(a: Tm, b: Tm)
    ensures TmDiff(a, b) == Epoch(a) - Epoch(b)
  {
    TmDiffIsLinear(a, b);
  }

  /** The interval of a point in time. */
  method SetTimePoint(begin: TmVar, end: TmVar)
    requires begin != end
    modifies begin, end
    ensures Aligned(begin.tm) && Aligned(end.tm)
    ensures Epoch(begin.tm) == Down(old(Epoch(begin.tm)))
    ensures Epoch(begin.tm) <= old(Epoch(begin.tm)) < Epoch(end.tm)
    ensures TmDiff(end.tm, begin.tm) == INTERVAL
  {
    NextInterval(Epoch(begin.tm));
    var _ := AlignBegin(begin);
    end.tm := begin.tm;
    end.tm := end.tm.(sec := end.tm.sec + 1);
    var _ := AlignEnd(end);
    DiffOfEpochs(end.tm, begin.tm);
  }

  lemma NextInterval(e: int)
    ensures Up(Down(e) + 1) == Down(e) + INTERVAL
  {
  }

  /** The intervals that a range touches; an empty or reversed range is refused. */
  method SetTimeRange(begin: TmVar, end: TmVar) returns (ok: bool)
    requires begin != end
    modifies begin, end
    ensures Aligned(begin.tm) && Aligned(end.tm)
    ensures Epoch(begin.tm) == Down(old(Epoch(begin.tm))) && Epoch(end.tm) == Up(old(Epoch(end.tm)))
    ensures ok <==> Down(old(Epoch(begin.tm))) < Up(old(Epoch(end.tm)))
  {
    var _ := AlignBegin(begin);
    var _ := AlignEnd(end);
    DiffOfEpochs(end.tm, begin.tm);
    ok := TmDiff(end.tm, begin.tm) > 0;
  }

  // ----- the paths found

  const GROWTH: nat := 2

  /** An array that doubles when it is full. */
  class PathArray {
    var names: array<string>
    var count: nat

    ghost predicate Valid()
      reads this
    {
      count <= names.Length && names.Length > 0
    }

    ghost function Paths(): seq<string>
      requires Valid()
      reads this, names
    {
      names[..count]
    }

    constructor (size: nat)
      requires size > 0
      ensures Valid() && Paths() == [] && fresh(names)
    {
      names := new string[size](_ => "");
      count := 0;
    }

    method AddPath(name: string)
      requires Valid()
      modifies this, names
      ensures Valid() && Paths() == old(Paths()) + [name]
      ensures names == old(names) || fresh(names)
    {
      if count == names.Length {
        var full := names;
        var larger := new string[GROWTH * full.Length](_ => "");
        for i := 0 to full.Length
          invariant names == full && count == full.Length && full[..] == old(names[..])
          invariant larger[..i] == full[..i]
        {
          larger[i] := full[i];
        }
        names := larger;
      }
      names[count] := name;
      count := count + 1;
    }
  }

  // ----- visiting every interval of a range

  /** The next interval start. */
  function Later(t: Tm): Tm {
    Normal(t.(sec := t.sec + INTERVAL))
  }

  /** The first `n` interval starts from `t` on. */
  function Starts(t: Tm, n: nat): (s: seq<Tm>)
    ensures |s| == n
    decreases n
  {
    if n == 0 then [] else [t] + Starts(Later(t), n - 1)
  }

  function IntervalCount(begin: Tm, end: Tm): nat {
    CountOf(Epoch(end) - Epoch(begin))
  }

  /** How many intervals touch a range of so many seconds. */
  function CountOf(seconds: int): nat {
    if seconds <= 0 then 0 else (seconds + INTERVAL - 1) / INTERVAL
  }

  lemma CountOfLess(seconds: int, k: nat)
    ensures k < CountOf(seconds) <==> INTERVAL * k < seconds
    ensures seconds > 0 ==> CountOf(seconds) == 1 + CountOf(seconds - INTERVAL)
  {
  }

  lemma LaterIsLater(t: Tm)
    ensures Normalized(Later(t)) && Epoch(Later(t)) == Epoch(t) + INTERVAL
  {
    NormalSame(t.(sec := t.sec + INTERVAL));
  }

  /** The starts are 300 seconds apart, all in the range, and the next one would not be. */
  lemma StartsEvenly(begin: Tm, end: Tm, k: nat)
    requires Normalized(begin) && k < IntervalCount(begin, end)
    ensures var s := Starts(begin, IntervalCount(begin, end));
      Normalized(s[k]) && Epoch(s[k]) == Epoch(begin) + INTERVAL * k && Epoch(s[k]) < Epoch(end)
  {
    CountOfLess(Epoch(end) - Epoch(begin), k);
    StartsAt(begin, IntervalCount(begin, end), k);
  }

  lemma {:induction false} StartsAt(t: Tm, n: nat, k: nat)
    requires Normalized(t) && k < n
    ensures var s := Starts(t, n); Normalized(s[k]) && Epoch(s[k]) == Epoch(t) + INTERVAL * k
    decreases k
  {
    if k > 0 {
      LaterIsLater(t);
      StartsAt(Later(t), n - 1, k - 1);
      assert Starts(t, n)[k] == Starts(Later(t), n - 1)[k - 1];
    }
  }

  lemma CountDown(begin: Tm, end: Tm)
    requires Epoch(begin) < Epoch(end)
    ensures IntervalCount(begin, end) == 1 + IntervalCount(Later(begin), end)
  {
    LaterIsLater(begin);
    CountOfLess(Epoch(end) - Epoch(begin), 0);
  }

  /** Every instant of the range falls into exactly one of the visited intervals. */
  lemma InstantInOneInterval(begin: Tm, end: Tm, instant: int, k: nat)
    requires Normalized(begin) && Epoch(begin) <= instant < Epoch(end)
    ensures var n := IntervalCount(begin, end);
      var s := Starts(begin, n);
      k < n ==> (Epoch(s[k]) <= instant < Epoch(s[k]) + INTERVAL <==> k == (instant - Epoch(begin)) / INTERVAL)
    ensures 0 <= (instant - Epoch(begin)) / INTERVAL < IntervalCount(begin, end)
  {
    if k < IntervalCount(begin, end) {
      StartsEvenly(begin, end, k);
    }
  }

  /** The intervals whose path is `p` and exists. */
  ghost function Hits(pathOf: Tm -> string, exists_: string -> bool, starts: seq<Tm>, p: string): set<nat> {
    set i: nat | i < |starts| && exists_(pathOf(starts[i])) && pathOf(starts[i]) == p
  }

  /** Of the intervals just those whose path exists are picked, in order, and `found` are their paths. */
  ghost predicate Picked(pathOf: Tm -> string, exists_: string -> bool, starts: seq<Tm>, picked: seq<nat>,
                         found: seq<string>) {
    && |picked| == |found|
    && (forall j, k | 0 <= j < k < |picked| :: picked[j] < picked[k])
    && (forall j | 0 <= j < |picked| :: picked[j] < |starts| && found[j] == pathOf(starts[picked[j]]))
    && (forall i | 0 <= i < |starts| :: i in picked <==> exists_(pathOf(starts[i])))
  }

  lemma PickNext(pathOf: Tm -> string, exists_: string -> bool, starts: seq<Tm>, t: Tm, picked: seq<nat>,
                 found: seq<string>)
    requires Picked(pathOf, exists_, starts, picked, found)
    ensures Picked(pathOf, exists_, starts + [t], picked + (if exists_(pathOf(t)) then [|starts|] else []),
                   found + if exists_(pathOf(t)) then [pathOf(t)] else [])
  {
  }

  /** A path is found as often as it is that of an interval, if it exists. */
  lemma {:induction false} PickedCount(pathOf: Tm -> string, exists_: string -> bool, starts: seq<Tm>,
                                       picked: seq<nat>, found: seq<string>, p: string)
    requires Picked(pathOf, exists_, starts, picked, found)
    ensures multiset(found)[p] == |Hits(pathOf, exists_, starts, p)|
  {
    if |starts| == 0 {
      NoneFound(pathOf, exists_, starts, picked, found, p);
    } else {
      var n := |starts| - 1;
      var front, t := starts[..n], starts[n];
      assert starts == front + [t];
      HitsNext(pathOf, exists_, front, t, p);
      if exists_(pathOf(t)) {
        var k := LastPicked(pathOf, exists_, front, t, picked, found);
        PickedCount(pathOf, exists_, front, picked[..k], found[..k], p);
        CountLast(found, k, p);
      } else {
        NotPicked(pathOf, exists_, front, t, picked, found);
        PickedCount(pathOf, exists_, front, picked, found, p);
      }
    }
  }

  lemma NoneFound(pathOf: Tm -> string, exists_: string -> bool, starts: seq<Tm>, picked: seq<nat>,
                  found: seq<string>, p: string)
    requires Picked(pathOf, exists_, starts, picked, found) && |starts| == 0
    ensures multiset(found)[p] == 0 == |Hits(pathOf, exists_, starts, p)|
  {
    AtMostSoMany(picked, |starts|);
    assert Hits(pathOf, exists_, starts, p) == {} && found == [];
  }

  lemma {:induction false} AtMostSoMany(picked: seq<nat>, n: nat)
    requires forall j | 0 <= j < |picked| :: picked[j] < n
    requires forall j, k | 0 <= j < k < |picked| :: picked[j] < picked[k]
    ensures |picked| <= n
  {
    if |picked| > 0 {
      AtMostSoMany(picked[..|picked| - 1], picked[|picked| - 1]);
    }
  }

  lemma CountLast(found: seq<string>, k: nat, p: string)
    requires |found| == k + 1
    ensures multiset(found)[p] == multiset(found[..k])[p] + if found[k] == p then 1 else 0
  {
    assert found == found[..k] + [found[k]];
  }

  lemma LastPicked(pathOf: Tm -> string, exists_: string -> bool, front: seq<Tm>, t: Tm, picked: seq<nat>,
                   found: seq<string>)
    returns (k: nat)
    requires Picked(pathOf, exists_, front + [t], picked, found) && exists_(pathOf(t))
    ensures |found| == k + 1 && |picked| == k + 1 && found[k] == pathOf(t)
    ensures Picked(pathOf, exists_, front, picked[..k], found[..k])
  {
    assert (front + [t])[|front|] == t;
    k := |picked| - 1;
    assert picked[k] == |front|;
    forall i | 0 <= i < |front|
      ensures i in picked[..k] <==> exists_(pathOf(front[i]))
    {
      assert front[i] == (front + [t])[i];
      assert picked == picked[..k] + [|front|];
    }
  }

  lemma NotPicked(pathOf: Tm -> string, exists_: string -> bool, front: seq<Tm>, t: Tm, picked: seq<nat>,
                  found: seq<string>)
    requires Picked(pathOf, exists_, front + [t], picked, found) && !exists_(pathOf(t))
    ensures Picked(pathOf, exists_, front, picked, found)
  {
    assert (front + [t])[|front|] == t;
    assert forall i | 0 <= i < |front| :: front[i] == (front + [t])[i];
    assert |front| !in picked;
  }

  lemma HitsNext(pathOf: Tm -> string, exists_: string -> bool, starts: seq<Tm>, t: Tm, p: string)
    ensures |Hits(pathOf, exists_, starts + [t], p)| ==
      |Hits(pathOf, exists_, starts, p)| + if exists_(pathOf(t)) && pathOf(t) == p then 1 else 0
  {
    var last: set<nat> := if exists_(pathOf(t)) && pathOf(t) == p then {|starts|} else {};
    assert Hits(pathOf, exists_, starts + [t], p) == Hits(pathOf, exists_, starts, p) + last;
  }

  /** Whether `t`, the start `k`, is in the range. */
  method Remaining(end: Tm, t: Tm, ghost begin: Tm, ghost k: nat) returns (more: bool)
    requires Epoch(t) == Epoch(begin) + INTERVAL * k
    ensures more <==> k < IntervalCount(begin, end)
  {
    DiffOfEpochs(end, t);
    more := TmDiff(end, t) > 0;
    CountOfLess(Epoch(end) - Epoch(begin), k);
  }

  /** One pass: the path of the interval, then on to the next one, then the look into the file system. */
  method VisitInterval(paths: PathArray, t: Tm, pathOf: Tm -> string, exists_: string -> bool,
                       ghost base: seq<string>, ghost done: seq<string>) returns (next: Tm)
    requires paths.Valid() && paths.Paths() == base + done
    modifies paths, paths.names
    ensures next == Later(t) && Epoch(next) == Epoch(t) + INTERVAL && paths.Valid() &&
      (paths.names == old(paths.names) || fresh(paths.names))
    ensures paths.Paths() == base + (done + if exists_(pathOf(t)) then [pathOf(t)] else [])
  {
    var path := pathOf(t);
    next := t.(sec := t.sec + INTERVAL);
    next := Normal(next);
    LaterIsLater(t);
    if exists_(path) {
      paths.AddPath(path);
    }
  }

  /** `fits` tells whether the path of an interval fits the path buffer; `exists_` is the file system. */
  method FillFromTime(paths: PathArray, begin: Tm, end: Tm, pathOf: Tm -> string, fits: Tm -> bool,
                      exists_: string -> bool)
    returns (ghost picked: seq<nat>, ghost found: seq<string>)
    requires paths.Valid() && Normalized(begin)
    requires AllFit(fits, begin, IntervalCount(begin, end))
    modifies paths, paths.names
    ensures paths.Valid() && paths.Paths() == old(paths.Paths()) + found
    ensures Picked(pathOf, exists_, Starts(begin, IntervalCount(begin, end)), picked, found)
  {
    var ctx := begin;
    ghost var n := IntervalCount(begin, end);
    ghost var all, k: nat := Starts(begin, n), 0;
    picked, found := [], [];
    var more := Remaining(end, ctx, begin, k);
    while more
      invariant paths.Valid() && (paths.names == old(paths.names) || fresh(paths.names))
      invariant k <= n && (more <==> k < n) && Epoch(ctx) == Epoch(begin) + INTERVAL * k
      invariant paths.Paths() == old(paths.Paths()) + found && Filled(pathOf, exists_, all, ctx, n - k, picked, found)
      decreases n - k
    {
      ghost var picked', found' := FillNext(pathOf, exists_, all, ctx, n - k, picked, found);
      ctx := VisitInterval(paths, ctx, pathOf, exists_, old(paths.Paths()), found);
      picked, found, k := picked', found', k + 1;
      more := Remaining(end, ctx, begin, k);
    }
    assert all[..|all| - 0] == all;
  }

  /** With `left` intervals to go, from `t` on, the others have been looked up. */
  ghost predicate Filled(pathOf: Tm -> string, exists_: string -> bool, all: seq<Tm>, t: Tm, left: nat,
                         picked: seq<nat>, found: seq<string>) {
    left <= |all| && all[|all| - left..] == Starts(t, left) &&
    Picked(pathOf, exists_, all[..|all| - left], picked, found)
  }

  lemma FillNext(pathOf: Tm -> string, exists_: string -> bool, all: seq<Tm>, t: Tm, left: nat,
                 picked: seq<nat>, found: seq<string>)
    returns (picked': seq<nat>, found': seq<string>)
    requires left > 0 && Filled(pathOf, exists_, all, t, left, picked, found)
    ensures Filled(pathOf, exists_, all, Later(t), left - 1, picked', found')
    ensures found' == found + if exists_(pathOf(t)) then [pathOf(t)] else []
  {
    var n := |all| - left;
    picked' := picked + if exists_(pathOf(t)) then [n] else [];
    found' := found + if exists_(pathOf(t)) then [pathOf(t)] else [];
    assert all[n] == all[n..][0] == t && all[n + 1..] == all[n..][1..];
    assert all[..n + 1] == all[..n] + [t];
    PickNext(pathOf, exists_, all[..n], t, picked, found);
  }

  // ----- when the loop ends

  /** One pass through the loop: a path that does not fit is complained about and tried again. */
  function Pass<S>(more: S -> bool, fits: S -> bool, later: S -> S, s: S): S {
    if more(s) && fits(s) then later(s) else s
  }

  function Passes<S>(n: nat, more: S -> bool, fits: S -> bool, later: S -> S, s: S): S {
    if n == 0 then s else Passes(n - 1, more, fits, later, Pass(more, fits, later, s))
  }

  ghost predicate Ends<S>(more: S -> bool, fits: S -> bool, later: S -> S, s: S) {
    exists n: nat :: !more(Passes(n, more, fits, later, s))
  }

  lemma {:induction false} StuckForever<S>(n: nat, more: S -> bool, fits: S -> bool, later: S -> S, s: S)
    requires more(s) && !fits(s)
    ensures Passes(n, more, fits, later, s) == s
  {
    if n > 0 {
      StuckForever(n - 1, more, fits, later, s);
    }
  }

  lemma EndsLater<S>(more: S -> bool, fits: S -> bool, later: S -> S, s: S)
    requires more(s)
    ensures Ends(more, fits, later, s) <==> fits(s) && Ends(more, fits, later, later(s))
  {
    if Ends(more, fits, later, s) {
      var n: nat :| !more(Passes(n, more, fits, later, s));
      if !fits(s) {
        StuckForever(n, more, fits, later, s);
      }
      assert n > 0;
      assert !more(Passes(n - 1, more, fits, later, later(s)));
    }
    if fits(s) && Ends(more, fits, later, later(s)) {
      var n: nat :| !more(Passes(n, more, fits, later, later(s)));
      assert Passes(n + 1, more, fits, later, s) == Passes(n, more, fits, later, later(s));
    }
  }

  /** The loop over a range comes to its end. */
  ghost predicate FillEnds(begin: Tm, end: Tm, fits: Tm -> bool) {
    Ends(t => TmDiff(end, t) > 0, fits, t => Later(t), begin)
  }

  lemma FillEndsNow(begin: Tm, end: Tm, fits: Tm -> bool)
    requires TmDiff(end, begin) <= 0
    ensures FillEnds(begin, end, fits)
  {
    assert !(t => TmDiff(end, t) > 0)(Passes(0, t => TmDiff(end, t) > 0, fits, t => Later(t), begin));
  }

  lemma FillEndsLater(begin: Tm, end: Tm, fits: Tm -> bool)
    requires TmDiff(end, begin) > 0
    ensures FillEnds(begin, end, fits) <==> fits(begin) && FillEnds(Later(begin), end, fits)
  {
    EndsLater(t => TmDiff(end, t) > 0, fits, t => Later(t), begin);
  }

  ghost predicate AllFit(fits: Tm -> bool, t: Tm, n: nat) {
    forall u | u in Starts(t, n) :: fits(u)
  }

  /** The loop over a range ends just when the path of every interval fits. */
  lemma FillEndsIff(begin: Tm, end: Tm, fits: Tm -> bool)
    ensures FillEnds(begin, end, fits) <==> AllFit(fits, begin, IntervalCount(begin, end))
  {
    FillEndsFor(begin, end, fits, IntervalCount(begin, end));
  }

  lemma {:induction false} FillEndsFor(begin: Tm, end: Tm, fits: Tm -> bool, n: nat)
    requires n == IntervalCount(begin, end)
    ensures FillEnds(begin, end, fits) <==> AllFit(fits, begin, n)
    decreases n
  {
    DiffOfEpochs(end, begin);
    if Epoch(end) <= Epoch(begin) {
      FillEndsNow(begin, end, fits);
    } else {
      CountDown(begin, end);
      FillEndsFor(Later(begin), end, fits, n - 1);
      FillEndsStep(begin, end, fits, n);
    }
  }

  lemma FillEndsStep(begin: Tm, end: Tm, fits: Tm -> bool, n: nat)
    requires n > 0 && TmDiff(end, begin) > 0
    requires FillEnds(Later(begin), end, fits) <==> AllFit(fits, Later(begin), n - 1)
    ensures FillEnds(begin, end, fits) <==> AllFit(fits, begin, n)
  {
    FillEndsLater(begin, end, fits);
    FitFirst(fits, begin, n);
  }

  lemma FitFirst(fits: Tm -> bool, t: Tm, n: nat)
    requires n > 0
    ensures AllFit(fits, t, n) <==> fits(t) && AllFit(fits, Later(t), n - 1)
  {
    assert Starts(t, n) == [t] + Starts(Later(t), n - 1);
    assert t in Starts(t, n);
  }
}
