/** Every Top-N query ends: each step of a run uses up some of the work there is at the start. */
module TputTermination {
  import opened TputProtocol

  function Sum(s: seq<int>): int {
    if |s| == 0 then 0 else s[0] + Sum(s[1..])
  }

  lemma {:induction false} SumNotLess(a: seq<int>, b: seq<int>)
    requires |a| == |b| && forall j | 0 <= j < |a| :: b[j] <= a[j]
    ensures Sum(b) <= Sum(a)
  {
    if |a| > 0 {
      SumNotLess(a[1..], b[1..]);
    }
  }

  lemma {:induction false} SumLess(a: seq<int>, b: seq<int>, i: nat)
    requires |a| == |b| && (forall j | 0 <= j < |a| :: b[j] <= a[j]) && i < |a| && b[i] < a[i]
    ensures Sum(b) < Sum(a)
  {
    if i == 0 {
      SumNotLess(a[1..], b[1..]);
    } else {
      SumLess(a[1..], b[1..], i - 1);
    }
  }

  lemma {:induction false} SumNonNegative(s: seq<int>)
    requires forall j | 0 <= j < |s| :: s[j] >= 0
    ensures Sum(s) >= 0
  {
    if |s| > 0 {
      SumNonNegative(s[1..]);
    }
  }

  /** The messages of the phases after the one that follows `round` barriers. */
  function Later(c: Config, t: nat, round: nat): nat {
    if round == 0 then c.messages(t, 2) + c.messages(t, 3)
    else if round == 1 then c.messages(t, 3)
    else 0
  }

  /** A message still to be sent is sent and received. */
  function ThreadWork(c: Config, q: Process, th: Thread, t: nat): int {
    2 * th.left + |th.queue| + 2 * Later(c, t, q.round)
  }

  function ProcWork(q: Process): int {
    (6 - |q.calls|) + (6 - q.completed) + (3 - q.round)
  }

  function MasterWork(s: System): int {
    (6 - |s.calls|) + (6 - s.completed)
  }

  function ThreadsWork(c: Config, s: System): (r: seq<int>)
    requires WellFormed(c, s)
    ensures |r| == |c.owner|
  {
    seq(|c.owner|, t requires 0 <= t < |c.owner| => ThreadWork(c, s.procs[c.owner[t]], s.threads[t], t))
  }

  function ProcsWork(s: System): (r: seq<int>)
    ensures |r| == |s.procs|
  {
    seq(|s.procs|, p requires 0 <= p < |s.procs| => ProcWork(s.procs[p]))
  }

  function Work(c: Config, s: System): int
    requires WellFormed(c, s)
  {
    MasterWork(s) + Sum(ProcsWork(s)) + Sum(ThreadsWork(c, s))
  }

  /** A step that does more work for nobody and less for somebody uses up work. */
  ghost predicate UsesWork(c: Config, s: System, s': System)
    requires WellFormed(c, s)
  {
    && WellFormed(c, s') && MasterWork(s') <= MasterWork(s)
    && (forall p | 0 <= p < |s.procs| :: ProcsWork(s')[p] <= ProcsWork(s)[p])
    && (forall t | 0 <= t < |c.owner| :: ThreadsWork(c, s')[t] <= ThreadsWork(c, s)[t])
    && (MasterWork(s') < MasterWork(s)
        || (exists p :: 0 <= p < |s.procs| && ProcsWork(s')[p] < ProcsWork(s)[p])
        || (exists t :: 0 <= t < |c.owner| && ThreadsWork(c, s')[t] < ThreadsWork(c, s)[t]))
  }

  lemma LessWork(c: Config, s: System, s': System)
    requires WellFormed(c, s) && UsesWork(c, s, s')
    ensures Work(c, s') < Work(c, s)
  {
    SumNotLess(ProcsWork(s), ProcsWork(s'));
    SumNotLess(ThreadsWork(c, s), ThreadsWork(c, s'));
    if p :| 0 <= p < |s.procs| && ProcsWork(s')[p] < ProcsWork(s)[p] {
      SumLess(ProcsWork(s), ProcsWork(s'), p);
    }
    if t :| 0 <= t < |c.owner| && ThreadsWork(c, s')[t] < ThreadsWork(c, s)[t] {
      SumLess(ThreadsWork(c, s), ThreadsWork(c, s'), t);
    }
  }

  /** Only thread `t` changes. */
  lemma ThreadUsesWork(c: Config, s: System, s': System, t: nat)
    requires WellFormed(c, s) && t < |c.owner| && s'.calls == s.calls && s'.completed == s.completed
    requires s'.procs == s.procs && |s'.threads| == |s.threads|
    requires forall u | 0 <= u < |s.threads| && u != t :: s'.threads[u] == s.threads[u]
    requires 2 * s'.threads[t].left + |s'.threads[t].queue| < 2 * s.threads[t].left + |s.threads[t].queue|
    ensures UsesWork(c, s, s')
  {
    assert ThreadsWork(c, s')[t] < ThreadsWork(c, s)[t];
  }

  lemma MessageUsesWork(c: Config, s: System, step: Step, t: nat)
    requires WellFormed(c, s) && Enabled(c, s, step, false)
    requires step == MasterReceive(t) || step == HandOver(t) || step == Send(t)
    ensures UsesWork(c, s, Next(c, s, step))
  {
    ThreadUsesWork(c, s, Next(c, s, step), t);
  }

  /** Only process `p` changes, by a collective call. */
  lemma CallUsesWork(c: Config, s: System, step: Step, p: nat)
    requires WellFormed(c, s) && Enabled(c, s, step, false)
    requires step == SlaveStart(p) || (step.SlaveClaim? && step.p == p) || step == SlaveNext(p) ||
      step == SlaveReturn(p) || step == SlaveEnd(p)
    ensures UsesWork(c, s, Next(c, s, step))
  {
    var s' := Next(c, s, step);
    var q, q' := s.procs[p], s'.procs[p];
    assert q'.round == q.round && |q'.calls| + q'.completed == |q.calls| + q.completed + 1;
    assert s'.procs == s.procs[p := q'] && s'.threads == s.threads;
    assert ProcsWork(s')[p] < ProcsWork(s)[p];
  }

  /** Process `p` and its threads go on to the next phase. */
  lemma ReleaseUsesWork(c: Config, s: System, p: nat)
    requires WellFormed(c, s) && Enabled(c, s, SlaveRelease(p), false)
    ensures UsesWork(c, s, Next(c, s, SlaveRelease(p)))
  {
    var s' := Next(c, s, SlaveRelease(p));
    assert s'.procs == s.procs[p := s'.procs[p]] && s'.procs[p] == s.procs[p].(round := s.procs[p].round + 1);
    assert ProcsWork(s')[p] < ProcsWork(s)[p];
    forall t | 0 <= t < |c.owner|
      ensures ThreadsWork(c, s')[t] <= ThreadsWork(c, s)[t]
    {
      ReleasedThreadWork(c, s, p, t);
    }
  }

  lemma ReleasedThreadWork(c: Config, s: System, p: nat, t: nat)
    requires WellFormed(c, s) && Enabled(c, s, SlaveRelease(p), false) && t < |c.owner|
    ensures var s' := Next(c, s, SlaveRelease(p)); WellFormed(c, s') && ThreadsWork(c, s')[t] <= ThreadsWork(c, s)[t]
  {
    Released(c, s, p, t);
    if c.owner[t] == p {
      NextPhaseWork(c, s.procs[p], s.threads[t], t);
    }
  }

  /** The messages of the next phase were accounted for. */
  lemma NextPhaseWork(c: Config, q: Process, th: Thread, t: nat)
    requires q.round < 3 && th.left == 0
    ensures var round := q.round + 1;
      ThreadWork(c, q.(round := round), th.(left := if round < 3 then c.messages(t, round + 1) else 0), t) ==
        ThreadWork(c, q, th, t)
  {
  }

  /** Every step uses up some work. */
  lemma StepUsesWork(c: Config, s: System, step: Step)
    requires WellFormed(c, s) && Enabled(c, s, step, false) && WellFormed(c, Next(c, s, step))
    ensures Work(c, Next(c, s, step)) < Work(c, s)
  {
    match step {
      case MasterCall =>
      case MasterReturn =>
      case MasterReceive(t) => MessageUsesWork(c, s, step, t);
      case HandOver(t) => MessageUsesWork(c, s, step, t);
      case Send(t) => MessageUsesWork(c, s, step, t);
      case SlaveStart(p) => CallUsesWork(c, s, step, p);
      case SlaveClaim(p, _) => CallUsesWork(c, s, step, p);
      case SlaveNext(p) => CallUsesWork(c, s, step, p);
      case SlaveReturn(p) => CallUsesWork(c, s, step, p);
      case SlaveRelease(p) => ReleaseUsesWork(c, s, p);
      case SlaveEnd(p) => CallUsesWork(c, s, step, p);
    }
    LessWork(c, s, Next(c, s, step));
  }

  lemma WorkNonNegative(c: Config, s: System)
    requires Inv(c, s)
    ensures Work(c, s) >= 0
  {
    forall p | 0 <= p < |s.procs|
      ensures ProcsWork(s)[p] >= 0
    {
      assert ProcInv(s, s.procs[p]);
    }
    SumNonNegative(ProcsWork(s));
    SumNonNegative(ThreadsWork(c, s));
  }

  lemma {:induction false} WorkLeft(c: Config, run: seq<System>, steps: seq<Step>, i: nat)
    requires c.Valid() && IsRun(c, run, steps) && i < |run|
    ensures i + Work(c, run[i]) <= Work(c, Start(c))
  {
    if i > 0 {
      WorkLeft(c, run, steps, i - 1);
      assert WellFormed(c, run[i - 1]) && WellFormed(c, run[i]);
      StepUsesWork(c, run[i - 1], steps[i - 1]);
    }
  }

  /** No run is longer than the work at the start, and a run that cannot go on, even one without
      buffering in which collective calls wait for all processes, has completed. */
  lemma RunsComplete(c: Config, run: seq<System>, steps: seq<Step>)
    requires c.Valid() && IsRun(c, run, steps)
    ensures |steps| <= Work(c, Start(c))
    ensures (forall step :: Enabled(c, run[|steps|], step, true) ==> step.Send?) ==> Final(run[|steps|])
  {
    WorkLeft(c, run, steps, |steps|);
    RunInv(c, run, steps, |steps|);
    WorkNonNegative(c, run[|steps|]);
    if !Final(run[|steps|]) {
      var step := Progress(c, run, steps, |steps|);
    }
  }
}
