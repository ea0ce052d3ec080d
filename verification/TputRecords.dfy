/** The records in the messages of a Top-N query: the protocol delivers to every phase exactly what the
    threads have sent for it, so that a complete run is a run on the sources' listings. */
module TputRecords {
  import opened Ordering
  import opened Interleaving
  import opened Aggregation
  import opened Tput
  import P = TputProtocol

  function Occurrences(log: seq<nat>, t: nat): nat {
    if |log| == 0 then 0 else Occurrences(log[..|log| - 1], t) + if log[|log| - 1] == t then 1 else 0
  }

  /** The threads whose messages the master has received in a phase, in order, after `n` steps. */
  function Log(run: seq<P.System>, steps: seq<P.Step>, phase: nat, n: nat): seq<nat>
    requires n <= |steps| < |run|
  {
    if n == 0 then [] else Log(run, steps, phase, n - 1) + Received(run[n - 1], steps[n - 1], phase)
  }

  function Received(s: P.System, step: P.Step, phase: nat): seq<nat> {
    if P.MasterItem(s.pc) != P.Receive(phase) then []
    else match step
      case MasterReceive(t) => [t]
      case HandOver(t) => [t]
      case _ => []
  }

  /** Messages of a phase that the master has not received yet. */
  function Remaining(c: P.Config, s: P.System, t: nat, phase: nat): nat
    requires P.WellFormed(c, s) && t < |c.owner|
  {
    RemainingOf(c, s.procs[c.owner[t]].round, s.threads[t], t, phase)
  }

  function RemainingOf(c: P.Config, round: nat, th: P.Thread, t: nat, phase: nat): nat {
    var now := P.Phase(round);
    if now < phase then c.messages(t, phase)
    else if now == phase then th.left + |th.queue|
    else 0
  }

  /** A step that receives a message of the phase from the thread leaves one fewer, others change nothing. */
  lemma StepRemaining(c: P.Config, s: P.System, step: P.Step, t: nat, phase: nat)
    requires c.Valid() && P.Inv(c, s) && P.Enabled(c, s, step, false) && P.WellFormed(c, P.Next(c, s, step))
    requires t < |c.owner| && 1 <= phase <= 3
    ensures Remaining(c, s, t, phase) ==
      Remaining(c, P.Next(c, s, step), t, phase) + Occurrences(Received(s, step, phase), t)
  {
    var q := s.procs[c.owner[t]];
    assert P.ProcInv(s, q) && P.ThreadInv(q, s.threads[t]);
    match step
    case MasterReceive(u) => ReceiveRemaining(c, s, u, t, phase);
    case HandOver(u) => HandOverRemaining(c, s, u, t, phase);
    case SlaveRelease(p) => ReleaseRemaining(c, s, p, t, phase);
    case _ => Quiet(c, s, step, t, phase);
  }

  lemma One(u: nat, t: nat)
    ensures Occurrences([u], t) == if u == t then 1 else 0
  {
    assert [u][..0] == [];
  }

  lemma ReceiveRemaining(c: P.Config, s: P.System, u: nat, t: nat, phase: nat)
    requires P.Inv(c, s) && P.Enabled(c, s, P.MasterReceive(u), false) &&
      P.WellFormed(c, P.Next(c, s, P.MasterReceive(u)))
    requires t < |c.owner|
    ensures Remaining(c, s, t, phase) ==
      Remaining(c, P.Next(c, s, P.MasterReceive(u)), t, phase) + Occurrences(Received(s, P.MasterReceive(u), phase), t)
  {
    assert P.ThreadInv(s.procs[c.owner[u]], s.threads[u]);
    assert s.threads[u].queue[0].tag == P.Phase(s.procs[c.owner[u]].round);
    One(u, t);
  }

  lemma HandOverRemaining(c: P.Config, s: P.System, u: nat, t: nat, phase: nat)
    requires P.Inv(c, s) && P.Enabled(c, s, P.HandOver(u), false) && P.WellFormed(c, P.Next(c, s, P.HandOver(u)))
    requires t < |c.owner|
    ensures Remaining(c, s, t, phase) ==
      Remaining(c, P.Next(c, s, P.HandOver(u)), t, phase) + Occurrences(Received(s, P.HandOver(u), phase), t)
  {
    One(u, t);
  }

  lemma ReleaseRemaining(c: P.Config, s: P.System, p: nat, t: nat, phase: nat)
    requires c.Valid() && P.Inv(c, s) && P.Enabled(c, s, P.SlaveRelease(p), false)
    requires P.WellFormed(c, P.Next(c, s, P.SlaveRelease(p))) && t < |c.owner| && 1 <= phase <= 3
    ensures Remaining(c, s, t, phase) == Remaining(c, P.Next(c, s, P.SlaveRelease(p)), t, phase)
  {
    P.Released(c, s, p, t);
    if c.owner[t] == p {
      var round := s.procs[p].round;
      if round < 2 {
        P.NothingLeftBehind(c, s, p, t);
      }
      NextPhase(c, round, s.threads[t], t, phase);
    }
  }

  /** The messages of the next phase were to come before the barrier as well. */
  lemma NextPhase(c: P.Config, round: nat, th: P.Thread, t: nat, phase: nat)
    requires round < 3 && th.left == 0 && (round < 2 ==> |th.queue| == 0) && 1 <= phase <= 3
    ensures RemainingOf(c, round, th, t, phase) ==
      RemainingOf(c, round + 1, th.(left := if round + 1 < 3 then c.messages(t, round + 2) else 0), t, phase)
  {
  }

  /** Steps that touch no message, or only put one into a queue. */
  lemma Quiet(c: P.Config, s: P.System, step: P.Step, t: nat, phase: nat)
    requires P.WellFormed(c, s) && P.Enabled(c, s, step, false) && P.WellFormed(c, P.Next(c, s, step)) && t < |c.owner|
    requires !step.MasterReceive? && !step.HandOver? && !step.SlaveRelease?
    ensures Received(s, step, phase) == [] && Remaining(c, s, t, phase) == Remaining(c, P.Next(c, s, step), t, phase)
  {
  }

  lemma {:induction false} OccurrencesAppend(a: seq<nat>, b: seq<nat>, t: nat)
    ensures Occurrences(a + b, t) == Occurrences(a, t) + Occurrences(b, t)
  {
    if |b| == 0 {
      assert a + b == a;
    } else {
      assert (a + b)[..|a + b| - 1] == a + b[..|b| - 1];
      OccurrencesAppend(a, b[..|b| - 1], t);
    }
  }

  /** What was received and what is to come make up what the thread sends in the phase. */
  lemma {:induction false} Conserved(c: P.Config, run: seq<P.System>, steps: seq<P.Step>, phase: nat, n: nat, t: nat)
    requires c.Valid() && P.IsRun(c, run, steps) && n <= |steps| && 1 <= phase <= 3 && t < |c.owner|
    ensures Occurrences(Log(run, steps, phase, n), t) + Remaining(c, run[n], t, phase) == c.messages(t, phase)
  {
    if n > 0 {
      Conserved(c, run, steps, phase, n - 1, t);
      RunStepRemaining(c, run, steps, phase, n - 1, t);
      OccurrencesAppend(Log(run, steps, phase, n - 1), Received(run[n - 1], steps[n - 1], phase), t);
    }
  }

  lemma RunStepRemaining(c: P.Config, run: seq<P.System>, steps: seq<P.Step>, phase: nat, n: nat, t: nat)
    requires c.Valid() && P.IsRun(c, run, steps) && n < |steps| && 1 <= phase <= 3 && t < |c.owner|
    ensures Remaining(c, run[n], t, phase) ==
      Remaining(c, run[n + 1], t, phase) + Occurrences(Received(run[n], steps[n], phase), t)
  {
    P.RunInv(c, run, steps, n);
    assert P.WellFormed(c, run[n + 1]) && run[n + 1] == P.Next(c, run[n], steps[n]);
    StepRemaining(c, run[n], steps[n], t, phase);
  }

  /** Once the master is past a phase it has received all messages of the phase, of every thread. */
  lemma PhaseReceived(c: P.Config, run: seq<P.System>, steps: seq<P.Step>, phase: nat, n: nat, t: nat)
    requires c.Valid() && P.IsRun(c, run, steps) && n <= |steps| && 1 <= phase <= 3 && t < |c.owner|
    requires run[n].pc > P.ReceivePc(phase)
    ensures Occurrences(Log(run, steps, phase, n), t) == c.messages(t, phase)
  {
    Conserved(c, run, steps, phase, n, t);
    P.RunInv(c, run, steps, n);
    assert P.PhaseInv(c, run[n], phase);
    assert t !in P.OutstandingSet(c, run[n], phase);
  }

  lemma {:induction false} LogThreads(c: P.Config, run: seq<P.System>, steps: seq<P.Step>, phase: nat, n: nat)
    requires P.IsRun(c, run, steps) && n <= |steps|
    ensures forall i | 0 <= i < |Log(run, steps, phase, n)| :: Log(run, steps, phase, n)[i] < |c.owner|
  {
    if n > 0 {
      LogThreads(c, run, steps, phase, n - 1);
      assert P.Enabled(c, run[n - 1], steps[n - 1], false) && P.WellFormed(c, run[n - 1]);
    }
  }

  // ----- what the messages carry

  /** The messages behind a log: each thread's in the order of its queue. */
  function Deal<T>(log: seq<nat>, queues: seq<seq<T>>): (r: seq<(nat, T)>)
    requires forall i | 0 <= i < |log| :: log[i] < |queues|
    requires forall t | 0 <= t < |queues| :: Occurrences(log, t) <= |queues[t]|
    ensures |r| == |log| && forall i | 0 <= i < |r| :: r[i].0 == log[i]
  {
    if |log| == 0 then []
    else
      var front, t := log[..|log| - 1], log[|log| - 1];
      assert forall u: nat | u < |queues| :: Occurrences(front, u) <= Occurrences(log, u);
      assert Occurrences(log, t) == Occurrences(front, t) + 1;
      Deal(front, queues) + [(t, queues[t][Occurrences(front, t)])]
  }

  lemma {:induction false} DealProject<T>(log: seq<nat>, queues: seq<seq<T>>, t: nat)
    requires forall i | 0 <= i < |log| :: log[i] < |queues|
    requires forall t | 0 <= t < |queues| :: Occurrences(log, t) <= |queues[t]|
    requires t < |queues|
    ensures Project(Deal(log, queues), t) == queues[t][..Occurrences(log, t)]
  {
    if |log| > 0 {
      var front, u := log[..|log| - 1], log[|log| - 1];
      DealProject(front, queues, t);
      var last := (u, queues[u][Occurrences(front, u)]);
      ProjectAppend(Deal(front, queues), [last], t);
      ProjectOne(last, t);
    }
  }

  lemma ProjectOne<T>(x: (nat, T), t: nat)
    ensures Project([x], t) == if x.0 == t then [x.1] else []
  {
    assert [x][1..] == [];
  }

  /** The messages of a phase that the master has received, each with its thread. */
  ghost predicate Delivered(c: P.Config, run: seq<P.System>, steps: seq<P.Step>, phase: nat, n: nat,
                            queues: seq<seq<seq<Record>>>, arrived: seq<(nat, seq<Record>)>)
    requires n <= |steps| < |run|
  {
    var log := Log(run, steps, phase, n);
    && |queues| == |c.owner| && (forall i | 0 <= i < |log| :: log[i] < |queues|)
    && (forall t | 0 <= t < |queues| :: Occurrences(log, t) <= |queues[t]|)
    && arrived == Deal(log, queues)
  }

  /** Once the master is past a phase it has received an interleaving of what the threads have sent. */
  lemma PhaseDelivered(c: P.Config, run: seq<P.System>, steps: seq<P.Step>, phase: nat, n: nat,
                       queues: seq<seq<seq<Record>>>) returns (arrived: seq<(nat, seq<Record>)>)
    requires c.Valid() && P.IsRun(c, run, steps) && n <= |steps| && 1 <= phase <= 3
    requires run[n].pc > P.ReceivePc(phase)
    requires |queues| == |c.owner| && forall t | 0 <= t < |queues| :: |queues[t]| == c.messages(t, phase)
    ensures Delivered(c, run, steps, phase, n, queues, arrived) && Interleaves(arrived, queues)
  {
    var log := Log(run, steps, phase, n);
    LogThreads(c, run, steps, phase, n);
    forall t | 0 <= t < |queues|
      ensures Occurrences(log, t) == |queues[t]|
    {
      PhaseReceived(c, run, steps, phase, n, t);
    }
    arrived := Deal(log, queues);
    forall t | 0 <= t < |queues|
      ensures Project(arrived, t) == queues[t]
    {
      DealProject(log, queues, t);
    }
  }

  /** The records of a phase, whatever their grouping into messages, arrive once. */
  lemma RecordsArrive(arrived: seq<(nat, seq<Record>)>, queues: seq<seq<seq<Record>>>, sent: seq<seq<Record>>)
    requires Interleaves(arrived, queues) && |sent| == |queues|
    requires forall t | 0 <= t < |queues| :: multiset(Flatten(queues[t])) == multiset(sent[t])
    ensures multiset(Flatten(Untag(arrived))) == multiset(Flatten(sent))
  {
    SpreadInterleaves(arrived, queues);
    UntagSpread(arrived);
    InterleavesContents(Spread(arrived), Contents(queues));
    SameFlattened(Contents(queues), sent);
  }

  /** The messages of the threads in a phase amount to these records, with one terminator each. */
  ghost predicate Carries(c: P.Config, phase: nat, queues: seq<seq<seq<Record>>>, sent: seq<seq<Record>>) {
    && |queues| == |sent| == |c.owner|
    && forall t | 0 <= t < |queues| ::
         |queues[t]| == c.messages(t, phase) && multiset(Flatten(queues[t])) == multiset(sent[t])
  }

  /** The master's memory after a phase, walked by a cursor. */
  lemma MemoryAfter(c: P.Config, run: seq<P.System>, steps: seq<P.Step>, phase: nat, n: nat,
                    queues: seq<seq<seq<Record>>>, sent: seq<seq<Record>>, fs: seq<AggrFunc>)
    returns (arrived: seq<(nat, seq<Record>)>)
    requires c.Valid() && P.IsRun(c, run, steps) && n <= |steps| && 1 <= phase <= 3
    requires run[n].pc > P.ReceivePc(phase) && Carries(c, phase, queues, sent)
    ensures Delivered(c, run, steps, phase, n, queues, arrived)
    ensures Aggregate(fs, Flatten(Untag(arrived))) == Aggregate(fs, Flatten(sent))
    ensures multiset(Flatten(Untag(arrived))) == multiset(Flatten(sent))
  {
    arrived := PhaseDelivered(c, run, steps, phase, n, queues);
    RecordsArrive(arrived, queues, sent);
    WriteAllConfluent(fs, map[], Flatten(Untag(arrived)), Flatten(sent));
  }

  /** A complete run of the protocol, whose threads send what the phases ask for, is a run on the sources'
      listings: `n1` is when the master computes the threshold, `n2` when it sends the candidates, `n3` when
      it prints. */
  lemma CompleteRun(c: P.Config, run: seq<P.System>, steps: seq<P.Step>, n1: nat, n2: nat, n3: nat,
                    q: Query, threshold: nat, locals: seq<seq<Record>>, le: (Record, Record) -> bool,
                    queues1: seq<seq<seq<Record>>>, queues2: seq<seq<seq<Record>>>, queues3: seq<seq<seq<Record>>>,
                    arrived1: seq<(nat, seq<Record>)>, arrived2: seq<(nat, seq<Record>)>, arrived3: seq<(nat,
                      seq<Record>)>,
                    partial: seq<Record>, final: seq<Record>)
    requires c.Valid() && P.IsRun(c, run, steps) && n1 <= n2 <= n3 <= |steps| && |locals| == |c.owner|
    requires run[n1].pc > P.ReceivePc(1) && run[n2].pc > P.ReceivePc(2) && run[n3].pc > P.ReceivePc(3)
    requires Delivered(c, run, steps, 1, n1, queues1, arrived1) && Carries(c, 1, queues1, Phase1Sent(q, locals))
    requires Delivered(c, run, steps, 2, n2, queues2, arrived2) &&
      Carries(c, 2, queues2, Phase2Sent(q, threshold, locals))
    requires Delivered(c, run, steps, 3, n3, queues3, arrived3)
    requires Carries(c, 3, queues3, Phase3Sent(KeysOf(Flatten(Untag(arrived2))), locals))
    requires Listing(q.Before, partial, multiset(RecordsOf(Aggregate(q.funcs, Flatten(Untag(arrived1))))))
    requires Listing(le, final, multiset(RecordsOf(Aggregate(q.funcs, Flatten(Untag(arrived3))))))
    ensures Run(q, threshold, locals, partial, final, le)
  {
    var a1 := MemoryAfter(c, run, steps, 1, n1, queues1, Phase1Sent(q, locals), q.funcs);
    var a2 := MemoryAfter(c, run, steps, 2, n2, queues2, Phase2Sent(q, threshold, locals), q.funcs);
    SameKeys(Flatten(Untag(arrived2)), Flatten(Phase2Sent(q, threshold, locals)));
    var a3 := MemoryAfter(c, run, steps, 3, n3, queues3, Phase3Sent(Candidates(q, threshold, locals), locals), q.funcs);
  }

  lemma SameKeys(a: seq<Record>, b: seq<Record>)
    requires multiset(a) == multiset(b)
    ensures KeysOf(a) == KeysOf(b)
  {
    forall r | r in a || r in b
      ensures r in a && r in b
    {
      assert r in multiset(a) && r in multiset(b);
    }
  }
}
