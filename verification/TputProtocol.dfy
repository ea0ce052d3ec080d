/** The order of events in a Top-N query: the master's receive loops and broadcasts, and on every
    slave the threads with their OpenMP single regions and barriers. A message may be buffered or
    handed over directly, a collective call may return early or wait for all processes. */
module TputProtocol {

  /** The collective calls on the main communicator. */
  datatype Collective = ThreadCount | Threshold | RecordInfo | RecordBuffer | ProcessedSummary | MetadataSummary

  const ORDER: seq<Collective> :=
    [ThreadCount, Threshold, RecordInfo, RecordBuffer, ProcessedSummary, MetadataSummary]

  /** `last` marks the terminator. */
  datatype Message = Message(tag: nat, last: bool)

  /** `left` messages of the current phase are still to be sent, the last of them the terminator. */
  datatype Thread = Thread(left: nat, queue: seq<Message>)

  /** `round` counts the barriers passed, `claimed` the single regions some thread has taken. */
  datatype Process = Process(round: nat, claimed: nat, calls: seq<Collective>, completed: nat)

  /** `owner[t]` is the slave of thread `t`; `messages(t, p)` is how many it sends in phase `p`. */
  datatype Config = Config(slaves: nat, owner: seq<nat>, messages: (nat, nat) -> nat, capacity: nat) {
    ghost predicate Valid() {
      && |owner| > 0
      && (forall t | 0 <= t < |owner| :: owner[t] < slaves)
      && (forall p | 0 <= p < slaves :: HasThread(p))
      && (forall t: nat, phase: nat :: messages(t, phase) > 0)
    }

    predicate HasThread(p: nat) {
      exists t | 0 <= t < |owner| :: owner[t] == p
    }
  }

  datatype System = System(pc: nat, active: nat, calls: seq<Collective>, completed: nat,
                           procs: seq<Process>, threads: seq<Thread>)

  // ----- the master's program

  datatype Item = Call(collective: Collective) | Receive(tag: nat) | Exit

  function MasterItem(pc: nat): Item {
    match pc
    case 0 => Call(ThreadCount)
    case 1 => Receive(1)
    case 2 => Call(Threshold)
    case 3 => Receive(2)
    case 4 => Call(RecordInfo)
    case 5 => Call(RecordBuffer)
    case 6 => Receive(3)
    case 7 => Call(ProcessedSummary)
    case 8 => Call(MetadataSummary)
    case _ => Exit
  }

  function Goto(c: Config, s: System, pc: nat): System {
    s.(pc := pc, active := if MasterItem(pc).Receive? then |c.owner| else 0)
  }

  datatype Step =
    | MasterCall | MasterReturn | MasterReceive(t: nat)
    | HandOver(t: nat) | Send(t: nat)
    | SlaveStart(p: nat) | SlaveClaim(p: nat, t: nat) | SlaveNext(p: nat) | SlaveReturn(p: nat)
    | SlaveRelease(p: nat) | SlaveEnd(p: nat)

  predicate AllHaveCalled(s: System, n: nat) {
    |s.calls| >= n && forall p | 0 <= p < |s.procs| :: |s.procs[p].calls| >= n
  }

  predicate SlavesHaveCalled(s: System, n: nat) {
    forall p | 0 <= p < |s.procs| :: |s.procs[p].calls| >= n
  }

  predicate AllArrived(c: Config, s: System, p: nat)
    requires |s.threads| == |c.owner|
  {
    forall t | 0 <= t < |c.owner| && c.owner[t] == p :: s.threads[t].left == 0
  }

  /** Only the broadcasts go from the master to the slaves, the others the opposite way. */
  predicate IsBroadcast(n: nat) {
    1 <= n <= 3
  }

  predicate WellFormed(c: Config, s: System) {
    |s.procs| == c.slaves && |s.threads| == |c.owner| && forall t | 0 <= t < |c.owner| :: c.owner[t] < c.slaves
  }

  /** With `strict`, a collective call returns only after all processes have made it. */
  predicate Enabled(c: Config, s: System, step: Step, strict: bool)
    requires WellFormed(c, s)
  {
    match step
    case MasterCall => MasterItem(s.pc).Call? && |s.calls| == s.completed
    case MasterReturn =>
      && |s.calls| > s.completed
      && (strict || !IsBroadcast(s.completed) ==> SlavesHaveCalled(s, s.completed + 1))
    case MasterReceive(t) =>
      && t < |s.threads| && |s.threads[t].queue| > 0
      && MasterItem(s.pc) == Receive(s.threads[t].queue[0].tag)
    case HandOver(t) =>
      && t < |s.threads| && CanSend(c, s, t) && |s.threads[t].queue| == 0
      && MasterItem(s.pc) == Receive(s.procs[c.owner[t]].round + 1)
    case Send(t) =>
      t < |s.threads| && CanSend(c, s, t) && |s.threads[t].queue| < c.capacity
    case SlaveStart(p) =>
      p < |s.procs| && |s.procs[p].calls| == 0
    case SlaveClaim(p, t) =>
      && p < |s.procs| && t < |s.threads| && c.owner[t] == p && s.threads[t].left == 0
      && s.procs[p].completed > 0 && s.procs[p].round < 2 && s.procs[p].claimed == s.procs[p].round
    case SlaveNext(p) =>
      p < |s.procs| && s.procs[p].round == 1 && s.procs[p].claimed == 2 &&
        s.procs[p].completed == |s.procs[p].calls| == 3
    case SlaveReturn(p) =>
      && p < |s.procs| && |s.procs[p].calls| > s.procs[p].completed
      && (if strict then AllHaveCalled(s, s.procs[p].completed + 1)
          else IsBroadcast(s.procs[p].completed) ==> |s.calls| > s.procs[p].completed)
    case SlaveRelease(p) =>
      && p < |s.procs| && s.procs[p].round < 3 && AllArrived(c, s, p)
      && (s.procs[p].round == 0 ==> s.procs[p].claimed == 1 && s.procs[p].completed == 2)
      && (s.procs[p].round == 1 ==> s.procs[p].claimed == 2 && s.procs[p].completed == 4)
    case SlaveEnd(p) =>
      p < |s.procs| && s.procs[p].round == 3 && 4 <= |s.procs[p].calls| == s.procs[p].completed < 6
  }

  /** A thread sends only inside the parallel region and before it has sent its terminator. */
  predicate CanSend(c: Config, s: System, t: nat)
    requires WellFormed(c, s) && t < |s.threads|
  {
    s.threads[t].left > 0 && s.procs[c.owner[t]].completed > 0 && s.procs[c.owner[t]].round < 3
  }

  /** The terminator of one source has been received. */
  function OneFewer(c: Config, s: System): System {
    if s.active <= 1 then Goto(c, s, s.pc + 1) else s.(active := s.active - 1)
  }

  function Next(c: Config, s: System, step: Step): System
    requires WellFormed(c, s) && Enabled(c, s, step, false)
  {
    match step
    case MasterCall => s.(calls := s.calls + [MasterItem(s.pc).collective])
    case MasterReturn => Goto(c, s.(completed := s.completed + 1), s.pc + 1)
    case MasterReceive(t) =>
      var th := s.threads[t];
      var s' := s.(threads := s.threads[t := th.(queue := th.queue[1..])]);
      if th.queue[0].last then OneFewer(c, s') else s'
    case HandOver(t) =>
      var th := s.threads[t];
      var s' := s.(threads := s.threads[t := th.(left := th.left - 1)]);
      if th.left == 1 then OneFewer(c, s') else s'
    case Send(t) =>
      var th := s.threads[t];
      var m := Message(s.procs[c.owner[t]].round + 1, th.left == 1);
      s.(threads := s.threads[t := Thread(th.left - 1, th.queue + [m])])
    case SlaveStart(p) => SlaveCalls(s, p, ThreadCount)
    case SlaveClaim(p, _) =>
      var proc := s.procs[p];
      SlaveCalls(s.(procs := s.procs[p := proc.(claimed := proc.claimed + 1)]), p,
                 if proc.round == 0 then Threshold else RecordInfo)
    case SlaveNext(p) => SlaveCalls(s, p, RecordBuffer)
    case SlaveReturn(p) => s.(procs := s.procs[p := s.procs[p].(completed := s.procs[p].completed + 1)])
    case SlaveRelease(p) =>
      var round := s.procs[p].round + 1;
      s.(procs := s.procs[p := s.procs[p].(round := round)],
         threads := seq(|s.threads|, t requires 0 <= t < |s.threads| =>
           if t < |c.owner| &&
             c.owner[t] == p then s.threads[t].(left := if round < 3 then c.messages(t, round + 1) else 0)
           else s.threads[t]))
    case SlaveEnd(p) =>
      SlaveCalls(s, p, if |s.procs[p].calls| == 4 then ProcessedSummary else MetadataSummary)
  }

  function SlaveCalls(s: System, p: nat, collective: Collective): System
    requires p < |s.procs|
  {
    s.(procs := s.procs[p := s.procs[p].(calls := s.procs[p].calls + [collective])])
  }

  function Start(c: Config): System {
    System(0, 0, [], 0, seq(c.slaves, _ => Process(0, 0, [], 0)),
           seq(|c.owner|, t requires 0 <= t < |c.owner| => Thread(c.messages(t, 1), [])))
  }

  predicate Final(s: System) {
    s.pc >= 9 && forall p | 0 <= p < |s.procs| :: s.procs[p].completed == 6
  }

  // ----- the invariant

  /** The process has made the first calls of the common order, one at a time. */
  predicate InOrder(calls: seq<Collective>, completed: nat) {
    |calls| <= 6 && calls == ORDER[..|calls|] && completed <= |calls| <= completed + 1
  }

  /** How many collective calls lie before a point of the master's program. */
  function CallsBefore(pc: nat): nat {
    match pc
    case 0 => 0 case 1 => 1 case 2 => 1 case 3 => 2 case 4 => 2
    case 5 => 3 case 6 => 4 case 7 => 4 case 8 => 5 case _ => 6
  }

  predicate MasterInv(s: System) {
    && s.pc <= 9 && InOrder(s.calls, s.completed) && s.completed == CallsBefore(s.pc)
    && (!MasterItem(s.pc).Call? ==> |s.calls| == s.completed)
    && (s.completed >= 1 ==> SlavesHaveCalled(s, 1))
    && (s.completed >= 5 ==> SlavesHaveCalled(s, 5))
    && (s.completed >= 6 ==> SlavesHaveCalled(s, 6))
  }

  predicate ProcInv(s: System, q: Process) {
    && InOrder(q.calls, q.completed)
    && (2 <= q.completed <= 4 ==> |s.calls| >= q.completed)
    && (q.completed >= 4 ==> |s.calls| >= 4)
    && match q.round
       case 0 => (q.claimed == 0 && |q.calls| <= 1) || (q.claimed == 1 && |q.calls| == 2)
       case 1 => (q.claimed == 1 && |q.calls| == q.completed == 2) || (q.claimed == 2 && 3 <= |q.calls| <= 4)
       case 2 => q.claimed == 2 && |q.calls| == q.completed == 4
       case 3 => q.claimed == 2 && q.completed >= 4
       case _ => false
  }

  function Phase(round: nat): nat {
    if round < 2 then round + 1 else 3
  }

  predicate ThreadInv(q: Process, th: Thread) {
    && (forall i | 0 <= i < |th.queue| ::
          th.queue[i].tag == Phase(q.round) && (th.queue[i].last <==> i == |th.queue| - 1 && th.left == 0))
    && (q.round >= 3 ==> th.left == 0)
    && (q.completed == 0 ==> th.left > 0)
  }

  /** The terminator of phase `p` of a thread has not been received yet. */
  predicate Outstanding(q: Process, th: Thread, p: nat) {
    Phase(q.round) < p || (Phase(q.round) == p && (th.left > 0 || |th.queue| > 0))
  }

  ghost function OutstandingSet(c: Config, s: System, p: nat): set<nat>
    requires WellFormed(c, s)
  {
    set t | 0 <= t < |c.owner| && Outstanding(s.procs[c.owner[t]], s.threads[t], p)
  }

  function Range(n: nat): (r: set<nat>)
    ensures |r| == n
    ensures forall t :: t in r <==> 0 <= t < n
  {
    if n == 0 then {} else Range(n - 1) + {n - 1}
  }

  function AllThreads(c: Config): set<nat> {
    Range(|c.owner|)
  }

  /** Where the master receives the messages of a phase. */
  function ReceivePc(p: nat): nat {
    if p == 1 then 1 else if p == 2 then 3 else 6
  }

  /** Before the master receives phase `p` every terminator of the phase is to come, afterwards none. */
  ghost predicate PhaseInv(c: Config, s: System, p: nat)
    requires WellFormed(c, s)
  {
    && (s.pc < ReceivePc(p) ==> OutstandingSet(c, s, p) == AllThreads(c))
    && (s.pc == ReceivePc(p) ==> s.active > 0 && |OutstandingSet(c, s, p)| == s.active)
    && (s.pc > ReceivePc(p) ==> OutstandingSet(c, s, p) == {})
  }

  ghost predicate Inv(c: Config, s: System) {
    && WellFormed(c, s) && MasterInv(s)
    && (forall p | 0 <= p < |s.procs| :: ProcInv(s, s.procs[p]))
    && (forall t | 0 <= t < |c.owner| :: ThreadInv(s.procs[c.owner[t]], s.threads[t]))
    && (forall p | 1 <= p <= 3 :: PhaseInv(c, s, p))
  }

  lemma StartInv(c: Config)
    requires c.Valid()
    ensures Inv(c, Start(c))
  {
    var s := Start(c);
    forall p | 1 <= p <= 3
      ensures PhaseInv(c, s, p)
    {
      assert OutstandingSet(c, s, p) == AllThreads(c);
    }
  }

  // ----- steps that leave the phases alone

  lemma SamePhases(c: Config, s: System, s': System)
    requires WellFormed(c, s) && WellFormed(c, s') && s.pc == s'.pc && s.active == s'.active
    requires forall p | 1 <= p <= 3 :: PhaseInv(c, s, p)
    requires forall t, p | 0 <= t < |c.owner| && 1 <= p <= 3 ::
      Outstanding(s'.procs[c.owner[t]], s'.threads[t], p) == Outstanding(s.procs[c.owner[t]], s.threads[t], p)
    ensures forall p | 1 <= p <= 3 :: PhaseInv(c, s', p)
  {
    forall p | 1 <= p <= 3
      ensures PhaseInv(c, s', p)
    {
      assert PhaseInv(c, s, p);
      assert OutstandingSet(c, s', p) == OutstandingSet(c, s, p);
    }
  }

  lemma CallsGrow(calls: seq<Collective>, next: Collective)
    requires |calls| < 6 && calls == ORDER[..|calls|] && next == ORDER[|calls|]
    ensures calls + [next] == ORDER[..|calls| + 1]
  {
  }

  lemma MasterCallInv(c: Config, s: System)
    requires Inv(c, s) && Enabled(c, s, MasterCall, false)
    ensures Inv(c, Next(c, s, MasterCall))
  {
    var s' := Next(c, s, MasterCall);
    CallsGrow(s.calls, MasterItem(s.pc).collective);
    assert InOrder(s'.calls, s'.completed);
    forall p | 0 <= p < |s'.procs|
      ensures ProcInv(s', s'.procs[p])
    {
      assert ProcInv(s, s.procs[p]);
    }
    SamePhases(c, s, s');
  }

  lemma SlaveCallProc(c: Config, s: System, step: Step)
    requires Inv(c, s) && Enabled(c, s, step, false)
    requires step.SlaveStart? || step.SlaveClaim? || step.SlaveNext? || step.SlaveEnd?
    ensures var s' := Next(c, s, step); step.p < |s'.procs| && ProcInv(s', s'.procs[step.p])
  {
    var q, q' := s.procs[step.p], Next(c, s, step).procs[step.p];
    assert ProcInv(s, q);
    CallsGrow(q.calls, q'.calls[|q.calls|]);
    assert q'.calls == q.calls + [q'.calls[|q.calls|]];
    assert InOrder(q'.calls, q'.completed);
  }

  lemma SlaveCallInv(c: Config, s: System, step: Step)
    requires Inv(c, s) && Enabled(c, s, step, false)
    requires step.SlaveStart? || step.SlaveClaim? || step.SlaveNext? || step.SlaveEnd?
    ensures Inv(c, Next(c, s, step))
  {
    var s' := Next(c, s, step);
    var p := step.p;
    SlaveCallProc(c, s, step);
    forall r | 0 <= r < |s'.procs|
      ensures ProcInv(s', s'.procs[r])
    {
      assert r == p || ProcInv(s, s.procs[r]);
    }
    forall t | 0 <= t < |c.owner|
      ensures ThreadInv(s'.procs[c.owner[t]], s'.threads[t])
    {
      assert ThreadInv(s.procs[c.owner[t]], s.threads[t]);
    }
    SamePhases(c, s, s');
  }

  lemma SlaveReturnInv(c: Config, s: System, p: nat)
    requires Inv(c, s) && Enabled(c, s, SlaveReturn(p), false)
    ensures Inv(c, Next(c, s, SlaveReturn(p)))
  {
    var s' := Next(c, s, SlaveReturn(p));
    forall r | 0 <= r < |s'.procs|
      ensures ProcInv(s', s'.procs[r])
    {
      assert ProcInv(s, s.procs[r]);
    }
    forall t | 0 <= t < |c.owner|
      ensures ThreadInv(s'.procs[c.owner[t]], s'.threads[t])
    {
      assert ThreadInv(s.procs[c.owner[t]], s.threads[t]);
    }
    SamePhases(c, s, s');
  }

  lemma SendInv(c: Config, s: System, t: nat)
    requires Inv(c, s) && Enabled(c, s, Send(t), false)
    ensures Inv(c, Next(c, s, Send(t)))
  {
    var s' := Next(c, s, Send(t));
    forall u | 0 <= u < |c.owner|
      ensures ThreadInv(s'.procs[c.owner[u]], s'.threads[u])
    {
      assert ThreadInv(s.procs[c.owner[u]], s.threads[u]);
    }
    SamePhases(c, s, s');
  }

  // ----- a release: all threads of a slave start the next phase

  /** What a barrier changes for a thread. */
  lemma Released(c: Config, s: System, p: nat, t: nat)
    requires WellFormed(c, s) && Enabled(c, s, SlaveRelease(p), false) && t < |c.owner|
    ensures var s' := Next(c, s, SlaveRelease(p)); var round := s.procs[p].round + 1;
      && WellFormed(c, s')
      && (c.owner[t] != p ==> s'.threads[t] == s.threads[t] && s'.procs[c.owner[t]] == s.procs[c.owner[t]])
      && (c.owner[t] == p ==>
            && s.threads[t].left == 0 && round <= 3 && s'.procs[p] == s.procs[p].(round := round)
            && s'.threads[t] == s.threads[t].(left := if round < 3 then c.messages(t, round + 1) else 0))
  {
  }

  lemma NothingLeftBehind(c: Config, s: System, p: nat, t: nat)
    requires Inv(c, s) && Enabled(c, s, SlaveRelease(p), false)
    requires t < |c.owner| && c.owner[t] == p && s.procs[p].round < 2
    ensures s.threads[t].left == 0 && |s.threads[t].queue| == 0
  {
    var phase := s.procs[p].round + 1;
    assert ProcInv(s, s.procs[p]);
    assert s.pc > ReceivePc(phase);
    assert PhaseInv(c, s, phase);
    assert t !in OutstandingSet(c, s, phase);
  }

  lemma SlaveReleaseInv(c: Config, s: System, p: nat)
    requires c.Valid() && Inv(c, s) && Enabled(c, s, SlaveRelease(p), false)
    ensures Inv(c, Next(c, s, SlaveRelease(p)))
  {
    var s' := Next(c, s, SlaveRelease(p));
    forall r | 0 <= r < |s'.procs|
      ensures ProcInv(s', s'.procs[r])
    {
      assert ProcInv(s, s.procs[r]);
    }
    forall t | 0 <= t < |c.owner|
      ensures ThreadInv(s'.procs[c.owner[t]], s'.threads[t])
      ensures forall n | 1 <= n <= 3 ::
        Outstanding(s'.procs[c.owner[t]], s'.threads[t], n) == Outstanding(s.procs[c.owner[t]], s.threads[t], n)
    {
      assert ThreadInv(s.procs[c.owner[t]], s.threads[t]);
      if c.owner[t] == p && s.procs[p].round < 2 {
        NothingLeftBehind(c, s, p, t);
      }
    }
    SamePhases(c, s, s');
  }

  // ----- steps of the master that may end a phase

  lemma MasterReturnInv(c: Config, s: System)
    requires c.Valid() && Inv(c, s) && Enabled(c, s, MasterReturn, false)
    ensures Inv(c, Next(c, s, MasterReturn))
  {
    var s' := Next(c, s, MasterReturn);
    forall p | 1 <= p <= 3
      ensures PhaseInv(c, s', p)
    {
      assert PhaseInv(c, s, p);
      assert OutstandingSet(c, s', p) == OutstandingSet(c, s, p);
    }
    forall p | 0 <= p < |s'.procs|
      ensures ProcInv(s', s'.procs[p])
    {
      assert ProcInv(s, s.procs[p]);
    }
  }

  /** Thread `t` has just had its last message of the phase received, or a message that is not. */
  lemma ReceivedInv(c: Config, s: System, s1: System, t: nat, last: bool)
    requires c.Valid() && Inv(c, s) && MasterItem(s.pc).Receive? && t < |c.owner|
    requires s1 == s.(threads := s1.threads) && WellFormed(c, s1)
    requires forall u | 0 <= u < |c.owner| && u != t :: s1.threads[u] == s.threads[u]
    requires ThreadInv(s.procs[c.owner[t]], s1.threads[t])
    requires forall p | 1 <= p <= 3 ::
      Outstanding(s.procs[c.owner[t]], s1.threads[t], p) ==
        (Outstanding(s.procs[c.owner[t]], s.threads[t], p) && !(last && p == MasterItem(s.pc).tag))
    requires last ==> Outstanding(s.procs[c.owner[t]], s.threads[t], MasterItem(s.pc).tag)
    ensures Inv(c, if last then OneFewer(c, s1) else s1)
  {
    var s' := if last then OneFewer(c, s1) else s1;
    assert PhaseInv(c, s, MasterItem(s.pc).tag);
    forall p | 1 <= p <= 3
      ensures PhaseInv(c, s', p)
    {
      ReceivedPhase(c, s, s1, t, last, p);
    }
    ReceivedMaster(c, s, s1, t, last);
    forall p | 0 <= p < |s'.procs|
      ensures ProcInv(s', s'.procs[p])
    {
      assert ProcInv(s, s.procs[p]);
    }
    forall u | 0 <= u < |c.owner|
      ensures ThreadInv(s'.procs[c.owner[u]], s'.threads[u])
    {
      assert ThreadInv(s.procs[c.owner[u]], s.threads[u]);
    }
  }

  lemma ReceivedMaster(c: Config, s: System, s1: System, t: nat, last: bool)
    requires MasterInv(s) && MasterItem(s.pc).Receive? && s1 == s.(threads := s1.threads)
    ensures MasterInv(if last then OneFewer(c, s1) else s1)
  {
  }

  lemma ReceivedPhase(c: Config, s: System, s1: System, t: nat, last: bool, p: nat)
    requires 1 <= p <= 3 && WellFormed(c, s) && s.pc <= 9 && PhaseInv(c, s, p) && MasterItem(s.pc).Receive? &&
      t < |c.owner|
    requires s.active > 0
    requires s1 == s.(threads := s1.threads) && WellFormed(c, s1)
    requires forall u | 0 <= u < |c.owner| && u != t :: s1.threads[u] == s.threads[u]
    requires Outstanding(s.procs[c.owner[t]], s1.threads[t], p) ==
      (Outstanding(s.procs[c.owner[t]], s.threads[t], p) && !(last && p == MasterItem(s.pc).tag))
    requires last ==> Outstanding(s.procs[c.owner[t]], s.threads[t], MasterItem(s.pc).tag)
    ensures PhaseInv(c, if last then OneFewer(c, s1) else s1, p)
  {
    var removed := last && p == MasterItem(s.pc).tag;
    OutstandingAfter(c, s, s1, t, p, removed);
    if last {
      assert OutstandingSet(c, OneFewer(c, s1), p) == OutstandingSet(c, s1, p);
    }
  }

  lemma OutstandingAfter(c: Config, s: System, s1: System, t: nat, p: nat, removed: bool)
    requires WellFormed(c, s) && WellFormed(c, s1) && s1.procs == s.procs && t < |c.owner|
    requires forall u | 0 <= u < |c.owner| && u != t :: s1.threads[u] == s.threads[u]
    requires Outstanding(s.procs[c.owner[t]], s1.threads[t], p) ==
      (Outstanding(s.procs[c.owner[t]], s.threads[t], p) && !removed)
    requires removed ==> Outstanding(s.procs[c.owner[t]], s.threads[t], p)
    ensures !removed ==> OutstandingSet(c, s1, p) == OutstandingSet(c, s, p)
    ensures removed ==> |OutstandingSet(c, s1, p)| == |OutstandingSet(c, s, p)| - 1
  {
    var before, after := OutstandingSet(c, s, p), OutstandingSet(c, s1, p);
    if removed {
      assert after == before - {t} && t in before;
    } else {
      assert after == before;
    }
  }

  lemma MasterReceiveInv(c: Config, s: System, t: nat)
    requires c.Valid() && Inv(c, s) && Enabled(c, s, MasterReceive(t), false)
    ensures Inv(c, Next(c, s, MasterReceive(t)))
  {
    var th, q := s.threads[t], s.procs[c.owner[t]];
    assert ThreadInv(q, th) && th.queue[0].tag == Phase(q.round);
    var s1 := s.(threads := s.threads[t := th.(queue := th.queue[1..])]);
    ReceivedInv(c, s, s1, t, th.queue[0].last);
  }

  lemma HandOverInv(c: Config, s: System, t: nat)
    requires c.Valid() && Inv(c, s) && Enabled(c, s, HandOver(t), false)
    ensures Inv(c, Next(c, s, HandOver(t)))
  {
    var th, q := s.threads[t], s.procs[c.owner[t]];
    assert ThreadInv(q, th) && Phase(q.round) == q.round + 1;
    var s1 := s.(threads := s.threads[t := th.(left := th.left - 1)]);
    ReceivedInv(c, s, s1, t, th.left == 1);
  }

  lemma StepInv(c: Config, s: System, step: Step)
    requires c.Valid() && Inv(c, s) && Enabled(c, s, step, false)
    ensures Inv(c, Next(c, s, step))
  {
    match step
    case MasterCall => MasterCallInv(c, s);
    case MasterReturn => MasterReturnInv(c, s);
    case MasterReceive(t) => MasterReceiveInv(c, s, t);
    case HandOver(t) => HandOverInv(c, s, t);
    case Send(t) => SendInv(c, s, t);
    case SlaveReturn(p) => SlaveReturnInv(c, s, p);
    case SlaveRelease(p) => SlaveReleaseInv(c, s, p);
    case _ => SlaveCallInv(c, s, step);
  }

  // ----- what holds in every run

  ghost predicate IsRun(c: Config, run: seq<System>, steps: seq<Step>) {
    && |run| == |steps| + 1 && run[0] == Start(c)
    && (forall i | 0 <= i < |run| :: WellFormed(c, run[i]))
    && (forall i | 0 <= i < |steps| :: Enabled(c, run[i], steps[i], false) && run[i + 1] == Next(c, run[i], steps[i]))
  }

  lemma {:induction false} RunInv(c: Config, run: seq<System>, steps: seq<Step>, i: nat)
    requires c.Valid() && IsRun(c, run, steps) && i < |run|
    ensures Inv(c, run[i])
  {
    if i == 0 {
      StartInv(c);
    } else {
      RunInv(c, run, steps, i - 1);
      StepInv(c, run[i - 1], steps[i - 1]);
    }
  }

  /** All processes make the same collective calls in the same order, never two at once. */
  lemma SameCollectives(c: Config, run: seq<System>, steps: seq<Step>, i: nat, p: nat)
    requires c.Valid() && IsRun(c, run, steps) && i < |run| && p < c.slaves
    ensures var m, q := run[i], run[i].procs[p];
      && m.calls <= ORDER && m.completed <= |m.calls| <= m.completed + 1
      && q.calls <= ORDER && q.completed <= |q.calls| <= q.completed + 1
  {
    RunInv(c, run, steps, i);
    assert ProcInv(run[i], run[i].procs[p]);
  }

  /** Phase separation: whenever a thread sends a message of phase 2 or 3, the master has made the
      broadcast that starts the phase and has received everything of the phase before. */
  lemma PhasesSeparated(c: Config, run: seq<System>, steps: seq<Step>, i: nat, t: nat)
    requires c.Valid() && IsRun(c, run, steps) && i < |steps|
    requires steps[i] == Send(t) || steps[i] == HandOver(t)
    ensures t < |c.owner|
    ensures var s, phase := run[i], run[i].procs[c.owner[t]].round + 1;
      && 1 <= phase <= 3
      && (phase == 2 ==> Threshold in s.calls) && (phase == 3 ==> RecordInfo in s.calls && RecordBuffer in s.calls)
      && (phase > 1 ==> OutstandingSet(c, s, phase - 1) == {})
  {
    RunInv(c, run, steps, i);
    var s := run[i];
    var q := s.procs[c.owner[t]];
    assert ProcInv(s, q) && PhaseInv(c, s, 1) && PhaseInv(c, s, 2);
    if q.round >= 1 {
      assert s.calls[1] == ORDER[1];
    }
    if q.round >= 2 {
      assert s.calls[2] == ORDER[2] && s.calls[3] == ORDER[3];
    }
  }

  // ----- progress

  lemma LeastCalls(s: System, n: nat) returns (p: nat)
    requires 0 < n <= |s.procs|
    ensures p < n && forall r | 0 <= r < n :: |s.procs[p].calls| <= |s.procs[r].calls|
  {
    if n == 1 {
      p := 0;
    } else {
      p := LeastCalls(s, n - 1);
      if |s.procs[n - 1].calls| < |s.procs[p].calls| {
        p := n - 1;
      }
    }
  }

  lemma NobodyBehind(c: Config, s: System, p: nat, phase: nat)
    requires Inv(c, s) && p < c.slaves && 1 <= phase <= 3
    requires s.pc > ReceivePc(phase) && Phase(s.procs[p].round) == phase
    ensures AllArrived(c, s, p)
  {
    assert PhaseInv(c, s, phase);
    forall t | 0 <= t < |c.owner| && c.owner[t] == p
      ensures s.threads[t].left == 0
    {
      assert t !in OutstandingSet(c, s, phase);
    }
  }

  /** A slave that has made as few calls as any can move on, unless it waits for its own messages to
      be received or has finished. */
  lemma SlaveMoves(c: Config, s: System, p: nat) returns (step: Step)
    requires c.Valid() && Inv(c, s) && p < c.slaves
    requires forall r | 0 <= r < |s.procs| :: |s.procs[p].calls| <= |s.procs[r].calls|
    requires |s.procs[p].calls| <= |s.calls| && s.procs[p].completed < 6
    requires |s.procs[p].calls| == 1 ==> s.pc > 1
    requires |s.procs[p].calls| == 2 && s.procs[p].round == 1 ==> s.pc > 3
    requires |s.procs[p].calls| == 4 && s.procs[p].round == 2 ==> s.pc > 6
    ensures Enabled(c, s, step, true) && !step.Send?
  {
    var q := s.procs[p];
    assert ProcInv(s, q);
    if q.completed < |q.calls| {
      step := SlaveReturn(p);
    } else if |q.calls| == 0 {
      step := SlaveStart(p);
    } else if |q.calls| == 3 {
      step := SlaveNext(p);
    } else if q.round == 3 {
      step := SlaveEnd(p);
    } else {
      NobodyBehind(c, s, p, Phase(q.round));
      if q.claimed == q.round && q.round < 2 {
        assert c.HasThread(p);
        var t :| 0 <= t < |c.owner| && c.owner[t] == p;
        step := SlaveClaim(p, t);
      } else {
        step := SlaveRelease(p);
      }
    }
  }

  lemma AwaitCall(c: Config, s: System) returns (step: Step)
    requires c.Valid() && Inv(c, s) && MasterItem(s.pc).Call?
    ensures Enabled(c, s, step, true) && !step.Send?
  {
    if |s.calls| == s.completed {
      step := MasterCall;
    } else if SlavesHaveCalled(s, s.completed + 1) {
      step := MasterReturn;
    } else {
      var p := LeastCalls(s, |s.procs|);
      assert ProcInv(s, s.procs[p]);
      step := SlaveMoves(c, s, p);
    }
  }

  /** Some slave has not even started the phase the master waits for. */
  lemma AwaitSlave(c: Config, s: System, late: nat) returns (step: Step)
    requires c.Valid() && Inv(c, s) && MasterItem(s.pc).Receive?
    requires late < |s.procs| && Phase(s.procs[late].round) < MasterItem(s.pc).tag
    ensures Enabled(c, s, step, true) && !step.Send?
  {
    var p := LeastCalls(s, |s.procs|);
    assert ProcInv(s, s.procs[p]) && ProcInv(s, s.procs[late]);
    if |s.procs[late].calls| == |s.procs[p].calls| {
      p := late;
    }
    step := SlaveMoves(c, s, p);
  }

  lemma AwaitMessage(c: Config, s: System) returns (step: Step)
    requires c.Valid() && Inv(c, s) && MasterItem(s.pc).Receive?
    ensures Enabled(c, s, step, true) && !step.Send?
  {
    var tag := MasterItem(s.pc).tag;
    assert PhaseInv(c, s, tag);
    var t :| t in OutstandingSet(c, s, tag);
    var p := c.owner[t];
    assert ProcInv(s, s.procs[p]) && ThreadInv(s.procs[p], s.threads[t]);
    if Phase(s.procs[p].round) < tag {
      step := AwaitSlave(c, s, p);
    } else if |s.threads[t].queue| > 0 {
      assert s.threads[t].queue[0].tag == tag;
      step := MasterReceive(t);
    } else if s.procs[p].completed == 0 {
      step := SlaveReturn(p);
    } else {
      step := HandOver(t);
    }
  }

  lemma AwaitEnd(c: Config, s: System) returns (step: Step)
    requires c.Valid() && Inv(c, s) && s.pc == 9 && !Final(s)
    ensures Enabled(c, s, step, true) && !step.Send?
  {
    var late :| 0 <= late < |s.procs| && s.procs[late].completed != 6;
    var p := LeastCalls(s, |s.procs|);
    assert ProcInv(s, s.procs[p]) && ProcInv(s, s.procs[late]);
    if |s.procs[p].calls| == 6 {
      p := late;
    }
    step := SlaveMoves(c, s, p);
  }

  /** Progress: every reachable state that is not final has a step that can be taken, even if no
      message is buffered and every collective call waits for all processes. */
  lemma Progress(c: Config, run: seq<System>, steps: seq<Step>, i: nat) returns (step: Step)
    requires c.Valid() && IsRun(c, run, steps) && i < |run| && !Final(run[i])
    ensures Enabled(c, run[i], step, true) && Enabled(c, run[i], step, false) && !step.Send?
  {
    RunInv(c, run, steps, i);
    var s := run[i];
    match MasterItem(s.pc)
    case Call(_) => step := AwaitCall(c, s);
    case Receive(_) => step := AwaitMessage(c, s);
    case Exit => step := AwaitEnd(c, s);
  }
}
