/** List mode on one slave: its threads read files and send matching records as they go, sharing a
    counter of records sent and a flag raised when the record limit has been reached. Every access
    to the shared data is a step of its own; a schedule picks the thread that takes each step. */
module ListMode {
  import opened Ordering

  const XCHG_BUFF_SIZE: nat := 0x10_0000

  datatype Config<!T> = Config(matches: T -> bool, recordBytes: nat, limit: nat) {
    /** A record with its length prefix fits an empty buffer. */
    predicate Valid() {
      recordBytes + 4 <= XCHG_BUFF_SIZE
    }

    /** No room for one more record after `n`. */
    predicate Full(n: nat) {
      n * (recordBytes + 4) + recordBytes + 4 > XCHG_BUFF_SIZE
    }

    predicate LimitReached(counter: nat) {
      limit > 0 && counter >= limit
    }
  }

  datatype Point =
    | NextFile | Open | Read
    | CheckFlag | SendFull | CountFull | CheckLimit | SetFlag
    | SendLast | CountLast | FinalCheck | FinalSet
    | Terminate | Done

  /** `rest` is the unread part of the open file, `hand` the record that did not fit, `uncounted` how
      many sent records are not in the counter yet; `lost` are matching records given up. */
  datatype Thread<T> = Thread(at: Point, rest: seq<T>, hand: seq<T>, buffer: seq<T>, uncounted: nat,
                              sent: seq<seq<T>>, lost: seq<T>)

  datatype Slave<T> = Slave(files: seq<seq<T>>, counter: nat, flag: bool, threads: seq<Thread<T>>)

  function Matching<T>(c: Config<T>, s: seq<T>): seq<T> {
    if |s| == 0 then []
    else (if c.matches(s[0]) then [s[0]] else []) + Matching(c, s[1..])
  }

  function Fresh<T>(): Thread<T> {
    Thread(NextFile, [], [], [], 0, [], [])
  }

  function Start<T>(files: seq<seq<T>>, threads: nat): Slave<T> {
    Slave(files, 0, false, seq(threads, _ => Fresh()))
  }

  /** What the step of a thread does to the thread, given the shared data it finds. */
  function Advance<T>(c: Config<T>, files: seq<seq<T>>, counter: nat, flag: bool, t: Thread<T>): Thread<T>
    requires t.at != Done
  {
    match t.at
    case NextFile =>
      if |files| == 0 then t.(at := Terminate) else t.(at := Open, rest := files[0])
    case Open =>
      if flag then t.(at := NextFile, rest := [], lost := t.lost + Matching(c, t.rest)) else t.(at := Read)
    case Read =>
      if |t.rest| == 0 then t.(at := if |t.buffer| > 0 then SendLast else FinalCheck)
      else if !c.matches(t.rest[0]) then t.(rest := t.rest[1..])
      else if c.Full(|t.buffer|) then t.(at := CheckFlag, hand := [t.rest[0]], rest := t.rest[1..])
      else t.(buffer := t.buffer + [t.rest[0]], rest := t.rest[1..])
    case CheckFlag =>
      if flag then t.(at := FinalCheck, buffer := [], hand := [], rest := [],
                      lost := t.lost + t.buffer + t.hand + Matching(c, t.rest))
      else t.(at := SendFull)
    case SendFull =>
      t.(at := CountFull, sent := t.sent + [t.buffer], uncounted := |t.buffer|, buffer := [])
    case CountFull =>
      t.(at := CheckLimit, uncounted := 0)
    case CheckLimit =>
      if c.LimitReached(counter) then t.(at := SetFlag) else t.(at := Read, buffer := t.hand, hand := [])
    case SetFlag =>
      t.(at := FinalCheck, hand := [], rest := [], lost := t.lost + t.hand + Matching(c, t.rest))
    case SendLast =>
      t.(at := CountLast, sent := t.sent + [t.buffer], uncounted := |t.buffer|, buffer := [])
    case CountLast =>
      t.(at := FinalCheck, uncounted := 0)
    case FinalCheck =>
      t.(at := if c.LimitReached(counter) then FinalSet else NextFile)
    case FinalSet =>
      t.(at := NextFile)
    case Terminate =>
      t.(at := Done, sent := t.sent + [[]])
  }

  function Step<T>(c: Config<T>, s: Slave<T>, i: nat): Slave<T>
    requires i < |s.threads| && s.threads[i].at != Done
  {
    var t := s.threads[i];
    Slave(
      if t.at.NextFile? && |s.files| > 0 then s.files[1..] else s.files,
      if t.at.CountFull? || t.at.CountLast? then s.counter + t.uncounted else s.counter,
      s.flag || t.at.SetFlag? || t.at.FinalSet?,
      s.threads[i := Advance(c, s.files, s.counter, s.flag, t)])
  }

  predicate Finished<T>(s: Slave<T>) {
    forall i | 0 <= i < |s.threads| :: s.threads[i].at.Done?
  }

  /** The run of a schedule; a thread that is done does nothing when picked. */
  function Run<T>(c: Config<T>, s: Slave<T>, schedule: seq<nat>): Slave<T>
    decreases schedule
  {
    if |schedule| == 0 then s
    else
      var i := schedule[0];
      Run(c, if i < |s.threads| && !s.threads[i].at.Done? then Step(c, s, i) else s, schedule[1..])
  }

  // ----- one thread

  ghost function Count<T>(x: T, s: seq<T>): nat {
    multiset(s)[x]
  }

  /** How often `x` is among what a thread has taken from its files. */
  ghost function Held<T>(c: Config<T>, x: T, t: Thread<T>): nat {
    Count(x, Flatten(t.sent)) + Count(x, t.buffer) + Count(x, t.hand) + Count(x, Matching(c, t.rest)) + Count(x, t.lost)
  }

  predicate HasHand(p: Point) {
    p.CheckFlag? || p.SendFull? || p.CountFull? || p.CheckLimit? || p.SetFlag?
  }

  predicate HasBuffer(p: Point) {
    p.CheckFlag? || p.SendFull? || p.SendLast?
  }

  /** A thread has records only at the points that send them or give them up. */
  predicate Tidy<T>(t: Thread<T>) {
    && (|t.hand| > 0 ==> HasHand(t.at))
    && (|t.buffer| > 0 ==> HasBuffer(t.at) || t.at.Read?)
    && (|t.rest| > 0 ==> t.at.Open? || t.at.Read? || HasHand(t.at))
    && (t.uncounted > 0 ==> t.at.CountFull? || t.at.CountLast?)
  }

  ghost predicate Sound<T>(c: Config<T>, t: Thread<T>) {
    && Tidy(t)
    && |t.hand| == (if HasHand(t.at) then 1 else 0)
    && (HasBuffer(t.at) ==> |t.buffer| > 0)
    && |t.buffer| * (c.recordBytes + 4) <= XCHG_BUFF_SIZE
    && (t.at.Done? ==> |t.sent| > 0 && t.sent[|t.sent| - 1] == [])
    && (forall g | g in DataMessages(t) :: 0 < |g| && |g| * (c.recordBytes + 4) <= XCHG_BUFF_SIZE)
  }

  /** The messages of a thread without the terminator, which is the last one of a thread that is done. */
  function DataMessages<T>(t: Thread<T>): (r: seq<seq<T>>)
    ensures t.at.Done? && |t.sent| > 0 ==> t.sent == r + [t.sent[|t.sent| - 1]]
    ensures !t.at.Done? ==> r == t.sent
  {
    if t.at.Done? && |t.sent| > 0 then t.sent[..|t.sent| - 1] else t.sent
  }

  /** What a step gives up or is about to give up, or holds back, is justified by the limit. */
  ghost predicate Excused<T>(c: Config<T>, s: Slave<T>, t: Thread<T>) {
    && ((t.at.SetFlag? || t.at.FinalSet? || |t.lost| > 0) ==> c.LimitReached(s.counter))
    && (t.at.Terminate? || t.at.Done? ==> |s.files| == 0)
  }

  lemma AdvanceExcused<T>(c: Config<T>, s: Slave<T>, t: Thread<T>)
    requires Excused(c, s, t) && !t.at.Done? && (s.flag ==> c.LimitReached(s.counter))
    ensures Excused(c, s, Advance(c, s.files, s.counter, s.flag, t))
  {
  }

  function SentCount<T>(t: Thread<T>): nat {
    |Flatten(t.sent)|
  }

  lemma SendOne<T>(ss: seq<seq<T>>, g: seq<T>)
    ensures |Flatten(ss + [g])| == |Flatten(ss)| + |g|
    ensures forall x :: Count(x, Flatten(ss + [g])) == Count(x, Flatten(ss)) + Count(x, g)
  {
    FlattenAppend(ss, [g]);
    assert [g][1..] == [];
    assert Flatten([g]) == g + [];
  }

  lemma CountConcat<T>(x: T, a: seq<T>, b: seq<T>)
    ensures Count(x, a + b) == Count(x, a) + Count(x, b)
  {
  }

  lemma ReadKeeps<T>(c: Config<T>, s: Slave<T>, x: T, t: Thread<T>)
    requires Tidy(t) && t.at.Read?
    ensures Held(c, x, Advance(c, s.files, s.counter, s.flag, t)) == Held(c, x, t)
  {
    if |t.rest| > 0 {
      var r := t.rest[0];
      MatchingFirst(c, x, t.rest);
      assert Count(x, t.hand) == 0;
      if c.matches(r) && !c.Full(|t.buffer|) {
        CountConcat(x, t.buffer, [r]);
      }
    }
  }

  lemma MatchingFirst<T>(c: Config<T>, x: T, s: seq<T>)
    requires |s| > 0
    ensures Count(x, Matching(c, s)) ==
      Count(x, Matching(c, s[1..])) + if c.matches(s[0]) then Count(x, [s[0]]) else 0
  {
    CountConcat(x, if c.matches(s[0]) then [s[0]] else [], Matching(c, s[1..]));
  }

  lemma GivingUpKeeps<T>(c: Config<T>, s: Slave<T>, x: T, t: Thread<T>)
    requires Tidy(t) && (t.at.Open? || t.at.CheckFlag? || t.at.SetFlag?)
    ensures Held(c, x, Advance(c, s.files, s.counter, s.flag, t)) == Held(c, x, t)
  {
    var left := Matching(c, t.rest);
    CountConcat(x, t.lost, left);
    CountConcat(x, t.lost, t.hand);
    CountConcat(x, t.lost + t.hand, left);
    CountConcat(x, t.lost, t.buffer);
    CountConcat(x, t.lost + t.buffer, t.hand);
    CountConcat(x, t.lost + t.buffer + t.hand, left);
  }

  lemma SendingKeeps<T>(c: Config<T>, s: Slave<T>, x: T, t: Thread<T>)
    requires t.at.SendFull? || t.at.SendLast?
    ensures Held(c, x, Advance(c, s.files, s.counter, s.flag, t)) == Held(c, x, t)
  {
    SentHeld(c, x, t, t.buffer, Advance(c, s.files, s.counter, s.flag, t));
  }

  lemma TerminatorKeeps<T>(c: Config<T>, s: Slave<T>, x: T, t: Thread<T>)
    requires t.at.Terminate?
    ensures Held(c, x, Advance(c, s.files, s.counter, s.flag, t)) == Held(c, x, t)
  {
    SentHeld(c, x, t, [], Advance(c, s.files, s.counter, s.flag, t));
  }

  /** Part of the buffer is sent. */
  lemma SentHeld<T>(c: Config<T>, x: T, t: Thread<T>, g: seq<T>, t': Thread<T>)
    requires t' == t.(at := t'.at, uncounted := t'.uncounted, sent := t.sent + [g], buffer := t'.buffer)
    requires Count(x, t.buffer) == Count(x, g) + Count(x, t'.buffer)
    ensures Held(c, x, t') == Held(c, x, t)
  {
    CountSent(x, t.sent, g);
  }

  lemma CountSent<T>(x: T, ss: seq<seq<T>>, g: seq<T>)
    ensures Count(x, Flatten(ss + [g])) == Count(x, Flatten(ss)) + Count(x, g)
  {
    SendOne(ss, g);
  }

  lemma OpeningKeeps<T>(c: Config<T>, s: Slave<T>, x: T, t: Thread<T>)
    requires Tidy(t) && t.at.NextFile?
    ensures Held(c, x, Advance(c, s.files, s.counter, s.flag, t)) == Held(c, x, t)
      + (if |s.files| > 0 then Count(x, Matching(c, s.files[0])) else 0)
  {
    assert Count(x, Matching(c, t.rest)) == 0;
  }

  lemma HandKeeps<T>(c: Config<T>, s: Slave<T>, x: T, t: Thread<T>)
    requires Tidy(t) && t.at.CheckLimit?
    ensures Held(c, x, Advance(c, s.files, s.counter, s.flag, t)) == Held(c, x, t)
  {
    if c.LimitReached(s.counter) {
      SameHeld(c, x, t, t.(at := SetFlag));
    } else {
      HandHeld(c, x, t, t.(at := Read, buffer := t.hand, hand := []));
    }
  }

  lemma SameHeld<T>(c: Config<T>, x: T, t: Thread<T>, t': Thread<T>)
    requires t' == t.(at := t'.at, uncounted := t'.uncounted)
    ensures Held(c, x, t') == Held(c, x, t)
  {
  }

  lemma HandHeld<T>(c: Config<T>, x: T, t: Thread<T>, t': Thread<T>)
    requires t' == t.(at := t'.at, buffer := t.hand, hand := t.buffer)
    ensures Held(c, x, t') == Held(c, x, t)
  {
  }

  /** A step between points that moves no record. */
  lemma MovingKeeps<T>(c: Config<T>, s: Slave<T>, x: T, t: Thread<T>)
    requires t.at.CountFull? || t.at.CountLast? || t.at.FinalCheck? || t.at.FinalSet?
    ensures Held(c, x, Advance(c, s.files, s.counter, s.flag, t)) == Held(c, x, t)
  {
    SameHeld(c, x, t, Advance(c, s.files, s.counter, s.flag, t));
  }

  /** A step keeps what a thread holds, except for a file it opens. */
  lemma AdvanceKeeps<T>(c: Config<T>, s: Slave<T>, x: T, t: Thread<T>)
    requires Tidy(t) && !t.at.Done?
    ensures Held(c, x, Advance(c, s.files, s.counter, s.flag, t)) == Held(c, x, t)
      + (if t.at.NextFile? && |s.files| > 0 then Count(x, Matching(c, s.files[0])) else 0)
  {
    if t.at.Read? {
      ReadKeeps(c, s, x, t);
    } else if t.at.Open? || t.at.CheckFlag? || t.at.SetFlag? {
      GivingUpKeeps(c, s, x, t);
    } else if t.at.SendFull? || t.at.SendLast? {
      SendingKeeps(c, s, x, t);
    } else if t.at.NextFile? {
      OpeningKeeps(c, s, x, t);
    } else if t.at.CheckLimit? {
      HandKeeps(c, s, x, t);
    } else if t.at.Terminate? {
      TerminatorKeeps(c, s, x, t);
    } else {
      MovingKeeps(c, s, x, t);
    }
  }

  lemma AdvanceCounts<T>(c: Config<T>, s: Slave<T>, t: Thread<T>)
    requires Tidy(t) && !t.at.Done?
    ensures var t' := Advance(c, s.files, s.counter, s.flag, t);
      SentCount(t') - t'.uncounted == SentCount(t) - t.uncounted
        + (if t.at.CountFull? || t.at.CountLast? then t.uncounted else 0)
  {
    match t.at
    case SendFull => SendOne(t.sent, t.buffer);
    case SendLast => SendOne(t.sent, t.buffer);
    case Terminate => SendOne(t.sent, []);
    case _ =>
  }

  lemma AdvanceTidy<T>(c: Config<T>, s: Slave<T>, t: Thread<T>)
    requires Tidy(t) && !t.at.Done?
    ensures Tidy(Advance(c, s.files, s.counter, s.flag, t))
  {
  }

  lemma AdvanceSound<T>(c: Config<T>, s: Slave<T>, t: Thread<T>)
    requires c.Valid() && Sound(c, t) && !t.at.Done?
    ensures Sound(c, Advance(c, s.files, s.counter, s.flag, t))
  {
    if t.at.Read? {
      ReadSound(c, s, t);
    } else if t.at.SendFull? || t.at.SendLast? || t.at.Terminate? {
      SendSound(c, s, t);
    } else if t.at.CheckLimit? {
      assert |t.hand| * (c.recordBytes + 4) == c.recordBytes + 4;
    }
  }

  lemma ReadSound<T>(c: Config<T>, s: Slave<T>, t: Thread<T>)
    requires c.Valid() && Sound(c, t) && t.at.Read?
    ensures Sound(c, Advance(c, s.files, s.counter, s.flag, t))
  {
    if |t.rest| > 0 {
      assert (|t.buffer| + 1) * (c.recordBytes + 4) == |t.buffer| * (c.recordBytes + 4) + c.recordBytes + 4;
    }
  }

  lemma SendSound<T>(c: Config<T>, s: Slave<T>, t: Thread<T>)
    requires c.Valid() && Sound(c, t) && (t.at.SendFull? || t.at.SendLast? || t.at.Terminate?)
    ensures Sound(c, Advance(c, s.files, s.counter, s.flag, t))
  {
    var t' := Advance(c, s.files, s.counter, s.flag, t);
    if t.at.Terminate? {
      assert DataMessages(t') == t.sent;
    }
  }

  // ----- all threads of a slave

  ghost function AllHeld<T>(c: Config<T>, x: T, ts: seq<Thread<T>>): nat {
    if |ts| == 0 then 0 else Held(c, x, ts[0]) + AllHeld(c, x, ts[1..])
  }

  function Counted<T>(ts: seq<Thread<T>>): int {
    if |ts| == 0 then 0 else SentCount(ts[0]) - ts[0].uncounted + Counted(ts[1..])
  }

  lemma {:induction false} UpdateHeld<T>(c: Config<T>, x: T, ts: seq<Thread<T>>, i: nat, t: Thread<T>)
    requires i < |ts|
    ensures AllHeld(c, x, ts[i := t]) == AllHeld(c, x, ts) + Held(c, x, t) - Held(c, x, ts[i])
  {
    if i == 0 {
      assert ts[0 := t][1..] == ts[1..];
    } else {
      assert ts[i := t][1..] == ts[1..][i - 1 := t];
      UpdateHeld(c, x, ts[1..], i - 1, t);
    }
  }

  lemma {:induction false} UpdateCounted<T>(ts: seq<Thread<T>>, i: nat, t: Thread<T>)
    requires i < |ts|
    ensures Counted(ts[i := t]) == Counted(ts) + (SentCount(t) - t.uncounted) - (SentCount(ts[i]) - ts[i].uncounted)
  {
    if i == 0 {
      assert ts[0 := t][1..] == ts[1..];
    } else {
      assert ts[i := t][1..] == ts[1..][i - 1 := t];
      UpdateCounted(ts[1..], i - 1, t);
    }
  }

  /** Nothing is lost or doubled: every matching record is held by a thread or in an unopened file. */
  ghost predicate Conserved<T>(c: Config<T>, s: Slave<T>, x: T, all: seq<T>) {
    AllHeld(c, x, s.threads) + Count(x, Matching(c, Flatten(s.files))) == Count(x, all)
  }

  ghost predicate Inv<T(!new)>(c: Config<T>, s: Slave<T>, all: seq<T>) {
    && (forall i | 0 <= i < |s.threads| :: Sound(c, s.threads[i]) && Excused(c, s, s.threads[i]))
    && (s.flag ==> c.LimitReached(s.counter))
    && Counted(s.threads) == s.counter
    && (forall x :: Conserved(c, s, x, all))
  }

  lemma {:induction false} MatchingAppend<T>(c: Config<T>, a: seq<T>, b: seq<T>)
    ensures Matching(c, a + b) == Matching(c, a) + Matching(c, b)
  {
    if |a| == 0 {
      assert a + b == b;
    } else {
      assert (a + b)[1..] == a[1..] + b;
      MatchingAppend(c, a[1..], b);
    }
  }

  /** Every record that matches is among the matching ones, as often as it is there, and no other. */
  lemma {:induction false} MatchingCount<T>(c: Config<T>, s: seq<T>, x: T)
    ensures Count(x, Matching(c, s)) == if c.matches(x) then Count(x, s) else 0
  {
    if |s| > 0 {
      MatchingCount(c, s[1..], x);
      MatchingFirst(c, x, s);
      assert s == [s[0]] + s[1..];
      CountConcat(x, [s[0]], s[1..]);
    }
  }

  lemma {:induction false} FreshSums<T>(c: Config<T>, x: T, ts: seq<Thread<T>>)
    requires forall i | 0 <= i < |ts| :: ts[i] == Fresh()
    ensures AllHeld(c, x, ts) == 0 && Counted(ts) == 0
  {
    if |ts| > 0 {
      FreshSums(c, x, ts[1..]);
    }
  }

  lemma {:induction false} FreshCounted<T>(ts: seq<Thread<T>>)
    requires forall i | 0 <= i < |ts| :: ts[i] == Fresh()
    ensures Counted(ts) == 0
  {
    if |ts| > 0 {
      FreshCounted(ts[1..]);
    }
  }

  lemma StartInv<T(!new)>(c: Config<T>, files: seq<seq<T>>, n: nat)
    ensures Inv(c, Start(files, n), Matching(c, Flatten(files)))
  {
    var s := Start(files, n);
    FreshCounted(s.threads);
    forall x
      ensures Conserved(c, s, x, Matching(c, Flatten(files)))
    {
      FreshSums(c, x, s.threads);
    }
  }

  lemma StepExcused<T(!new)>(c: Config<T>, s: Slave<T>, i: nat, all: seq<T>, j: nat)
    requires c.Valid() && Inv(c, s, all) && i < |s.threads| && !s.threads[i].at.Done? && j < |s.threads|
    ensures var s' := Step(c, s, i); Sound(c, s'.threads[j]) && Excused(c, s', s'.threads[j])
  {
    var t := s.threads[i];
    assert Sound(c, t) && Excused(c, s, t) && Sound(c, s.threads[j]) && Excused(c, s, s.threads[j]);
    if j == i {
      AdvanceSound(c, s, t);
      AdvanceExcused(c, s, t);
    }
  }

  lemma StepConserves<T(!new)>(c: Config<T>, s: Slave<T>, i: nat, all: seq<T>, x: T)
    requires Inv(c, s, all) && i < |s.threads| && !s.threads[i].at.Done?
    ensures Conserved(c, Step(c, s, i), x, all)
  {
    var t := s.threads[i];
    var t' := Advance(c, s.files, s.counter, s.flag, t);
    assert Conserved(c, s, x, all) && Sound(c, t);
    AdvanceKeeps(c, s, x, t);
    UpdateHeld(c, x, s.threads, i, t');
    if t.at.NextFile? && |s.files| > 0 {
      MatchingAppend(c, s.files[0], Flatten(s.files[1..]));
    }
  }

  lemma StepInv<T(!new)>(c: Config<T>, s: Slave<T>, i: nat, all: seq<T>)
    requires c.Valid() && Inv(c, s, all) && i < |s.threads| && !s.threads[i].at.Done?
    ensures Inv(c, Step(c, s, i), all)
  {
    var t := s.threads[i];
    var s' := Step(c, s, i);
    AdvanceCounts(c, s, t);
    UpdateCounted(s.threads, i, s'.threads[i]);
    forall j | 0 <= j < |s'.threads|
      ensures Sound(c, s'.threads[j]) && Excused(c, s', s'.threads[j])
    {
      StepExcused(c, s, i, all, j);
    }
    forall x
      ensures Conserved(c, s', x, all)
    {
      StepConserves(c, s, i, all, x);
    }
    assert Excused(c, s, t);
  }

  /** The invariant holds in every interleaving of the threads' steps. */
  lemma {:induction false} RunInv<T(!new)>(c: Config<T>, s: Slave<T>, schedule: seq<nat>, all: seq<T>)
    requires c.Valid() && Inv(c, s, all)
    ensures Inv(c, Run(c, s, schedule), all) && |Run(c, s, schedule).threads| == |s.threads|
    decreases schedule
  {
    if |schedule| > 0 {
      var i := schedule[0];
      if i < |s.threads| && !s.threads[i].at.Done? {
        StepInv(c, s, i, all);
        RunInv(c, Step(c, s, i), schedule[1..], all);
      } else {
        RunInv(c, s, schedule[1..], all);
      }
    }
  }

  // ----- the flag

  /** A thread that is about to look at the counter, or to raise the flag. */
  predicate Notices(p: Point) {
    p.CheckLimit? || p.SetFlag? || p.FinalCheck? || p.FinalSet?
  }

  ghost predicate Noticed<T>(c: Config<T>, s: Slave<T>) {
    c.LimitReached(s.counter) ==> s.flag || exists i | 0 <= i < |s.threads| :: Notices(s.threads[i].at)
  }

  lemma StepNoticed<T>(c: Config<T>, s: Slave<T>, i: nat)
    requires Noticed(c, s) && i < |s.threads| && !s.threads[i].at.Done?
    ensures Noticed(c, Step(c, s, i))
  {
    var t, s' := s.threads[i], Step(c, s, i);
    if c.LimitReached(s'.counter) && !s'.flag {
      if t.at.CountFull? || t.at.CountLast? {
        assert Notices(s'.threads[i].at);
      } else {
        var j :| 0 <= j < |s.threads| && Notices(s.threads[j].at);
        assert Notices(s'.threads[j].at);
      }
    }
  }

  /** When all threads are done the flag is up if the limit has been reached. */
  lemma {:induction false} RunNoticed<T>(c: Config<T>, s: Slave<T>, schedule: seq<nat>)
    requires Noticed(c, s)
    ensures Noticed(c, Run(c, s, schedule))
    ensures var s' := Run(c, s, schedule); Finished(s') && c.LimitReached(s'.counter) ==> s'.flag
    decreases schedule
  {
    if |schedule| > 0 {
      var i := schedule[0];
      if i < |s.threads| && !s.threads[i].at.Done? {
        StepNoticed(c, s, i);
        RunNoticed(c, Step(c, s, i), schedule[1..]);
      } else {
        RunNoticed(c, s, schedule[1..]);
      }
    }
  }

  // ----- every run ends

  function Rank(p: Point): nat {
    match p
    case Done => 0 case Terminate => 1 case NextFile => 2 case FinalSet => 3 case FinalCheck => 4
    case CountLast => 5 case SendLast => 6 case Read => 7 case Open => 8 case SetFlag => 9
    case CheckLimit => 10 case CountFull => 11 case SendFull => 12 case CheckFlag => 13
  }

  function ThreadWork<T>(t: Thread<T>): nat {
    10 * |t.rest| + Rank(t.at)
  }

  function ThreadsWork<T>(ts: seq<Thread<T>>): nat {
    if |ts| == 0 then 0 else ThreadWork(ts[0]) + ThreadsWork(ts[1..])
  }

  function FilesWork<T>(files: seq<seq<T>>): nat {
    if |files| == 0 then 0 else 10 * |files[0]| + 10 + FilesWork(files[1..])
  }

  function Work<T>(s: Slave<T>): nat {
    ThreadsWork(s.threads) + FilesWork(s.files)
  }

  lemma {:induction false} UpdateWork<T>(ts: seq<Thread<T>>, i: nat, t: Thread<T>)
    requires i < |ts|
    ensures ThreadsWork(ts[i := t]) == ThreadsWork(ts) + ThreadWork(t) - ThreadWork(ts[i])
  {
    if i == 0 {
      assert ts[0 := t][1..] == ts[1..];
    } else {
      assert ts[i := t][1..] == ts[1..][i - 1 := t];
      UpdateWork(ts[1..], i - 1, t);
    }
  }

  /** Every step of a thread that is not done, and such a thread can always take one, uses up work:
      there is no deadlock and no endless run. */
  lemma StepWorks<T>(c: Config<T>, s: Slave<T>, i: nat)
    requires i < |s.threads| && !s.threads[i].at.Done?
    ensures Work(Step(c, s, i)) < Work(s)
  {
    AdvanceWorks(c, s, s.threads[i]);
    UpdateWork(s.threads, i, Step(c, s, i).threads[i]);
  }

  lemma AdvanceWorks<T>(c: Config<T>, s: Slave<T>, t: Thread<T>)
    requires !t.at.Done?
    ensures var t' := Advance(c, s.files, s.counter, s.flag, t);
      ThreadWork(t') < ThreadWork(t) + if t.at.NextFile? && |s.files| > 0 then 10 * |s.files[0]| + 10 else 0
  {
  }
}
