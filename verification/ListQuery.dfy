/** List mode from the files to the printed records: several slaves with several threads each, and
    the master that receives from all threads. */
module ListQuery {
  import opened Ordering
  import opened Interleaving
  import opened Transport
  import opened Delivery
  import opened ListMode

  /** One slave's part: its files, its number of threads and the order of their steps. */
  datatype Job<T> = Job(files: seq<seq<T>>, threads: nat, schedule: seq<nat>)

  function Outcome<T>(c: Config<T>, job: Job<T>): Slave<T> {
    Run(c, Start(job.files, job.threads), job.schedule)
  }

  /** A slave uses at most as many threads as it has files, and at least one. */
  ghost predicate Complete<T>(c: Config<T>, job: Job<T>) {
    0 < job.threads && Finished(Outcome(c, job))
  }

  function Sents<T>(ts: seq<Thread<T>>): (r: seq<seq<seq<T>>>)
    ensures |r| == |ts|
  {
    seq(|ts|, i requires 0 <= i < |ts| => ts[i].sent)
  }

  function Groups<T>(ts: seq<Thread<T>>): (r: seq<seq<seq<T>>>)
    ensures |r| == |ts|
  {
    seq(|ts|, i requires 0 <= i < |ts| => DataMessages(ts[i]))
  }

  function Records<T>(ts: seq<Thread<T>>): seq<T> {
    Flatten(Contents(Sents(ts)))
  }

  function Lost<T>(ts: seq<Thread<T>>): seq<T> {
    if |ts| == 0 then [] else ts[0].lost + Lost(ts[1..])
  }

  lemma RecordsOfFirst<T>(ts: seq<Thread<T>>)
    requires |ts| > 0
    ensures Records(ts) == Flatten(ts[0].sent) + Records(ts[1..])
  {
    assert Contents(Sents(ts))[1..] == Contents(Sents(ts[1..]));
  }

  lemma DoneHeld<T>(c: Config<T>, x: T, t: Thread<T>)
    requires t.at.Done? && Sound(c, t)
    ensures Held(c, x, t) == Count(x, Flatten(t.sent)) + Count(x, t.lost)
    ensures t.uncounted == 0
  {
  }

  lemma {:induction false} DoneSums<T>(c: Config<T>, x: T, ts: seq<Thread<T>>)
    requires forall i | 0 <= i < |ts| :: ts[i].at.Done? && Sound(c, ts[i])
    ensures AllHeld(c, x, ts) == Count(x, Records(ts)) + Count(x, Lost(ts))
  {
    if |ts| > 0 {
      DoneSums(c, x, ts[1..]);
      RecordsOfFirst(ts);
      DoneHeld(c, x, ts[0]);
      CountConcat(x, Flatten(ts[0].sent), Records(ts[1..]));
      CountConcat(x, ts[0].lost, Lost(ts[1..]));
    }
  }

  lemma {:induction false} DoneCounted<T>(c: Config<T>, ts: seq<Thread<T>>)
    requires forall i | 0 <= i < |ts| :: ts[i].at.Done? && Sound(c, ts[i])
    ensures Counted(ts) == |Records(ts)|
  {
    if |ts| > 0 {
      DoneCounted(c, ts[1..]);
      RecordsOfFirst(ts);
      assert Sound(c, ts[0]) && ts[0].at.Done?;
    }
  }

  lemma {:induction false} LostMember<T>(ts: seq<Thread<T>>)
    requires forall i | 0 <= i < |ts| :: |ts[i].lost| == 0
    ensures Lost(ts) == []
  {
    if |ts| > 0 {
      LostMember(ts[1..]);
    }
  }

  /** A slave that is done has sent every matching record, or at least as many as are wanted; the flag is
      up just in the latter case. */
  lemma SlaveDone<T(!new)>(c: Config<T>, job: Job<T>)
    requires c.Valid() && Complete(c, job)
    ensures var ts := Outcome(c, job).threads;
      && |ts| == job.threads
      && multiset(Matching(c, Flatten(job.files))) == multiset(Records(ts)) + multiset(Lost(ts))
      && (Lost(ts) != [] ==> c.LimitReached(|Records(ts)|))
      && (Outcome(c, job).flag <==> 0 < c.limit <= |Records(ts)|)
      && NoEmptyMessage(Groups(ts)) && Sents(ts) == Queues(Groups(ts)) && MessagesFit(c, ts)
  {
    var start, s := Start(job.files, job.threads), Outcome(c, job);
    var all := Matching(c, Flatten(job.files));
    StartInv(c, job.files, job.threads);
    RunInv(c, start, job.schedule, all);
    var ts := s.threads;
    assert Excused(c, s, ts[0]) && ts[0].at.Done?;
    RunNoticed(c, start, job.schedule);
    DoneCounted(c, ts);
    DoneExcused(c, s, all);
    DoneContents(c, s, all);
    DoneQueues(c, ts);
  }

  lemma DoneContents<T(!new)>(c: Config<T>, s: Slave<T>, all: seq<T>)
    requires Inv(c, s, all) && Finished(s) && |s.files| == 0
    ensures multiset(all) == multiset(Records(s.threads)) + multiset(Lost(s.threads))
  {
    forall x
      ensures multiset(all)[x] == multiset(Records(s.threads))[x] + multiset(Lost(s.threads))[x]
    {
      DoneSums(c, x, s.threads);
      assert Conserved(c, s, x, all);
    }
  }

  lemma DoneExcused<T(!new)>(c: Config<T>, s: Slave<T>, all: seq<T>)
    requires Inv(c, s, all) && Finished(s)
    ensures Lost(s.threads) != [] ==> c.LimitReached(|Records(s.threads)|)
  {
    DoneCounted(c, s.threads);
    if forall i | 0 <= i < |s.threads| :: |s.threads[i].lost| == 0 {
      LostMember(s.threads);
    }
  }

  /** No message of records exceeds the buffer. */
  ghost predicate MessagesFit<T>(c: Config<T>, ts: seq<Thread<T>>) {
    forall t, g | t in ts && g in DataMessages(t) :: |g| * (c.recordBytes + 4) <= XCHG_BUFF_SIZE
  }

  lemma DoneQueues<T>(c: Config<T>, ts: seq<Thread<T>>)
    requires forall i | 0 <= i < |ts| :: ts[i].at.Done? && Sound(c, ts[i])
    ensures NoEmptyMessage(Groups(ts)) && Sents(ts) == Queues(Groups(ts)) && MessagesFit(c, ts)
  {
    forall i | 0 <= i < |ts|
      ensures Sents(ts)[i] == Queues(Groups(ts))[i] && [] !in Groups(ts)[i]
    {
      assert ts[i].at.Done? && Sound(c, ts[i]);
    }
  }

  // ----- all slaves

  function Threads<T>(c: Config<T>, jobs: seq<Job<T>>): seq<Thread<T>> {
    if |jobs| == 0 then [] else Outcome(c, jobs[0]).threads + Threads(c, jobs[1..])
  }

  function AllMatching<T>(c: Config<T>, jobs: seq<Job<T>>): seq<T> {
    if |jobs| == 0 then [] else Matching(c, Flatten(jobs[0].files)) + AllMatching(c, jobs[1..])
  }

  lemma RecordsAppend<T>(a: seq<Thread<T>>, b: seq<Thread<T>>)
    ensures Records(a + b) == Records(a) + Records(b)
  {
    assert Contents(Sents(a + b)) == Contents(Sents(a)) + Contents(Sents(b));
    FlattenAppend(Contents(Sents(a)), Contents(Sents(b)));
  }

  ghost predicate ProperQueues<T>(ts: seq<Thread<T>>) {
    NoEmptyMessage(Groups(ts)) && Sents(ts) == Queues(Groups(ts))
  }

  lemma ProperQueuesAppend<T>(a: seq<Thread<T>>, b: seq<Thread<T>>)
    requires ProperQueues(a) && ProperQueues(b)
    ensures ProperQueues(a + b)
  {
    forall i | 0 <= i < |a + b|
      ensures [] !in Groups(a + b)[i] && Sents(a + b)[i] == Queues(Groups(a + b))[i]
    {
      if i < |a| {
        assert [] !in Groups(a)[i] && Sents(a)[i] == Queues(Groups(a))[i];
      } else {
        assert [] !in Groups(b)[i - |a|] && Sents(b)[i - |a|] == Queues(Groups(b))[i - |a|];
      }
    }
  }

  /** What was not sent is made up for by slaves that sent enough. */
  ghost predicate Accounted<T>(c: Config<T>, matching: seq<T>, sent: seq<T>, lost: seq<T>) {
    && multiset(matching) == multiset(sent) + multiset(lost)
    && (lost != [] ==> c.LimitReached(|sent|))
  }

  lemma AccountedAppend<T>(c: Config<T>, m: seq<T>, s: seq<T>, l: seq<T>, m': seq<T>, s': seq<T>, l': seq<T>)
    requires Accounted(c, m, s, l) && Accounted(c, m', s', l')
    ensures Accounted(c, m + m', s + s', l + l')
  {
  }

  lemma {:induction false} SlavesDone<T(!new)>(c: Config<T>, jobs: seq<Job<T>>) returns (lost: seq<T>)
    requires c.Valid() && forall i | 0 <= i < |jobs| :: Complete(c, jobs[i])
    ensures Accounted(c, AllMatching(c, jobs), Records(Threads(c, jobs)), lost)
    ensures ProperQueues(Threads(c, jobs)) && MessagesFit(c, Threads(c, jobs))
    decreases jobs
  {
    if |jobs| == 0 {
      lost := [];
    } else {
      assert Complete(c, jobs[0]);
      SlaveDone(c, jobs[0]);
      var more := SlavesDone(c, jobs[1..]);
      var ts, rest := Outcome(c, jobs[0]).threads, Threads(c, jobs[1..]);
      RecordsAppend(ts, rest);
      ProperQueuesAppend(ts, rest);
      lost := Lost(ts) + more;
      AccountedAppend(c, Matching(c, Flatten(jobs[0].files)), Records(ts), Lost(ts), AllMatching(c, jobs[1..]),
        Records(rest), more);
    }
  }

  /** Whatever the steps of the threads and the interleaving of the messages, the records printed
      are matching records, each at most as often as it matches, and exactly as many as the limit
      allows: all of them without a limit. */
  lemma ListExact<T(!new)>(c: Config<T>, jobs: seq<Job<T>>, arrivals: seq<(nat, seq<T>)>, printed: seq<T>)
    requires c.Valid() && forall i | 0 <= i < |jobs| :: Complete(c, jobs[i])
    requires Interleaves(arrivals, Sents(Threads(c, jobs)))
    requires printed == Cut(Flatten(Untag(arrivals)), c.limit)
    ensures |printed| == |Cut(AllMatching(c, jobs), c.limit)|
    ensures multiset(printed) <= multiset(AllMatching(c, jobs))
    ensures Terminators(Untag(arrivals)) == |Threads(c, jobs)|
  {
    var ts := Threads(c, jobs);
    var lost := SlavesDone(c, jobs);
    ArrivedTerminators(Groups(ts), arrivals);
    SpreadInterleaves(arrivals, Sents(ts));
    UntagSpread(arrivals);
    InterleavesContents(Spread(arrivals), Contents(Sents(ts)));
    PrintedEnough(c, AllMatching(c, jobs), Records(ts), lost, Flatten(Untag(arrivals)));
  }

  /** The first records received are as many as the limit allows, whatever was given up. */
  lemma PrintedEnough<T>(c: Config<T>, matching: seq<T>, sent: seq<T>, lost: seq<T>, received: seq<T>)
    requires Accounted(c, matching, sent, lost) && multiset(received) == multiset(sent)
    ensures var printed := Cut(received, c.limit);
      |printed| == |Cut(matching, c.limit)| && multiset(printed) <= multiset(matching)
  {
    var printed := Cut(received, c.limit);
    SameSize(received, sent);
    SameSize(matching, sent + lost);
    assert received == printed + received[|printed|..];
  }

  lemma SameSize<T>(a: seq<T>, b: seq<T>)
    requires multiset(a) == multiset(b)
    ensures |a| == |b|
  {
    assert |multiset(a)| == |multiset(b)|;
  }
}
