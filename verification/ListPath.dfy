/** The steps of one thread of list mode, whatever it finds in the shared data: what it does to the shared
    data, which files it opens and what it sends. */
module ListPath {
  import opened Ordering
  import opened ListMode

  /** The shared data a step finds. */
  datatype Seen<T> = Seen(files: seq<seq<T>>, counter: nat, flag: bool)

  /** What a thread does to the shared data, with what it finds there. */
  datatype Access = LookFlag(up: bool) | LookCounter(n: nat) | Added(found: nat, n: nat) | Raised

  /** The steps of one thread, each with what it finds. */
  ghost predicate Path<T>(c: Config<T>, t: Thread<T>, seen: seq<Seen<T>>, t': Thread<T>)
    decreases seen
  {
    if |seen| == 0 then t' == t
    else !t.at.Done? && Path(c, Advance(c, seen[0].files, seen[0].counter, seen[0].flag, t), seen[1..], t')
  }

  function After<T>(c: Config<T>, t: Thread<T>, o: Seen<T>): Thread<T>
    requires !t.at.Done?
  {
    Advance(c, o.files, o.counter, o.flag, t)
  }

  /** The access of a step; without a limit the counter is not looked at. */
  function AccessOf<T>(c: Config<T>, t: Thread<T>, o: Seen<T>): seq<Access> {
    match t.at
    case Open | CheckFlag => [LookFlag(o.flag)]
    case CheckLimit | FinalCheck => if c.limit > 0 then [LookCounter(o.counter)] else []
    case CountFull | CountLast => [Added(o.counter, t.uncounted)]
    case SetFlag | FinalSet => [Raised]
    case _ => []
  }

  function OpenedBy<T>(t: Thread<T>, o: Seen<T>): seq<seq<T>> {
    if t.at.NextFile? && |o.files| > 0 then [o.files[0]] else []
  }

  /** The accesses of a path and the files it opens. */
  ghost function AccessesOf<T>(c: Config<T>, t: Thread<T>, seen: seq<Seen<T>>): seq<Access>
    decreases seen
  {
    if |seen| == 0 || t.at.Done? then []
    else AccessOf(c, t, seen[0]) + AccessesOf(c, After(c, t, seen[0]), seen[1..])
  }

  ghost function FilesOf<T>(c: Config<T>, t: Thread<T>, seen: seq<Seen<T>>): seq<seq<T>>
    decreases seen
  {
    if |seen| == 0 || t.at.Done? then []
    else OpenedBy(t, seen[0]) + FilesOf(c, After(c, t, seen[0]), seen[1..])
  }

  /** A thread has taken the steps of a path, with all their accesses in the log, and has opened `files`. */
  ghost predicate Took<T>(c: Config<T>, t: Thread<T>, seen: seq<Seen<T>>, t': Thread<T>, before: seq<Access>,
                          after: seq<Access>, files: seq<seq<T>>) {
    Path(c, t, seen, t') && after == before + AccessesOf(c, t, seen) && FilesOf(c, t, seen) == files
  }

  lemma {:induction false} PathAppend<T>(c: Config<T>, t: Thread<T>, a: seq<Seen<T>>, u: Thread<T>, b: seq<Seen<T>>,
                                         v: Thread<T>)
    requires Path(c, t, a, u) && Path(c, u, b, v)
    ensures Path(c, t, a + b, v)
    ensures AccessesOf(c, t, a + b) == AccessesOf(c, t, a) + AccessesOf(c, u, b)
    ensures FilesOf(c, t, a + b) == FilesOf(c, t, a) + FilesOf(c, u, b)
    decreases a
  {
    if |a| == 0 {
      assert a + b == b;
    } else {
      assert (a + b)[1..] == a[1..] + b;
      PathAppend(c, After(c, t, a[0]), a[1..], u, b, v);
      AppendAssociates(AccessOf(c, t, a[0]), AccessesOf(c, After(c, t, a[0]), a[1..]), AccessesOf(c, u, b));
      AppendAssociates(OpenedBy(t, a[0]), FilesOf(c, After(c, t, a[0]), a[1..]), FilesOf(c, u, b));
    }
  }

  lemma TookAppend<T>(c: Config<T>, t: Thread<T>, a: seq<Seen<T>>, u: Thread<T>, b: seq<Seen<T>>, v: Thread<T>,
                      l0: seq<Access>, l1: seq<Access>, l2: seq<Access>, files: seq<seq<T>>, more: seq<seq<T>>)
    requires Took(c, t, a, u, l0, l1, files) && Took(c, u, b, v, l1, l2, more)
    ensures Took(c, t, a + b, v, l0, l2, files + more)
  {
    PathAppend(c, t, a, u, b, v);
    AppendAssociates(l0, AccessesOf(c, t, a), AccessesOf(c, u, b));
  }

  lemma TookNext<T>(c: Config<T>, t: Thread<T>, a: seq<Seen<T>>, u: Thread<T>, o: Seen<T>,
                    l0: seq<Access>, l1: seq<Access>, l2: seq<Access>, files: seq<seq<T>>)
    requires Took(c, t, a, u, l0, l1, files) && !u.at.Done? && l2 == l1 + AccessOf(c, u, o)
    ensures Took(c, t, a + [o], After(c, u, o), l0, l2, files + OpenedBy(u, o))
  {
    OneStep(c, u, o);
    TookAppend(c, t, a, u, [o], After(c, u, o), l0, l1, l2, files, OpenedBy(u, o));
  }

  lemma OneStep<T>(c: Config<T>, t: Thread<T>, o: Seen<T>)
    requires !t.at.Done?
    ensures Path(c, t, [o], After(c, t, o))
    ensures AccessesOf(c, t, [o]) == AccessOf(c, t, o) && FilesOf(c, t, [o]) == OpenedBy(t, o)
  {
    assert [o][1..] == [];
  }

  /** Nothing that a thread looked at made it stop. */
  ghost predicate Undisturbed<T>(c: Config<T>, log: seq<Access>) {
    forall i | 0 <= i < |log| ::
      !(log[i].LookFlag? && log[i].up) && !(log[i].LookCounter? && c.LimitReached(log[i].n))
  }

  /** No thread raises the flag, and it is down. */
  ghost predicate Calm<T>(s: Slave<T>) {
    !s.flag && forall i | 0 <= i < |s.threads| :: !s.threads[i].at.SetFlag? && !s.threads[i].at.FinalSet?
  }

  lemma StepCalm<T>(c: Config<T>, s: Slave<T>, j: nat)
    requires c.limit == 0 && Calm(s) && j < |s.threads| && !s.threads[j].at.Done?
    ensures Calm(Step(c, s, j)) && Undisturbed(c, AccessOf(c, s.threads[j], Seen(s.files, s.counter, s.flag)))
  {
  }

  /** In every interleaving of a slave's threads each thread takes such steps, and without a limit nothing
      it looks at makes it stop. */
  lemma {:induction false} RunIsPath<T>(c: Config<T>, s: Slave<T>, schedule: seq<nat>, i: nat)
    returns (seen: seq<Seen<T>>)
    requires i < |s.threads|
    ensures i < |Run(c, s, schedule).threads| && Path(c, s.threads[i], seen, Run(c, s, schedule).threads[i])
    ensures c.limit == 0 && Calm(s) ==> Undisturbed(c, AccessesOf(c, s.threads[i], seen))
    decreases schedule
  {
    if |schedule| == 0 {
      seen := [];
    } else {
      var j, rest := schedule[0], schedule[1..];
      if j < |s.threads| && !s.threads[j].at.Done? {
        var more := RunIsPath(c, Step(c, s, j), rest, i);
        if c.limit == 0 && Calm(s) {
          StepCalm(c, s, j);
        }
        seen := if j == i then [Seen(s.files, s.counter, s.flag)] + more else more;
        if j == i {
          RunStep(c, s, i, more);
        }
      } else {
        seen := RunIsPath(c, s, rest, i);
      }
    }
  }

  lemma RunStep<T>(c: Config<T>, s: Slave<T>, i: nat, more: seq<Seen<T>>)
    requires i < |s.threads| && !s.threads[i].at.Done?
    ensures var o := Seen(s.files, s.counter, s.flag);
      var accesses := AccessesOf(c, After(c, s.threads[i], o), more);
      && ([o] + more)[1..] == more && AccessesOf(c, s.threads[i], [o] + more) == AccessOf(c, s.threads[i], o) + accesses
      && (Undisturbed(c, AccessOf(c, s.threads[i], o)) && Undisturbed(c, accesses) ==>
        Undisturbed(c, AccessesOf(c, s.threads[i], [o] + more)))
  {
    var o := Seen(s.files, s.counter, s.flag);
    assert ([o] + more)[1..] == more;
  }

  // ----- what a path sends

  /** What a thread has taken from its files and not given up, in order. */
  function Taken<T>(c: Config<T>, t: Thread<T>): seq<T> {
    Flatten(t.sent) + (t.buffer + (t.hand + Matching(c, t.rest)))
  }

  /** A thread that is not about to raise the flag and meets nothing to stop it gives up nothing. */
  ghost predicate Takes<T>(c: Config<T>, t: Thread<T>, t': Thread<T>, more: seq<T>) {
    Tidy(t') && !t'.at.SetFlag? && t'.lost == t.lost && Taken(c, t') == Taken(c, t) + more
  }

  lemma StepTakes<T>(c: Config<T>, t: Thread<T>, o: Seen<T>)
    requires Tidy(t) && !t.at.Done? && !t.at.SetFlag? && Undisturbed(c, AccessOf(c, t, o))
    ensures Takes(c, t, After(c, t, o), Matching(c, Flatten(OpenedBy(t, o))))
  {
    OpenedOne(c, t, o);
    match t.at
    case NextFile => OpenTakes(c, t, o);
    case Read => ReadTakes(c, t, o);
    case CheckLimit => HandTakes(c, t, o);
    case SendFull => SendTakes(c, t, o);
    case SendLast => SendTakes(c, t, o);
    case Terminate => SendTakes(c, t, o);
    case Open => LookTakes(c, t, o);
    case CheckFlag => LookTakes(c, t, o);
    case _ =>
  }

  lemma OpenTakes<T>(c: Config<T>, t: Thread<T>, o: Seen<T>)
    requires Tidy(t) && t.at.NextFile?
    ensures Takes(c, t, After(c, t, o), if |o.files| > 0 then Matching(c, o.files[0]) else [])
  {
  }

  lemma LookTakes<T>(c: Config<T>, t: Thread<T>, o: Seen<T>)
    requires Tidy(t) && (t.at.Open? || t.at.CheckFlag?) && Undisturbed(c, AccessOf(c, t, o))
    ensures Takes(c, t, After(c, t, o), [])
  {
    var look := AccessOf(c, t, o);
    assert look[0].LookFlag?;
  }

  lemma HandTakes<T>(c: Config<T>, t: Thread<T>, o: Seen<T>)
    requires Tidy(t) && t.at.CheckLimit? && Undisturbed(c, AccessOf(c, t, o))
    ensures Takes(c, t, After(c, t, o), [])
  {
    if c.limit > 0 {
      var look := AccessOf(c, t, o);
      assert look[0].LookCounter?;
    }
  }

  lemma SendTakes<T>(c: Config<T>, t: Thread<T>, o: Seen<T>)
    requires Tidy(t) && (t.at.SendFull? || t.at.SendLast? || t.at.Terminate?)
    ensures Takes(c, t, After(c, t, o), [])
  {
    SentTaken(t.sent, t.buffer);
  }

  lemma SentTaken<T>(sent: seq<seq<T>>, g: seq<T>)
    ensures Flatten(sent + [g]) == Flatten(sent) + g
  {
    FlattenAppend(sent, [g]);
    FlattenOne(g);
  }

  lemma ReadTakes<T>(c: Config<T>, t: Thread<T>, o: Seen<T>)
    requires Tidy(t) && t.at.Read?
    ensures Takes(c, t, After(c, t, o), [])
  {
    if |t.rest| > 0 {
      var r := if c.matches(t.rest[0]) then [t.rest[0]] else [];
      Regroup(Flatten(t.sent), t.buffer, r, Matching(c, t.rest[1..]));
    }
  }

  lemma Regroup<T>(sent: seq<T>, buffer: seq<T>, r: seq<T>, rest: seq<T>)
    ensures sent + (buffer + ([] + (r + rest))) == sent + ((buffer + r) + ([] + rest)) == sent + (buffer + (r + rest))
  {
  }

  lemma {:induction false} PathTakes<T>(c: Config<T>, t: Thread<T>, seen: seq<Seen<T>>, t': Thread<T>)
    requires Path(c, t, seen, t') && Tidy(t) && !t.at.SetFlag? && Undisturbed(c, AccessesOf(c, t, seen))
    ensures t'.lost == t.lost && Taken(c, t') == Taken(c, t) + Matching(c, Flatten(FilesOf(c, t, seen)))
    decreases seen
  {
    if |seen| > 0 {
      var u, first := After(c, t, seen[0]), OpenedBy(t, seen[0]);
      var now, later := AccessOf(c, t, seen[0]), AccessesOf(c, u, seen[1..]);
      UndisturbedParts(c, now, later);
      StepTakes(c, t, seen[0]);
      PathTakes(c, u, seen[1..], t');
      MatchingFiles(c, first, FilesOf(c, u, seen[1..]));
      AppendAssociates(Taken(c, t), Matching(c, Flatten(first)), Matching(c, Flatten(FilesOf(c, u, seen[1..]))));
    }
  }

  lemma UndisturbedParts<T>(c: Config<T>, a: seq<Access>, b: seq<Access>)
    requires Undisturbed(c, a + b)
    ensures Undisturbed(c, a) && Undisturbed(c, b)
  {
    assert forall i | 0 <= i < |a| :: (a + b)[i] == a[i];
    assert forall i | 0 <= i < |b| :: (a + b)[|a| + i] == b[i];
  }

  lemma MatchingFiles<T>(c: Config<T>, a: seq<seq<T>>, b: seq<seq<T>>)
    ensures Matching(c, Flatten(a + b)) == Matching(c, Flatten(a)) + Matching(c, Flatten(b))
  {
    FlattenAppend(a, b);
    MatchingAppend(c, Flatten(a), Flatten(b));
  }

  lemma {:induction false} PathTidy<T>(c: Config<T>, t: Thread<T>, seen: seq<Seen<T>>, t': Thread<T>)
    requires Path(c, t, seen, t') && Tidy(t)
    ensures Tidy(t')
    decreases seen
  {
    if |seen| > 0 {
      var o := seen[0];
      AdvanceTidy(c, Slave(o.files, o.counter, o.flag, []), t);
      PathTidy(c, After(c, t, o), seen[1..], t');
    }
  }

  /** Whatever a thread meets, what it has opened is sent, still held or given up. */
  lemma {:induction false} PathKeeps<T>(c: Config<T>, t: Thread<T>, seen: seq<Seen<T>>, t': Thread<T>, x: T)
    requires Path(c, t, seen, t') && Tidy(t)
    ensures Held(c, x, t') == Held(c, x, t) + Count(x, Matching(c, Flatten(FilesOf(c, t, seen))))
    decreases seen
  {
    if |seen| > 0 {
      var o, u := seen[0], After(c, t, seen[0]);
      var s := Slave(o.files, o.counter, o.flag, []);
      AdvanceTidy(c, s, t);
      AdvanceKeeps(c, s, x, t);
      PathKeeps(c, u, seen[1..], t', x);
      var first, later := OpenedBy(t, o), FilesOf(c, u, seen[1..]);
      MatchingFiles(c, first, later);
      CountConcat(x, Matching(c, Flatten(first)), Matching(c, Flatten(later)));
      OpenedOne(c, t, o);
    }
  }

  lemma OpenedOne<T>(c: Config<T>, t: Thread<T>, o: Seen<T>)
    ensures Matching(c, Flatten(OpenedBy(t, o))) ==
      if t.at.NextFile? && |o.files| > 0 then Matching(c, o.files[0]) else []
  {
    if t.at.NextFile? && |o.files| > 0 {
      FlattenOne(o.files[0]);
    }
  }

  /** How much was added to the counter. */
  function AddedIn(log: seq<Access>): nat {
    if |log| == 0 then 0 else (if log[0].Added? then log[0].n else 0) + AddedIn(log[1..])
  }

  lemma {:induction false} AddedAppend(a: seq<Access>, b: seq<Access>)
    ensures AddedIn(a + b) == AddedIn(a) + AddedIn(b)
  {
    if |a| == 0 {
      assert a + b == b;
    } else {
      assert (a + b)[1..] == a[1..] + b;
      AddedAppend(a[1..], b);
    }
  }

  /** Every record sent is added to the counter, once. */
  lemma {:induction false} PathCounts<T>(c: Config<T>, t: Thread<T>, seen: seq<Seen<T>>, t': Thread<T>)
    requires Path(c, t, seen, t') && Tidy(t)
    ensures AddedIn(AccessesOf(c, t, seen)) == (SentCount(t') - t'.uncounted) - (SentCount(t) - t.uncounted)
    decreases seen
  {
    if |seen| > 0 {
      var o, u := seen[0], After(c, t, seen[0]);
      var s := Slave(o.files, o.counter, o.flag, []);
      AdvanceTidy(c, s, t);
      AdvanceCounts(c, s, t);
      PathCounts(c, u, seen[1..], t');
      AddedAppend(AccessOf(c, t, o), AccessesOf(c, u, seen[1..]));
      AddedOne(c, t, o);
    }
  }

  lemma AddedOne<T>(c: Config<T>, t: Thread<T>, o: Seen<T>)
    ensures AddedIn(AccessOf(c, t, o)) == if t.at.CountFull? || t.at.CountLast? then t.uncounted else 0
  {
  }

  /** Every message of a path fits a buffer and is nonempty, but for the terminator at the end. */
  lemma {:induction false} PathSound<T>(c: Config<T>, t: Thread<T>, seen: seq<Seen<T>>, t': Thread<T>)
    requires c.Valid() && Path(c, t, seen, t') && Sound(c, t)
    ensures Sound(c, t')
    decreases seen
  {
    if |seen| > 0 {
      var o := seen[0];
      AdvanceSound(c, Slave(o.files, o.counter, o.flag, []), t);
      PathSound(c, After(c, t, o), seen[1..], t');
    }
  }

  // ----- from a file's start, or from between two files, to between two files or the end

  ghost predicate Between<T>(t: Thread<T>) {
    Tidy(t) && t.buffer == [] && t.hand == [] && t.uncounted == 0 && !t.at.SetFlag?
  }

  /** What becomes of `read`, which the thread has opened, given its accesses meanwhile: all that matches is
      sent, in order, unless a look at the flag or the counter has stopped the thread; otherwise it is sent
      or given up. What is sent is added to the counter. */
  ghost predicate Handled<T>(c: Config<T>, t: Thread<T>, t': Thread<T>, read: seq<T>, log: seq<Access>) {
    && (Undisturbed(c, log) ==> Flatten(t'.sent) == Flatten(t.sent) + Matching(c, read) && t'.lost == t.lost)
    && multiset(Flatten(t'.sent)) + multiset(t'.lost) ==
       multiset(Flatten(t.sent)) + multiset(t.lost) + multiset(Matching(c, read))
    && AddedIn(log) == |Flatten(t'.sent)| - |Flatten(t.sent)|
  }

  lemma PathHandles<T(!new)>(c: Config<T>, t: Thread<T>, seen: seq<Seen<T>>, t': Thread<T>)
    requires Path(c, t, seen, t') && Between(t) && Between(t') && t'.rest == []
    ensures Handled(c, t, t', t.rest + Flatten(FilesOf(c, t, seen)), AccessesOf(c, t, seen))
  {
    PathCounts(c, t, seen, t');
    PathContents(c, t, seen, t');
    if Undisturbed(c, AccessesOf(c, t, seen)) {
      PathOrder(c, t, seen, t');
    }
  }

  lemma PathOrder<T>(c: Config<T>, t: Thread<T>, seen: seq<Seen<T>>, t': Thread<T>)
    requires Path(c, t, seen, t') && Between(t) && Between(t') && t'.rest == []
    requires Undisturbed(c, AccessesOf(c, t, seen))
    ensures t'.lost == t.lost
    ensures Flatten(t'.sent) == Flatten(t.sent) + Matching(c, t.rest + Flatten(FilesOf(c, t, seen)))
  {
    var left, more := Matching(c, t.rest), Matching(c, Flatten(FilesOf(c, t, seen)));
    PathTakes(c, t, seen, t');
    MatchingAppend(c, t.rest, Flatten(FilesOf(c, t, seen)));
    AppendAssociates(Flatten(t.sent), left, more);
    NothingAhead(c, t);
    NothingAhead(c, t');
  }

  /** Without a limit a thread that is done has sent all that matches in the files it has opened, in order,
      in every interleaving with other threads. */
  lemma UnlimitedInOrder<T>(c: Config<T>, files: seq<seq<T>>, threads: nat, schedule: seq<nat>, i: nat)
    returns (seen: seq<Seen<T>>)
    requires c.limit == 0 && i < threads
    requires var done := Run(c, Start(files, threads), schedule).threads; i < |done| && done[i].at.Done?
    ensures var t := Run(c, Start(files, threads), schedule).threads[i];
      Path(c, Fresh(), seen, t) && Flatten(t.sent) == Matching(c, Flatten(FilesOf(c, Fresh(), seen)))
  {
    var t := Run(c, Start(files, threads), schedule).threads[i];
    seen := RunIsPath(c, Start(files, threads), schedule, i);
    PathTidy(c, Fresh(), seen, t);
    PathOrder(c, Fresh(), seen, t);
    assert [] + Flatten(FilesOf(c, Fresh(), seen)) == Flatten(FilesOf(c, Fresh(), seen));
    assert [] + Matching(c, Flatten(FilesOf(c, Fresh(), seen))) == Flatten(t.sent);
  }

  lemma NothingAhead<T>(c: Config<T>, t: Thread<T>)
    requires t.buffer == [] && t.hand == []
    ensures Taken(c, t) == Flatten(t.sent) + Matching(c, t.rest)
  {
  }

  lemma PathContents<T(!new)>(c: Config<T>, t: Thread<T>, seen: seq<Seen<T>>, t': Thread<T>)
    requires Path(c, t, seen, t') && Between(t) && Between(t') && t'.rest == []
    ensures multiset(Flatten(t'.sent)) + multiset(t'.lost) ==
      multiset(Flatten(t.sent)) + multiset(t.lost) + multiset(Matching(c, t.rest + Flatten(FilesOf(c, t, seen))))
  {
    var read := t.rest + Flatten(FilesOf(c, t, seen));
    forall x
      ensures Count(x, Flatten(t'.sent)) + Count(x, t'.lost) ==
        Count(x, Flatten(t.sent)) + Count(x, t.lost) + Count(x, Matching(c, read))
    {
      ContentsOf(c, t, seen, t', x);
    }
    SameCounts(Flatten(t'.sent), t'.lost, Flatten(t.sent), t.lost, Matching(c, read));
  }

  lemma ContentsOf<T>(c: Config<T>, t: Thread<T>, seen: seq<Seen<T>>, t': Thread<T>, x: T)
    requires Path(c, t, seen, t') && Between(t) && Between(t') && t'.rest == []
    ensures Count(x, Flatten(t'.sent)) + Count(x, t'.lost) ==
      Count(x, Flatten(t.sent)) + Count(x, t.lost) + Count(x, Matching(c, t.rest + Flatten(FilesOf(c, t, seen))))
  {
    PathKeeps(c, t, seen, t', x);
    MatchingAppend(c, t.rest, Flatten(FilesOf(c, t, seen)));
    CountConcat(x, Matching(c, t.rest), Matching(c, Flatten(FilesOf(c, t, seen))));
  }

  lemma SameCounts<T(!new)>(a: seq<T>, b: seq<T>, a': seq<T>, b': seq<T>, more: seq<T>)
    requires forall x :: Count(x, a) + Count(x, b) == Count(x, a') + Count(x, b') + Count(x, more)
    ensures multiset(a) + multiset(b) == multiset(a') + multiset(b') + multiset(more)
  {
    forall x
      ensures (multiset(a) + multiset(b))[x] == (multiset(a') + multiset(b') + multiset(more))[x]
    {
      assert Count(x, a) + Count(x, b) == Count(x, a') + Count(x, b') + Count(x, more);
    }
  }
}
