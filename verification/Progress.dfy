/**
 * Nobody waits for nothing: from any point of any schedule, a process that is let run alone leaves
 * its critical section, and one that waits while a permit is free is answered.
 */
module Progress {
  import opened Common
  import opened Programs
  import opened Concurrency

  /** The schedule goes on with steps of process i alone, at any clock. */
  ghost predicate OnlyBy(ticks: seq<Tick>, all: seq<Tick>, i: nat, clock: nat -> nat) {
    && ticks <= all
    && forall j :: |ticks| <= j < |all| ==> all[j] == Tick(i, clock(j))
  }

  ghost function OneMore(ticks: seq<Tick>, i: nat, clock: nat -> nat): (all: seq<Tick>)
    ensures OnlyBy(ticks, all, i, clock) && all != [] && all[..|all| - 1] == ticks && all[|all| - 1] == Tick(i, clock(|ticks|))
  {
    ticks + [Tick(i, clock(|ticks|))]
  }

  lemma OnlyByTwice(ticks: seq<Tick>, some: seq<Tick>, all: seq<Tick>, i: nat, clock: nat -> nat)
    requires OnlyBy(ticks, some, i, clock) && OnlyBy(some, all, i, clock)
    ensures OnlyBy(ticks, all, i, clock)
  {
  }

  /** The section runs to its stop; nothing but the files and the process itself has changed. */
  lemma {:induction false} SectionEnds(jobs: seq<Job>, ticks: seq<Tick>, i: nat, clock: nat -> nat, n: nat)
    returns (all: seq<Tick>)
    requires AllRunnable(jobs) && i < |jobs|
    requires Exec(jobs, ticks).tasks[i].In?
    requires !Finish(Exec(jobs, ticks).tasks[i].section, Exec(jobs, ticks).files, n).1.Access?
    ensures OnlyBy(ticks, all, i, clock)
    ensures var s, t := Exec(jobs, ticks), Exec(jobs, all);
            && t.tasks[i] == In(s.tasks[i].udp, Finish(s.tasks[i].section, s.files, n).1)
            && t.permits == s.permits && t.serving == s.serving
    ensures Trace(jobs, all) == Trace(jobs, ticks)
    decreases n
  {
    var s := Exec(jobs, ticks);
    if s.tasks[i].section.Access? {
      var next := OneMore(ticks, i, clock);
      all := SectionEnds(jobs, next, i, clock, n - 1);
      OnlyByTwice(ticks, next, all, i, clock);
    } else {
      all := ticks;
    }
  }

  /** Whoever is inside gets, alone, to its sem_post or to an exit that forgets it. */
  lemma InsideFinishes(jobs: seq<Job>, ticks: seq<Tick>, i: nat, clock: nat -> nat)
    returns (all: seq<Tick>)
    requires AllRunnable(jobs) && i < |jobs| && Exec(jobs, ticks).tasks[i].In?
    ensures OnlyBy(ticks, all, i, clock)
    ensures var s, t := Exec(jobs, ticks), Exec(jobs, all);
            && t.tasks[i].In? && !t.tasks[i].section.Access? && t.tasks[i].udp == s.tasks[i].udp
            && t.permits == s.permits && t.serving == s.serving
            && Trace(jobs, all) == Trace(jobs, ticks)
            && StopOk(Trace(jobs, all), i, jobs[i], t.tasks[i].section)
  {
    var s, log := Exec(jobs, ticks), Trace(jobs, ticks);
    ConsistentAlways(jobs, ticks);
    assert TaskOk(jobs[i], s.tasks[i], s.files, log, i);
    var section := s.tasks[i].section;
    var g, stop :| Ends(section, s.files, g, stop) && StopOk(log, i, jobs[i], stop);
    var n: nat :| Finish(section, s.files, n) == (g, stop);
    all := SectionEnds(jobs, ticks, i, clock, n);
  }

  /** How many sections an Unregister has before it; for the others this bounds it. */
  function Left(stage: Stage, i: nat): nat {
    match stage
    case Idle => 3
    case Checked(j) => if j == i then 2 else 3
    case Erasing(j, _) => if j == i then 1 else 3
  }

  /** A process waits, a permit is free, and the UDP process is not at another request. */
  ghost predicate CanGoIn(jobs: seq<Job>, s: System, i: nat) {
    && i < |jobs| && i < |s.tasks| && s.tasks[i].Out? && s.tasks[i].prog.Wait? && s.permits > 0
    && (s.serving == None || s.serving == Some(i) || Remote(jobs[i]))
  }

  /** The process has its answer, and unless its last exit forgot it, the permit is back. */
  predicate Served(s: System, i: nat) {
    i < |s.tasks| && AnswerOf(s.tasks[i]).Some? && (s.tasks[i].Out? ==> s.permits > 0)
  }

  /** A waiting process for which a permit is free gets in. */
  lemma GoesIn(jobs: seq<Job>, ticks: seq<Tick>, i: nat, clock: nat -> nat)
    requires AllRunnable(jobs) && CanGoIn(jobs, Exec(jobs, ticks), i)
    ensures var s, t := Exec(jobs, ticks), Exec(jobs, OneMore(ticks, i, clock));
            && t.tasks[i].In? && t.tasks[i].udp == !Remote(jobs[i])
            && (t.tasks[i].udp ==> t.serving == Some(i))
            && var log, more := Trace(jobs, ticks), Trace(jobs, OneMore(ticks, i, clock));
               !About(more, i) || Left(more.stage, i) < Left(log.stage, i)
  {
    var s, log := Exec(jobs, ticks), Trace(jobs, ticks);
    ConsistentAlways(jobs, ticks);
    assert TaskOk(jobs[i], s.tasks[i], s.files, log, i);
    assert Trace(jobs, OneMore(ticks, i, clock)) == Begin(log, i, jobs[i], s.files, clock(|ticks|));
  }

  /** One section of a waiting process: it is answered, or waits for its next section. */
  lemma OneSection(jobs: seq<Job>, ticks: seq<Tick>, i: nat, clock: nat -> nat)
    returns (all: seq<Tick>)
    requires AllRunnable(jobs) && CanGoIn(jobs, Exec(jobs, ticks), i)
    ensures OnlyBy(ticks, all, i, clock)
    ensures || Served(Exec(jobs, all), i)
            || (CanGoIn(jobs, Exec(jobs, all), i)
                && Left(Trace(jobs, all).stage, i) < Left(Trace(jobs, ticks).stage, i))
  {
    var inside := OneMore(ticks, i, clock);
    GoesIn(jobs, ticks, i, clock);
    var ended := InsideFinishes(jobs, inside, i, clock);
    OnlyByTwice(ticks, inside, ended, i, clock);
    if Exec(jobs, ended).tasks[i].section.Leave? {
      all := ended;
    } else {
      all := OneMore(ended, i, clock);
      OnlyByTwice(ticks, ended, all, i, clock);
      assert Exec(jobs, all) == Step(Exec(jobs, ended), Tick(i, clock(|ended|)));
    }
  }

  lemma {:induction false} GetAnswer(jobs: seq<Job>, ticks: seq<Tick>, i: nat, clock: nat -> nat)
    returns (all: seq<Tick>)
    requires AllRunnable(jobs) && i < |jobs|
    requires var s := Exec(jobs, ticks);
             && s.tasks[i].Out? && s.tasks[i].prog.Wait? && s.permits > 0
             && (s.serving == None || s.serving == Some(i)
                 || (jobs[i].Plain? && (jobs[i].op.Open? || jobs[i].op.Close? || jobs[i].op.Bid?)))
    ensures OnlyBy(ticks, all, i, clock)
    ensures AnswerOf(Exec(jobs, all).tasks[i]).Some?
    ensures Exec(jobs, all).tasks[i].Out? ==> Exec(jobs, all).permits > 0
    decreases Left(Trace(jobs, ticks).stage, i)
  {
    all := OneSection(jobs, ticks, i, clock);
    if !Served(Exec(jobs, all), i) {
      var some := all;
      all := GetAnswer(jobs, some, i, clock);
      OnlyByTwice(ticks, some, all, i, clock);
    }
  }

  /**
   * Whenever a permit is free and the UDP process is idle, or at this request, or the request is a
   * TCP one: some steps of the waiting process alone get it its answer, and unless its exit forgets
   * to post, the permit is free again.
   */
  lemma WaitingIsAnswered(jobs: seq<Job>, ticks: seq<Tick>, i: nat, clock: nat -> nat)
    requires AllRunnable(jobs) && i < |jobs|
    requires var s := Exec(jobs, ticks);
             && s.tasks[i].Out? && s.tasks[i].prog.Wait? && s.permits > 0
             && (s.serving == None || s.serving == Some(i)
                 || (jobs[i].Plain? && (jobs[i].op.Open? || jobs[i].op.Close? || jobs[i].op.Bid?)))
    ensures exists all ::
              && OnlyBy(ticks, all, i, clock)
              && AnswerOf(Exec(jobs, all).tasks[i]).Some?
              && (Exec(jobs, all).tasks[i].Out? ==> Exec(jobs, all).permits > 0)
  {
    var all := GetAnswer(jobs, ticks, i, clock);
  }

  /** The request that the UDP process is at has not been answered and let go. */
  lemma {:induction false} ServingIsUnderWay(jobs: seq<Job>, ticks: seq<Tick>)
    requires AllRunnable(jobs)
    ensures var s := Exec(jobs, ticks);
            s.serving.Some? ==>
              && s.serving.value < |s.tasks|
              && (s.tasks[s.serving.value].In? || s.tasks[s.serving.value].prog.Wait?)
  {
    if ticks != [] {
      ServingIsUnderWay(jobs, ticks[..|ticks| - 1]);
    }
  }

  /** Some process has left its critical section without posting. */
  ghost predicate PermitLost(s: System) { exists j :: 0 <= j < |s.tasks| && s.tasks[j].In? && s.tasks[j].section.Leave? }

  /** Whoever is inside goes on to its post; then the permit is free, unless it forgets it. */
  lemma EmptyTheSection(jobs: seq<Job>, ticks: seq<Tick>, clock: nat -> nat) returns (all: seq<Tick>)
    requires AllRunnable(jobs)
    ensures ticks <= all && (PermitLost(Exec(jobs, all)) || Exec(jobs, all).permits > 0)
    ensures forall i :: 0 <= i < |jobs| && Exec(jobs, ticks).tasks[i].Out? ==> Exec(jobs, all).tasks[i] == Exec(jobs, ticks).tasks[i]
  {
    var s, log := Exec(jobs, ticks), Trace(jobs, ticks);
    ConsistentAlways(jobs, ticks);
    HolderIsATask(jobs, ticks);
    all := ticks;
    if log.holder.Some? {
      var i := log.holder.value;
      HolderIsIn(jobs, s, log, i);
      var ended := InsideFinishes(jobs, ticks, i, clock);
      OthersStay(jobs, ticks, ended, i, clock);
      if Exec(jobs, ended).tasks[i].section.Leave? {
        all := ended;
      } else {
        all := OneMore(ended, i, clock);
        assert Exec(jobs, all) == Step(Exec(jobs, ended), Tick(i, clock(|ended|)));
      }
    }
  }

  lemma {:induction false} OthersStay(jobs: seq<Job>, ticks: seq<Tick>, all: seq<Tick>, i: nat, clock: nat -> nat)
    requires AllRunnable(jobs) && OnlyBy(ticks, all, i, clock)
    ensures forall j :: 0 <= j < |jobs| && j != i ==> Exec(jobs, all).tasks[j] == Exec(jobs, ticks).tasks[j]
    decreases |all|
  {
    if |all| > |ticks| {
      var n := |all| - 1;
      assert OnlyBy(ticks, all[..n], i, clock);
      OthersStay(jobs, ticks, all[..n], i, clock);
    } else {
      assert all == ticks;
    }
  }

  lemma NobodyInWithPermits(jobs: seq<Job>, ticks: seq<Tick>, j: nat)
    requires AllRunnable(jobs) && j < |jobs| && Exec(jobs, ticks).permits > 0
    ensures Exec(jobs, ticks).tasks[j].Out?
  {
    ConsistentAlways(jobs, ticks);
    assert TaskOk(jobs[j], Exec(jobs, ticks).tasks[j], Exec(jobs, ticks).files, Trace(jobs, ticks), j);
  }

  /** The UDP request under way, if there is one, gets its answer, and makes room for the next. */
  lemma FinishServing(jobs: seq<Job>, ticks: seq<Tick>, i: nat, clock: nat -> nat) returns (all: seq<Tick>)
    requires AllRunnable(jobs) && i < |jobs| && Exec(jobs, ticks).permits > 0
    requires Exec(jobs, ticks).tasks[i].Out? && Exec(jobs, ticks).tasks[i].prog.Wait?
    ensures ticks <= all
    ensures PermitLost(Exec(jobs, all)) || CanGoIn(jobs, Exec(jobs, all), i)
  {
    var s := Exec(jobs, ticks);
    all := ticks;
    ServingIsUnderWay(jobs, ticks);
    if s.serving.Some? && s.serving.value != i {
      var j := s.serving.value;
      assert s.tasks[j].Out? by { NobodyInWithPermits(jobs, ticks, j); }
      all := GetAnswer(jobs, ticks, j, clock);
      OthersStay(jobs, ticks, all, j, clock);
      ServingIsUnderWay(jobs, all);
      ServingStays(jobs, ticks, all, j, clock);
    }
  }

  /** While only j runs, the UDP process is at j or at nobody. */
  lemma {:induction false} ServingStays(jobs: seq<Job>, ticks: seq<Tick>, all: seq<Tick>, j: nat, clock: nat -> nat)
    requires AllRunnable(jobs) && OnlyBy(ticks, all, j, clock)
    requires Exec(jobs, ticks).serving == None || Exec(jobs, ticks).serving == Some(j)
    ensures Exec(jobs, all).serving == None || Exec(jobs, all).serving == Some(j)
    decreases |all|
  {
    if |all| > |ticks| {
      var n := |all| - 1;
      assert OnlyBy(ticks, all[..n], j, clock);
      ServingStays(jobs, ticks, all[..n], j, clock);
    } else {
      assert all == ticks;
    }
  }

  /**
   * No deadlock: from any point of any schedule, for every process that still waits, the schedule
   * can go on so that it is answered, unless some process loses the permit for good.
   */
  lemma NobodyWaitsForNothing(jobs: seq<Job>, ticks: seq<Tick>, i: nat, clock: nat -> nat)
    requires AllRunnable(jobs) && i < |jobs|
    requires Exec(jobs, ticks).tasks[i].Out? && Exec(jobs, ticks).tasks[i].prog.Wait?
    ensures exists all :: ticks <= all && (AnswerOf(Exec(jobs, all).tasks[i]).Some? || PermitLost(Exec(jobs, all)))
  {
    var empty := EmptyTheSection(jobs, ticks, clock);
    if PermitLost(Exec(jobs, empty)) {
      assert ticks <= empty;
    } else {
      var free := FinishServing(jobs, empty, i, clock);
      if PermitLost(Exec(jobs, free)) {
        assert ticks <= free;
      } else {
        var all := GetAnswer(jobs, free, i, clock);
        assert ticks <= all;
      }
    }
  }
}
