/**
 * Auction ids without mutual exclusion. List posts the semaphore without having waited, so several
 * processes can be inside at once. Here any number of Opens, of other operations and of Lists run
 * with any permit count, their accesses interleaved in any way. The ids stay dense and no two Opens
 * get the same one, because mkdir decides.
 */
module Allocation {
  import opened Common
  import opened Store
  import opened Programs
  import opened Footprints
  import opened Concurrency

  /** A process. A List is inside without having waited, and posts at its end. */
  datatype Process =
    | Opening(user: string, password: string, offer: Upload)
    | Running(job: Job)
    | Listing(order: set<nat> -> seq<nat>, now: nat)

  ghost predicate IsProcess(p: Process) {
    p.Running? ==> Runnable(p.job) && !(p.job.Plain? && p.job.op.Open?)
  }

  ghost predicate AllProcesses(procs: seq<Process>) { forall i :: 0 <= i < |procs| ==> IsProcess(procs[i]) }

  ghost function ListSection(order: set<nat> -> seq<nat>, now: nat): Section {
    Read((f: Files) => VisitSection(order(f.auctions.Keys), map[], now))
  }

  ghost function FirstTask(p: Process): Task
    requires IsProcess(p)
  {
    match p
    case Opening(u, pw, d) => Out(false, OpenProg(u, pw, d))
    case Running(job) => Out(!Remote(job), ProgOf(job))
    case Listing(order, now) => In(true, ListSection(order, now))
  }

  /** The system, and for each Open the id of the directory it made. */
  datatype State = State(system: System, made: seq<Option<nat>>)

  /** The directory that is new after a step, if there is one. */
  ghost function NewDir(before: Files, after: Files): Option<nat> {
    if exists a :: a in after.auctions && a !in before.auctions
    then var a :| a in after.auctions && a !in before.auctions; Some(a)
    else None
  }

  ghost function Next(s: State, t: Tick): State {
    var system := Step(s.system, t);
    var made := NewDir(s.system.files, system.files);
    State(system, if made.Some? && t.task < |s.made| then s.made[t.task := made] else s.made)
  }

  ghost function Begin(f: Files, permits: nat, procs: seq<Process>): State
    requires AllProcesses(procs)
  {
    State(System(f, permits, seq(|procs|, i requires 0 <= i < |procs| => FirstTask(procs[i])), None),
          seq(|procs|, i => None))
  }

  ghost function After(s: State, ticks: seq<Tick>): State {
    if ticks == [] then s else Next(After(s, ticks[..|ticks| - 1]), ticks[|ticks| - 1])
  }

  // ----- What is not an Open leaves the directories alone -----

  ghost predicate QuietTask(t: Task) {
    match t
    case Out(_, Ret(_)) => true
    case Out(_, Wait(body)) => forall now: nat :: Quiet(body(now), DirectoriesKept)
    case In(_, s) => Quiet(s, DirectoriesKept)
  }

  lemma AccountOpIsQuiet(op: Op, now: nat)
    requires op.Login? || op.Logout? || op.Unregister?
    ensures Quiet(ProgOf(Plain(op)).body(now), DirectoriesKept)
  {
    match op
    case Login(u, p) => QuietLogin(u, p, now);
    case Logout(u, p) => QuietLogout(u, p, Ret(OK));
    case Unregister(u, p) => QuietUnregister(u, p, now);
  }

  lemma AuctionOpIsQuiet(op: Op, now: nat)
    requires op.Close? || op.Bid? || op.ShowRecord?
    ensures Quiet(ProgOf(Plain(op)).body(now), DirectoriesKept)
  {
    var s := ProgOf(Plain(op)).body(now);
    if op.Close? {
      assert Quiet(s, DirectoriesKept) by { QuietClose(op.auction, op.user, op.password, now, DirectoriesKept); }
    } else if op.Bid? {
      assert Quiet(s, DirectoriesKept) by { QuietBid(op.user, op.password, op.auction, op.value, now, DirectoriesKept); }
    } else {
      assert Quiet(s, DirectoriesKept) by { QuietShow(op.auction, now, DirectoriesKept); }
    }
  }

  lemma JobIsQuiet(job: Job, now: nat)
    requires Runnable(job) && !(job.Plain? && job.op.Open?)
    ensures Quiet(ProgOf(job).body(now), DirectoriesKept)
  {
    match job
    case Mine(u, order) => QuietListings(u, order, now, DirectoriesKept);
    case MineBid(u, order) => QuietListings(u, order, now, DirectoriesKept);
    case Plain(op) =>
      if op.Close? || op.Bid? || op.ShowRecord? { AuctionOpIsQuiet(op, now); } else { AccountOpIsQuiet(op, now); }
  }

  /** Every process that is not an Open is quiet from the start. */
  lemma OthersAreQuiet(p: Process)
    requires IsProcess(p) && !p.Opening?
    ensures QuietTask(FirstTask(p))
  {
    match p
    case Running(job) =>
      forall now: nat ensures Quiet(ProgOf(job).body(now), DirectoriesKept) { JobIsQuiet(job, now); }
    case Listing(order, now) =>
      forall ids ensures Quiet(VisitSection(ids, map[], now), DirectoriesKept) {
        QuietVisit(ids, map[], now, DirectoriesKept);
      }
      QuietHere(ListSection(order, now), DirectoriesKept);
  }

  /** And it stays so: none of its accesses, alone or interleaved, makes or removes a directory. */
  lemma OthersStayQuiet(s: System, t: Tick)
    requires t.task < |s.tasks| && QuietTask(s.tasks[t.task])
    ensures Step(s, t).files.auctions.Keys == s.files.auctions.Keys
    ensures QuietTask(Step(s, t).tasks[t.task])
  {
    var task := s.tasks[t.task];
    if task.In? {
      var section := task.section;
      if section.Access? {
        QuietNext(section, DirectoriesKept, s.files);
      } else if Waits(section) {
        forall now: nat ensures Quiet(section.next.body(now), DirectoriesKept) {
          QuietAfterPost(section, DirectoriesKept, now);
        }
      }
    }
  }

  // ----- Where an Open can be -----

  ghost predicate Checking(s: Section, o: Process)
    requires o.Opening?
  {
    exists now: nat ::
      var scan := Scan(o.user, o.offer, now);
      || s == Authorised(o.user, o.password, CREATE_FAIL, scan)
      || s == PasswordCheck(o.user, o.password, CREATE_FAIL, scan)
      || s == scan
  }

  /** About to make directory a, which is at most one past the last one. */
  ghost predicate Making(s: Section, o: Process, n: nat)
    requires o.Opening?
  {
    exists a: nat, now: nat :: 1 <= a <= n + 1 && a <= 999 && s == MakeAuctionDir(o.user, o.offer, a, now)
  }

  /** Directory a is this Open's own. */
  ghost predicate Filling(s: Section, o: Process, a: nat)
    requires o.Opening?
  {
    || s == Register(o.user, a)
    || exists now: nat :: s == FillAuction(o.user, o.offer, a, now)
  }

  /** An answer with an id is the id of the directory made. */
  ghost predicate Honest(r: Reply, made: Option<nat>) {
    r.Code? && r.code > 0 ==> made == Some(r.code)
  }

  ghost predicate InOpen(s: Section, o: Process, n: nat, made: Option<nat>)
    requires o.Opening?
  {
    || (made.None? && (Checking(s, o) || Making(s, o, n)))
    || (made.Some? && Filling(s, o, made.value))
    || (s.Post? && s.next.Ret? && Honest(s.next.reply, made))
  }

  /** Where each process can be, with directories 1 to n. */
  ghost predicate TaskIs(t: Task, o: Process, n: nat, made: Option<nat>) {
    if o.Opening? then OpenTask(t, o, n, made) else made.None? && QuietTask(t)
  }

  ghost predicate OpenTask(t: Task, o: Process, n: nat, made: Option<nat>)
    requires o.Opening?
  {
    match t
    case Out(_, Wait(_)) => made.None? && t.prog == OpenProg(o.user, o.password, o.offer)
    case Out(_, Ret(r)) => Honest(r, made)
    case In(_, s) => InOpen(s, o, n, made)
  }

  ghost predicate Dense(s: State, procs: seq<Process>, n: nat) {
    && n <= 999 && s.system.files.auctions.Keys == FirstIds(n)
    && |s.made| == |s.system.tasks| == |procs|
    && (forall i :: 0 <= i < |procs| ==> TaskIs(s.system.tasks[i], procs[i], n, s.made[i]))
    && (forall i :: 0 <= i < |procs| && s.made[i].Some? ==> 1 <= s.made[i].value <= n)
    && (forall i, j :: 0 <= i < j < |procs| && s.made[i].Some? ==> s.made[i] != s.made[j])
  }

  lemma MoreDirs(t: Task, o: Process, n: nat, made: Option<nat>)
    requires TaskIs(t, o, n, made)
    ensures TaskIs(t, o, n + 1, made)
  {
  }

  /** A step outside mkdir makes no directory and stays on the way. */
  lemma QuietStep(s: Section, o: Process, f: Files, n: nat, made: Option<nat>)
    requires o.Opening? && s.Access? && InOpen(s, o, n, made) && f.auctions.Keys == FirstIds(n)
    requires !Making(s, o, n) || made.Some?
    ensures s.write(f).auctions.Keys == f.auctions.Keys
    ensures InOpen(s.cont(f), o, n, made)
  {
    Refinement.NextIdIs(n);
    if made.None? {
      var now: nat :|
        var scan := Scan(o.user, o.offer, now);
        || s == Authorised(o.user, o.password, CREATE_FAIL, scan)
        || s == PasswordCheck(o.user, o.password, CREATE_FAIL, scan)
        || s == scan;
      if s == Scan(o.user, o.offer, now) && n + 1 <= 999 {
        assert s.cont(f) == MakeAuctionDir(o.user, o.offer, n + 1, now);
        assert Making(s.cont(f), o, n);
      } else if s == Authorised(o.user, o.password, CREATE_FAIL, Scan(o.user, o.offer, now)) && LoggedIn(f.accounts, o.user) {
        assert Checking(s.cont(f), o);
      } else if s == PasswordCheck(o.user, o.password, CREATE_FAIL, Scan(o.user, o.offer, now))
             && CorrectPassword(f.accounts, o.user, o.password) {
        assert Checking(s.cont(f), o);
      }
    } else if s != Register(o.user, made.value) {
      var now: nat :| s == FillAuction(o.user, o.offer, made.value, now);
      assert StartAccepted(o.offer);
    }
  }

  /** mkdir either fails and changes nothing, or makes the directory one past the last. */
  lemma MkdirStep(s: Section, o: Process, f: Files, n: nat)
    requires o.Opening? && Making(s, o, n) && f.auctions.Keys == FirstIds(n)
    ensures var g := s.write(f);
            || (g.auctions.Keys == f.auctions.Keys && InOpen(s.cont(f), o, n, None))
            || (g.auctions.Keys == FirstIds(n + 1) && n + 1 <= 999 && InOpen(s.cont(f), o, n + 1, Some(n + 1)))
  {
    var a: nat, now: nat :| 1 <= a <= n + 1 && a <= 999 && s == MakeAuctionDir(o.user, o.offer, a, now);
    if a !in f.auctions {
      assert a == n + 1;
      assert s.cont(f) == FillAuction(o.user, o.offer, a, now);
      assert Filling(s.cont(f), o, n + 1);
      assert s.write(f).auctions.Keys == FirstIds(n) + {n + 1};
    }
  }

  lemma SameKeysNothingNew(before: Files, after: Files)
    requires before.auctions.Keys == after.auctions.Keys
    ensures NewDir(before, after) == None
  {
    assert forall a :: a in after.auctions ==> a in before.auctions.Keys;
  }

  lemma OneNewDir(before: Files, after: Files, n: nat)
    requires before.auctions.Keys == FirstIds(n) && after.auctions.Keys == FirstIds(n + 1)
    ensures NewDir(before, after) == Some(n + 1)
  {
    assert n + 1 in after.auctions.Keys && n + 1 !in before.auctions.Keys;
    assert forall a :: a in after.auctions && a !in before.auctions ==> a == n + 1;
  }

  /** A step that leaves the directories as they are. */
  lemma DenseQuiet(s: State, procs: seq<Process>, t: Tick, n: nat)
    requires Dense(s, procs, n) && t.task < |procs|
    requires Step(s.system, t).files.auctions.Keys == s.system.files.auctions.Keys
    requires TaskIs(Step(s.system, t).tasks[t.task], procs[t.task], n, s.made[t.task])
    ensures Dense(Next(s, t), procs, n)
  {
    SameKeysNothingNew(s.system.files, Step(s.system, t).files);
  }

  /** The step of an Open that makes directory n + 1. */
  lemma DenseMade(s: State, procs: seq<Process>, t: Tick, n: nat)
    requires Dense(s, procs, n) && t.task < |procs| && n + 1 <= 999 && s.made[t.task].None?
    requires Step(s.system, t).files.auctions.Keys == FirstIds(n + 1)
    requires TaskIs(Step(s.system, t).tasks[t.task], procs[t.task], n + 1, Some(n + 1))
    ensures Dense(Next(s, t), procs, n + 1)
  {
    OneNewDir(s.system.files, Step(s.system, t).files, n);
    var s' := Next(s, t);
    forall i | 0 <= i < |procs| ensures TaskIs(s'.system.tasks[i], procs[i], n + 1, s'.made[i]) {
      if i != t.task {
        MoreDirs(s.system.tasks[i], procs[i], n, s.made[i]);
      }
    }
  }

  lemma OpenDense(s: State, procs: seq<Process>, t: Tick, n: nat)
    requires Dense(s, procs, n) && t.task < |procs| && procs[t.task].Opening?
    ensures Dense(Next(s, t), procs, n) || Dense(Next(s, t), procs, n + 1)
  {
    var i := t.task;
    var task, o, made := s.system.tasks[i], procs[i], s.made[i];
    assert TaskIs(task, o, n, made);
    if task.In? && task.section.Access? {
      var section, f := task.section, s.system.files;
      if made.None? && Making(section, o, n) {
        MkdirStep(section, o, f, n);
        if section.write(f).auctions.Keys == f.auctions.Keys && InOpen(section.cont(f), o, n, None) {
          DenseQuiet(s, procs, t, n);
        } else {
          DenseMade(s, procs, t, n);
        }
      } else {
        QuietStep(section, o, f, n, made);
        DenseQuiet(s, procs, t, n);
      }
    } else {
      if Step(s.system, t) != s.system && task.Out? {
        assert Checking(Step(s.system, t).tasks[i].section, o);
      }
      DenseQuiet(s, procs, t, n);
    }
  }

  lemma DenseStep(s: State, procs: seq<Process>, t: Tick, n: nat)
    requires Dense(s, procs, n)
    ensures Dense(Next(s, t), procs, n) || Dense(Next(s, t), procs, n + 1)
  {
    if t.task >= |procs| {
      SameKeysNothingNew(s.system.files, s.system.files);
    } else if procs[t.task].Opening? {
      OpenDense(s, procs, t, n);
    } else {
      assert TaskIs(s.system.tasks[t.task], procs[t.task], n, s.made[t.task]);
      OthersStayQuiet(s.system, t);
      DenseQuiet(s, procs, t, n);
    }
  }

  lemma {:induction false} DenseAlways(f: Files, permits: nat, procs: seq<Process>, ticks: seq<Tick>, n: nat) returns (m: nat)
    requires n <= 999 && f.auctions.Keys == FirstIds(n) && AllProcesses(procs)
    ensures n <= m && Dense(After(Begin(f, permits, procs), ticks), procs, m)
  {
    var s := Begin(f, permits, procs);
    if ticks == [] {
      m := n;
      forall i | 0 <= i < |procs| ensures TaskIs(s.system.tasks[i], procs[i], n, s.made[i]) {
        if !procs[i].Opening? { OthersAreQuiet(procs[i]); }
      }
    } else {
      var k := |ticks| - 1;
      m := DenseAlways(f, permits, procs, ticks[..k], n);
      DenseStep(After(s, ticks[..k]), procs, ticks[k], m);
      if !Dense(After(s, ticks), procs, m) {
        m := m + 1;
      }
    }
  }

  /** The id that a finished Open returned. */
  ghost predicate Returned(s: State, procs: seq<Process>, i: nat, a: nat) {
    && i < |procs| && i < |s.system.tasks| && procs[i].Opening? && a > 0
    && s.system.tasks[i].Out? && s.system.tasks[i].prog == Ret(Code(a))
  }

  /**
   * Whatever the permit count and the interleaving: the auction directories are always 001 to some
   * number below 1000, none is lost, and two Opens never return the same id.
   */
  lemma IdsDenseAndUnique(f: Files, permits: nat, procs: seq<Process>, ticks: seq<Tick>, n: nat)
    requires n <= 999 && f.auctions.Keys == FirstIds(n) && AllProcesses(procs)
    ensures var s := After(Begin(f, permits, procs), ticks);
            && (exists m :: n <= m <= 999 && s.system.files.auctions.Keys == FirstIds(m))
            && (forall i, a :: Returned(s, procs, i, a) ==> a in s.system.files.auctions && a <= 999)
            && (forall i, j, a :: i != j && Returned(s, procs, i, a) ==> !Returned(s, procs, j, a))
  {
    var m := DenseAlways(f, permits, procs, ticks, n);
    var s := After(Begin(f, permits, procs), ticks);
    forall i: nat, a: nat | Returned(s, procs, i, a) ensures s.made[i] == Some(a) {
      assert TaskIs(s.system.tasks[i], procs[i], m, s.made[i]);
    }
  }
}
