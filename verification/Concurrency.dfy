/**
 * Any number of server processes, the UDP one and the TCP children, share the files and the
 * semaphore. A schedule interleaves their single file-system accesses in any way, only that the UDP
 * process serves one request at a time. As long as no List runs, every schedule gives the answers
 * and the files of a sequential run of the same calls, in the order in which they got the
 * semaphore; Unregister, with its three critical sections, counts as one call. So all of History
 * and Sessions holds for concurrent runs too.
 */
module Concurrency {
  import opened Common
  import opened Text
  import opened Store
  import opened Ledger
  import opened Refinement
  import opened History
  import opened Programs
  import opened Footprints

  // ----- Between the sections of Unregister -----

  /** The operations that TCP children run. */
  predicate Tcp(op: Op) { op.Open? || op.Close? || op.Bid? }

  function Erased(f: Files, u: string): Files { f.(accounts := ErasePassword(f.accounts, u).0) }

  ghost predicate Blind(f: Files, u: string, op: Op, now: nat) {
    var r, e := Do(f, op, now), Do(Erased(f, u), op, now);
    e == Outcome(Erased(r.files, u), r.reply, r.permits) && r.files.accounts == f.accounts
  }

  lemma OpenIsBlind(f: Files, u: string, op: Op, now: nat)
    requires op.Open? && ValidUser(u) && u in f.accounts && !f.accounts[u].loggedIn
    ensures Blind(f, u, op, now)
  {
  }

  lemma CloseIsBlind(f: Files, u: string, op: Op, now: nat)
    requires op.Close? && ValidUser(u) && u in f.accounts && !f.accounts[u].loggedIn
    ensures Blind(f, u, op, now)
  {
  }

  lemma BidIsBlind(f: Files, u: string, op: Op, now: nat)
    requires op.Bid? && ValidUser(u) && u in f.accounts && !f.accounts[u].loggedIn
    ensures Blind(f, u, op, now)
  {
  }

  /** A TCP operation cannot tell whether a logged-out user still has a password file. */
  lemma TcpIsBlind(f: Files, u: string, op: Op, now: nat)
    requires Tcp(op) && ValidUser(u) && u in f.accounts && !f.accounts[u].loggedIn
    ensures Blind(f, u, op, now)
  {
    if op.Open? { OpenIsBlind(f, u, op, now); }
    else if op.Close? { CloseIsBlind(f, u, op, now); }
    else { BidIsBlind(f, u, op, now); }
  }

  /** Alone, the sections of UnregisterProg check, log out and erase. */
  lemma UnregisterSections(u: string, p: string, f: Files, now: nat, next: Prog)
    ensures Ends(CheckSection(u, p, next), f, f, if CorrectPassword(f.accounts, u, p) then Post(next) else Done(NOK))
    ensures var (out, reply) := LogoutAccount(f.accounts, u, p);
            Ends(LogoutSection(u, p, next), f, f.(accounts := out), if reply == OK then Post(next) else Done(reply))
    ensures Ends(EraseSection(u), f, Erased(f, u), Done(ErasePassword(f.accounts, u).1))
  {
    var (out, reply) := LogoutAccount(f.accounts, u, p);
    assert Finish(CheckSection(u, p, next), f, 5) == (f, if CorrectPassword(f.accounts, u, p) then Post(next) else Done(NOK));
    assert Finish(LogoutSection(u, p, next), f, 5) ==
           (f.(accounts := out), if reply == OK then Post(next) else Done(reply));
    assert Finish(EraseSection(u), f, 5) == (Erased(f, u), Done(ErasePassword(f.accounts, u).1));
  }

  // ----- Jobs -----

  /** What a process runs; an Open carries a Store.Upload. A listing job carries the order in which directories list their entries. */
  datatype Job =
    | Plain(op: Op)
    | Mine(user: string, order: set<nat> -> seq<nat>)
    | MineBid(user: string, order: set<nat> -> seq<nat>)

  ghost predicate Runnable(job: Job) {
    match job
    case Plain(op) => !op.MyAuctions? && !op.MyBids? && !op.List?
    case Mine(_, order) => Lists(order)
    case MineBid(_, order) => Lists(order)
  }

  predicate Remote(job: Job) { job.Plain? && Tcp(job.op) }

  predicate Unregisters(job: Job) { job.Plain? && job.op.Unregister? }

  ghost function ProgOf(job: Job): (p: Prog)
    requires Runnable(job)
    ensures p.Wait?
  {
    match job
    case Mine(u, order) => MyAuctionsProg(u, order)
    case MineBid(u, order) => MyBidsProg(u, order)
    case Plain(op) =>
      match op
      case Login(u, p) => LoginProg(u, p)
      case Logout(u, p) => LogoutProg(u, p)
      case Unregister(u, p) => UnregisterProg(u, p)
      case Open(u, p, d) => OpenProg(u, p, d)
      case Close(a, u, p) => CloseProg(a, u, p)
      case Bid(u, p, a, v) => BidProg(u, p, a, v)
      case ShowRecord(a) => ShowProg(a)
  }

  /** The sequential call that the job amounts to when it finds files f. */
  function OpOf(job: Job, f: Files): Op {
    match job
    case Plain(op) => op
    case Mine(u, order) => MyAuctions(u, if u in f.hosted then Reached(f, order(f.hosted[u])) else {})
    case MineBid(u, order) => MyBids(u, if u in f.bidded then Reached(f, order(f.bidded[u])) else {})
  }

  lemma JobComputes(job: Job, f: Files, now: nat)
    requires Runnable(job) && !Unregisters(job)
    ensures Computes(ProgOf(job).body(now), f, Do(f, OpOf(job, f), now))
  {
    match job
    case Mine(u, order) => MyAuctionsComputes(u, order, f, now);
    case MineBid(u, order) => MyBidsComputes(u, order, f, now);
    case Plain(op) =>
      match op
      case Login(u, p) => LoginComputes(u, p, f, now);
      case Logout(u, p) => LogoutComputes(u, p, f, now);
      case Open(u, p, d) => OpenComputes(u, p, d, f, now);
      case Close(a, u, p) => CloseComputes(a, u, p, f, now);
      case Bid(u, p, a, v) => BidComputes(u, p, a, v, f, now);
      case ShowRecord(a) => ShowComputes(a, f, now);
  }

  /** No access of a plain operation's, from files where logins have passwords, breaks that. */
  lemma JobKeepsLogins(job: Job, f: Files, now: nat)
    requires Runnable(job) && !Unregisters(job) && LoginsHavePasswords(f.accounts)
    ensures KeepsLogins(ProgOf(job).body(now), f)
  {
    if job.Plain? && job.op.Login? {
      LoginKeepsLogins(job.op.user, job.op.password, f, now);
    } else if job.Plain? && job.op.Logout? {
      UnregisterKeepsLogins(job.op.user, job.op.password, f, Ret(OK));
    } else {
      JobKeepsAccounts(job, now);
      QuietKeepsLogins(ProgOf(job).body(now), f);
    }
  }

  lemma JobKeepsAccounts(job: Job, now: nat)
    requires Runnable(job) && (job.Plain? ==> !job.op.Login? && !job.op.Logout? && !job.op.Unregister?)
    ensures Quiet(ProgOf(job).body(now), AccountsKept)
  {
    match job
    case Mine(u, order) => QuietListings(u, order, now, AccountsKept);
    case MineBid(u, order) => QuietListings(u, order, now, AccountsKept);
    case Plain(op) =>
      match op
      case Open(u, p, d) => QuietOpen(u, p, d, now);
      case Close(a, u, p) => QuietClose(a, u, p, now, AccountsKept);
      case Bid(u, p, a, v) => QuietBid(u, p, a, v, now, AccountsKept);
      case ShowRecord(a) => QuietShow(a, now, AccountsKept);
  }

  // ----- The system -----

  datatype Task = Out(udp: bool, prog: Prog) | In(udp: bool, section: Section)

  /** `serving` is the request that the UDP process is at. */
  datatype System = System(files: Files, permits: nat, tasks: seq<Task>, serving: Option<nat>)

  /** The scheduler lets a task make one step, at a clock reading. */
  datatype Tick = Tick(task: nat, now: nat)

  predicate MayAcquire(s: System, i: nat)
    requires i < |s.tasks|
  {
    s.permits > 0 && (s.tasks[i].udp ==> s.serving == None || s.serving == Some(i))
  }

  predicate Acquires(s: System, t: Tick) {
    t.task < |s.tasks| && s.tasks[t.task].Out? && s.tasks[t.task].prog.Wait? && MayAcquire(s, t.task)
  }

  function Step(s: System, t: Tick): System {
    if t.task >= |s.tasks| then s
    else
      match s.tasks[t.task]
      case Out(_, Ret(_)) => s
      case Out(udp, Wait(body)) =>
        if !MayAcquire(s, t.task) then s
        else s.(permits := s.permits - 1, tasks := s.tasks[t.task := In(udp, body(t.now))],
                serving := if udp then Some(t.task) else s.serving)
      case In(_, Leave(_)) => s
      case In(udp, Post(next)) =>
        s.(permits := s.permits + 1, tasks := s.tasks[t.task := Out(udp, next)],
           serving := if next.Ret? && s.serving == Some(t.task) then None else s.serving)
      case In(udp, Access(write, cont)) =>
        s.(files := write(s.files), tasks := s.tasks[t.task := In(udp, cont(s.files))])
  }

  ghost predicate AllRunnable(jobs: seq<Job>) { forall i :: 0 <= i < |jobs| ==> Runnable(jobs[i]) }

  ghost function Start(jobs: seq<Job>): System
    requires AllRunnable(jobs)
  {
    System(NO_FILES, 1, seq(|jobs|, i requires 0 <= i < |jobs| => Out(!Remote(jobs[i]), ProgOf(jobs[i]))), None)
  }

  ghost function Exec(jobs: seq<Job>, ticks: seq<Tick>): (s: System)
    requires AllRunnable(jobs)
    ensures |s.tasks| == |jobs|
  {
    if ticks == [] then Start(jobs)
    else
      var n := |ticks| - 1;
      Step(Exec(jobs, ticks[..n]), ticks[n])
  }

  // ----- The sequential run behind a schedule -----

  /** How far an Unregister is: password checked, or logged out with the password still to be erased. */
  datatype Stage = Idle | Checked(task: nat) | Erasing(task: nat, user: string)

  /** The tasks in the order in which they took effect, the calls they amount to, and who is inside. */
  datatype Log = Log(order: seq<nat>, calls: seq<Call>, holder: Option<nat>, stage: Stage)

  const NO_LOG := Log([], [], None, Idle)

  /**
   * Task i gets the semaphore and finds files f. Its call takes effect there; that of an Unregister
   * with the right password only at its second section.
   */
  function Begin(log: Log, i: nat, job: Job, f: Files, now: nat): Log {
    var whole := Log(log.order + [i], log.calls + [Call(OpOf(job, f), now)], Some(i), log.stage);
    if !Unregisters(job) then whole
    else
      var u, p := job.op.user, job.op.password;
      if log.stage == Erasing(i, u) then log.(holder := Some(i), stage := Idle)
      else if log.stage == Checked(i) then
        whole.(stage := if LogoutAccount(f.accounts, u, p).1 == OK then Erasing(i, u) else Idle)
      else if CorrectPassword(f.accounts, u, p) then log.(holder := Some(i), stage := Checked(i))
      else whole
  }

  ghost function Trace(jobs: seq<Job>, ticks: seq<Tick>): Log
    requires AllRunnable(jobs)
  {
    if ticks == [] then NO_LOG
    else
      var n := |ticks| - 1;
      var log, s, t := Trace(jobs, ticks[..n]), Exec(jobs, ticks[..n]), ticks[n];
      if Acquires(s, t) then Begin(log, t.task, jobs[t.task], s.files, t.now)
      else if t.task < |s.tasks| && s.tasks[t.task].In? && s.tasks[t.task].section.Post? then log.(holder := None)
      else log
  }

  // ----- The invariant -----

  /** What the sequential run holds when the files are g: a password that is about to go is gone. */
  function View(log: Log, g: Files): Files {
    if log.stage.Erasing? then Erased(g, log.stage.user) else g
  }

  predicate About(log: Log, i: nat) { !log.stage.Idle? && log.stage.task == i }

  /** The user whom Unregister has logged out still has a password file to erase. */
  predicate Erasable(log: Log, g: Files) {
    log.stage.Erasing? ==>
      var u := log.stage.user;
      ValidUser(u) && u in g.accounts && !g.accounts[u].loggedIn && g.accounts[u].password.Some?
  }

  /** Some call of the sequential run is task i's, and r is its answer. */
  ghost predicate Answered(log: Log, i: nat, r: Reply) {
    exists k :: 0 <= k < |log.order| && k < |log.calls| && log.order[k] == i && r == Answer(log.calls[..k], log.calls[k])
  }

  /** What task i does after a section of its. */
  ghost predicate NextOk(log: Log, i: nat, job: Job, next: Prog) {
    match next
    case Ret(r) => Answered(log, i, r) && !About(log, i)
    case Wait(_) =>
      && Unregisters(job)
      && var u, p := job.op.user, job.op.password;
         || (log.stage == Checked(i) && i !in log.order && next == LogoutThenErase(u, p))
         || (log.stage == Erasing(i, u) && Answered(log, i, OK) && next == EraseProg(u))
  }

  ghost predicate StopOk(log: Log, i: nat, job: Job, stop: Section) {
    match stop
    case Access(_, _) => false
    case Post(next) => NextOk(log, i, job, next)
    case Leave(r) => Answered(log, i, r) && !About(log, i)
  }

  /** The section, alone, ends in files that are the sequential run's. */
  ghost predicate Leads(section: Section, f: Files, log: Log, i: nat, job: Job) {
    exists g, stop :: Ends(section, f, g, stop) && View(log, g) == Run(log.calls) && Erasable(log, g) && StopOk(log, i, job, stop)
  }

  ghost predicate TaskOk(job: Job, task: Task, f: Files, log: Log, i: nat)
    requires Runnable(job)
  {
    && task.udp == !Remote(job)
    && match task
       case Out(_, prog) =>
         && log.holder != Some(i)
         && ((prog == ProgOf(job) && i !in log.order && !About(log, i)) || NextOk(log, i, job, prog))
       case In(_, section) => log.holder == Some(i) && Leads(section, f, log, i, job) && KeepsLogins(section, f)
  }

  ghost predicate TasksOk(jobs: seq<Job>, tasks: seq<Task>, f: Files, log: Log)
    requires AllRunnable(jobs) && |tasks| == |jobs|
  {
    forall i :: 0 <= i < |jobs| ==> TaskOk(jobs[i], tasks[i], f, log, i)
  }

  /** The call is the job's. */
  predicate IsCallOf(job: Job, op: Op) {
    match job
    case Plain(o) => op == o
    case Mine(u, _) => op.MyAuctions? && op.user == u
    case MineBid(u, _) => op.MyBids? && op.user == u
  }

  ghost predicate CallsOk(jobs: seq<Job>, log: Log) {
    && |log.order| == |log.calls|
    && forall k :: 0 <= k < |log.order| ==> log.order[k] < |jobs| && IsCallOf(jobs[log.order[k]], log.calls[k].op)
  }

  /** Each process takes effect at most once, as a call of its own. */
  ghost predicate OneCallEach(jobs: seq<Job>, log: Log) {
    && CallsOk(jobs, log)
    && forall j, k :: 0 <= j < k < |log.order| ==> log.order[j] != log.order[k]
  }

  ghost predicate LogOk(jobs: seq<Job>, s: System, log: Log) {
    && OneCallEach(jobs, log)
    && LoginsHavePasswords(s.files.accounts)
    && s.permits == (if log.holder.None? then 1 else 0)
    && (log.holder.None? ==> View(log, s.files) == Run(log.calls) && Erasable(log, s.files))
    && (!log.stage.Idle? ==>
          var i := log.stage.task;
          i < |jobs| && Unregisters(jobs[i]) && s.serving == Some(i)
          && (log.stage.Erasing? ==> log.stage.user == jobs[i].op.user))
  }

  ghost predicate Consistent(jobs: seq<Job>, s: System, log: Log) {
    AllRunnable(jobs) && |s.tasks| == |jobs| && LogOk(jobs, s, log) && TasksOk(jobs, s.tasks, s.files, log)
  }

  // ----- Steps -----

  /** The log has grown by task i's doing only. */
  ghost predicate Grows(log: Log, more: Log, i: nat) {
    && |log.order| == |log.calls| && |more.order| == |more.calls|
    && log.order <= more.order && log.calls <= more.calls
    && (forall j <- more.order :: j in log.order || j == i)
    && (more.stage == log.stage || forall j :: j != i ==> !About(log, j) && !About(more, j))
  }

  lemma AnsweredStays(log: Log, more: Log, i: nat, j: nat, r: Reply)
    requires Grows(log, more, i) && Answered(log, j, r)
    ensures Answered(more, j, r)
  {
    var k :| 0 <= k < |log.order| && k < |log.calls| && log.order[k] == j && r == Answer(log.calls[..k], log.calls[k]);
    assert more.order[k] == j && more.calls[..k] == log.calls[..k] && more.calls[k] == log.calls[k];
  }

  /** A task that does not move stays as it should be. */
  lemma OtherTask(job: Job, task: Task, f: Files, g: Files, log: Log, more: Log, i: nat, j: nat)
    requires Runnable(job) && TaskOk(job, task, f, log, j) && task.Out?
    requires j != i && Grows(log, more, i) && more.holder != Some(j)
    ensures TaskOk(job, task, g, more, j)
  {
    if NextOk(log, j, job, task.prog) {
      if task.prog.Ret? {
        AnsweredStays(log, more, i, j, task.prog.reply);
      } else {
        assert About(log, j) && more.stage == log.stage;
        if log.stage.Erasing? { AnsweredStays(log, more, i, j, OK); }
      }
    } else {
      assert !About(more, j);
    }
  }

  lemma OtherTasks(jobs: seq<Job>, s: System, log: Log, more: Log, i: nat, task: Task, g: Files)
    requires Consistent(jobs, s, log) && i < |jobs| && (log.holder.None? || log.holder == Some(i))
    requires Grows(log, more, i) && (more.holder.None? || more.holder == Some(i))
    requires TaskOk(jobs[i], task, g, more, i)
    ensures TasksOk(jobs, s.tasks[i := task], g, more)
  {
    forall j | 0 <= j < |jobs| ensures TaskOk(jobs[j], s.tasks[i := task][j], g, more, j) {
      assert TaskOk(jobs[j], s.tasks[j], s.files, log, j);
      if j != i { OtherTask(jobs[j], s.tasks[j], s.files, g, log, more, i, j); }
    }
  }

  /** The answer that the last call of the log has got. */
  lemma LastAnswered(log: Log, i: nat, c: Call)
    requires |log.order| == |log.calls|
    ensures var more := Log(log.order + [i], log.calls + [c], Some(i), log.stage);
            forall stage :: Answered(more.(stage := stage), i, Answer(log.calls, c))
    ensures Run(log.calls + [c]) == Do(Run(log.calls), c.op, c.now).files
  {
    var k := |log.calls|;
    assert (log.calls + [c])[..k] == log.calls && (log.calls + [c])[k] == c;
    forall stage ensures Answered(Log(log.order + [i], log.calls + [c], Some(i), stage), i, Answer(log.calls, c)) {
      assert (log.order + [i])[k] == i;
    }
  }

  /** Task i of a plain operation gets the semaphore: the operation's call is next. */
  lemma BeginWhole(jobs: seq<Job>, s: System, log: Log, i: nat, now: nat)
    requires Consistent(jobs, s, log) && Acquires(s, Tick(i, now)) && !Unregisters(jobs[i])
    ensures Leads(s.tasks[i].prog.body(now), s.files, Begin(log, i, jobs[i], s.files, now), i, jobs[i])
  {
    var job, f := jobs[i], s.files;
    assert TaskOk(job, s.tasks[i], f, log, i);
    var c := Call(OpOf(job, f), now);
    var more := Begin(log, i, job, f, now);
    var r := Do(f, c.op, now);
    JobComputes(job, f, now);
    LastAnswered(log, i, c);
    if log.stage.Erasing? {
      assert Remote(job);
      TcpIsBlind(f, log.stage.user, c.op, now);
    }
    assert View(more, r.files) == Run(more.calls) && Erasable(more, r.files);
    assert Answered(more, i, r.reply);
    assert StopOk(more, i, job, StopOf(r));
  }

  /** The first section of an Unregister: a wrong password ends it. */
  lemma BeginCheck(jobs: seq<Job>, s: System, log: Log, i: nat, now: nat)
    requires Consistent(jobs, s, log) && Acquires(s, Tick(i, now)) && Unregisters(jobs[i])
    requires s.tasks[i].prog == ProgOf(jobs[i]) && i !in log.order && !About(log, i)
    ensures Leads(s.tasks[i].prog.body(now), s.files, Begin(log, i, jobs[i], s.files, now), i, jobs[i])
  {
    var job, f := jobs[i], s.files;
    var u, p := job.op.user, job.op.password;
    var more := Begin(log, i, job, f, now);
    assert TaskOk(job, s.tasks[i], f, log, i) && log.stage == Idle;
    UnregisterSections(u, p, f, now, LogoutThenErase(u, p));
    if CorrectPassword(f.accounts, u, p) {
      assert StopOk(more, i, job, Post(LogoutThenErase(u, p)));
    } else {
      var c := Call(job.op, now);
      LastAnswered(log, i, c);
      NoNewDir(f, f.accounts);
      assert Answered(more, i, NOK) && StopOk(more, i, job, Done(NOK));
    }
  }

  /** The second: from here on the sequential run has the user unregistered, if it is logged in. */
  lemma BeginLogout(jobs: seq<Job>, s: System, log: Log, i: nat, now: nat)
    requires Consistent(jobs, s, log) && Acquires(s, Tick(i, now)) && Unregisters(jobs[i])
    requires log.stage == Checked(i) && i !in log.order
    requires s.tasks[i].prog == LogoutThenErase(jobs[i].op.user, jobs[i].op.password)
    ensures Leads(s.tasks[i].prog.body(now), s.files, Begin(log, i, jobs[i], s.files, now), i, jobs[i])
  {
    var job, f := jobs[i], s.files;
    var u, p := job.op.user, job.op.password;
    var more := Begin(log, i, job, f, now);
    assert TaskOk(job, s.tasks[i], f, log, i);
    UnregisterSections(u, p, f, now, EraseProg(u));
    LastAnswered(log, i, Call(job.op, now));
    LogoutIsUnregister(f, u, p, now);
    var (out, reply) := LogoutAccount(f.accounts, u, p);
    var g := f.(accounts := out);
    assert Answered(more, i, reply);
    assert View(more, g) == Run(more.calls) && Erasable(more, g);
    assert StopOk(more, i, job, if reply == OK then Post(EraseProg(u)) else Done(reply));
  }

  /** Unregister answers as its Logout; where that is OK, it erases the password as well. */
  lemma LogoutIsUnregister(f: Files, u: string, p: string, now: nat)
    ensures var (out, reply) := LogoutAccount(f.accounts, u, p);
            var g := f.(accounts := out);
            && Do(f, Unregister(u, p), now) == Outcome(if reply == OK then Erased(g, u) else g, reply, 0)
            && (reply == OK ==> ValidUser(u) && u in out && !out[u].loggedIn && out[u].password.Some?)
  {
    NoNewDir(f, UnregisterAccount(f.accounts, u, p).0);
  }

  /** The third: the files catch up with the sequential run. */
  lemma BeginErase(jobs: seq<Job>, s: System, log: Log, i: nat, now: nat)
    requires Consistent(jobs, s, log) && Acquires(s, Tick(i, now)) && Unregisters(jobs[i])
    requires log.stage == Erasing(i, jobs[i].op.user) && Answered(log, i, OK)
    requires s.tasks[i].prog == EraseProg(jobs[i].op.user)
    ensures Leads(s.tasks[i].prog.body(now), s.files, Begin(log, i, jobs[i], s.files, now), i, jobs[i])
  {
    var job, f := jobs[i], s.files;
    var u, p := job.op.user, job.op.password;
    var more := Begin(log, i, job, f, now);
    assert TaskOk(job, s.tasks[i], f, log, i);
    UnregisterSections(u, p, f, now, EraseProg(u));
    assert Grows(log, more, i);
    AnsweredStays(log, more, i, i, OK);
    assert View(more, Erased(f, u)) == Run(more.calls);
    assert StopOk(more, i, job, Done(OK));
  }

  lemma BeginLeads(jobs: seq<Job>, s: System, log: Log, i: nat, now: nat)
    requires Consistent(jobs, s, log) && Acquires(s, Tick(i, now))
    ensures Leads(s.tasks[i].prog.body(now), s.files, Begin(log, i, jobs[i], s.files, now), i, jobs[i])
  {
    assert TaskOk(jobs[i], s.tasks[i], s.files, log, i);
    if !Unregisters(jobs[i]) { BeginWhole(jobs, s, log, i, now); }
    else if log.stage == Checked(i) { BeginLogout(jobs, s, log, i, now); }
    else if About(log, i) { BeginErase(jobs, s, log, i, now); }
    else { BeginCheck(jobs, s, log, i, now); }
  }

  lemma BeginKeepsLogins(jobs: seq<Job>, s: System, log: Log, i: nat, now: nat)
    requires Consistent(jobs, s, log) && Acquires(s, Tick(i, now))
    ensures KeepsLogins(s.tasks[i].prog.body(now), s.files)
  {
    var job, f := jobs[i], s.files;
    assert TaskOk(job, s.tasks[i], f, log, i);
    if !Unregisters(job) {
      JobKeepsLogins(job, f, now);
    } else {
      var u, p := job.op.user, job.op.password;
      UnregisterKeepsLogins(u, p, f, LogoutThenErase(u, p));
      UnregisterKeepsLogins(u, p, f, EraseProg(u));
    }
  }

  lemma BeginGrows(jobs: seq<Job>, s: System, log: Log, i: nat, now: nat)
    requires Consistent(jobs, s, log) && Acquires(s, Tick(i, now))
    ensures Grows(log, Begin(log, i, jobs[i], s.files, now), i)
  {
    assert TaskOk(jobs[i], s.tasks[i], s.files, log, i);
  }

  lemma BeginCalls(jobs: seq<Job>, s: System, log: Log, i: nat, now: nat)
    requires Consistent(jobs, s, log) && Acquires(s, Tick(i, now))
    ensures OneCallEach(jobs, Begin(log, i, jobs[i], s.files, now))
  {
    assert TaskOk(jobs[i], s.tasks[i], s.files, log, i);
  }

  lemma BeginLogOk(jobs: seq<Job>, s: System, log: Log, i: nat, now: nat)
    requires Consistent(jobs, s, log) && Acquires(s, Tick(i, now))
    ensures LogOk(jobs, Step(s, Tick(i, now)), Begin(log, i, jobs[i], s.files, now))
  {
    assert TaskOk(jobs[i], s.tasks[i], s.files, log, i);
    assert OneCallEach(jobs, Begin(log, i, jobs[i], s.files, now)) by { BeginCalls(jobs, s, log, i, now); }
  }

  /** Getting the semaphore starts the process's call, that of an Unregister at its second section. */
  lemma AcquireStep(jobs: seq<Job>, s: System, log: Log, t: Tick)
    requires Consistent(jobs, s, log) && Acquires(s, t)
    ensures Consistent(jobs, Step(s, t), Begin(log, t.task, jobs[t.task], s.files, t.now))
  {
    var i := t.task;
    var more := Begin(log, i, jobs[i], s.files, t.now);
    var task := In(s.tasks[i].udp, s.tasks[i].prog.body(t.now));
    assert TaskOk(jobs[i], task, s.files, more, i) by {
      assert TaskOk(jobs[i], s.tasks[i], s.files, log, i);
      BeginLeads(jobs, s, log, i, t.now);
      BeginKeepsLogins(jobs, s, log, i, t.now);
    }
    assert TasksOk(jobs, s.tasks[i := task], s.files, more) by {
      BeginGrows(jobs, s, log, i, t.now);
      OtherTasks(jobs, s, log, more, i, task, s.files);
    }
    BeginLogOk(jobs, s, log, i, t.now);
  }

  /** One access: the section still leads to the sequential run's files. */
  lemma AccessStep(jobs: seq<Job>, s: System, log: Log, t: Tick)
    requires Consistent(jobs, s, log)
    requires t.task < |s.tasks| && s.tasks[t.task].In? && s.tasks[t.task].section.Access?
    ensures Consistent(jobs, Step(s, t), log)
  {
    var i := t.task;
    var section := s.tasks[i].section;
    var task, g := In(s.tasks[i].udp, section.cont(s.files)), section.write(s.files);
    assert TaskOk(jobs[i], s.tasks[i], s.files, log, i);
    var h, stop :| Ends(section, s.files, h, stop) && View(log, h) == Run(log.calls) && Erasable(log, h) && StopOk(log, i, jobs[i], stop);
    EndsStep(section, s.files, h, stop);
    LoginsNext(section, s.files);
    assert Leads(task.section, g, log, i, jobs[i]);
    OtherTasks(jobs, s, log, log, i, task, g);
  }

  /** sem_post: the files are the sequential run's. */
  lemma PostStep(jobs: seq<Job>, s: System, log: Log, t: Tick)
    requires Consistent(jobs, s, log)
    requires t.task < |s.tasks| && s.tasks[t.task].In? && s.tasks[t.task].section.Post?
    ensures Consistent(jobs, Step(s, t), log.(holder := None))
  {
    var i := t.task;
    var section := s.tasks[i].section;
    var more, task := log.(holder := None), Out(s.tasks[i].udp, section.next);
    assert TaskOk(jobs[i], s.tasks[i], s.files, log, i);
    var h, stop :| Ends(section, s.files, h, stop) && View(log, h) == Run(log.calls) && Erasable(log, h) && StopOk(log, i, jobs[i], stop);
    var m: nat :| Finish(section, s.files, m) == (h, stop);
    assert section == stop && s.files == h;
    assert NextOk(log, i, jobs[i], section.next);
    HolderMoves(log, None, i, jobs[i], section.next);
    OtherTasks(jobs, s, log, more, i, task, s.files);
  }

  lemma HolderMoves(log: Log, holder: Option<nat>, i: nat, job: Job, next: Prog)
    requires NextOk(log, i, job, next) && |log.order| == |log.calls|
    ensures NextOk(log.(holder := holder), i, job, next)
    ensures Grows(log, log.(holder := holder), i)
  {
    var more := log.(holder := holder);
    if Answered(log, i, OK) { AnsweredStays(log, more, i, i, OK); }
    if next.Ret? { AnsweredStays(log, more, i, i, next.reply); }
  }

  lemma {:induction false} ConsistentAlways(jobs: seq<Job>, ticks: seq<Tick>)
    requires AllRunnable(jobs)
    ensures Consistent(jobs, Exec(jobs, ticks), Trace(jobs, ticks))
  {
    if ticks == [] {
      assert Run([]) == NO_FILES;
      assert Consistent(jobs, Start(jobs), NO_LOG);
    } else {
      var n := |ticks| - 1;
      ConsistentAlways(jobs, ticks[..n]);
      var s, t, log := Exec(jobs, ticks[..n]), ticks[n], Trace(jobs, ticks[..n]);
      if Acquires(s, t) {
        AcquireStep(jobs, s, log, t);
      } else if t.task < |s.tasks| && s.tasks[t.task].In? {
        if s.tasks[t.task].section.Access? {
          AccessStep(jobs, s, log, t);
        } else if s.tasks[t.task].section.Post? {
          PostStep(jobs, s, log, t);
        }
      }
    }
  }

  // ----- What follows for concurrent runs -----

  ghost predicate ClockedTicks(ticks: seq<Tick>) {
    && (forall i :: 0 <= i < |ticks| ==> ticks[i].now < WORD)
    && (forall i, j :: 0 <= i < j < |ticks| ==> ticks[i].now <= ticks[j].now)
  }

  lemma {:induction false} CallsAreClocked(jobs: seq<Job>, ticks: seq<Tick>)
    requires AllRunnable(jobs) && ClockedTicks(ticks)
    ensures Clocked(Trace(jobs, ticks).calls)
    ensures forall k :: 0 <= k < |Trace(jobs, ticks).calls| ==> ticks != [] && Trace(jobs, ticks).calls[k].now <= ticks[|ticks| - 1].now
  {
    if ticks != [] {
      var n := |ticks| - 1;
      CallsAreClocked(jobs, ticks[..n]);
      var calls, more := Trace(jobs, ticks[..n]).calls, Trace(jobs, ticks).calls;
      assert more == calls || (|more| == |calls| + 1 && more[..|calls|] == calls && more[|calls|].now == ticks[n].now);
      forall k | 0 <= k < |calls| ensures more[k] == calls[k] && calls[k].now <= ticks[n].now {
        assert ticks[..n][n - 1] == ticks[n - 1];
      }
    }
  }

  /** The answer a task has, whether or not its semaphore went back. */
  function AnswerOf(t: Task): Option<Reply> {
    match t
    case Out(_, Ret(r)) => Some(r)
    case In(_, Leave(r)) => Some(r)
    case _ => None
  }

  /** Every answer is the sequential run's, also of a process that kept the permit. */
  lemma AnswerIsSequential(jobs: seq<Job>, s: System, log: Log, i: nat)
    requires Consistent(jobs, s, log) && i < |jobs| && AnswerOf(s.tasks[i]).Some?
    ensures Answered(log, i, AnswerOf(s.tasks[i]).value)
  {
    assert TaskOk(jobs[i], s.tasks[i], s.files, log, i);
    if s.tasks[i].In? {
      var section := s.tasks[i].section;
      var g, stop :| Ends(section, s.files, g, stop) && View(log, g) == Run(log.calls) && Erasable(log, g) && StopOk(log, i, jobs[i], stop);
      var m: nat :| Finish(section, s.files, m) == (g, stop);
      assert section == stop;
    }
  }

  ghost predicate LedgerAnswered(log: Log, i: nat, r: Reply) {
    exists k :: 0 <= k < |log.order| && k < |log.calls| && log.order[k] == i
                && r == Act(Replay(log.calls[..k]), log.calls[k].op, log.calls[k].now).1
  }

  lemma AnsweredByTheLedger(log: Log, i: nat, r: Reply)
    requires |log.order| == |log.calls| && Clocked(log.calls) && Answered(log, i, r)
    ensures LedgerAnswered(log, i, r)
  {
    var k :| 0 <= k < |log.order| && k < |log.calls| && log.order[k] == i && r == Answer(log.calls[..k], log.calls[k]);
    PrefixAnswer(log.calls, k);
  }

  lemma PrefixAnswer(calls: seq<Call>, k: nat)
    requires Clocked(calls) && k < |calls|
    ensures Answer(calls[..k], calls[k]) == Act(Replay(calls[..k]), calls[k].op, calls[k].now).1
  {
    var before, c := calls[..k], calls[k];
    assert before + [c] == calls[..k + 1];
    AnswersAreTheLedgers(before, c);
  }

  /** Nobody is in the middle of a section: those inside are about to post, or have forgotten to. */
  ghost predicate NobodyWrites(s: System) {
    forall i :: 0 <= i < |s.tasks| ==> s.tasks[i].In? ==> !s.tasks[i].section.Access?
  }

  ghost predicate AtMostOneIn(s: System) {
    forall i, j :: 0 <= i < |s.tasks| && 0 <= j < |s.tasks| && s.tasks[i].In? && s.tasks[j].In? ==> i == j
  }

  lemma OneIn(jobs: seq<Job>, s: System, log: Log)
    requires Consistent(jobs, s, log)
    ensures AtMostOneIn(s)
  {
    forall i, j | 0 <= i < |s.tasks| && 0 <= j < |s.tasks| && s.tasks[i].In? && s.tasks[j].In? ensures i == j {
      assert TaskOk(jobs[i], s.tasks[i], s.files, log, i) && TaskOk(jobs[j], s.tasks[j], s.files, log, j);
    }
  }

  lemma HolderIsIn(jobs: seq<Job>, s: System, log: Log, i: nat)
    requires Consistent(jobs, s, log) && i < |jobs| && log.holder == Some(i)
    ensures s.tasks[i].In?
  {
    assert TaskOk(jobs[i], s.tasks[i], s.files, log, i);
  }

  lemma {:induction false} HolderIsATask(jobs: seq<Job>, ticks: seq<Tick>)
    requires AllRunnable(jobs)
    ensures Trace(jobs, ticks).holder.Some? ==> Trace(jobs, ticks).holder.value < |jobs|
  {
    if ticks != [] {
      HolderIsATask(jobs, ticks[..|ticks| - 1]);
    }
  }

  /** Between sections, and after an exit that kept the permit, the files are the sequential run's. */
  lemma FilesAreSequential(jobs: seq<Job>, s: System, log: Log)
    requires Consistent(jobs, s, log) && NobodyWrites(s) && (log.holder.Some? ==> log.holder.value < |jobs|)
    ensures View(log, s.files) == Run(log.calls)
  {
    if log.holder.Some? {
      var i := log.holder.value;
      HolderIsIn(jobs, s, log, i);
      assert TaskOk(jobs[i], s.tasks[i], s.files, log, i);
      var section := s.tasks[i].section;
      var g, stop :| Ends(section, s.files, g, stop) && View(log, g) == Run(log.calls) && Erasable(log, g) && StopOk(log, i, jobs[i], stop);
      var m: nat :| Finish(section, s.files, m) == (g, stop);
      assert g == s.files;
    }
  }

  /**
   * Every schedule of every set of processes: at most one is inside its critical section; the
   * answers got so far are those of one sequential run of the processes' calls; whenever nobody is
   * in the middle of a section the files are that run's, but for a password that an Unregister is
   * about to erase; and never, not even in the middle, is a login file without its password file.
   */
  lemma Serialisable(jobs: seq<Job>, ticks: seq<Tick>)
    requires AllRunnable(jobs)
    ensures var s, log := Exec(jobs, ticks), Trace(jobs, ticks);
            && OneCallEach(jobs, log) && AtMostOneIn(s)
            && (forall i :: 0 <= i < |jobs| && AnswerOf(s.tasks[i]).Some? ==> Answered(log, i, AnswerOf(s.tasks[i]).value))
            && (NobodyWrites(s) ==> View(log, s.files) == Run(log.calls))
            && LoginsHavePasswords(s.files.accounts)
  {
    var s, log := Exec(jobs, ticks), Trace(jobs, ticks);
    ConsistentAlways(jobs, ticks);
    OneIn(jobs, s, log);
    HolderIsATask(jobs, ticks);
    if NobodyWrites(s) { FilesAreSequential(jobs, s, log); }
    forall i | 0 <= i < |jobs| && AnswerOf(s.tasks[i]).Some? ensures Answered(log, i, AnswerOf(s.tasks[i]).value) {
      AnswerIsSequential(jobs, s, log, i);
    }
  }

  /**
   * So every answer a process has got in a concurrent run is the ledger's, and outside sections the
   * files match the ledger.
   */
  lemma ConcurrentRunsFollowTheLedger(jobs: seq<Job>, ticks: seq<Tick>)
    requires AllRunnable(jobs) && ClockedTicks(ticks)
    ensures var s, log := Exec(jobs, ticks), Trace(jobs, ticks);
            && Clocked(log.calls)
            && (NobodyWrites(s) ==> Matches(View(log, s.files), Replay(log.calls), Time(log.calls)))
            && forall i :: 0 <= i < |jobs| && AnswerOf(s.tasks[i]).Some? ==> LedgerAnswered(log, i, AnswerOf(s.tasks[i]).value)
  {
    var s, log := Exec(jobs, ticks), Trace(jobs, ticks);
    Serialisable(jobs, ticks);
    CallsAreClocked(jobs, ticks);
    assert Matches(Run(log.calls), Replay(log.calls), Time(log.calls)) by { RunRefinesLedger(log.calls); }
    forall i | 0 <= i < |jobs| && AnswerOf(s.tasks[i]).Some? ensures LedgerAnswered(log, i, AnswerOf(s.tasks[i]).value) {
      AnsweredByTheLedger(log, i, AnswerOf(s.tasks[i]).value);
    }
  }

  // ----- Permits are conserved, whatever the programs -----

  /** How many tasks are inside. */
  function Inside(tasks: seq<Task>): nat {
    if tasks == [] then 0
    else Inside(tasks[..|tasks| - 1]) + if tasks[|tasks| - 1].In? then 1 else 0
  }

  lemma {:induction false} InsideUpdate(tasks: seq<Task>, i: nat, t: Task)
    requires i < |tasks|
    ensures Inside(tasks[i := t]) == Inside(tasks) - (if tasks[i].In? then 1 else 0) + (if t.In? then 1 else 0)
    decreases |tasks|
  {
    var n := |tasks| - 1;
    if i < n {
      InsideUpdate(tasks[..n], i, t);
      assert tasks[i := t][..n] == tasks[..n][i := t];
    } else {
      assert tasks[i := t][..n] == tasks[..n];
    }
  }

  /** A step of any program moves a permit into or out of a critical section, never makes or loses one. */
  lemma PermitsAreConserved(s: System, t: Tick)
    ensures Step(s, t).permits + Inside(Step(s, t).tasks) == s.permits + Inside(s.tasks)
  {
    if t.task < |s.tasks| && Step(s, t) != s {
      InsideUpdate(s.tasks, t.task, Step(s, t).tasks[t.task]);
    }
  }

  lemma {:induction false} NobodyInside(tasks: seq<Task>)
    requires forall i :: 0 <= i < |tasks| ==> tasks[i].Out?
    ensures Inside(tasks) == 0
  {
    if tasks != [] { NobodyInside(tasks[..|tasks| - 1]); }
  }

  /** In every schedule there is one permit, free or with the process inside. */
  lemma {:induction false} OnePermit(jobs: seq<Job>, ticks: seq<Tick>)
    requires AllRunnable(jobs)
    ensures Exec(jobs, ticks).permits + Inside(Exec(jobs, ticks).tasks) == 1
  {
    if ticks == [] {
      NobodyInside(Start(jobs).tasks);
    } else {
      var n := |ticks| - 1;
      OnePermit(jobs, ticks[..n]);
      PermitsAreConserved(Exec(jobs, ticks[..n]), ticks[n]);
    }
  }
}
