/**
 * The operations as programs: semaphore calls and single file-system accesses, in the order of the
 * source. Between the accesses of one process any other process may run; module Concurrency says
 * what comes of that. List, which posts without waiting, is not among these programs.
 */
module Programs {
  import opened Common
  import opened Text
  import opened Store
  import Paths

  /** A process outside its critical section. The clock is read when sem_wait returns. */
  datatype Prog =
    | Ret(reply: Reply)
    | Wait(body: nat -> Section)

  /**
   * A process that holds the semaphore: one access, which reads the files it finds and may write;
   * sem_post; or an exit that forgets to post.
   */
  datatype Section =
    | Access(write: Files -> Files, cont: Files -> Section)
    | Post(next: Prog)
    | Leave(reply: Reply)

  function Read(cont: Files -> Section): Section { Access((f: Files) => f, cont) }

  function Then(write: Files -> Files, next: Section): Section { Access(write, (f: Files) => next) }

  function Done(reply: Reply): Section { Post(Ret(reply)) }

  // ----- Running a section alone -----

  /** At most n accesses. */
  function Finish(s: Section, f: Files, n: nat): (Files, Section)
    decreases n
  {
    if n == 0 || !s.Access? then (f, s) else Finish(s.cont(f), s.write(f), n - 1)
  }

  /** Alone, from files f, the section stops at `stop` with files g. */
  ghost predicate Ends(s: Section, f: Files, g: Files, stop: Section) {
    !stop.Access? && exists n: nat :: Finish(s, f, n) == (g, stop)
  }

  lemma {:induction false} FinishMore(s: Section, f: Files, n: nat, m: nat)
    requires n <= m && !Finish(s, f, n).1.Access?
    ensures Finish(s, f, m) == Finish(s, f, n)
    decreases n
  {
    if n > 0 && s.Access? {
      FinishMore(s.cont(f), s.write(f), n - 1, m - 1);
    }
  }

  lemma EndsStep(s: Section, f: Files, g: Files, stop: Section)
    requires s.Access? && Ends(s, f, g, stop)
    ensures Ends(s.cont(f), s.write(f), g, stop)
  {
    var n: nat :| Finish(s, f, n) == (g, stop);
    assert Finish(s.cont(f), s.write(f), n - 1) == (g, stop);
  }

  lemma EndsBack(s: Section, f: Files, g: Files, stop: Section)
    requires s.Access? && Ends(s.cont(f), s.write(f), g, stop)
    ensures Ends(s, f, g, stop)
  {
    var n: nat :| Finish(s.cont(f), s.write(f), n) == (g, stop);
    assert Finish(s, f, n + 1) == (g, stop);
  }

  // ----- Writes -----

  function MakeUserDir(u: string): Files -> Files {
    (f: Files) => Files(f.accounts[u := Account(None, false)], f.hosted[u := {}], f.bidded[u := {}], f.auctions)
  }

  function OnAccount(u: string, change: Account -> Account): Files -> Files {
    (f: Files) => if u in f.accounts then f.(accounts := f.accounts[u := change(f.accounts[u])]) else f
  }

  function OnAuction(a: nat, change: Auction -> Auction): Files -> Files {
    (f: Files) => if a in f.auctions then f.(auctions := f.auctions[a := change(f.auctions[a])]) else f
  }

  // ----- Accounts -----

  function PutPassword(u: string, p: string, next: Section): Section {
    Then(OnAccount(u, (x: Account) => x.(password := Some(p))), next)
  }

  function PutLogin(u: string, next: Section): Section {
    Then(OnAccount(u, (x: Account) => x.(loggedIn := true)), next)
  }

  function NewUser(u: string, p: string): Section {
    if !ValidPassword(p) then Done(NOK) else PutPassword(u, p, PutLogin(u, Done(REGISTER)))
  }

  function LoginProg(u: string, p: string): Prog {
    Wait((now: nat) =>
      Read((f: Files) =>
        if LoggedIn(f.accounts, u) then
          Read((f: Files) => Done(if CorrectPassword(f.accounts, u, p) then OK else Threw(UserNotLoggedIn)))
        else if !ValidUser(u) then Done(NOK)
        else Read((f: Files) =>
          if u !in f.accounts then Then(MakeUserDir(u), NewUser(u, p))
          else Read((f: Files) =>
            if u in f.accounts && f.accounts[u].password.Some? then
              Read((f: Files) =>
                if CorrectPassword(f.accounts, u, p) then PutLogin(u, Done(OK)) else Done(NOK))
            else NewUser(u, p)))))
  }

  /** Logout's section; Unregister goes on with `next` where Logout answers OK. */
  function LogoutSection(u: string, p: string, next: Prog): Section {
    Read((f: Files) =>
      if !CorrectPassword(f.accounts, u, p) then Done(NOK)
      else Read((f: Files) =>
        if u in f.accounts && f.accounts[u].loggedIn
        then Then(OnAccount(u, (x: Account) => x.(loggedIn := false)), Post(next))
        else Done(Threw(UserNotLoggedIn))))
  }

  function LogoutProg(u: string, p: string): Prog { Wait((now: nat) => LogoutSection(u, p, Ret(OK))) }

  function EraseSection(u: string): Section {
    if !ValidUser(u) then Done(NOK)
    else Read((f: Files) =>
      if u !in f.accounts then Done(UNKNOWN)
      else Read((f: Files) =>
        if u in f.accounts && f.accounts[u].password.Some?
        then Then(OnAccount(u, (x: Account) => x.(password := None)), Done(OK))
        else Done(NOK)))
  }

  function EraseProg(u: string): Prog { Wait((now: nat) => EraseSection(u)) }

  function CheckSection(u: string, p: string, next: Prog): Section {
    Read((f: Files) => if CorrectPassword(f.accounts, u, p) then Post(next) else Done(NOK))
  }

  function LogoutThenErase(u: string, p: string): Prog { Wait((now: nat) => LogoutSection(u, p, EraseProg(u))) }

  /** Three critical sections: the password check, Logout, ErasePassword. */
  function UnregisterProg(u: string, p: string): Prog { Wait((now: nat) => CheckSection(u, p, LogoutThenErase(u, p))) }

  // ----- Auctions -----

  function PasswordCheck(u: string, p: string, wrong: Reply, next: Section): Section {
    Read((f: Files) => if !CorrectPassword(f.accounts, u, p) then Done(wrong) else next)
  }

  /** CheckUserLoggedIn, then CorrectPassword. */
  function Authorised(u: string, p: string, wrong: Reply, next: Section): Section {
    Read((f: Files) =>
      if !LoggedIn(f.accounts, u) then Done(Threw(UserNotLoggedIn)) else PasswordCheck(u, p, wrong, next))
  }

  function Register(u: string, a: nat): Section {
    Access((f: Files) => if u in f.hosted then f.(hosted := f.hosted[u := f.hosted[u] + {a}]) else f,
           (f: Files) => if u in f.hosted then Done(Code(a)) else Done(CREATE_FAIL))
  }

  /** Between mkdir and sem_post: START, the asset, HOSTED. */
  function FillAuction(u: string, d: Upload, a: nat, now: nat): Section {
    if !StartAccepted(d) then Done(CREATE_FAIL)
    else
      Then(OnAuction(a, (x: Auction) => x.(start := StartWritten(d, u, now))),
           if !Paths.AssetNameOk(d.fname) then Done(CREATE_FAIL) else Register(u, a))
  }

  function MakeAuctionDir(u: string, d: Upload, a: nat, now: nat): Section {
    Access((f: Files) => if a in f.auctions then f else f.(auctions := f.auctions[a := EMPTY_DIR]),
           (f: Files) => if a in f.auctions then Done(CREATE_FAIL) else FillAuction(u, d, a, now))
  }

  /** The scan for the next id; the mkdir that decides comes only later. */
  ghost function Scan(u: string, d: Upload, now: nat): Section {
    Read((f: Files) =>
      var a := NextId(f.auctions.Keys);
      if a > 999 then Done(CREATE_FAIL) else MakeAuctionDir(u, d, a, now))
  }

  ghost function OpenProg(u: string, p: string, d: Upload): Prog {
    Wait((now: nat) => Authorised(u, p, CREATE_FAIL, Scan(u, d, now)))
  }

  /** Close: CreateEndFile reads START, looks for END and writes it, or Close throws. */
  function CloseFile(a: nat, now: nat, next: Section): Section {
    Read((f: Files) =>
      if a !in f.auctions || f.auctions[a].start.None? then Leave(Threw(AuctionNotFound))
      else
        var end := EndAt(f.auctions[a].start.value, now);
        Read((f: Files) =>
          if a in f.auctions && f.auctions[a].end.Some? then Leave(Threw(AuctionAlreadyClosed))
          else Then(OnAuction(a, (x: Auction) => x.(end := Some(end))), next)))
  }

  /** CloseAuction on an auction of the user's. */
  function CloseOwn(a: nat, now: nat): Section {
    Read((f: Files) =>
      if a !in f.auctions || f.auctions[a].start.None? then Done(Threw(AuctionNotFound))
      else CloseFile(a, now, Done(if Expired(f.auctions[a].start.value, now) then Threw(AuctionAlreadyClosed) else OK)))
  }

  /** CheckAuctionExists, then CheckAuctionBelongs. */
  function CloseChecked(a: nat, u: string, now: nat): Section {
    Read((f: Files) =>
      if a !in f.auctions then Done(Threw(AuctionNotFound))
      else Read((f: Files) =>
        if u !in f.hosted then Leave(Threw(FilesystemError))
        else if a !in f.hosted[u] then Done(Threw(AuctionNotOwnedByUser))
        else CloseOwn(a, now)))
  }

  function CloseProg(a: nat, u: string, p: string): Prog {
    Wait((now: nat) =>
      Read((f: Files) =>
        if u !in f.accounts then Done(Threw(UserDoesNotExist))
        else Authorised(u, p, Threw(IncorrectPassword), CloseChecked(a, u, now))))
  }

  /** RegisterBid, then CreateBidFile. */
  function RecordBid(s: StartInfo, u: string, a: nat, v: nat, now: nat): Section {
    Access((f: Files) => if u in f.bidded then f.(bidded := f.bidded[u := f.bidded[u] + {a}]) else f,
           (f: Files) =>
             if u !in f.bidded || v == 0 then Done(BID_REFUSE)
             else Then(OnAuction(a, (x: Auction) => x.(bids := x.bids[v := BidOf(s, u, v, now)])), Done(OK)))
  }

  function CompareBids(s: StartInfo, u: string, a: nat, v: nat, now: nat): Section {
    Read((f: Files) =>
      if a in f.auctions && f.auctions[a].start.Some? && TooLow(f.auctions[a], v)
      then Done(Threw(LargerBidAlreadyExists))
      else RecordBid(s, u, a, v, now))
  }

  /** Bid on another's auction: END, START, the deadline, the other bids. */
  function BidOpen(u: string, a: nat, v: nat, now: nat): Section {
    Read((f: Files) =>
      if a in f.auctions && f.auctions[a].end.Some? then Done(Threw(AuctionAlreadyClosed))
      else Read((f: Files) =>
        if a !in f.auctions || f.auctions[a].start.None? then Done(Threw(AuctionNotFound))
        else
          var s := f.auctions[a].start.value;
          if Expired(s, now) then CloseFile(a, now, Leave(Threw(AuctionAlreadyClosed)))
          else CompareBids(s, u, a, v, now)))
  }

  function BidChecked(u: string, a: nat, v: nat, now: nat): Section {
    Read((f: Files) =>
      if a !in f.auctions then Done(Threw(AuctionNotFound))
      else Read((f: Files) =>
        if u !in f.hosted then Leave(Threw(FilesystemError))
        else if a in f.hosted[u] then Done(Threw(BidOnSelf))
        else BidOpen(u, a, v, now)))
  }

  function BidProg(u: string, p: string, a: nat, v: nat): Prog {
    Wait((now: nat) => Authorised(u, p, BID_NOK, BidChecked(u, a, v, now)))
  }

  ghost function ShowBids(a: nat, s: StartInfo): Section {
    Read((f: Files) =>
      var end := if a in f.auctions then f.auctions[a].end else None;
      Read((f: Files) =>
        var bids := if a in f.auctions then f.auctions[a].bids else map[];
        Done(Record(AuctionRecord(s, LastFifty(SortedBids(bids)), end)))))
  }

  ghost function ShowProg(a: nat): Prog {
    Wait((now: nat) =>
      Read((f: Files) =>
        if a !in f.auctions || f.auctions[a].start.None? then Done(Threw(AuctionNotFound))
        else
          var s := f.auctions[a].start.value;
          Read((f: Files) =>
            if (a !in f.auctions || f.auctions[a].end.None?) && Expired(s, now)
            then CloseFile(a, now, ShowBids(a, s))
            else ShowBids(a, s))))
  }

  // ----- Each program's sections compute what Store says -----

  /** How a section stops: by posting, or, where Store counts a permit lost, without. */
  function StopOf(r: Outcome): Section { if r.permits == 0 then Done(r.reply) else Leave(r.reply) }

  ghost predicate Computes(s: Section, f: Files, r: Outcome) {
    Ends(s, f, r.files, StopOf(r))
  }

  lemma NoNewDir(f: Files, accounts: Accounts)
    requires accounts.Keys == f.accounts.Keys
    ensures WithAccounts(f, accounts) == f.(accounts := accounts)
  {
    assert accounts.Keys - f.accounts.Keys == {};
  }

  lemma NewDir(f: Files, accounts: Accounts, u: string)
    requires u !in f.accounts && accounts.Keys == f.accounts.Keys + {u}
    ensures WithAccounts(f, accounts) == Files(accounts, f.hosted[u := {}], f.bidded[u := {}], f.auctions)
  {
    assert accounts.Keys - f.accounts.Keys == {u};
  }

  lemma NewUserComputes(u: string, p: string, f: Files)
    requires u in f.accounts
    ensures Finish(NewUser(u, p), f, 17) ==
            if ValidPassword(p) then (f.(accounts := f.accounts[u := Account(Some(p), true)]), Done(REGISTER))
            else (f, Done(NOK))
  {
    var x := f.accounts[u].(password := Some(p));
    assert f.accounts[u := x][u := x.(loggedIn := true)] == f.accounts[u := Account(Some(p), true)];
  }

  lemma FirstLoginReaches(u: string, p: string, f: Files, now: nat)
    requires ValidUser(u) && u !in f.accounts
    ensures Finish(LoginProg(u, p).body(now), f, 20) == Finish(NewUser(u, p), MakeUserDir(u)(f), 17)
  {
  }

  lemma FirstLoginEffect(u: string, p: string, f: Files, now: nat)
    requires ValidUser(u) && u !in f.accounts
    ensures var r := Do(f, Login(u, p), now);
            Finish(NewUser(u, p), MakeUserDir(u)(f), 17) == (r.files, StopOf(r))
  {
    var g := MakeUserDir(u)(f);
    NewDir(f, LoginAccount(f.accounts, u, p).0, u);
    NewUserComputes(u, p, g);
    assert g.accounts[u := Account(Some(p), true)] == f.accounts[u := Account(Some(p), true)];
  }

  lemma LoginComputes(u: string, p: string, f: Files, now: nat)
    ensures Computes(LoginProg(u, p).body(now), f, Do(f, Login(u, p), now))
  {
    var r := Do(f, Login(u, p), now);
    if ValidUser(u) && u !in f.accounts {
      FirstLoginReaches(u, p, f, now);
      FirstLoginEffect(u, p, f, now);
    } else {
      NoNewDir(f, LoginAccount(f.accounts, u, p).0);
      if u in f.accounts && f.accounts[u].password.None? {
        NewUserComputes(u, p, f);
      }
      assert Finish(LoginProg(u, p).body(now), f, 20) == (r.files, StopOf(r));
    }
  }

  lemma LogoutComputes(u: string, p: string, f: Files, now: nat)
    ensures Computes(LogoutProg(u, p).body(now), f, Do(f, Logout(u, p), now))
  {
    var r := Do(f, Logout(u, p), now);
    NoNewDir(f, LogoutAccount(f.accounts, u, p).0);
    assert Finish(LogoutProg(u, p).body(now), f, 20) == (r.files, StopOf(r));
  }

  /** What an Open past its checks leaves in a fresh directory, and how it stops. */
  function Filled(u: string, d: Upload, a: nat, f: Files, now: nat): (Files, Section) {
    var g := f.(auctions := f.auctions[a := EMPTY_DIR.(start := StartWritten(d, u, now))]);
    if !StartAccepted(d) then (f, Done(CREATE_FAIL))
    else if !Paths.AssetNameOk(d.fname) || u !in f.hosted then (g, Done(CREATE_FAIL))
    else (g.(hosted := g.hosted[u := g.hosted[u] + {a}]), Done(Code(a)))
  }

  lemma FillComputes(u: string, d: Upload, a: nat, f: Files, now: nat)
    requires a in f.auctions && f.auctions[a] == EMPTY_DIR
    ensures Finish(FillAuction(u, d, a, now), f, 16) == Filled(u, d, a, f, now)
  {
  }

  lemma OpenFills(u: string, p: string, d: Upload, f: Files, now: nat)
    requires LoggedIn(f.accounts, u) && CorrectPassword(f.accounts, u, p) && NextId(f.auctions.Keys) <= 999
    ensures var r, a := Do(f, Open(u, p, d), now), NextId(f.auctions.Keys);
            Filled(u, d, a, f.(auctions := f.auctions[a := EMPTY_DIR]), now) == (r.files, StopOf(r))
  {
    var a := NextId(f.auctions.Keys);
    var x := EMPTY_DIR.(start := StartWritten(d, u, now));
    assert f.auctions[a := EMPTY_DIR][a := x] == f.auctions[a := x];
  }

  /** From a fresh id on: mkdir, START, the asset, HOSTED. */
  lemma MakeComputes(u: string, p: string, d: Upload, f: Files, now: nat)
    requires LoggedIn(f.accounts, u) && CorrectPassword(f.accounts, u, p) && NextId(f.auctions.Keys) <= 999
    ensures var r := Do(f, Open(u, p, d), now);
            Finish(MakeAuctionDir(u, d, NextId(f.auctions.Keys), now), f, 17) == (r.files, StopOf(r))
  {
    var a := NextId(f.auctions.Keys);
    var g := f.(auctions := f.auctions[a := EMPTY_DIR]);
    assert Finish(MakeAuctionDir(u, d, a, now), f, 17) == Filled(u, d, a, g, now) by {
      assert Finish(MakeAuctionDir(u, d, a, now), f, 17) == Finish(FillAuction(u, d, a, now), g, 16);
      FillComputes(u, d, a, g, now);
    }
    OpenFills(u, p, d, f, now);
  }

  lemma OpenComputes(u: string, p: string, d: Upload, f: Files, now: nat)
    ensures Computes(OpenProg(u, p, d).body(now), f, Do(f, Open(u, p, d), now))
  {
    var r := Do(f, Open(u, p, d), now);
    if LoggedIn(f.accounts, u) && CorrectPassword(f.accounts, u, p) && NextId(f.auctions.Keys) <= 999 {
      MakeComputes(u, p, d, f, now);
    }
    assert Finish(OpenProg(u, p, d).body(now), f, 20) == (r.files, StopOf(r));
  }

  /** What CloseAuction leaves of an auction of the user's, and how it stops. */
  function ClosedOwn(a: nat, f: Files, now: nat): (Files, Section)
    requires a in f.auctions
  {
    var x := f.auctions[a];
    if x.start.None? then (f, Done(Threw(AuctionNotFound)))
    else if x.end.Some? then (f, Leave(Threw(AuctionAlreadyClosed)))
    else
      var s := x.start.value;
      (f.(auctions := f.auctions[a := x.(end := Some(EndAt(s, now)))]),
       Done(if Expired(s, now) then Threw(AuctionAlreadyClosed) else OK))
  }

  lemma CloseFileFinishes(a: nat, now: nat, next: Section, f: Files)
    requires a in f.auctions && f.auctions[a].start.Some? && !next.Access?
    ensures Finish(CloseFile(a, now, next), f, 14) ==
            if f.auctions[a].end.Some? then (f, Leave(Threw(AuctionAlreadyClosed)))
            else (f.(auctions := f.auctions[a := f.auctions[a].(end := Some(EndAt(f.auctions[a].start.value, now)))]), next)
  {
  }

  lemma CloseOwnFinishes(a: nat, f: Files, now: nat)
    requires a in f.auctions
    ensures Finish(CloseOwn(a, now), f, 15) == ClosedOwn(a, f, now)
  {
    var s := CloseOwn(a, now);
    var t := s.cont(f);
    assert Finish(s, f, 15) == Finish(t, f, 14);
    if f.auctions[a].start.Some? {
      var next := Done(if Expired(f.auctions[a].start.value, now) then Threw(AuctionAlreadyClosed) else OK);
      assert t == CloseFile(a, now, next);
      CloseFileFinishes(a, now, next, f);
    }
  }

  lemma CloseOwnComputes(a: nat, u: string, p: string, f: Files, now: nat)
    requires LoggedIn(f.accounts, u) && CorrectPassword(f.accounts, u, p)
    requires a in f.auctions && u in f.hosted && a in f.hosted[u]
    ensures var r := Do(f, Close(a, u, p), now);
            Finish(CloseOwn(a, now), f, 15) == (r.files, StopOf(r))
  {
    assert Finish(CloseOwn(a, now), f, 15) == ClosedOwn(a, f, now) by { CloseOwnFinishes(a, f, now); }
  }

  lemma CloseComputes(a: nat, u: string, p: string, f: Files, now: nat)
    ensures Computes(CloseProg(a, u, p).body(now), f, Do(f, Close(a, u, p), now))
  {
    var r := Do(f, Close(a, u, p), now);
    if LoggedIn(f.accounts, u) && CorrectPassword(f.accounts, u, p) && a in f.auctions && u in f.hosted && a in f.hosted[u] {
      CloseOwnComputes(a, u, p, f, now);
      assert Finish(CloseProg(a, u, p).body(now), f, 20) == Finish(CloseOwn(a, now), f, 15);
    }
    assert Finish(CloseProg(a, u, p).body(now), f, 20) == (r.files, StopOf(r));
  }

  lemma ZeroIsTooLow(x: Auction)
    requires x.start.Some?
    ensures TooLow(x, 0)
  {
    if x.bids != map[] {
      var b :| b in x.bids;
      assert x.bids[b].value >= 0;
    }
  }

  /** What a Bid on another's auction leaves, and how it stops. */
  function BidGiven(u: string, a: nat, v: nat, f: Files, now: nat): (Files, Section)
    requires a in f.auctions
  {
    var x := f.auctions[a];
    if x.end.Some? then (f, Done(Threw(AuctionAlreadyClosed)))
    else if x.start.None? then (f, Done(Threw(AuctionNotFound)))
    else if Expired(x.start.value, now) then
      (f.(auctions := f.auctions[a := x.(end := Some(EndAt(x.start.value, now)))]), Leave(Threw(AuctionAlreadyClosed)))
    else if TooLow(x, v) then (f, Done(Threw(LargerBidAlreadyExists)))
    else if u !in f.bidded then (f, Done(BID_REFUSE))
    else
      (f.(bidded := f.bidded[u := f.bidded[u] + {a}],
          auctions := f.auctions[a := x.(bids := x.bids[v := BidOf(x.start.value, u, v, now)])]), Done(OK))
  }

  lemma CompareFinishes(u: string, a: nat, v: nat, f: Files, now: nat)
    requires a in f.auctions && f.auctions[a].start.Some?
    ensures var x := f.auctions[a];
            Finish(CompareBids(x.start.value, u, a, v, now), f, 14) ==
            if TooLow(x, v) then (f, Done(Threw(LargerBidAlreadyExists)))
            else if u !in f.bidded then (f, Done(BID_REFUSE))
            else
              (f.(bidded := f.bidded[u := f.bidded[u] + {a}],
                  auctions := f.auctions[a := x.(bids := x.bids[v := BidOf(x.start.value, u, v, now)])]), Done(OK))
  {
    if v == 0 { ZeroIsTooLow(f.auctions[a]); }
  }

  lemma BidOpenFinishes(u: string, a: nat, v: nat, f: Files, now: nat)
    requires a in f.auctions
    ensures Finish(BidOpen(u, a, v, now), f, 16) == BidGiven(u, a, v, f, now)
  {
    var x, s := f.auctions[a], BidOpen(u, a, v, now);
    if x.end.None? && x.start.Some? {
      var next := s.cont(f).cont(f);
      assert Finish(s, f, 16) == Finish(next, f, 14);
      if Expired(x.start.value, now) {
        CloseFileFinishes(a, now, Leave(Threw(AuctionAlreadyClosed)), f);
      } else {
        assert next == CompareBids(x.start.value, u, a, v, now);
        CompareFinishes(u, a, v, f, now);
      }
    }
  }

  lemma BidOpenComputes(u: string, p: string, a: nat, v: nat, f: Files, now: nat)
    requires LoggedIn(f.accounts, u) && CorrectPassword(f.accounts, u, p)
    requires a in f.auctions && u in f.hosted && a !in f.hosted[u]
    ensures var r := Do(f, Bid(u, p, a, v), now);
            Finish(BidOpen(u, a, v, now), f, 16) == (r.files, StopOf(r))
  {
    assert Finish(BidOpen(u, a, v, now), f, 16) == BidGiven(u, a, v, f, now) by { BidOpenFinishes(u, a, v, f, now); }
  }

  lemma BidComputes(u: string, p: string, a: nat, v: nat, f: Files, now: nat)
    ensures Computes(BidProg(u, p, a, v).body(now), f, Do(f, Bid(u, p, a, v), now))
  {
    var r := Do(f, Bid(u, p, a, v), now);
    if LoggedIn(f.accounts, u) && CorrectPassword(f.accounts, u, p) && a in f.auctions && u in f.hosted && a !in f.hosted[u] {
      BidOpenComputes(u, p, a, v, f, now);
      assert Finish(BidProg(u, p, a, v).body(now), f, 20) == Finish(BidOpen(u, a, v, now), f, 16);
    }
    assert Finish(BidProg(u, p, a, v).body(now), f, 20) == (r.files, StopOf(r));
  }

  lemma ShowBidsComputes(a: nat, s: StartInfo, f: Files, n: nat)
    requires a in f.auctions && n >= 5
    ensures Finish(ShowBids(a, s), f, n) ==
            (f, Done(Record(AuctionRecord(s, LastFifty(SortedBids(f.auctions[a].bids)), f.auctions[a].end))))
  {
    assert !Finish(ShowBids(a, s), f, 5).1.Access?;
    FinishMore(ShowBids(a, s), f, 5, n);
  }

  /** The auction's time is up: END is written before the bids are shown. */
  lemma ShowClosing(a: nat, f: Files, now: nat)
    requires a in f.auctions && f.auctions[a].start.Some? && f.auctions[a].end.None?
    requires Expired(f.auctions[a].start.value, now)
    ensures var r := Do(f, ShowRecord(a), now);
            Finish(ShowProg(a).body(now), f, 20) == (r.files, StopOf(r))
  {
    var r, s := Do(f, ShowRecord(a), now), f.auctions[a].start.value;
    ShowBidsComputes(a, s, r.files, 15);
    assert Finish(ShowProg(a).body(now), f, 20) == Finish(CloseFile(a, now, ShowBids(a, s)), f, 18);
    assert Finish(CloseFile(a, now, ShowBids(a, s)), f, 18) == Finish(ShowBids(a, s), r.files, 15);
  }

  lemma ShowComputes(a: nat, f: Files, now: nat)
    ensures Computes(ShowProg(a).body(now), f, Do(f, ShowRecord(a), now))
  {
    var r := Do(f, ShowRecord(a), now);
    if a in f.auctions && f.auctions[a].start.Some? {
      var x := f.auctions[a];
      var s := x.start.value;
      if x.end.None? && Expired(s, now) {
        ShowClosing(a, f, now);
      } else {
        ShowBidsComputes(a, s, f, 18);
        assert f.auctions[a := x] == f.auctions;
        assert Finish(ShowProg(a).body(now), f, 20) == Finish(ShowBids(a, s), f, 18);
      }
    }
    assert Finish(ShowProg(a).body(now), f, 20) == (r.files, StopOf(r));
  }

  // ----- Listings -----

  ghost function SortedListing(listed: map<nat, bool>): (r: seq<AuctionListing>)
    ensures |r| == |Sorted(listed.Keys)|
  {
    var keys := Sorted(listed.Keys);
    seq(|keys|, i requires 0 <= i < |keys| => AuctionListing(keys[i], keys[i] in listed && listed[keys[i]]))
  }

  /** One directory entry after another: END, START and, when its time is up, Close. */
  ghost function VisitSection(ids: seq<nat>, listed: map<nat, bool>, now: nat): Section
    decreases |ids|
  {
    if ids == [] then Done(Listing(SortedListing(listed)))
    else
      var a := ids[0];
      var over := VisitSection(ids[1..], listed[a := false], now);
      var active := VisitSection(ids[1..], listed[a := true], now);
      Read((f: Files) =>
        if a in f.auctions && f.auctions[a].end.Some? then over
        else Read((f: Files) =>
          if a !in f.auctions || f.auctions[a].start.None? then Done(Threw(AuctionNotFound))
          else if Expired(f.auctions[a].start.value, now) then CloseFile(a, now, over)
          else active))
  }

  /** A way in which directories may list their entries. */
  ghost predicate Lists(order: set<nat> -> seq<nat>) {
    forall s: set<nat> :: forall x :: x in order(s) <==> x in s
  }

  ghost function MyAuctionsProg(u: string, order: set<nat> -> seq<nat>): Prog {
    Wait((now: nat) => Read((f: Files) =>
      if u !in f.hosted then Leave(Threw(FilesystemError)) else VisitSection(order(f.hosted[u]), map[], now)))
  }

  ghost function MyBidsProg(u: string, order: set<nat> -> seq<nat>): Prog {
    Wait((now: nat) => Read((f: Files) =>
      if u !in f.bidded then Leave(Threw(FilesystemError)) else VisitSection(order(f.bidded[u]), map[], now)))
  }

  /** The entries handled before the first one that cannot be. */
  function Reached(f: Files, ids: seq<nat>): (r: set<nat>)
    ensures forall a <- r :: a in ids
    ensures (forall a <- ids :: Visitable(f, a)) ==> forall a <- ids :: a in r
  {
    if ids == [] || !Visitable(f, ids[0]) then {} else {ids[0]} + Reached(f, ids[1..])
  }

  function Flags(f: Files, ids: seq<nat>, now: nat): map<nat, bool> {
    map a | a in ids :: Entry(f, a, now).active
  }

  lemma CloseManyTwice(f: Files, s: set<nat>, t: set<nat>, now: nat)
    ensures CloseMany(CloseMany(f, s, now), t, now) == CloseMany(f, s + t, now)
  {
  }

  lemma VisitedOne(f: Files, a: nat, now: nat, ids: seq<nat>)
    ensures forall b :: Visitable(CloseMany(f, {a}, now), b) <==> Visitable(f, b)
    ensures Reached(CloseMany(f, {a}, now), ids) == Reached(f, ids)
    ensures Flags(CloseMany(f, {a}, now), ids, now) == Flags(f, ids, now)
    decreases |ids|
  {
    if ids != [] { VisitedOne(f, a, now, ids[1..]); }
  }

  ghost predicate VisitEnds(ids: seq<nat>, listed: map<nat, bool>, f: Files, now: nat) {
    Ends(VisitSection(ids, listed, now), f, CloseMany(f, Reached(f, ids), now),
         Done(if forall a <- ids :: Visitable(f, a) then Listing(SortedListing(listed + Flags(f, ids, now)))
              else Threw(AuctionNotFound)))
  }

  /** One entry handled, the section goes on with the rest. */
  lemma VisitHead(ids: seq<nat>, listed: map<nat, bool>, f: Files, now: nat, g: Files, stop: Section)
    requires ids != [] && Visitable(f, ids[0])
    requires Ends(VisitSection(ids[1..], listed[ids[0] := Entry(f, ids[0], now).active], now),
                  CloseMany(f, {ids[0]}, now), g, stop)
    ensures Ends(VisitSection(ids, listed, now), f, g, stop)
  {
    var a := ids[0];
    var x := f.auctions[a];
    var s := VisitSection(ids, listed, now);
    var over := VisitSection(ids[1..], listed[a := false], now);
    if x.end.None? {
      var s1 := s.cont(f);
      if Expired(x.start.value, now) {
        assert s1.cont(f) == CloseFile(a, now, over);
        CloseFileEnds(a, now, over, f, g, stop);
      } else {
        assert CloseMany(f, {a}, now) == f;
      }
      EndsBack(s1, f, g, stop);
    } else {
      assert CloseMany(f, {a}, now) == f;
    }
    EndsBack(s, f, g, stop);
  }

  lemma CloseFileEnds(a: nat, now: nat, next: Section, f: Files, g: Files, stop: Section)
    requires a in f.auctions && f.auctions[a].start.Some? && f.auctions[a].end.None?
    requires Expired(f.auctions[a].start.value, now)
    requires Ends(next, CloseMany(f, {a}, now), g, stop)
    ensures Ends(CloseFile(a, now, next), f, g, stop)
  {
    var s := CloseFile(a, now, next);
    var s1 := s.cont(f);
    var s2 := s1.cont(f);
    assert s2.write(f) == CloseMany(f, {a}, now);
    EndsBack(s2, f, g, stop);
    EndsBack(s1, f, g, stop);
    EndsBack(s, f, g, stop);
  }

  /** The loop is over, or its next entry makes it throw. */
  lemma VisitStops(ids: seq<nat>, listed: map<nat, bool>, f: Files, now: nat)
    requires ids == [] || !Visitable(f, ids[0])
    ensures VisitEnds(ids, listed, f, now)
  {
    assert CloseMany(f, Reached(f, ids), now) == f;
    var s := VisitSection(ids, listed, now);
    if ids == [] {
      assert listed + Flags(f, ids, now) == listed;
      assert Finish(s, f, 0) == (f, s);
    } else {
      assert ids[0] in ids;
      assert Finish(s, f, 2) == (f, Done(Threw(AuctionNotFound)));
    }
  }

  lemma FlagsHead(ids: seq<nat>, listed: map<nat, bool>, f: Files, now: nat)
    requires ids != []
    ensures listed[ids[0] := Entry(f, ids[0], now).active] + Flags(f, ids[1..], now) == listed + Flags(f, ids, now)
  {
    assert forall b :: b in ids <==> b == ids[0] || b in ids[1..];
  }

  lemma AllVisitableHead(ids: seq<nat>, f: Files)
    requires ids != [] && Visitable(f, ids[0])
    ensures (forall b <- ids[1..] :: Visitable(f, b)) <==> forall b <- ids :: Visitable(f, b)
  {
    assert forall b :: b in ids <==> b == ids[0] || b in ids[1..];
  }

  /** What the rest of the loop computes, after its first entry, is what the whole loop does. */
  lemma VisitRest(ids: seq<nat>, listed: map<nat, bool>, f: Files, now: nat, f1: Files)
    requires ids != [] && Visitable(f, ids[0]) && f1 == CloseMany(f, {ids[0]}, now)
    ensures CloseMany(f1, Reached(f1, ids[1..]), now) == CloseMany(f, Reached(f, ids), now)
    ensures listed[ids[0] := Entry(f, ids[0], now).active] + Flags(f1, ids[1..], now) == listed + Flags(f, ids, now)
    ensures (forall b <- ids[1..] :: Visitable(f1, b)) <==> forall b <- ids :: Visitable(f, b)
  {
    VisitedOne(f, ids[0], now, ids[1..]);
    CloseManyTwice(f, {ids[0]}, Reached(f, ids[1..]), now);
    FlagsHead(ids, listed, f, now);
    AllVisitableHead(ids, f);
  }

  lemma {:induction false} VisitComputes(ids: seq<nat>, listed: map<nat, bool>, f: Files, now: nat)
    ensures VisitEnds(ids, listed, f, now)
    decreases |ids|
  {
    if ids == [] || !Visitable(f, ids[0]) {
      VisitStops(ids, listed, f, now);
    } else {
      var f1, listed1 := CloseMany(f, {ids[0]}, now), listed[ids[0] := Entry(f, ids[0], now).active];
      VisitComputes(ids[1..], listed1, f1, now);
      VisitRest(ids, listed, f, now, f1);
      VisitHead(ids, listed, f, now, CloseMany(f, Reached(f, ids), now),
        Done(if forall b <- ids :: Visitable(f, b) then Listing(SortedListing(listed + Flags(f, ids, now)))
             else Threw(AuctionNotFound)));
    }
  }

  lemma ListingOfFlags(s: set<nat>, ids: seq<nat>, f: Files, now: nat)
    requires (forall x :: x in ids <==> x in s) && forall a <- s :: Visitable(f, a)
    ensures SortedListing(Flags(f, ids, now)) == Entries(f, Sorted(s), now)
  {
    assert Flags(f, ids, now).Keys == s;
    assert forall i :: 0 <= i < |Sorted(s)| ==> Sorted(s)[i] in Sorted(s);
  }

  lemma ListingComputes(s: set<nat>, ids: seq<nat>, f: Files, now: nat)
    requires forall x :: x in ids <==> x in s
    ensures Computes(VisitSection(ids, map[], now), f, Visit(f, s, Reached(f, ids), now, 0))
  {
    VisitComputes(ids, map[], f, now);
    assert map[] + Flags(f, ids, now) == Flags(f, ids, now);
    if forall a <- s :: Visitable(f, a) {
      assert Reached(f, ids) == s;
      ListingOfFlags(s, ids, f, now);
    } else {
      assert s * Reached(f, ids) == Reached(f, ids);
    }
  }

  lemma MyAuctionsComputes(u: string, order: set<nat> -> seq<nat>, f: Files, now: nat)
    requires Lists(order)
    ensures var reached := if u in f.hosted then Reached(f, order(f.hosted[u])) else {};
            Computes(MyAuctionsProg(u, order).body(now), f, Do(f, MyAuctions(u, reached), now))
  {
    var s := MyAuctionsProg(u, order).body(now);
    if u in f.hosted {
      ListingComputes(f.hosted[u], order(f.hosted[u]), f, now);
      var r := Visit(f, f.hosted[u], Reached(f, order(f.hosted[u])), now, 0);
      EndsBack(s, f, r.files, StopOf(r));
    } else {
      assert Finish(s, f, 1) == (f, Leave(Threw(FilesystemError)));
    }
  }

  lemma MyBidsComputes(u: string, order: set<nat> -> seq<nat>, f: Files, now: nat)
    requires Lists(order)
    ensures var reached := if u in f.bidded then Reached(f, order(f.bidded[u])) else {};
            Computes(MyBidsProg(u, order).body(now), f, Do(f, MyBids(u, reached), now))
  {
    var s := MyBidsProg(u, order).body(now);
    if u in f.bidded {
      ListingComputes(f.bidded[u], order(f.bidded[u]), f, now);
      var r := Visit(f, f.bidded[u], Reached(f, order(f.bidded[u])), now, 0);
      EndsBack(s, f, r.files, StopOf(r));
    } else {
      assert Finish(s, f, 1) == (f, Leave(Threw(FilesystemError)));
    }
  }
}
