/**
 * What every call of a run must answer, told from the answers before it: sessions and passwords,
 * successful Opens and Closes, accepted bids, and the limits on requests written out in full.
 */
module Promises {
  import opened Common
  import opened Text
  import opened Store
  import opened Ledger
  import opened Refinement
  import opened History
  import opened Sessions
  import Paths

  // ----- Sessions -----

  ghost predicate HasSession(calls: seq<Call>, u: string) { exists p :: InSession(calls, u, p) }

  /** Only valid users have directories, and only valid passwords are stored. */
  ghost predicate ValidAccounts(accounts: Accounts) {
    forall u <- accounts :: ValidUser(u) && (accounts[u].password.Some? ==> ValidPassword(accounts[u].password.value))
  }

  lemma ValidAccountsStep(f: Files, op: Op, now: nat)
    requires ValidAccounts(f.accounts)
    ensures ValidAccounts(Do(f, op, now).files.accounts)
  {
    if !OnAccounts(op) { OthersKeepAccounts(f, op, now); }
  }

  lemma {:induction false} RunHasValidAccounts(calls: seq<Call>)
    ensures ValidAccounts(Run(calls).accounts)
  {
    if calls != [] {
      var n := |calls| - 1;
      RunHasValidAccounts(calls[..n]);
      ValidAccountsStep(Run(calls[..n]), calls[n].op, calls[n].now);
    }
  }

  /** What the account files of a run are, in terms of its answers. */
  lemma AccountsAreTheAnswers(calls: seq<Call>, u: string, p: string)
    ensures CorrectPassword(Run(calls).accounts, u, p) <==> Registered(calls, u) == Some(p)
    ensures LoggedIn(Run(calls).accounts, u) <==> HasSession(calls, u)
    ensures LoggedIn(Run(calls).accounts, u) && CorrectPassword(Run(calls).accounts, u, p) <==> InSession(calls, u, p)
    ensures Registered(calls, u).Some? ==> u in Run(calls).accounts
    ensures HasSession(calls, u) ==> Registered(calls, u).Some?
  {
    var accounts := Run(calls).accounts;
    PasswordIsTheRegistered(calls, u);
    RunHasValidAccounts(calls);
    FilesKnowTheSession(calls, u, p);
    if LoggedIn(accounts, u) {
      var q := accounts[u].password.value;
      FilesKnowTheSession(calls, u, q);
      assert InSession(calls, u, q);
    }
    if HasSession(calls, u) {
      var q :| InSession(calls, u, q);
      FilesKnowTheSession(calls, u, q);
    }
  }

  /** A user registers with six digits, not all zero, and eight letters or digits. */
  lemma LoginAnswers(calls: seq<Call>, u: string, p: string, now: nat)
    ensures Answer(calls, Call(Login(u, p), now)) ==
            match Registered(calls, u)
            case Some(q) =>
              if p == q then OK else if HasSession(calls, u) then Threw(UserNotLoggedIn) else NOK
            case None =>
              if && |u| == 6 && u != "000000" && (forall c <- u :: '0' <= c <= '9')
                 && |p| == 8 && (forall c <- p :: '0' <= c <= '9' || 'a' <= c <= 'z' || 'A' <= c <= 'Z')
              then REGISTER else NOK
  {
    AccountsAreTheAnswers(calls, u, p);
    PasswordIsTheRegistered(calls, u);
    RunHasValidAccounts(calls);
  }

  lemma LogoutAnswers(calls: seq<Call>, u: string, p: string, now: nat)
    ensures Answer(calls, Call(Logout(u, p), now)) ==
            if Registered(calls, u) != Some(p) then NOK
            else if InSession(calls, u, p) then OK
            else Threw(UserNotLoggedIn)
  {
    AccountsAreTheAnswers(calls, u, p);
  }

  lemma UnregisterAnswers(calls: seq<Call>, u: string, p: string, now: nat)
    ensures Answer(calls, Call(Unregister(u, p), now)) ==
            if Registered(calls, u) != Some(p) then NOK
            else if InSession(calls, u, p) then OK
            else Threw(UserNotLoggedIn)
  {
    AccountsAreTheAnswers(calls, u, p);
  }

  /** A user has a directory from its first login with a valid id on, whatever that answered. */
  ghost predicate HasDirectory(calls: seq<Call>, u: string) {
    && |u| == 6 && u != "000000" && (forall c <- u :: '0' <= c <= '9')
    && exists k :: 0 <= k < |calls| && calls[k].op.Login? && calls[k].op.user == u
  }

  lemma DirectoryStep(f: Files, op: Op, now: nat, u: string)
    requires ValidAccounts(f.accounts)
    ensures u in Do(f, op, now).files.accounts <==>
            u in f.accounts || (op.Login? && op.user == u && ValidUser(u))
  {
    if !OnAccounts(op) { OthersKeepAccounts(f, op, now); }
  }

  lemma {:induction false} DirectoriesAreLogins(calls: seq<Call>, u: string)
    ensures u in Run(calls).accounts <==> HasDirectory(calls, u)
  {
    if calls != [] {
      var n := |calls| - 1;
      DirectoriesAreLogins(calls[..n], u);
      RunHasValidAccounts(calls[..n]);
      DirectoryStep(Run(calls[..n]), calls[n].op, calls[n].now, u);
      if HasDirectory(calls[..n], u) {
        var k :| 0 <= k < n && calls[..n][k].op.Login? && calls[..n][k].op.user == u;
        assert calls[k].op.Login?;
      }
      if HasDirectory(calls, u) {
        var k :| 0 <= k < |calls| && calls[k].op.Login? && calls[k].op.user == u;
        assert k < n ==> calls[..n][k] == calls[k];
      }
    }
  }

  // ----- Auctions -----

  lemma {:induction false} CountFirstIds(n: nat)
    ensures |FirstIds(n)| == n
  {
    if n > 0 {
      CountFirstIds(n - 1);
      assert n !in FirstIds(n - 1) && FirstIds(n) == FirstIds(n - 1) + {n};
    }
  }

  /** How many auction directories there are. */
  ghost function Count(calls: seq<Call>): nat { |Run(calls).auctions.Keys| }

  lemma CountIsLots(calls: seq<Call>)
    requires Clocked(calls)
    ensures Count(calls) == |Replay(calls).lots| <= 999
    ensures Run(calls).accounts == Replay(calls).accounts
  {
    DirectoriesAreDense(calls);
    CountFirstIds(|Replay(calls).lots|);
    RunRefinesLedger(calls);
  }

  /**
   * An Open in a session gets the next id exactly when one is left, the active time is 1 to 99999,
   * the start value at most 999999, the name at most 24 printable characters, and ASSET/<fname> can
   * be opened.
   */
  lemma OpenAnswers(calls: seq<Call>, u: string, p: string, d: Upload, now: nat)
    requires Clocked(calls + [Call(Open(u, p, d), now)])
    ensures Answer(calls, Call(Open(u, p, d), now)) ==
            if !HasSession(calls, u) then Threw(UserNotLoggedIn)
            else if && InSession(calls, u, p) && Count(calls) < 999
                    && 1 <= d.timeactive <= 99_999 && d.startValue <= 999_999
                    && |d.name| <= 24 && (forall c <- d.name :: ' ' <= c <= '~')
                    && Paths.AssetNameOk(d.fname)
            then Code(Count(calls) + 1)
            else CREATE_FAIL
  {
    var c := Call(Open(u, p, d), now);
    assert Answer(calls, c) == OpenLot(Replay(calls), u, p, d, now).1 by { AnswersAreTheLedgers(calls, c); }
    BeforeLast(calls, c);
    CountIsLots(calls);
    AccountsAreTheAnswers(calls, u, p);
  }

  /** For a file name without a slash all that is asked is that it is one. */
  lemma PlainNamesOpen(fname: string)
    requires '/' !in fname && '\0' !in fname
    ensures Paths.Contained(fname)
    ensures Paths.AssetNameOk(fname) <==> fname != "" && fname != "." && fname != ".."
  {
    Paths.SplitLast(fname);
  }

  /** The files and the ledger agree on an auction with what the answers of the run say. */
  ghost predicate Tells(calls: seq<Call>, u: string, a: nat, x: Lot) {
    && a in Run(calls).auctions
    && Run(calls).auctions[a].start == (if x.readable then Some(StartOf(x.offer, x.host, x.since)) else None)
    && ClosedAt(calls, a) == x.closed && Accepted(calls, a) == Placements(x.bids)
    && (a in OpenedBy(calls, u) <==> Hosts(u, x))
  }

  lemma LotsAreTold(calls: seq<Call>, u: string, a: nat)
    requires Clocked(calls)
    ensures a in Run(calls).auctions <==> 1 <= a <= Count(calls)
    ensures Known(Replay(calls), a) <==> 1 <= a <= Count(calls)
    ensures Known(Replay(calls), a) ==> Tells(calls, u, a, Replay(calls).lots[a - 1])
  {
    CountIsLots(calls);
    DirectoriesAreDense(calls);
    if Known(Replay(calls), a) {
      var x := Replay(calls).lots[a - 1];
      assert SameLot(Run(calls).auctions[a - 1 + 1], x, Time(calls)) by { RunRefinesLedger(calls); }
      assert ClosedAt(calls, a) == x.closed by { ClosedAtIsTheLots(calls, a); }
      assert Accepted(calls, a) == Placements(x.bids) by { AcceptedAreTheBids(calls, a); }
      assert a in OpenedBy(calls, u) <==> Hosts(u, x) by { IndexesAreTheLots(calls, u, a); }
    }
  }

  /** What a run tells of a user, a password and an auction. */
  datatype Told = Told(directory: bool, session: bool, authorised: bool, known: bool, own: bool,
                       start: Option<StartInfo>, closed: Option<nat>, placed: seq<Placed>)

  ghost function ToldOf(calls: seq<Call>, u: string, p: string, a: nat): Told {
    Told(HasDirectory(calls, u), HasSession(calls, u), InSession(calls, u, p), 1 <= a <= Count(calls), a in OpenedBy(calls, u),
         if a in Run(calls).auctions then Run(calls).auctions[a].start else None, ClosedAt(calls, a), Accepted(calls, a))
  }

  /** What the next bid has to exceed. */
  function Standing(placed: seq<Placed>, startValue: nat): nat {
    if placed == [] then startValue else placed[|placed| - 1].value
  }

  /** The auction has been closed, or its time is up. */
  predicate IsOver(t: Told, now: nat)
    requires t.start.Some?
  {
    t.closed.Some? || now >= t.start.value.time + t.start.value.timeactive
  }

  /**
   * The answer due to a bid: in a session it stands exactly on another's auction whose START can be
   * read, in time, and above the last bid.
   */
  function BidDue(t: Told, v: nat, now: nat): Reply {
    if !t.session then Threw(UserNotLoggedIn)
    else if !t.authorised then BID_NOK
    else if !t.known then Threw(AuctionNotFound)
    else if t.own then Threw(BidOnSelf)
    else if t.start.None? then Threw(AuctionNotFound)
    else if IsOver(t, now) then Threw(AuctionAlreadyClosed)
    else if v <= Standing(t.placed, t.start.value.startValue) then Threw(LargerBidAlreadyExists)
    else OK
  }

  /** The answer due to a Close: in a session it succeeds exactly on an own auction that is not over. */
  function CloseDue(t: Told, now: nat): Reply {
    if !t.directory then Threw(UserDoesNotExist)
    else if !t.session then Threw(UserNotLoggedIn)
    else if !t.authorised then Threw(IncorrectPassword)
    else if !t.known then Threw(AuctionNotFound)
    else if !t.own then Threw(AuctionNotOwnedByUser)
    else if t.start.None? then Threw(AuctionNotFound)
    else if IsOver(t, now) then Threw(AuctionAlreadyClosed)
    else OK
  }

  /** The ledger says the same of a user, a password and an auction. */
  ghost predicate SaysToo(l: Ledger, u: string, p: string, a: nat, t: Told) {
    && (t.directory <==> u in l.accounts)
    && (t.session <==> LoggedIn(l.accounts, u))
    && (t.session ==> (t.authorised <==> CorrectPassword(l.accounts, u, p)))
    && (t.known <==> Known(l, a))
    && (t.known ==>
          var x := l.lots[a - 1];
          && t.start == (if x.readable then Some(StartOf(x.offer, x.host, x.since)) else None)
          && t.closed == x.closed && t.placed == Placements(x.bids) && (t.own <==> Hosts(u, x)))
  }

  lemma LedgerSaysToo(calls: seq<Call>, u: string, p: string, a: nat)
    requires Clocked(calls)
    ensures SaysToo(Replay(calls), u, p, a, ToldOf(calls, u, p, a))
  {
    CountIsLots(calls);
    assert u in Run(calls).accounts <==> HasDirectory(calls, u) by { DirectoriesAreLogins(calls, u); }
    AccountsAreTheAnswers(calls, u, p);
    LotsAreTold(calls, u, a);
  }

  lemma BidDueToo(l: Ledger, u: string, p: string, a: nat, v: nat, now: nat, t: Told)
    requires SaysToo(l, u, p, a, t)
    ensures BidOnLot(l, u, p, a, v, now).1 == BidDue(t, v, now)
  {
  }

  lemma CloseDueToo(l: Ledger, u: string, p: string, a: nat, now: nat, t: Told)
    requires SaysToo(l, u, p, a, t) && (t.session ==> t.directory)
    ensures CloseLot(l, a, u, p, now).1 == CloseDue(t, now)
  {
  }

  lemma BidAnswers(calls: seq<Call>, u: string, p: string, a: nat, v: nat, now: nat)
    requires Clocked(calls + [Call(Bid(u, p, a, v), now)])
    ensures Answer(calls, Call(Bid(u, p, a, v), now)) == BidDue(ToldOf(calls, u, p, a), v, now)
  {
    var c := Call(Bid(u, p, a, v), now);
    BeforeLast(calls, c);
    assert Answer(calls, c) == BidOnLot(Replay(calls), u, p, a, v, now).1 by { AnswersAreTheLedgers(calls, c); }
    LedgerSaysToo(calls, u, p, a);
    BidDueToo(Replay(calls), u, p, a, v, now, ToldOf(calls, u, p, a));
  }

  lemma CloseAnswers(calls: seq<Call>, a: nat, u: string, p: string, now: nat)
    requires Clocked(calls + [Call(Close(a, u, p), now)])
    ensures Answer(calls, Call(Close(a, u, p), now)) == CloseDue(ToldOf(calls, u, p, a), now)
  {
    var c := Call(Close(a, u, p), now);
    BeforeLast(calls, c);
    assert Answer(calls, c) == CloseLot(Replay(calls), a, u, p, now).1 by { AnswersAreTheLedgers(calls, c); }
    LedgerSaysToo(calls, u, p, a);
    CloseDueToo(Replay(calls), u, p, a, now, ToldOf(calls, u, p, a));
  }

  /** A record is shown exactly of an auction whose START can be read. */
  lemma ShowAnswers(calls: seq<Call>, a: nat, now: nat)
    requires Clocked(calls + [Call(ShowRecord(a), now)])
    ensures var r := Answer(calls, Call(ShowRecord(a), now));
            if 1 <= a <= Count(calls) && a in Run(calls).auctions && Run(calls).auctions[a].start.Some? then r.Record?
            else r == Threw(AuctionNotFound)
  {
    var c := Call(ShowRecord(a), now);
    BeforeLast(calls, c);
    LotsAreTold(calls, "", a);
    assert Answer(calls, c) == ShowLot(Replay(calls), a, now) by { AnswersAreTheLedgers(calls, c); }
  }

  /** START can be read exactly when its Open was within the limits and its names make two words. */
  lemma StartIsReadable(calls: seq<Call>, a: nat)
    requires Clocked(calls) && 1 <= a <= Count(calls)
    ensures MadeBy(calls, a).Some? && MadeBy(calls, a).value in calls && MadeBy(calls, a).value.op.Open?
    ensures var d := MadeBy(calls, a).value.op.offer;
            a in Run(calls).auctions
            && (Run(calls).auctions[a].start.Some? <==>
                && 1 <= d.timeactive <= 99_999 && d.startValue <= 999_999
                && |d.name| <= 24 && (forall c <- d.name :: ' ' <= c <= '~')
                && |Words(d.name + " " + d.fname)| == 2)
  {
    LotsAreTold(calls, "", a);
    LotIsOffered(calls, a);
  }

  /** MyAuctions and MyBids fail for a user without a directory, and only for such a one. */
  lemma ListingsNeedADirectory(calls: seq<Call>, u: string, reached: set<nat>, now: nat)
    requires Clocked(calls + [Call(MyAuctions(u, reached), now)])
    ensures Answer(calls, Call(MyAuctions(u, reached), now)) == Threw(FilesystemError) <==> !HasDirectory(calls, u)
    ensures Answer(calls, Call(MyBids(u, reached), now)) == Threw(FilesystemError) <==> !HasDirectory(calls, u)
  {
    BeforeLast(calls, Call(MyAuctions(u, reached), now));
    DirectoriesAreLogins(calls, u);
    RunRefinesLedger(calls);
  }
}
