/**
 * What the programs write, access by access: which of them leave the account files or the set of
 * auction directories alone, and that no access leaves a login file without its password file.
 */
module Footprints {
  import opened Text
  import opened Store
  import opened Programs

  datatype Kept = AccountsKept | DirectoriesKept

  predicate Keeps(k: Kept, f: Files, g: Files) {
    match k
    case AccountsKept => g.accounts == f.accounts
    case DirectoriesKept => g.auctions.Keys == f.auctions.Keys
  }

  /** The section posts, and the process goes on to wait for another. */
  predicate Waits(s: Section) { s.Post? && s.next.Wait? }

  /** The next n steps keep k, whatever files each of them finds, in later sections too. */
  ghost predicate Keeping(s: Section, k: Kept, n: nat)
    decreases n
  {
    && (n > 0 && s.Access? ==> forall f: Files :: Keeps(k, f, s.write(f)) && Keeping(s.cont(f), k, n - 1))
    && (n > 0 && Waits(s) ==> forall now: nat :: Keeping(s.next.body(now), k, n - 1))
  }

  /** All accesses from here on do. */
  ghost predicate Quiet(s: Section, k: Kept) { forall n: nat :: Keeping(s, k, n) }

  lemma QuietHere(s: Section, k: Kept)
    requires s.Access? ==> forall f: Files :: Keeps(k, f, s.write(f)) && Quiet(s.cont(f), k)
    requires Waits(s) ==> forall now: nat :: Quiet(s.next.body(now), k)
    ensures Quiet(s, k)
  {
    forall n: nat ensures Keeping(s, k, n) {
      if n > 0 && s.Access? {
        forall f: Files ensures Keeps(k, f, s.write(f)) && Keeping(s.cont(f), k, n - 1) {
          assert Quiet(s.cont(f), k);
        }
      }
      if n > 0 && Waits(s) {
        forall now: nat ensures Keeping(s.next.body(now), k, n - 1) {
          assert Quiet(s.next.body(now), k);
        }
      }
    }
  }

  lemma QuietNext(s: Section, k: Kept, f: Files)
    requires Quiet(s, k) && s.Access?
    ensures Keeps(k, f, s.write(f)) && Quiet(s.cont(f), k)
  {
    assert Keeping(s, k, 1);
    forall n: nat ensures Keeping(s.cont(f), k, n) {
      assert Keeping(s, k, n + 1);
    }
  }

  lemma QuietAfterPost(s: Section, k: Kept, now: nat)
    requires Quiet(s, k) && Waits(s)
    ensures Quiet(s.next.body(now), k)
  {
    forall n: nat ensures Keeping(s.next.body(now), k, n) {
      assert Keeping(s, k, n + 1);
    }
  }

  lemma QuietStops(k: Kept)
    ensures forall s: Section :: !s.Access? && !Waits(s) ==> Quiet(s, k)
  {
    forall s: Section | !s.Access? && !Waits(s) ensures Quiet(s, k) {
      QuietHere(s, k);
    }
  }

  // ----- Auctions -----

  lemma QuietAuthorised(u: string, p: string, wrong: Reply, next: Section, k: Kept)
    requires Quiet(next, k)
    ensures Quiet(Authorised(u, p, wrong, next), k)
  {
    QuietStops(k);
    QuietHere(PasswordCheck(u, p, wrong, next), k);
    QuietHere(Authorised(u, p, wrong, next), k);
  }

  lemma QuietCloseFile(a: nat, now: nat, next: Section, k: Kept)
    requires Quiet(next, k)
    ensures Quiet(CloseFile(a, now, next), k)
  {
    QuietStops(k);
    var s := CloseFile(a, now, next);
    forall f: Files ensures Quiet(s.cont(f), k) {
      var t := s.cont(f);
      if t.Access? {
        forall g: Files ensures Quiet(t.cont(g), k) {
          QuietHere(t.cont(g), k);
        }
        QuietHere(t, k);
      }
    }
    QuietHere(s, k);
  }

  lemma QuietClose(a: nat, u: string, p: string, now: nat, k: Kept)
    ensures Quiet(CloseProg(a, u, p).body(now), k)
  {
    QuietStops(k);
    var own, checked := CloseOwn(a, now), CloseChecked(a, u, now);
    forall f: Files ensures Quiet(own.cont(f), k) {
      if a in f.auctions && f.auctions[a].start.Some? {
        QuietCloseFile(a, now, Done(if Expired(f.auctions[a].start.value, now) then Threw(AuctionAlreadyClosed) else OK), k);
      }
    }
    QuietHere(own, k);
    forall f: Files ensures Quiet(checked.cont(f), k) { QuietHere(checked.cont(f), k); }
    QuietHere(checked, k);
    QuietAuthorised(u, p, Threw(IncorrectPassword), checked, k);
    QuietHere(CloseProg(a, u, p).body(now), k);
  }

  lemma QuietBid(u: string, p: string, a: nat, v: nat, now: nat, k: Kept)
    ensures Quiet(BidProg(u, p, a, v).body(now), k)
  {
    QuietStops(k);
    var open, checked := BidOpen(u, a, v, now), BidChecked(u, a, v, now);
    forall f: Files ensures Quiet(open.cont(f), k) {
      var t := open.cont(f);
      if t.Access? {
        forall g: Files ensures Quiet(t.cont(g), k) {
          if a in g.auctions && g.auctions[a].start.Some? { QuietTimely(g.auctions[a].start.value, u, a, v, now, k); }
        }
        QuietHere(t, k);
      }
    }
    QuietHere(open, k);
    forall f: Files ensures Quiet(checked.cont(f), k) { QuietHere(checked.cont(f), k); }
    QuietHere(checked, k);
    QuietAuthorised(u, p, BID_NOK, checked, k);
  }

  lemma QuietTimely(s: StartInfo, u: string, a: nat, v: nat, now: nat, k: Kept)
    ensures Quiet(CloseFile(a, now, Leave(Threw(AuctionAlreadyClosed))), k)
    ensures Quiet(CompareBids(s, u, a, v, now), k)
  {
    QuietStops(k);
    QuietCloseFile(a, now, Leave(Threw(AuctionAlreadyClosed)), k);
    var t := RecordBid(s, u, a, v, now);
    forall f: Files ensures Quiet(t.cont(f), k) { QuietHere(t.cont(f), k); }
    QuietHere(t, k);
    QuietHere(CompareBids(s, u, a, v, now), k);
  }

  lemma QuietShow(a: nat, now: nat, k: Kept)
    ensures Quiet(ShowProg(a).body(now), k)
  {
    QuietStops(k);
    var s := ShowProg(a).body(now);
    forall f: Files ensures Quiet(s.cont(f), k) {
      var t := s.cont(f);
      if t.Access? {
        QuietShowBids(a, f.auctions[a].start.value, k);
        QuietCloseFile(a, now, ShowBids(a, f.auctions[a].start.value), k);
        QuietHere(t, k);
      }
    }
    QuietHere(s, k);
  }

  lemma QuietShowBids(a: nat, s: StartInfo, k: Kept)
    ensures Quiet(ShowBids(a, s), k)
  {
    QuietStops(k);
    var t := ShowBids(a, s);
    forall f: Files ensures Quiet(t.cont(f), k) { QuietHere(t.cont(f), k); }
    QuietHere(t, k);
  }

  lemma {:induction false} QuietVisit(ids: seq<nat>, listed: map<nat, bool>, now: nat, k: Kept)
    ensures Quiet(VisitSection(ids, listed, now), k)
    decreases |ids|
  {
    QuietStops(k);
    if ids != [] {
      var a, s := ids[0], VisitSection(ids, listed, now);
      var over := VisitSection(ids[1..], listed[a := false], now);
      QuietVisit(ids[1..], listed[a := false], now, k);
      QuietVisit(ids[1..], listed[a := true], now, k);
      QuietCloseFile(a, now, over, k);
      forall f: Files ensures Quiet(s.cont(f), k) {
        if s.cont(f) != over { QuietHere(s.cont(f), k); }
      }
      QuietHere(s, k);
    }
  }

  lemma QuietListings(u: string, order: set<nat> -> seq<nat>, now: nat, k: Kept)
    ensures Quiet(MyAuctionsProg(u, order).body(now), k) && Quiet(MyBidsProg(u, order).body(now), k)
  {
    QuietStops(k);
    forall ids ensures Quiet(VisitSection(ids, map[], now), k) { QuietVisit(ids, map[], now, k); }
    var mine, bids := MyAuctionsProg(u, order).body(now), MyBidsProg(u, order).body(now);
    forall f: Files ensures Quiet(mine.cont(f), k) {
      if u in f.hosted { assert mine.cont(f) == VisitSection(order(f.hosted[u]), map[], now); }
    }
    forall f: Files ensures Quiet(bids.cont(f), k) {
      if u in f.bidded { assert bids.cont(f) == VisitSection(order(f.bidded[u]), map[], now); }
    }
    QuietHere(mine, k);
    QuietHere(bids, k);
  }

  /** Open makes a directory but touches no account. */
  lemma QuietOpen(u: string, p: string, d: Upload, now: nat)
    ensures Quiet(OpenProg(u, p, d).body(now), AccountsKept)
  {
    var k := AccountsKept;
    QuietStops(k);
    forall a: nat ensures Quiet(MakeAuctionDir(u, d, a, now), k) {
      QuietHere(Register(u, a), k);
      QuietHere(FillAuction(u, d, a, now), k);
      QuietHere(MakeAuctionDir(u, d, a, now), k);
    }
    QuietHere(Scan(u, d, now), k);
    QuietAuthorised(u, p, CREATE_FAIL, Scan(u, d, now), k);
  }

  // ----- Accounts keep the directories -----

  lemma QuietLogin(u: string, p: string, now: nat)
    ensures Quiet(LoginProg(u, p).body(now), DirectoriesKept)
  {
    var k := DirectoriesKept;
    QuietStops(k);
    var s, put, newUser := LoginProg(u, p).body(now), PutLogin(u, Done(OK)), NewUser(u, p);
    QuietHere(put, k);
    QuietHere(PutLogin(u, Done(REGISTER)), k);
    QuietHere(newUser, k);
    QuietHere(Then(MakeUserDir(u), newUser), k);
    forall f: Files ensures Quiet(s.cont(f), k) {
      var t := s.cont(f);
      if t.Access? {
        forall g: Files ensures Quiet(t.cont(g), k) {
          var r := t.cont(g);
          if r.Access? && !LoggedIn(f.accounts, u) && u in g.accounts {
            forall h: Files ensures Quiet(r.cont(h), k) {
              if u in h.accounts && h.accounts[u].password.Some? { QuietHere(r.cont(h), k); }
            }
            QuietHere(r, k);
          }
        }
        QuietHere(t, k);
      }
    }
    QuietHere(s, k);
  }

  lemma QuietLogout(u: string, p: string, next: Prog)
    requires next.Wait? ==> forall now: nat :: Quiet(next.body(now), DirectoriesKept)
    ensures Quiet(LogoutSection(u, p, next), DirectoriesKept)
  {
    var k, s := DirectoriesKept, LogoutSection(u, p, next);
    QuietStops(k);
    QuietHere(Post(next), k);
    forall f: Files ensures Quiet(s.cont(f), k) {
      var t := s.cont(f);
      if t.Access? {
        forall g: Files ensures Quiet(t.cont(g), k) { QuietHere(t.cont(g), k); }
        QuietHere(t, k);
      }
    }
    QuietHere(s, k);
  }

  lemma QuietErase(u: string)
    ensures Quiet(EraseSection(u), DirectoriesKept)
  {
    var k, s := DirectoriesKept, EraseSection(u);
    QuietStops(k);
    if s.Access? {
      forall f: Files ensures Quiet(s.cont(f), k) {
        var t := s.cont(f);
        if t.Access? {
          forall g: Files ensures Quiet(t.cont(g), k) { QuietHere(t.cont(g), k); }
          QuietHere(t, k);
        }
      }
    }
    QuietHere(s, k);
  }

  lemma QuietUnregister(u: string, p: string, now: nat)
    ensures Quiet(UnregisterProg(u, p).body(now), DirectoriesKept)
  {
    var k, s := DirectoriesKept, UnregisterProg(u, p).body(now);
    QuietStops(k);
    QuietErase(u);
    forall now': nat ensures Quiet(LogoutThenErase(u, p).body(now'), k) {
      QuietLogout(u, p, EraseProg(u));
    }
    QuietHere(Post(LogoutThenErase(u, p)), k);
    forall f: Files ensures Quiet(s.cont(f), k) { QuietStops(k); }
    QuietHere(s, k);
  }

  // ----- Logins -----

  /** Running the section alone from f, no access leaves a login file without its password file. */
  ghost predicate KeepsLogins(s: Section, f: Files) {
    forall n: nat :: LoginsHavePasswords(Finish(s, f, n).0.accounts)
  }

  lemma LoginsHere(s: Section, f: Files)
    requires LoginsHavePasswords(f.accounts)
    requires s.Access? ==> KeepsLogins(s.cont(f), s.write(f))
    ensures KeepsLogins(s, f)
  {
    forall n: nat ensures LoginsHavePasswords(Finish(s, f, n).0.accounts) {
      if n > 0 && s.Access? { assert Finish(s, f, n) == Finish(s.cont(f), s.write(f), n - 1); }
    }
  }

  lemma LoginsNext(s: Section, f: Files)
    requires KeepsLogins(s, f) && s.Access?
    ensures KeepsLogins(s.cont(f), s.write(f)) && LoginsHavePasswords(s.write(f).accounts)
  {
    forall n: nat ensures LoginsHavePasswords(Finish(s.cont(f), s.write(f), n).0.accounts) {
      assert Finish(s, f, n + 1) == Finish(s.cont(f), s.write(f), n);
    }
    assert Finish(s.cont(f), s.write(f), 0).0 == s.write(f);
  }

  lemma {:induction false} QuietKeepsAccounts(s: Section, f: Files, n: nat)
    requires Quiet(s, AccountsKept)
    ensures Finish(s, f, n).0.accounts == f.accounts
    decreases n
  {
    if n > 0 && s.Access? {
      QuietNext(s, AccountsKept, f);
      QuietKeepsAccounts(s.cont(f), s.write(f), n - 1);
    }
  }

  lemma QuietKeepsLogins(s: Section, f: Files)
    requires Quiet(s, AccountsKept) && LoginsHavePasswords(f.accounts)
    ensures KeepsLogins(s, f)
  {
    forall n: nat ensures LoginsHavePasswords(Finish(s, f, n).0.accounts) {
      QuietKeepsAccounts(s, f, n);
    }
  }

  lemma LoginKeepsLogins(u: string, p: string, f: Files, now: nat)
    requires LoginsHavePasswords(f.accounts)
    ensures KeepsLogins(LoginProg(u, p).body(now), f)
  {
    var s := LoginProg(u, p).body(now);
    if !LoggedIn(f.accounts, u) && ValidUser(u) {
      if u !in f.accounts {
        var g := MakeUserDir(u)(f);
        NewUserKeepsLogins(u, p, g);
        LoginsHere(Then(MakeUserDir(u), NewUser(u, p)), f);
        LoginsHere(s.cont(f), f);
      } else {
        var t := s.cont(f).cont(f);
        if f.accounts[u].password.Some? {
          if CorrectPassword(f.accounts, u, p) { PutLoginKeepsLogins(u, f, OK); } else { LoginsHere(Done(NOK), f); }
          LoginsHere(t.cont(f), f);
        } else {
          NewUserKeepsLogins(u, p, f);
        }
        LoginsHere(t, f);
        LoginsHere(s.cont(f), f);
      }
    } else {
      if LoggedIn(f.accounts, u) { LoginsHere(s.cont(f).cont(f), f); }
      LoginsHere(s.cont(f), f);
    }
    LoginsHere(s, f);
  }

  lemma PutLoginKeepsLogins(u: string, f: Files, r: Reply)
    requires LoginsHavePasswords(f.accounts) && u in f.accounts && f.accounts[u].password.Some?
    ensures KeepsLogins(PutLogin(u, Done(r)), f)
  {
    LoginsHere(Done(r), PutLogin(u, Done(r)).write(f));
    LoginsHere(PutLogin(u, Done(r)), f);
  }

  lemma NewUserKeepsLogins(u: string, p: string, f: Files)
    requires LoginsHavePasswords(f.accounts) && u in f.accounts
    ensures KeepsLogins(NewUser(u, p), f)
  {
    var s := NewUser(u, p);
    if ValidPassword(p) { PutLoginKeepsLogins(u, s.write(f), REGISTER); }
    LoginsHere(s, f);
  }

  /** The sections of Unregister, the last on a user who is logged out. */
  lemma UnregisterKeepsLogins(u: string, p: string, f: Files, next: Prog)
    requires LoginsHavePasswords(f.accounts)
    ensures KeepsLogins(CheckSection(u, p, next), f) && KeepsLogins(LogoutSection(u, p, next), f)
    ensures (u in f.accounts ==> !f.accounts[u].loggedIn) ==> KeepsLogins(EraseSection(u), f)
  {
    var check, logout, erase := CheckSection(u, p, next), LogoutSection(u, p, next), EraseSection(u);
    LoginsHere(check.cont(f), f);
    LoginsHere(check, f);
    var t := logout.cont(f);
    if t.Access? {
      var w := t.cont(f);
      if w.Access? { LoginsHere(w.cont(f), w.write(f)); }
      LoginsHere(w, f);
    }
    LoginsHere(t, f);
    LoginsHere(logout, f);
    if u in f.accounts ==> !f.accounts[u].loggedIn { EraseKeepsLogins(u, f); }
  }

  lemma EraseKeepsLogins(u: string, f: Files)
    requires LoginsHavePasswords(f.accounts) && (u in f.accounts ==> !f.accounts[u].loggedIn)
    ensures KeepsLogins(EraseSection(u), f)
  {
    var s := EraseSection(u);
    if s.Access? {
      var t := s.cont(f);
      if t.Access? {
        var w := t.cont(f);
        if w.Access? { LoginsHere(w.cont(f), w.write(f)); }
        LoginsHere(w, f);
      }
      LoginsHere(t, f);
    }
    LoginsHere(s, f);
  }
}
