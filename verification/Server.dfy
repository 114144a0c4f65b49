/**
 * class Database, in the source's imperative form: methods that create and unlink files, take and
 * give back the semaphore, and loop over directories whose entries come in any order. Each public
 * method is proved to do what Store.Do says.
 */
module Server {
  import opened Common
  import opened Text
  import opened Store
  import Paths

  /** A call either waits for the semaphore for ever or ends, by returning or by throwing. */
  datatype Result = Blocked | Answered(reply: Reply)

  /** Puts x where it belongs in an increasing sequence. */
  method InsertBy<T(==)>(key: T -> nat, r: seq<T>, x: T) returns (s: seq<T>)
    requires forall i, j :: 0 <= i < j < |r| ==> key(r[i]) < key(r[j])
    requires forall i :: 0 <= i < |r| ==> key(r[i]) != key(x)
    ensures forall i, j :: 0 <= i < j < |s| ==> key(s[i]) < key(s[j])
    ensures forall y :: y in s <==> y in r || y == x
  {
    var p := 0;
    while p < |r| && key(r[p]) < key(x)
      invariant p <= |r|
      invariant forall i :: 0 <= i < p ==> key(r[i]) < key(x)
    {
      p := p + 1;
    }
    assert r == r[..p] + r[p..];
    s := r[..p] + [x] + r[p..];
  }

  /** std::sort with a comparator on distinct keys. */
  method SortBy<T(==)>(key: T -> nat, list: seq<T>) returns (r: seq<T>)
    requires forall i, j :: 0 <= i < j < |list| ==> key(list[i]) != key(list[j])
    ensures forall i, j :: 0 <= i < j < |r| ==> key(r[i]) < key(r[j])
    ensures forall x :: x in r <==> x in list
  {
    r := [];
    for n := 0 to |list|
      invariant forall i, j :: 0 <= i < j < |r| ==> key(r[i]) < key(r[j])
      invariant forall x :: x in r <==> x in list[..n]
    {
      forall i | 0 <= i < |r| ensures key(r[i]) != key(list[n]) {
        assert r[i] in r;
        var k :| 0 <= k < n && list[..n][k] == r[i];
        assert list[k] == r[i];
      }
      assert list[..n + 1] == list[..n] + [list[n]];
      r := InsertBy(key, r, list[n]);
    }
    assert list[..|list|] == list;
  }

  class Database {
    var accounts: Accounts
    var hosted: map<string, set<nat>>
    var bidded: map<string, set<nat>>
    var auctions: map<nat, Auction>
    var permits: nat

    ghost function Disk(): Files
      reads this
    {
      Files(accounts, hosted, bidded, auctions)
    }

    /** Bid files are named by the value they hold. */
    ghost predicate Valid()
      reads this
    {
      forall a <- auctions :: forall v <- auctions[a].bids :: auctions[a].bids[v].value == v
    }

    /** CreateBaseDir */
    constructor ()
      ensures Valid() && Disk() == NO_FILES && permits == 1
    {
      accounts, hosted, bidded, auctions, permits := map[], map[], map[], map[], 1;
    }

    // ----- The semaphore -----

    /** sem_wait, which returns only when there is a permit to take. */
    method SemaphoreWait() returns (taken: bool)
      modifies this`permits
      ensures taken == (old(permits) > 0)
      ensures permits == if taken then old(permits) - 1 else old(permits)
    {
      taken := permits > 0;
      if taken { permits := permits - 1; }
    }

    method SemaphorePost()
      modifies this`permits
      ensures permits == old(permits) + 1
    {
      permits := permits + 1;
    }

    // ----- User files -----

    /** Returns 0, 2 when the directory existed, -1 for an invalid id. */
    method CreateUserDir(u: string) returns (code: int)
      modifies this`accounts, this`hosted, this`bidded
      ensures code == if !ValidUser(u) then -1 else if u in old(accounts) then 2 else 0
      ensures code != 0 ==> unchanged(this)
      ensures code == 0 ==>
                && accounts == old(accounts)[u := Account(None, false)]
                && hosted == old(hosted)[u := {}] && bidded == old(bidded)[u := {}]
    {
      if !ValidUser(u) { return -1; }
      if u in accounts { return 2; }
      accounts := accounts[u := Account(None, false)];
      hosted := hosted[u := {}];
      bidded := bidded[u := {}];
      code := 0;
    }

    method CreateLogin(u: string) returns (code: int)
      modifies this`accounts
      ensures code == if ValidUser(u) && u in old(accounts) then 0 else -1
      ensures accounts == if code == 0 then old(accounts)[u := old(accounts)[u].(loggedIn := true)] else old(accounts)
    {
      if !ValidUser(u) || u !in accounts { return -1; }
      accounts := accounts[u := accounts[u].(loggedIn := true)];
      code := 0;
    }

    method CreatePassword(u: string, p: string) returns (code: int)
      modifies this`accounts
      ensures code == if ValidPassword(p) && u in old(accounts) then 0 else -1
      ensures accounts == if code == 0 then old(accounts)[u := old(accounts)[u].(password := Some(p))] else old(accounts)
    {
      if !ValidPassword(p) || u !in accounts { return -1; }
      accounts := accounts[u := accounts[u].(password := Some(p))];
      code := 0;
    }

    /** CreatePassword, then CreateLogin. */
    method CreateCredentials(u: string, p: string) returns (code: int)
      requires ValidUser(u) && u in accounts
      modifies this`accounts
      ensures code == if ValidPassword(p) then 0 else -1
      ensures accounts == if code == 0 then old(accounts)[u := Account(Some(p), true)] else old(accounts)
    {
      code := CreatePassword(u, p);
      if code == -1 { return -1; }
      ghost var x := accounts[u];
      code := CreateLogin(u);
      assert old(accounts)[u := x][u := x.(loggedIn := true)] == old(accounts)[u := x.(loggedIn := true)];
    }

    /** Returns 0, 2 when there was no login file, -1 for an invalid or unknown user. */
    method EraseLogin(u: string) returns (code: int)
      modifies this`accounts
      ensures code == if !ValidUser(u) || u !in old(accounts) then -1 else if old(accounts)[u].loggedIn then 0 else 2
      ensures accounts == if code == 0 then old(accounts)[u := old(accounts)[u].(loggedIn := false)] else old(accounts)
    {
      if !ValidUser(u) || u !in accounts { return -1; }
      if !accounts[u].loggedIn { return 2; }
      accounts := accounts[u := accounts[u].(loggedIn := false)];
      code := 0;
    }

    method ErasePasswordFile(u: string) returns (code: int)
      modifies this`accounts
      ensures (accounts, Code(code)) == ErasePassword(old(accounts), u)
    {
      if !ValidUser(u) { return -1; }
      if u !in accounts { return 2; }
      if accounts[u].password.None? { return -1; }
      accounts := accounts[u := accounts[u].(password := None)];
      code := 0;
    }

    // ----- Accounts -----

    /** LoginUser between sem_wait and sem_post. */
    method LoginInside(u: string, p: string) returns (reply: Reply)
      modifies this`accounts, this`hosted, this`bidded
      ensures (accounts, reply) == LoginAccount(old(accounts), u, p)
      ensures var known := !ValidUser(u) || u in old(accounts);
              && hosted == (if known then old(hosted) else old(hosted)[u := {}])
              && bidded == (if known then old(bidded) else old(bidded)[u := {}])
    {
      if LoggedIn(accounts, u) {
        return if CorrectPassword(accounts, u, p) then OK else Threw(UserNotLoggedIn);
      }
      var created := CreateUserDir(u);
      if created == -1 { return NOK; }
      if created == 2 && accounts[u].password.Some? {
        if !CorrectPassword(accounts, u, p) { return NOK; }
        var login := CreateLogin(u);
        return OK;
      }
      ghost var made := accounts;
      var code := CreateCredentials(u, p);
      assert made[u := Account(Some(p), true)] == old(accounts)[u := Account(Some(p), true)];
      return if code == -1 then NOK else REGISTER;
    }

    method LoginUser(u: string, p: string, now: nat) returns (r: Result)
      requires Valid()
      modifies this
      ensures Valid()
      ensures old(permits) == 0 ==> r == Blocked && unchanged(this)
      ensures old(permits) > 0 ==>
                var o := Do(old(Disk()), Login(u, p), now);
                r == Answered(o.reply) && Disk() == o.files && permits == old(permits) + o.permits
    {
      ghost var before := Disk();
      var taken := SemaphoreWait();
      if !taken { return Blocked; }
      var reply := LoginInside(u, p);
      if !ValidUser(u) || u in before.accounts {
        SameAccounts(before, accounts);
      } else {
        NewAccount(before, accounts, u);
      }
      SemaphorePost();
      return Answered(reply);
    }

    method LogoutUser(u: string, p: string, now: nat) returns (r: Result)
      requires Valid()
      modifies this
      ensures Valid()
      ensures old(permits) == 0 ==> r == Blocked && unchanged(this)
      ensures old(permits) > 0 ==>
                var o := Do(old(Disk()), Logout(u, p), now);
                r == Answered(o.reply) && Disk() == o.files && permits == old(permits) + o.permits
    {
      ghost var before := Disk();
      var taken := SemaphoreWait();
      if !taken { return Blocked; }
      SameAccounts(before, LogoutAccount(before.accounts, u, p).0);
      if !CorrectPassword(accounts, u, p) {
        SemaphorePost();
        return Answered(NOK);
      }
      var removed := EraseLogin(u);
      SemaphorePost();
      if removed == 2 { return Answered(Threw(UserNotLoggedIn)); }
      return Answered(OK);
    }

    method UnregisterUser(u: string, p: string, now: nat) returns (r: Result)
      requires Valid()
      modifies this
      ensures Valid()
      ensures old(permits) == 0 ==> r == Blocked && unchanged(this)
      ensures old(permits) > 0 ==>
                var o := Do(old(Disk()), Unregister(u, p), now);
                r == Answered(o.reply) && Disk() == o.files && permits == old(permits) + o.permits
    {
      ghost var before := Disk();
      SameAccounts(before, UnregisterAccount(before.accounts, u, p).0);
      SameAccounts(before, LogoutAccount(before.accounts, u, p).0);
      var taken := SemaphoreWait();
      if !taken { return Blocked; }
      var correct := CorrectPassword(accounts, u, p);
      SemaphorePost();
      if !correct { return Answered(NOK); }
      var logout := LogoutUser(u, p, now);
      if logout == Answered(NOK) || (logout.Answered? && logout.reply.Threw?) { return logout; }
      taken := SemaphoreWait();
      if !taken { return Blocked; }
      var erased := ErasePasswordFile(u);
      SemaphorePost();
      return Answered(Code(erased));
    }

    static lemma SameAccounts(f: Files, a: Accounts)
      requires a.Keys == f.accounts.Keys
      ensures WithAccounts(f, a) == f.(accounts := a)
    {
      assert a.Keys - f.accounts.Keys == {};
    }

    static lemma NewAccount(f: Files, a: Accounts, u: string)
      requires u !in f.accounts && a.Keys == f.accounts.Keys + {u}
      ensures WithAccounts(f, a) == Files(a, f.hosted[u := {}], f.bidded[u := {}], f.auctions)
    {
      assert a.Keys - f.accounts.Keys == {u};
    }

    // ----- Auction files -----

    /** The loop of Open over the auction directories. */
    static method NextAuctionId(ids: set<nat>) returns (aid: nat)
      ensures aid == NextId(ids)
    {
      aid := 0;
      if ids == {} { return 1; }
      var rest := ids;
      while rest != {}
        invariant rest <= ids
        invariant forall a <- ids :: a in rest || a < aid
        invariant aid == 0 || aid - 1 in ids
        decreases |rest|
      {
        var a :| a in rest;
        rest := rest - {a};
        if aid <= a { aid := a + 1; }
      }
      ghost var some :| some in ids;
      assert some < aid;
    }

    /** The loop of CheckAuctionBelongs over HOSTED. */
    method CheckAuctionBelongs(a: nat, u: string) returns (belongs: bool)
      requires u in hosted
      ensures belongs == (a in hosted[u])
    {
      var rest := hosted[u];
      while rest != {}
        invariant rest <= hosted[u]
        invariant a !in hosted[u] - rest
        decreases |rest|
      {
        var e :| e in rest;
        if a == e { return true; }
        rest := rest - {e};
      }
      return false;
    }

    /** Returns 0, 2 when END existed; -1 stands for the AuctionNotFound thrown without a readable START. */
    method CreateEndFile(a: nat, now: nat) returns (code: int)
      modifies this`auctions
      ensures code == if a !in old(auctions) || old(auctions)[a].start.None? then -1
                      else if old(auctions)[a].end.Some? then 2 else 0
      ensures auctions ==
              if code == 0
              then old(auctions)[a := old(auctions)[a].(end := Some(EndAt(old(auctions)[a].start.value, now)))]
              else old(auctions)
    {
      if a !in auctions || auctions[a].start.None? { return -1; }
      var start := auctions[a].start.value;
      var passed := Elapsed(start.time, now);
      var end: EndInfo;
      if passed > start.timeactive {
        end := EndInfo((start.time + start.timeactive) % WORD, start.timeactive);
      } else {
        end := EndInfo(now, passed);
      }
      if auctions[a].end.Some? { return 2; }
      auctions := auctions[a := auctions[a].(end := Some(end))];
      code := 0;
    }

    /** Close the auction if its time is up and nobody has. */
    method SettleAuction(a: nat, now: nat)
      requires a in auctions && auctions[a].start.Some?
      modifies this`auctions
      ensures auctions == old(auctions)[a := Settle(old(auctions)[a], now)]
    {
      if auctions[a].end.None? && Expired(auctions[a].start.value, now) {
        var ended := CreateEndFile(a, now);
      }
    }

    // ----- Auctions -----

    method OpenAuctionFor(u: string, p: string, d: Upload, now: nat) returns (r: Result)
      requires Valid()
      modifies this
      ensures Valid()
      ensures old(permits) == 0 ==> r == Blocked && unchanged(this)
      ensures old(permits) > 0 ==>
                var o := Do(old(Disk()), Open(u, p, d), now);
                r == Answered(o.reply) && Disk() == o.files && permits == old(permits) + o.permits
    {
      var taken := SemaphoreWait();
      if !taken { return Blocked; }
      if !LoggedIn(accounts, u) {
        SemaphorePost();
        return Answered(Threw(UserNotLoggedIn));
      }
      if !CorrectPassword(accounts, u, p) {
        SemaphorePost();
        return Answered(CREATE_FAIL);
      }
      var aid := NextAuctionId(auctions.Keys);
      if aid > 999 {
        SemaphorePost();
        return Answered(CREATE_FAIL);
      }
      var code := CreateAuction(aid, u, d, now);
      SemaphorePost();
      return Answered(Code(code));
    }

    /** Open from its mkdir on. Where a step fails, the rmdir does too: BIDS and ASSET are in the way. */
    method CreateAuction(aid: nat, u: string, d: Upload, now: nat) returns (code: int)
      modifies this`auctions, this`hosted
      ensures var goes := StartAccepted(d) && Paths.AssetNameOk(d.fname) && u in old(hosted);
              && code == (if goes then aid else CREATE_FAIL.code)
              && hosted == (if goes then old(hosted)[u := old(hosted)[u] + {aid}] else old(hosted))
      ensures auctions == old(auctions)[aid := if StartAccepted(d) then EMPTY_DIR.(start := StartWritten(d, u, now)) else EMPTY_DIR]
    {
      auctions := auctions[aid := EMPTY_DIR];
      if !StartAccepted(d) { return CREATE_FAIL.code; }
      auctions := auctions[aid := EMPTY_DIR.(start := StartWritten(d, u, now))];
      if !Paths.AssetNameOk(d.fname) || u !in hosted { return CREATE_FAIL.code; }
      hosted := hosted[u := hosted[u] + {aid}];
      code := aid;
    }

    method CloseAuctionOf(a: nat, u: string, p: string, now: nat) returns (r: Result)
      requires Valid()
      modifies this
      ensures Valid()
      ensures old(permits) == 0 ==> r == Blocked && unchanged(this)
      ensures old(permits) > 0 ==>
                var o := Do(old(Disk()), Close(a, u, p), now);
                r == Answered(o.reply) && Disk() == o.files && permits == old(permits) + o.permits
    {
      var taken := SemaphoreWait();
      if !taken { return Blocked; }
      if u !in accounts {
        SemaphorePost();
        return Answered(Threw(UserDoesNotExist));
      }
      if !LoggedIn(accounts, u) {
        SemaphorePost();
        return Answered(Threw(UserNotLoggedIn));
      }
      if !CorrectPassword(accounts, u, p) {
        SemaphorePost();
        return Answered(Threw(IncorrectPassword));
      }
      if a !in auctions {
        SemaphorePost();
        return Answered(Threw(AuctionNotFound));
      }
      if u !in hosted { return Answered(Threw(FilesystemError)); }
      var belongs := CheckAuctionBelongs(a, u);
      if !belongs {
        SemaphorePost();
        return Answered(Threw(AuctionNotOwnedByUser));
      }
      if auctions[a].start.None? {
        SemaphorePost();
        return Answered(Threw(AuctionNotFound));
      }
      var expired := Expired(auctions[a].start.value, now);
      var ended := CreateEndFile(a, now);
      if ended == 2 { return Answered(Threw(AuctionAlreadyClosed)); } // Close throws, the permit stays taken
      SemaphorePost();
      return Answered(if expired then Threw(AuctionAlreadyClosed) else OK);
    }

    /** The loop of Bid over BIDS: is some value not below v? */
    method SomeBidNotBelow(x: Auction, v: nat) returns (found: bool)
      requires x.start.Some?
      ensures found == TooLow(x, v)
    {
      if x.bids == map[] { return x.start.value.startValue >= v; }
      var rest := x.bids.Keys;
      while rest != {}
        invariant rest <= x.bids.Keys
        invariant forall b <- x.bids.Keys - rest :: x.bids[b].value < v
        decreases |rest|
      {
        var b :| b in rest;
        if x.bids[b].value >= v { return true; }
        rest := rest - {b};
      }
      return false;
    }

    method BidOnAuction(u: string, p: string, a: nat, v: nat, now: nat) returns (r: Result)
      requires Valid()
      modifies this
      ensures Valid()
      ensures old(permits) == 0 ==> r == Blocked && unchanged(this)
      ensures old(permits) > 0 ==>
                var o := Do(old(Disk()), Bid(u, p, a, v), now);
                r == Answered(o.reply) && Disk() == o.files && permits == old(permits) + o.permits
    {
      var taken := SemaphoreWait();
      if !taken { return Blocked; }
      if !LoggedIn(accounts, u) {
        SemaphorePost();
        return Answered(Threw(UserNotLoggedIn));
      }
      if !CorrectPassword(accounts, u, p) {
        SemaphorePost();
        return Answered(BID_NOK);
      }
      if a !in auctions {
        SemaphorePost();
        return Answered(Threw(AuctionNotFound));
      }
      if u !in hosted { return Answered(Threw(FilesystemError)); }
      var belongs := CheckAuctionBelongs(a, u);
      if belongs {
        SemaphorePost();
        return Answered(Threw(BidOnSelf));
      }
      if auctions[a].end.Some? {
        SemaphorePost();
        return Answered(Threw(AuctionAlreadyClosed));
      }
      if auctions[a].start.None? {
        SemaphorePost();
        return Answered(Threw(AuctionNotFound));
      }
      var start := auctions[a].start.value;
      if Expired(start, now) {
        var ended := CreateEndFile(a, now);
        return Answered(Threw(AuctionAlreadyClosed)); // no post
      }
      var low := SomeBidNotBelow(auctions[a], v);
      if low {
        SemaphorePost();
        return Answered(Threw(LargerBidAlreadyExists));
      }
      if u !in bidded {
        SemaphorePost();
        return Answered(BID_REFUSE);
      }
      bidded := bidded[u := bidded[u] + {a}];
      auctions := auctions[a := auctions[a].(bids := auctions[a].bids[v := BidOf(start, u, v, now)])];
      SemaphorePost();
      return Answered(OK);
    }

    // ----- Listings and records -----

    /** One directory entry: END, START and, when its time is up, Close. */
    method VisitEntry(a: nat, now: nat) returns (ok: bool, active: bool)
      modifies this`auctions
      ensures ok == Visitable(old(Disk()), a)
      ensures Disk() == CloseMany(old(Disk()), {a}, now)
      ensures ok ==> AuctionListing(a, active) == Entry(old(Disk()), a, now)
    {
      ok, active := true, false;
      if a in auctions && auctions[a].end.Some? {
        assert auctions == CloseMany(Disk(), {a}, now).auctions;
      } else if a !in auctions || auctions[a].start.None? {
        ok := false;
        assert auctions == CloseMany(Disk(), {a}, now).auctions;
      } else {
        active := !Expired(auctions[a].start.value, now);
        SettleAuction(a, now);
        assert auctions == CloseMany(old(Disk()), {a}, now).auctions;
      }
    }

    /** Visiting one more entry of a partly visited directory. */
    static lemma OneMore(f: Files, reached: set<nat>, a: nat, now: nat)
      requires a !in reached
      ensures CloseMany(CloseMany(f, reached, now), {a}, now) == CloseMany(f, reached + {a}, now)
      ensures Visitable(CloseMany(f, reached, now), a) == Visitable(f, a)
      ensures Entry(CloseMany(f, reached, now), a, now) == Entry(f, a, now)
    {
    }

    /** The entries listed so far: one for each visited id. */
    static ghost predicate Collected(f: Files, reached: set<nat>, list: seq<AuctionListing>, now: nat) {
      && (forall a <- reached :: Visitable(f, a) && Entry(f, a, now) in list)
      && (forall i :: 0 <= i < |list| ==> list[i].id in reached && list[i] == Entry(f, list[i].id, now))
      && (forall i, j :: 0 <= i < j < |list| ==> list[i].id != list[j].id)
    }

    static lemma CollectOne(f: Files, reached: set<nat>, list: seq<AuctionListing>, a: nat, now: nat)
      requires Collected(f, reached, list, now) && a !in reached && Visitable(f, a)
      ensures Collected(f, reached + {a}, list + [Entry(f, a, now)], now)
    {
    }

    /** The loop of MyAuctions, MyBids and List: entries in any order, lazily closed. */
    method ListEntries(ids: set<nat>, now: nat) returns (ok: bool, list: seq<AuctionListing>, ghost reached: set<nat>)
      modifies this`auctions
      ensures reached <= ids && Disk() == CloseMany(old(Disk()), reached, now)
      ensures ok ==> reached == ids && Collected(old(Disk()), ids, list, now)
      ensures !ok ==> exists a <- ids :: !Visitable(old(Disk()), a)
    {
      ghost var before := Disk();
      var rest := ids;
      list, reached := [], {};
      assert CloseMany(before, {}, now) == before;
      while rest != {}
        invariant rest <= ids && reached == ids - rest
        invariant Disk() == CloseMany(before, reached, now)
        invariant Collected(before, reached, list, now)
        decreases |rest|
      {
        var a :| a in rest;
        OneMore(before, reached, a, now);
        var readable, active := VisitEntry(a, now);
        if !readable {
          assert !Visitable(before, a);
          reached := reached + {a};
          return false, list, reached;
        }
        CollectOne(before, reached, list, a, now);
        rest, reached := rest - {a}, reached + {a};
        list := list + [AuctionListing(a, active)];
      }
      ok := true;
    }

    /** A sorted listing names the visited ids in order. */
    static lemma SortedIds(ids: set<nat>, r: seq<AuctionListing>, keys: seq<nat>)
      requires |keys| == |r| && forall i :: 0 <= i < |r| ==> keys[i] == r[i].id
      requires forall i, j :: 0 <= i < j < |r| ==> r[i].id < r[j].id
      requires forall i :: 0 <= i < |r| ==> r[i].id in ids
      requires forall a <- ids :: exists i :: 0 <= i < |r| && r[i].id == a
      ensures keys == Sorted(ids)
    {
      forall a ensures a in keys <==> a in Sorted(ids) {
        if a in ids {
          var i :| 0 <= i < |r| && r[i].id == a;
          assert keys[i] == a;
        }
      }
      SortedIsUnique(keys, Sorted(ids));
    }

    /** The sort that ends a listing gives the one order there is. */
    static lemma SortedEntries(f: Files, ids: set<nat>, list: seq<AuctionListing>, r: seq<AuctionListing>, now: nat)
      requires Collected(f, ids, list, now)
      requires forall i, j :: 0 <= i < j < |r| ==> r[i].id < r[j].id
      requires forall x :: x in r <==> x in list
      ensures r == Entries(f, Sorted(ids), now)
    {
      forall i | 0 <= i < |r| ensures r[i].id in ids && r[i] == Entry(f, r[i].id, now) {
        assert r[i] in r;
        var k :| 0 <= k < |list| && list[k] == r[i];
      }
      forall a | a in ids ensures exists i :: 0 <= i < |r| && r[i].id == a {
        assert Entry(f, a, now) in r;
        var i :| 0 <= i < |r| && r[i] == Entry(f, a, now);
        assert r[i].id == a;
      }
      var keys := seq(|r|, i requires 0 <= i < |r| => r[i].id);
      SortedIds(ids, r, keys);
    }

    /** A listing loop and its sort, whichever directory it is over. */
    method ListSorted(ids: set<nat>, now: nat) returns (reply: Reply, ghost reached: set<nat>)
      modifies this`auctions
      ensures var o := Visit(old(Disk()), ids, reached, now, 0);
              reply == o.reply && Disk() == o.files
    {
      ghost var before := Disk();
      var ok, list;
      ok, list, reached := ListEntries(ids, now);
      assert ids * reached == reached;
      if !ok { return Threw(AuctionNotFound), reached; }
      var sorted := SortBy((x: AuctionListing) => x.id, list);
      SortedEntries(before, ids, list, sorted, now);
      return Listing(sorted), reached;
    }

    method MyAuctionsOf(u: string, now: nat) returns (r: Result, ghost reached: set<nat>)
      requires Valid()
      modifies this
      ensures Valid()
      ensures old(permits) == 0 ==> r == Blocked && unchanged(this)
      ensures old(permits) > 0 ==>
                var o := Do(old(Disk()), MyAuctions(u, reached), now);
                r == Answered(o.reply) && Disk() == o.files && permits == old(permits) + o.permits
    {
      reached := {};
      var taken := SemaphoreWait();
      if !taken { return Blocked, {}; }
      if u !in hosted { return Answered(Threw(FilesystemError)), {}; }
      var reply;
      reply, reached := ListSorted(hosted[u], now);
      SemaphorePost();
      return Answered(reply), reached;
    }

    method MyBidsOf(u: string, now: nat) returns (r: Result, ghost reached: set<nat>)
      requires Valid()
      modifies this
      ensures Valid()
      ensures old(permits) == 0 ==> r == Blocked && unchanged(this)
      ensures old(permits) > 0 ==>
                var o := Do(old(Disk()), MyBids(u, reached), now);
                r == Answered(o.reply) && Disk() == o.files && permits == old(permits) + o.permits
    {
      reached := {};
      var taken := SemaphoreWait();
      if !taken { return Blocked, {}; }
      if u !in bidded { return Answered(Threw(FilesystemError)), {}; }
      var reply;
      reply, reached := ListSorted(bidded[u], now);
      SemaphorePost();
      return Answered(reply), reached;
    }

    /** List posts without having waited: it never blocks, and the permit count grows. */
    method ListAll(now: nat) returns (r: Result, ghost reached: set<nat>)
      requires Valid()
      modifies this
      ensures Valid()
      ensures var o := Do(old(Disk()), List(reached), now);
              r == Answered(o.reply) && Disk() == o.files && permits == old(permits) + o.permits
    {
      var reply;
      reply, reached := ListSorted(auctions.Keys, now);
      SemaphorePost();
      return Answered(reply), reached;
    }

    /** The loop of ShowRecord over BIDS, in any order. */
    method CollectBids(bids: map<nat, BidInfo>) returns (list: seq<BidInfo>)
      requires forall v <- bids :: bids[v].value == v
      ensures forall v <- bids :: bids[v] in list
      ensures forall i :: 0 <= i < |list| ==> list[i].value in bids && bids[list[i].value] == list[i]
      ensures forall i, j :: 0 <= i < j < |list| ==> list[i].value != list[j].value
    {
      list := [];
      var rest := bids.Keys;
      while rest != {}
        invariant rest <= bids.Keys
        invariant forall v <- bids.Keys - rest :: bids[v] in list
        invariant forall i :: 0 <= i < |list| ==>
                    list[i].value in bids.Keys - rest && bids[list[i].value] == list[i]
        invariant forall i, j :: 0 <= i < j < |list| ==> list[i].value != list[j].value
        decreases |rest|
      {
        var v :| v in rest;
        rest := rest - {v};
        list := list + [bids[v]];
      }
    }

    static function Values(r: seq<BidInfo>): (keys: seq<nat>)
      ensures |keys| == |r| && forall i :: 0 <= i < |r| ==> keys[i] == r[i].value
    {
      seq(|r|, i requires 0 <= i < |r| => r[i].value)
    }

    static lemma ValuesAreKeys(bids: map<nat, BidInfo>, r: seq<BidInfo>)
      requires forall v <- bids :: bids[v].value == v && bids[v] in r
      requires forall i :: 0 <= i < |r| ==> r[i].value in bids
      requires forall i, j :: 0 <= i < j < |r| ==> r[i].value < r[j].value
      ensures Values(r) == Sorted(bids.Keys)
    {
      var keys := Values(r);
      forall v ensures v in keys <==> v in Sorted(bids.Keys) {
        if v in bids {
          var k :| 0 <= k < |r| && r[k] == bids[v];
          assert keys[k] == v;
        }
      }
      SortedIsUnique(keys, Sorted(bids.Keys));
    }

    static lemma SortedByValue(bids: map<nat, BidInfo>, list: seq<BidInfo>, r: seq<BidInfo>)
      requires forall v <- bids :: bids[v].value == v && bids[v] in list
      requires forall i :: 0 <= i < |list| ==> list[i].value in bids && bids[list[i].value] == list[i]
      requires forall i, j :: 0 <= i < j < |r| ==> r[i].value < r[j].value
      requires forall x :: x in r <==> x in list
      ensures r == SortedBids(bids)
    {
      forall i | 0 <= i < |r| ensures r[i].value in bids && bids[r[i].value] == r[i] {
        assert r[i] in list;
        var k :| 0 <= k < |list| && list[k] == r[i];
      }
      ValuesAreKeys(bids, r);
      assert forall i :: 0 <= i < |r| ==> Values(r)[i] == r[i].value;
    }

    /** Collect, sort by value, and cut to the last 50. */
    method LastBids(bids: map<nat, BidInfo>) returns (sorted: seq<BidInfo>)
      requires forall v <- bids :: bids[v].value == v
      ensures sorted == LastFifty(SortedBids(bids))
    {
      var list := CollectBids(bids);
      sorted := SortBy((b: BidInfo) => b.value, list);
      SortedByValue(bids, list, sorted);
      var n := |sorted|;
      if n > 50 { sorted := sorted[n - 50..]; }
    }

    /** ShowRecord between sem_wait and sem_post. */
    method ShowInside(a: nat, now: nat) returns (reply: Reply)
      requires Valid()
      modifies this`auctions
      ensures Valid()
      ensures var o := ShowAuction(old(Disk()), a, now); reply == o.reply && Disk() == o.files && o.permits == 0
    {
      if a !in auctions || auctions[a].start.None? { return Threw(AuctionNotFound); }
      var start := auctions[a].start.value;
      SettleAuction(a, now);
      var end := auctions[a].end;
      var sorted := LastBids(auctions[a].bids);
      return Record(AuctionRecord(start, sorted, end));
    }

    method ShowRecordOf(a: nat, now: nat) returns (r: Result)
      requires Valid()
      modifies this
      ensures Valid()
      ensures old(permits) == 0 ==> r == Blocked && unchanged(this)
      ensures old(permits) > 0 ==>
                var o := Do(old(Disk()), ShowRecord(a), now);
                r == Answered(o.reply) && Disk() == o.files && permits == old(permits) + o.permits
    {
      var taken := SemaphoreWait();
      if !taken { return Blocked; }
      var reply := ShowInside(a, now);
      SemaphorePost();
      return Answered(reply);
    }
  }
}
