/**
 * The server's directory tree as maps, and what each Database operation does to it
 * (src/server/database.cpp). Every function here is the specification that a method of
 * class Database meets and that a program of module Programs computes.
 */
module Store {
  import opened Common
  import opened Text
  import Paths

  // ----- Files -----

  /** <uid>_pass.txt and <uid>_login.txt of a user whose directory exists. */
  datatype Account = Account(password: Option<string>, loggedIn: bool)
  type Accounts = map<string, Account>

  /** The fields of START_<aid>.txt; `time` is in seconds, and the date field is that time formatted. */
  datatype StartInfo = StartInfo(user: string, name: string, fname: string,
                                 startValue: nat, timeactive: nat, time: nat)

  /** The fields of END_<aid>.txt; `date` is the time, in seconds, that the date field formats. */
  datatype EndInfo = EndInfo(date: nat, elapsed: nat)

  /** The fields of BIDS/<value>.txt. */
  datatype BidInfo = BidInfo(user: string, value: nat, date: nat, elapsed: nat)

  /** An auction directory. `start` is None when START is absent or does not read back. */
  datatype Auction = Auction(start: Option<StartInfo>, end: Option<EndInfo>, bids: map<nat, BidInfo>)

  const EMPTY_DIR := Auction(None, None, map[])

  datatype Files = Files(accounts: Accounts, hosted: map<string, set<nat>>, bidded: map<string, set<nat>>,
                         auctions: map<nat, Auction>)

  const NO_FILES := Files(map[], map[], map[], map[])

  // ----- Replies -----

  datatype Failure =
    | UserNotLoggedIn | UserDoesNotExist | IncorrectPassword | AuctionNotFound | AuctionNotOwnedByUser
    | AuctionAlreadyClosed | LargerBidAlreadyExists | BidOnSelf | FilesystemError

  datatype AuctionListing = AuctionListing(id: nat, active: bool)

  /** What ShowRecord returns; the auction is active exactly when `end` is None. */
  datatype AuctionRecord = AuctionRecord(start: StartInfo, bids: seq<BidInfo>, end: Option<EndInfo>)

  datatype Reply =
    | Code(code: int)
    | Listing(entries: seq<AuctionListing>)
    | Record(record: AuctionRecord)
    | Threw(failure: Failure)

  const NOK := Code(-1)         // DB_LOGIN_NOK, DB_LOGOUT_NOK, DB_UNREGISTER_NOK
  const OK := Code(0)           // DB_LOGIN_OK, DB_LOGOUT_OK, DB_UNREGISTER_OK, DB_CLOSE_OK, DB_BID_ACCEPT
  const REGISTER := Code(2)     // DB_LOGIN_REGISTER
  const UNKNOWN := Code(2)      // DB_UNREGISTER_UNKNOWN
  const CREATE_FAIL := Code(-2) // DB_OPEN_CREATE_FAIL
  const BID_NOK := Code(-2)     // DB_BID_NOK
  const BID_REFUSE := Code(-1)  // DB_BID_REFUSE

  // ----- Requests -----

  /** What a host asks for: the arguments that Open writes into START. */
  datatype Offer = Offer(name: string, fname: string, startValue: nat, timeactive: nat)

  /**
   * An offer whose file name does not lead out of ASSET. Every Open below carries one: under other
   * names the asset may overwrite any file of the tree, which module Paths shows.
   */
  type Upload = d: Offer | Paths.Contained(d.fname) witness Offer("", "", 0, 0)

  /**
   * A call of a Database operation. Directories are listed in an arbitrary order; `reached` is the
   * set of entries a listing loop has handled when an unreadable START makes it throw.
   */
  datatype Op =
    | Login(user: string, password: string)
    | Logout(user: string, password: string)
    | Unregister(user: string, password: string)
    | Open(user: string, password: string, offer: Upload)
    | Close(auction: nat, user: string, password: string)
    | MyAuctions(user: string, reached: set<nat>)
    | MyBids(user: string, reached: set<nat>)
    | List(reached: set<nat>)
    | Bid(user: string, password: string, auction: nat, value: nat)
    | ShowRecord(auction: nat)

  /** The new tree, the answer, and the net change of the semaphore's permit count. */
  datatype Outcome = Outcome(files: Files, reply: Reply, permits: int)

  // ----- Accounts -----

  ghost predicate LoginsHavePasswords(accounts: Accounts) {
    forall w <- accounts :: accounts[w].loggedIn ==> accounts[w].password.Some?
  }

  /** CheckUserLoggedIn */
  predicate LoggedIn(accounts: Accounts, u: string) {
    ValidUser(u) && u in accounts && accounts[u].loggedIn
  }

  /** CorrectPassword returns 1 */
  predicate CorrectPassword(accounts: Accounts, u: string, p: string) {
    ValidUser(u) && ValidPassword(p) && u in accounts && accounts[u].password == Some(p)
  }

  /** LoginUser on the account files; the result also says whether the user directory is new. */
  function LoginAccount(accounts: Accounts, u: string, p: string): (Accounts, Reply) {
    if LoggedIn(accounts, u) then
      (accounts, if CorrectPassword(accounts, u, p) then OK else Threw(UserNotLoggedIn))
    else if !ValidUser(u) then (accounts, NOK)
    else if u in accounts && accounts[u].password.Some? then
      if CorrectPassword(accounts, u, p) then (accounts[u := accounts[u].(loggedIn := true)], OK)
      else (accounts, NOK)
    else if !ValidPassword(p) then
      (if u in accounts then accounts else accounts[u := Account(None, false)], NOK)
    else (accounts[u := Account(Some(p), true)], REGISTER)
  }

  /** Logout */
  function LogoutAccount(accounts: Accounts, u: string, p: string): (Accounts, Reply) {
    if !CorrectPassword(accounts, u, p) then (accounts, NOK)
    else if !accounts[u].loggedIn then (accounts, Threw(UserNotLoggedIn))
    else (accounts[u := accounts[u].(loggedIn := false)], OK)
  }

  /** ErasePassword, the last of Unregister's three critical sections. */
  function ErasePassword(accounts: Accounts, u: string): (Accounts, Reply) {
    if !ValidUser(u) then (accounts, NOK)
    else if u !in accounts then (accounts, UNKNOWN)
    else if accounts[u].password.None? then (accounts, NOK)
    else (accounts[u := accounts[u].(password := None)], OK)
  }

  /** Unregister: check the password, log out, erase the password. */
  function UnregisterAccount(accounts: Accounts, u: string, p: string): (Accounts, Reply) {
    if !CorrectPassword(accounts, u, p) then (accounts, NOK)
    else
      var (out, reply) := LogoutAccount(accounts, u, p);
      if reply == NOK || reply.Threw? then (out, reply) else ErasePassword(out, u)
  }

  /** Puts the new account files in place; a new user directory comes with empty HOSTED and BIDDED. */
  function WithAccounts(f: Files, accounts: Accounts): Files {
    f.(accounts := accounts,
       hosted := f.hosted + map u | u in accounts.Keys - f.accounts.Keys :: {},
       bidded := f.bidded + map u | u in accounts.Keys - f.accounts.Keys :: {})
  }

  // ----- Time -----

  const WORD := 0x1_0000_0000

  /** The uint32_t subtraction current_time - start_time */
  function Elapsed(start: nat, now: nat): nat { (now - start) % WORD }

  predicate Expired(s: StartInfo, now: nat) { Elapsed(s.time, now) >= s.timeactive }

  /** What CreateEndFile writes. */
  function EndAt(s: StartInfo, now: nat): EndInfo {
    if Elapsed(s.time, now) > s.timeactive then EndInfo((s.time + s.timeactive) % WORD, s.timeactive)
    else EndInfo(now, Elapsed(s.time, now))
  }

  /** An auction after a visit that closes it if its time is up. */
  function Settle(x: Auction, now: nat): Auction {
    if x.end.None? && x.start.Some? && Expired(x.start.value, now)
    then x.(end := Some(EndAt(x.start.value, now)))
    else x
  }

  function CloseMany(f: Files, ids: set<nat>, now: nat): Files {
    f.(auctions := map a | a in f.auctions :: if a in ids then Settle(f.auctions[a], now) else f.auctions[a])
  }

  // ----- Auctions -----

  /** What CreateStartFile accepts: verify_timeactive, verify_start_value and verify_name. */
  predicate StartAccepted(d: Offer) {
    1 <= d.timeactive <= 99_999 && d.startValue <= 999_999 && ValidName(d.name)
  }

  /** START reads back as eight words, two of them from the name and the file name. */
  predicate Readable(d: Offer) { |Words(d.name + " " + d.fname)| == 2 }

  /** What reading START back makes of the offer: an empty name and a tab in the file name shift its words. */
  function AsRead(d: Offer): Offer {
    var words := Words(d.name + " " + d.fname);
    if Readable(d) then d.(name := words[0], fname := words[1]) else d
  }

  /** The scan of Open: one past the greatest directory name, 1 when there is none. */
  ghost function NextId(ids: set<nat>): (n: nat)
    ensures n !in ids && n >= 1
  {
    if ids == {} then 1 else Max(ids) + 1
  }

  function StartOf(d: Offer, u: string, now: nat): StartInfo {
    StartInfo(u, d.name, d.fname, d.startValue, d.timeactive, now)
  }

  /** The START file an accepted Open leaves, as it reads back. */
  function StartWritten(d: Offer, u: string, now: nat): Option<StartInfo> {
    if Readable(d) then Some(StartOf(AsRead(d), u, now)) else None
  }

  ghost function OpenAuction(f: Files, u: string, p: string, d: Upload, now: nat): Outcome {
    if !LoggedIn(f.accounts, u) then Outcome(f, Threw(UserNotLoggedIn), 0)
    else if !CorrectPassword(f.accounts, u, p) then Outcome(f, CREATE_FAIL, 0)
    else
      var a := NextId(f.auctions.Keys);
      if a > 999 then Outcome(f, CREATE_FAIL, 0)
      else if !StartAccepted(d) then Outcome(f.(auctions := f.auctions[a := EMPTY_DIR]), CREATE_FAIL, 0)
      else
        var start := StartWritten(d, u, now);
        var made := f.(auctions := f.auctions[a := EMPTY_DIR.(start := start)]);
        if !Paths.AssetNameOk(d.fname) || u !in f.hosted then Outcome(made, CREATE_FAIL, 0)
        else Outcome(made.(hosted := f.hosted[u := f.hosted[u] + {a}]), Code(a), 0)
  }

  /** CloseAuction. Its END test looks for a file name that never exists, so only Close notices END. */
  function CloseAuction(f: Files, a: nat, u: string, p: string, now: nat): Outcome {
    if u !in f.accounts then Outcome(f, Threw(UserDoesNotExist), 0)
    else if !LoggedIn(f.accounts, u) then Outcome(f, Threw(UserNotLoggedIn), 0)
    else if !CorrectPassword(f.accounts, u, p) then Outcome(f, Threw(IncorrectPassword), 0)
    else if a !in f.auctions then Outcome(f, Threw(AuctionNotFound), 0)
    else if u !in f.hosted then Outcome(f, Threw(FilesystemError), -1)
    else if a !in f.hosted[u] then Outcome(f, Threw(AuctionNotOwnedByUser), 0)
    else if f.auctions[a].start.None? then Outcome(f, Threw(AuctionNotFound), 0)
    else if f.auctions[a].end.Some? then Outcome(f, Threw(AuctionAlreadyClosed), -1)
    else
      var s := f.auctions[a].start.value;
      Outcome(f.(auctions := f.auctions[a := f.auctions[a].(end := Some(EndAt(s, now)))]),
              if Expired(s, now) then Threw(AuctionAlreadyClosed) else OK, 0)
  }

  /** A bid as CreateBidFile stamps it. */
  function BidOf(s: StartInfo, u: string, v: nat, now: nat): BidInfo {
    BidInfo(u, v, now, Elapsed(s.time, now))
  }

  /** Some value already in BIDS, or the start value when there is none, is not below v. */
  predicate TooLow(x: Auction, v: nat)
    requires x.start.Some?
  {
    if x.bids == map[] then x.start.value.startValue >= v
    else exists b <- x.bids :: x.bids[b].value >= v
  }

  /** CreateBidFile refuses the value 0, but TooLow has held of it already. */
  function PlaceBid(f: Files, u: string, p: string, a: nat, v: nat, now: nat): Outcome {
    if !LoggedIn(f.accounts, u) then Outcome(f, Threw(UserNotLoggedIn), 0)
    else if !CorrectPassword(f.accounts, u, p) then Outcome(f, BID_NOK, 0)
    else if a !in f.auctions then Outcome(f, Threw(AuctionNotFound), 0)
    else if u !in f.hosted then Outcome(f, Threw(FilesystemError), -1)
    else if a in f.hosted[u] then Outcome(f, Threw(BidOnSelf), 0)
    else
      var x := f.auctions[a];
      if x.end.Some? then Outcome(f, Threw(AuctionAlreadyClosed), 0)
      else if x.start.None? then Outcome(f, Threw(AuctionNotFound), 0)
      else if Expired(x.start.value, now) then
        Outcome(f.(auctions := f.auctions[a := Settle(x, now)]), Threw(AuctionAlreadyClosed), -1)
      else if TooLow(x, v) then Outcome(f, Threw(LargerBidAlreadyExists), 0)
      else if u !in f.bidded then Outcome(f, BID_REFUSE, 0)
      else
        var marked := f.(bidded := f.bidded[u := f.bidded[u] + {a}]);
        var b := BidOf(x.start.value, u, v, now);
        Outcome(marked.(auctions := f.auctions[a := x.(bids := x.bids[v := b])]), OK, 0)
  }

  /** A listing loop can handle the entry: END exists or START reads back. */
  predicate Visitable(f: Files, a: nat) {
    a in f.auctions && (f.auctions[a].end.Some? || f.auctions[a].start.Some?)
  }

  /** The entry's state as a listing reports it. */
  predicate Active(x: Auction, now: nat) {
    x.end.None? && x.start.Some? && !Expired(x.start.value, now)
  }

  function Entry(f: Files, a: nat, now: nat): AuctionListing {
    AuctionListing(a, a in f.auctions && Active(f.auctions[a], now))
  }

  function Entries(f: Files, ids: seq<nat>, now: nat): (r: seq<AuctionListing>)
    ensures |r| == |ids| && forall i :: 0 <= i < |r| ==> r[i] == Entry(f, ids[i], now)
  {
    seq(|ids|, i requires 0 <= i < |ids| => Entry(f, ids[i], now))
  }

  /** The loop shared by MyAuctions, MyBids and List, and the sort that follows it. */
  ghost function Visit(f: Files, ids: set<nat>, reached: set<nat>, now: nat, permits: int): Outcome {
    if forall a <- ids :: Visitable(f, a)
    then Outcome(CloseMany(f, ids, now), Listing(Entries(f, Sorted(ids), now)), permits)
    else Outcome(CloseMany(f, ids * reached, now), Threw(AuctionNotFound), permits)
  }

  ghost function SortedBids(bids: map<nat, BidInfo>): (r: seq<BidInfo>)
    ensures |r| == |Sorted(bids.Keys)|
    ensures forall i :: 0 <= i < |r| ==> Sorted(bids.Keys)[i] in bids && r[i] == bids[Sorted(bids.Keys)[i]]
  {
    var keys := Sorted(bids.Keys);
    seq(|keys|, i requires 0 <= i < |keys| => assert keys[i] in keys; bids[keys[i]])
  }

  ghost function ShowAuction(f: Files, a: nat, now: nat): Outcome {
    if a !in f.auctions || f.auctions[a].start.None? then Outcome(f, Threw(AuctionNotFound), 0)
    else
      var x := Settle(f.auctions[a], now);
      Outcome(f.(auctions := f.auctions[a := x]),
              Record(AuctionRecord(x.start.value, LastFifty(SortedBids(x.bids)), x.end)), 0)
  }

  // ----- Every operation -----

  function AccountOutcome(f: Files, r: (Accounts, Reply)): Outcome {
    Outcome(WithAccounts(f, r.0), r.1, 0)
  }

  ghost function Do(f: Files, op: Op, now: nat): Outcome {
    match op
    case Login(u, p) => AccountOutcome(f, LoginAccount(f.accounts, u, p))
    case Logout(u, p) => AccountOutcome(f, LogoutAccount(f.accounts, u, p))
    case Unregister(u, p) => AccountOutcome(f, UnregisterAccount(f.accounts, u, p))
    case Open(u, p, d) => OpenAuction(f, u, p, d, now)
    case Close(a, u, p) => CloseAuction(f, a, u, p, now)
    case Bid(u, p, a, v) => PlaceBid(f, u, p, a, v, now)
    case ShowRecord(a) => ShowAuction(f, a, now)
    case MyAuctions(u, reached) =>
      if u !in f.hosted then Outcome(f, Threw(FilesystemError), -1)
      else Visit(f, f.hosted[u], reached, now, 0)
    case MyBids(u, reached) =>
      if u !in f.bidded then Outcome(f, Threw(FilesystemError), -1)
      else Visit(f, f.bidded[u], reached, now, 0)
    case List(reached) => Visit(f, f.auctions.Keys, reached, now, 1) // List posts without having waited
  }
}
