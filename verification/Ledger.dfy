/**
 * The auction house as its users should see it: accounts and an append-only list of lots.
 * A lot is over from its deadline on, whether or not anybody looks, so queries change nothing.
 * There are no END files, no HOSTED or BIDDED directories, no scan for the next id and no
 * directory order here; module Refinement shows that none of them can be observed.
 */
module Ledger {
  import opened Common
  import opened Store
  import Paths

  /** The auction whose id is one more than its position; `closed` is the time of an early close. */
  datatype Lot = Lot(host: string, offer: Offer, since: nat, readable: bool, registered: bool,
                     closed: Option<nat>, bids: seq<BidInfo>)

  datatype Ledger = Ledger(accounts: Accounts, lots: seq<Lot>)

  const NEW_LEDGER := Ledger(map[], [])

  function Deadline(x: Lot): nat { x.since + x.offer.timeactive }

  predicate Over(x: Lot, now: nat) { x.closed.Some? || now >= Deadline(x) }

  /** When the lot ended, if it is over: at the early close or else at the deadline. */
  function EndOf(x: Lot, now: nat): Option<EndInfo> {
    if x.closed.Some? then
      if x.closed.value >= x.since then Some(EndInfo(x.closed.value, x.closed.value - x.since)) else None
    else if now >= Deadline(x) then Some(EndInfo(Deadline(x), x.offer.timeactive))
    else None
  }

  /** A new bid has to be above this. */
  function Floor(x: Lot): nat {
    if x.bids == [] then x.offer.startValue else x.bids[|x.bids| - 1].value
  }

  predicate Hosts(u: string, x: Lot) { x.registered && x.host == u }

  predicate BidsOn(u: string, x: Lot) { exists b <- x.bids :: b.user == u }

  function KeepHost(u: string): Lot -> bool { x => Hosts(u, x) }

  function KeepBidder(u: string): Lot -> bool { x => BidsOn(u, x) }

  function KeepAll(): Lot -> bool { x => true }

  predicate Known(l: Ledger, a: nat) { 1 <= a <= |l.lots| }

  /** The ids of the lots that satisfy `keep`, in increasing order. */
  function Ids(lots: seq<Lot>, keep: Lot -> bool): seq<nat> {
    if lots == [] then []
    else
      var n := |lots|;
      Ids(lots[..n - 1], keep) + if keep(lots[n - 1]) then [n] else []
  }

  function Listed(lots: seq<Lot>, a: nat, now: nat): AuctionListing {
    AuctionListing(a, 1 <= a <= |lots| && !Over(lots[a - 1], now))
  }

  /** A listing in id order, or the exception that an unreadable START raises. */
  function ListLots(lots: seq<Lot>, keep: Lot -> bool, now: nat): Reply {
    if exists x <- lots :: keep(x) && !x.readable then Threw(AuctionNotFound)
    else
      var ids := Ids(lots, keep);
      Listing(seq(|ids|, i requires 0 <= i < |ids| => Listed(lots, ids[i], now)))
  }

  function OpenLot(l: Ledger, u: string, p: string, d: Upload, now: nat): (Ledger, Reply) {
    if !LoggedIn(l.accounts, u) then (l, Threw(UserNotLoggedIn))
    else if !CorrectPassword(l.accounts, u, p) || |l.lots| >= 999 then (l, CREATE_FAIL)
    else
      var readable := StartAccepted(d) && Readable(d);
      var registered := StartAccepted(d) && Paths.AssetNameOk(d.fname);
      (l.(lots := l.lots + [Lot(u, AsRead(d), now, readable, registered, None, [])]),
       if registered then Code(|l.lots| + 1) else CREATE_FAIL)
  }

  function CloseLot(l: Ledger, a: nat, u: string, p: string, now: nat): (Ledger, Reply) {
    if u !in l.accounts then (l, Threw(UserDoesNotExist))
    else if !LoggedIn(l.accounts, u) then (l, Threw(UserNotLoggedIn))
    else if !CorrectPassword(l.accounts, u, p) then (l, Threw(IncorrectPassword))
    else if !Known(l, a) then (l, Threw(AuctionNotFound))
    else
      var x := l.lots[a - 1];
      if !Hosts(u, x) then (l, Threw(AuctionNotOwnedByUser))
      else if !x.readable then (l, Threw(AuctionNotFound))
      else if Over(x, now) then (l, Threw(AuctionAlreadyClosed))
      else (l.(lots := l.lots[a - 1 := x.(closed := Some(now))]), OK)
  }

  function BidOnLot(l: Ledger, u: string, p: string, a: nat, v: nat, now: nat): (Ledger, Reply) {
    if !LoggedIn(l.accounts, u) then (l, Threw(UserNotLoggedIn))
    else if !CorrectPassword(l.accounts, u, p) then (l, BID_NOK)
    else if !Known(l, a) then (l, Threw(AuctionNotFound))
    else
      var x := l.lots[a - 1];
      if Hosts(u, x) then (l, Threw(BidOnSelf))
      else if !x.readable then (l, Threw(AuctionNotFound))
      else if Over(x, now) then (l, Threw(AuctionAlreadyClosed))
      else if v <= Floor(x) then (l, Threw(LargerBidAlreadyExists))
      else
        var b := BidInfo(u, v, now, if now >= x.since then now - x.since else 0);
        (l.(lots := l.lots[a - 1 := x.(bids := x.bids + [b])]), OK)
  }

  function ShowLot(l: Ledger, a: nat, now: nat): Reply {
    if !Known(l, a) || !l.lots[a - 1].readable then Threw(AuctionNotFound)
    else
      var x := l.lots[a - 1];
      Record(AuctionRecord(StartOf(x.offer, x.host, x.since), LastFifty(x.bids), EndOf(x, now)))
  }

  function AccountAct(l: Ledger, r: (Accounts, Reply)): (Ledger, Reply) {
    (l.(accounts := r.0), r.1)
  }

  function Act(l: Ledger, op: Op, now: nat): (Ledger, Reply) {
    match op
    case Login(u, p) => AccountAct(l, LoginAccount(l.accounts, u, p))
    case Logout(u, p) => AccountAct(l, LogoutAccount(l.accounts, u, p))
    case Unregister(u, p) => AccountAct(l, UnregisterAccount(l.accounts, u, p))
    case Open(u, p, d) => OpenLot(l, u, p, d, now)
    case Close(a, u, p) => CloseLot(l, a, u, p, now)
    case Bid(u, p, a, v) => BidOnLot(l, u, p, a, v, now)
    case ShowRecord(a) => (l, ShowLot(l, a, now))
    case MyAuctions(u, _) =>
      (l, if u !in l.accounts then Threw(FilesystemError) else ListLots(l.lots, KeepHost(u), now))
    case MyBids(u, _) =>
      (l, if u !in l.accounts then Threw(FilesystemError) else ListLots(l.lots, KeepBidder(u), now))
    case List(_) => (l, ListLots(l.lots, KeepAll(), now))
  }
}
