/**
 * The directory tree refines the ledger: from matching states every operation gives the same
 * answer and leads to matching states, at any nondecreasing clock.
 */
module Refinement {
  import opened Common
  import opened Text
  import opened Store
  import opened Ledger
  import Paths

  // ----- The relation -----

  /** Values strictly rise from bid to bid, starting above the start value; dates do not go back. */
  ghost predicate Rising(x: Lot) {
    && (forall i :: 0 <= i < |x.bids| ==> x.bids[i].value > x.offer.startValue)
    && (forall i, j :: 0 <= i < j < |x.bids| ==> x.bids[i].value < x.bids[j].value)
    && (forall i, j :: 0 <= i < j < |x.bids| ==> x.bids[i].date <= x.bids[j].date)
  }

  /** Every bid was placed while the lot was open. */
  ghost predicate InTime(x: Lot, now: nat) {
    forall i :: 0 <= i < |x.bids| ==>
      var b := x.bids[i];
      && x.since <= b.date < Deadline(x) && b.date <= now && b.elapsed == b.date - x.since
      && (x.closed.Some? ==> b.date <= x.closed.value)
  }

  /** What a START that reads back holds. */
  predicate StartReads(d: Offer) {
    1 <= d.timeactive <= 99_999 && d.startValue <= 999_999 && IsToken(d.name) && IsToken(d.fname)
  }

  ghost predicate Sound(x: Lot, now: nat) {
    && x.since <= now
    && (x.readable ==> StartReads(x.offer))
    && (x.closed.Some? ==> x.readable && x.since <= x.closed.value <= now && x.closed.value < Deadline(x))
    && (x.bids != [] ==> x.readable)
    && Rising(x) && InTime(x, now)
  }

  /** BIDS as a map, one file a bid. */
  ghost function BidFiles(bids: seq<BidInfo>): map<nat, BidInfo> {
    if bids == [] then map[]
    else
      var n := |bids| - 1;
      BidFiles(bids[..n])[bids[n].value := bids[n]]
  }

  ghost predicate SameLot(f: Auction, x: Lot, now: nat) {
    && f.start == (if x.readable then Some(StartOf(x.offer, x.host, x.since)) else None)
    && (f.end.Some? ==> x.readable && f.end == EndOf(x, now))
    && (x.closed.Some? ==> f.end.Some?)
    && f.bids == BidFiles(x.bids)
  }

  ghost predicate LotsMatch(auctions: map<nat, Auction>, lots: seq<Lot>, now: nat) {
    && |lots| <= 999
    && auctions.Keys == FirstIds(|lots|)
    && (forall i :: 0 <= i < |lots| ==> Sound(lots[i], now))
    && (forall i :: 0 <= i < |lots| ==> SameLot(auctions[i + 1], lots[i], now))
  }

  ghost predicate Indexed(index: map<string, set<nat>>, u: string, a: nat) {
    u in index && a in index[u]
  }

  ghost predicate HostIndex(index: map<string, set<nat>>, lots: seq<Lot>) {
    forall u: string, a: nat :: Indexed(index, u, a) <==> 1 <= a <= |lots| && Hosts(u, lots[a - 1])
  }

  ghost predicate BidIndex(index: map<string, set<nat>>, lots: seq<Lot>) {
    forall u: string, a: nat :: Indexed(index, u, a) <==> 1 <= a <= |lots| && BidsOn(u, lots[a - 1])
  }

  ghost predicate Matches(f: Files, l: Ledger, now: nat) {
    && f.accounts == l.accounts
    && f.hosted.Keys == f.bidded.Keys == f.accounts.Keys
    && LotsMatch(f.auctions, l.lots, now)
    && HostIndex(f.hosted, l.lots)
    && BidIndex(f.bidded, l.lots)
  }

  // ----- Time passes -----

  lemma TimePasses(f: Files, l: Ledger, before: nat, now: nat)
    requires Matches(f, l, before) && before <= now
    ensures Matches(f, l, now)
  {
  }

  /** Within the clock's range the uint32_t arithmetic is plain subtraction. */
  lemma NoWrap(x: Lot, now: nat)
    requires Sound(x, now) && x.readable && now < WORD
    ensures Elapsed(x.since, now) == now - x.since
    ensures Expired(StartOf(x.offer, x.host, x.since), now) <==> now >= Deadline(x)
    ensures now >= Deadline(x) ==>
              EndAt(StartOf(x.offer, x.host, x.since), now) == EndInfo(Deadline(x), x.offer.timeactive)
    ensures now < Deadline(x) ==>
              EndAt(StartOf(x.offer, x.host, x.since), now) == EndInfo(now, now - x.since)
  {
  }

  // ----- Closing a lot that is over changes nothing in the ledger -----

  lemma SettleSame(f: Auction, x: Lot, now: nat)
    requires SameLot(f, x, now) && Sound(x, now) && now < WORD
    ensures SameLot(Settle(f, now), x, now)
    ensures x.readable ==> Settle(f, now).end == EndOf(x, now)
    ensures x.readable ==> (Active(f, now) <==> !Over(x, now))
  {
    if x.readable { NoWrap(x, now); }
  }

  lemma CloseManyMatches(f: Files, l: Ledger, ids: set<nat>, now: nat)
    requires Matches(f, l, now) && now < WORD
    ensures Matches(CloseMany(f, ids, now), l, now)
  {
    var g := CloseMany(f, ids, now);
    forall i | 0 <= i < |l.lots| ensures SameLot(g.auctions[i + 1], l.lots[i], now) {
      assert i + 1 in f.auctions;
      SettleSame(f.auctions[i + 1], l.lots[i], now);
    }
  }

  // ----- BIDS -----

  ghost predicate Increasing(bids: seq<BidInfo>) {
    forall i, j :: 0 <= i < j < |bids| ==> bids[i].value < bids[j].value
  }

  lemma {:induction false} BidFileHolds(bids: seq<BidInfo>, i: nat)
    requires Increasing(bids) && i < |bids|
    ensures bids[i].value in BidFiles(bids) && BidFiles(bids)[bids[i].value] == bids[i]
  {
    var n := |bids| - 1;
    if i < n { BidFileHolds(bids[..n], i); }
  }

  lemma {:induction false} BidFileFrom(bids: seq<BidInfo>, v: nat)
    requires v in BidFiles(bids)
    ensures exists i :: 0 <= i < |bids| && bids[i].value == v
  {
    var n := |bids| - 1;
    if v == bids[n].value {
      assert bids[n].value == v;
    } else {
      BidFileFrom(bids[..n], v);
      var i :| 0 <= i < n && bids[..n][i].value == v;
      assert bids[i].value == v;
    }
  }

  lemma BidFilesHold(bids: seq<BidInfo>)
    requires Increasing(bids)
    ensures forall i :: 0 <= i < |bids| ==> bids[i].value in BidFiles(bids) && BidFiles(bids)[bids[i].value] == bids[i]
    ensures forall v <- BidFiles(bids) :: exists i :: 0 <= i < |bids| && bids[i].value == v
  {
    forall i | 0 <= i < |bids| ensures bids[i].value in BidFiles(bids) && BidFiles(bids)[bids[i].value] == bids[i] {
      BidFileHolds(bids, i);
    }
    forall v | v in BidFiles(bids) ensures exists i :: 0 <= i < |bids| && bids[i].value == v {
      BidFileFrom(bids, v);
    }
  }

  /** Comparing with every bid file is comparing with the last bid. */
  lemma TooLowIsFloor(f: Auction, x: Lot, v: nat, now: nat)
    requires SameLot(f, x, now) && Sound(x, now) && x.readable
    ensures TooLow(f, v) <==> v <= Floor(x)
  {
    BidFilesHold(x.bids);
    if x.bids != [] {
      var top := x.bids[|x.bids| - 1];
      assert top.value in f.bids;
      if TooLow(f, v) {
        var b :| b in f.bids && f.bids[b].value >= v;
        var i :| 0 <= i < |x.bids| && x.bids[i].value == b;
      }
    }
  }

  lemma KeysInOrder(bids: seq<BidInfo>, values: seq<nat>)
    requires Increasing(bids)
    requires |values| == |bids| && forall i :: 0 <= i < |bids| ==> values[i] == bids[i].value
    ensures Sorted(BidFiles(bids).Keys) == values
  {
    BidFilesHold(bids);
    var keys := BidFiles(bids).Keys;
    forall v ensures v in keys <==> v in values {
      if v in keys {
        var i :| 0 <= i < |bids| && bids[i].value == v;
        assert values[i] == v;
      }
    }
    SortedIsUnique(Sorted(keys), values);
  }

  /** Listing BIDS in any order and sorting by value gives the bids in the order they were placed. */
  lemma SortedIsHistory(bids: seq<BidInfo>)
    requires Increasing(bids)
    ensures SortedBids(BidFiles(bids)) == bids
  {
    BidFilesHold(bids);
    var values := seq(|bids|, i requires 0 <= i < |bids| => bids[i].value);
    KeysInOrder(bids, values);
    var r := SortedBids(BidFiles(bids));
    forall i | 0 <= i < |bids| ensures r[i] == bids[i] {
      assert values[i] == bids[i].value;
    }
  }

  // ----- Listings -----

  lemma {:induction false} IdsHold(lots: seq<Lot>, keep: Lot -> bool, a: nat)
    ensures a in Ids(lots, keep) <==> 1 <= a <= |lots| && keep(lots[a - 1])
  {
    if lots != [] {
      var n := |lots|;
      IdsHold(lots[..n - 1], keep, a);
    }
  }

  lemma {:induction false} IdsSorted(lots: seq<Lot>, keep: Lot -> bool)
    ensures StrictlySorted(Ids(lots, keep))
  {
    if lots != [] {
      var rest := lots[..|lots| - 1];
      var ids := Ids(rest, keep);
      IdsSorted(rest, keep);
      forall i | 0 <= i < |ids| ensures ids[i] < |lots| {
        IdsHold(rest, keep, ids[i]);
      }
    }
  }

  lemma IdsAre(lots: seq<Lot>, keep: Lot -> bool)
    ensures StrictlySorted(Ids(lots, keep))
    ensures forall a :: a in Ids(lots, keep) <==> 1 <= a <= |lots| && keep(lots[a - 1])
  {
    IdsSorted(lots, keep);
    forall a: nat ensures a in Ids(lots, keep) <==> 1 <= a <= |lots| && keep(lots[a - 1]) {
      IdsHold(lots, keep, a);
    }
  }

  /** The condition under which a listing visits exactly the lots that satisfy `keep`. */
  ghost predicate Selects(ids: set<nat>, lots: seq<Lot>, keep: Lot -> bool) {
    forall a: nat :: a in ids <==> 1 <= a <= |lots| && keep(lots[a - 1])
  }

  lemma EntrySame(f: Files, l: Ledger, a: nat, now: nat)
    requires Matches(f, l, now) && now < WORD && Known(l, a)
    ensures Visitable(f, a) <==> l.lots[a - 1].readable
    ensures l.lots[a - 1].readable ==> Entry(f, a, now) == Listed(l.lots, a, now)
  {
    assert SameLot(f.auctions[a - 1 + 1], l.lots[a - 1], now);
    SettleSame(f.auctions[a], l.lots[a - 1], now);
  }

  lemma VisitableSame(f: Files, l: Ledger, ids: set<nat>, keep: Lot -> bool, now: nat)
    requires Matches(f, l, now) && now < WORD && Selects(ids, l.lots, keep)
    ensures (forall a <- ids :: Visitable(f, a)) <==> !exists x <- l.lots :: keep(x) && !x.readable
  {
    if a :| a in ids && !Visitable(f, a) {
      EntrySame(f, l, a, now);
      assert l.lots[a - 1] in l.lots;
    }
    if x :| x in l.lots && keep(x) && !x.readable {
      var i :| 0 <= i < |l.lots| && l.lots[i] == x;
      assert i + 1 in ids;
      EntrySame(f, l, i + 1, now);
    }
  }

  lemma EntriesSame(f: Files, l: Ledger, ids: set<nat>, keep: Lot -> bool, now: nat)
    requires Matches(f, l, now) && now < WORD && Selects(ids, l.lots, keep)
    requires forall a <- ids :: Visitable(f, a)
    ensures Listing(Entries(f, Sorted(ids), now)) == ListLots(l.lots, keep, now)
  {
    VisitableSame(f, l, ids, keep, now);
    IdsAre(l.lots, keep);
    var keys := Ids(l.lots, keep);
    SortedIsUnique(Sorted(ids), keys);
    forall i | 0 <= i < |keys| ensures Entry(f, keys[i], now) == Listed(l.lots, keys[i], now) {
      assert keys[i] in keys;
      EntrySame(f, l, keys[i], now);
    }
    assert Entries(f, keys, now) == seq(|keys|, i requires 0 <= i < |keys| => Listed(l.lots, keys[i], now));
  }

  /** A listing closes what it likes and still reads off the ledger, in any directory order. */
  lemma ListSame(f: Files, l: Ledger, ids: set<nat>, keep: Lot -> bool, reached: set<nat>, now: nat, permits: int)
    requires Matches(f, l, now) && now < WORD && Selects(ids, l.lots, keep)
    ensures Visit(f, ids, reached, now, permits).reply == ListLots(l.lots, keep, now)
    ensures Matches(Visit(f, ids, reached, now, permits).files, l, now)
  {
    VisitableSame(f, l, ids, keep, now);
    if forall a <- ids :: Visitable(f, a) {
      CloseManyMatches(f, l, ids, now);
      EntriesSame(f, l, ids, keep, now);
    } else {
      CloseManyMatches(f, l, ids * reached, now);
    }
  }

  // ----- One operation -----

  ghost predicate Simulates(f: Files, l: Ledger, op: Op, now: nat) {
    && Do(f, op, now).reply == Act(l, op, now).1
    && Matches(Do(f, op, now).files, Act(l, op, now).0, now)
  }

  /** New users come with empty indexes; nothing else depends on the accounts. */
  lemma AccountsMatch(f: Files, l: Ledger, accounts: Accounts, now: nat)
    requires Matches(f, l, now) && f.accounts.Keys <= accounts.Keys
    ensures Matches(WithAccounts(f, accounts), l.(accounts := accounts), now)
  {
    var g := WithAccounts(f, accounts);
    forall u: string, a: nat
      ensures Indexed(g.hosted, u, a) <==> Indexed(f.hosted, u, a)
      ensures Indexed(g.bidded, u, a) <==> Indexed(f.bidded, u, a)
    {
    }
  }

  lemma AccountStep(f: Files, l: Ledger, op: Op, now: nat)
    requires Matches(f, l, now)
    requires op.Login? || op.Logout? || op.Unregister?
    ensures Simulates(f, l, op, now)
  {
    match op
    case Login(u, p) => AccountsMatch(f, l, LoginAccount(f.accounts, u, p).0, now);
    case Logout(u, p) => AccountsMatch(f, l, LogoutAccount(f.accounts, u, p).0, now);
    case Unregister(u, p) => AccountsMatch(f, l, UnregisterAccount(f.accounts, u, p).0, now);
  }

  /** Replacing one auction and its lot, with the indexes kept in step, keeps the whole match. */
  lemma UpdateLot(f: Files, l: Ledger, a: nat, x: Auction, y: Lot, bidded: map<string, set<nat>>, now: nat)
    requires Matches(f, l, now) && Known(l, a)
    requires SameLot(x, y, now) && Sound(y, now)
    requires forall u :: Hosts(u, y) <==> Hosts(u, l.lots[a - 1])
    requires bidded.Keys == f.bidded.Keys
    requires BidIndex(bidded, l.lots[a - 1 := y])
    ensures Matches(f.(auctions := f.auctions[a := x], bidded := bidded), l.(lots := l.lots[a - 1 := y]), now)
  {
  }

  lemma ShowStep(f: Files, l: Ledger, a: nat, now: nat)
    requires Matches(f, l, now) && now < WORD
    ensures Simulates(f, l, ShowRecord(a), now)
  {
    if Known(l, a) {
      var x, y := f.auctions[a], l.lots[a - 1];
      assert SameLot(f.auctions[a - 1 + 1], y, now);
      if y.readable {
        SettleSame(x, y, now);
        assert SortedBids(x.bids) == y.bids by { SortedIsHistory(y.bids); }
        CloseManyMatches(f, l, {a}, now);
        var g := Do(f, ShowRecord(a), now).files;
        assert g.auctions == CloseMany(f, {a}, now).auctions;
        assert g == CloseMany(f, {a}, now);
      }
    }
  }

  /** Writing END, at the deadline or as an early close, keeps the match. */
  lemma CloseMatches(f: Files, l: Ledger, a: nat, now: nat)
    requires Matches(f, l, now) && now < WORD && Known(l, a) && l.lots[a - 1].readable
    requires a in f.auctions && f.auctions[a].end.None?
    ensures f.auctions[a].start == Some(StartOf(l.lots[a - 1].offer, l.lots[a - 1].host, l.lots[a - 1].since))
    ensures var x, y := f.auctions[a], l.lots[a - 1];
            && (Expired(x.start.value, now) <==> Over(y, now))
            && Matches(f.(auctions := f.auctions[a := x.(end := Some(EndAt(x.start.value, now)))]),
                       l.(lots := if Over(y, now) then l.lots else l.lots[a - 1 := y.(closed := Some(now))]), now)
  {
    var x, y := f.auctions[a], l.lots[a - 1];
    assert SameLot(f.auctions[a - 1 + 1], y, now);
    NoWrap(y, now);
    var y' := if Over(y, now) then y else y.(closed := Some(now));
    var lots := l.lots[a - 1 := y'];
    assert BidIndex(f.bidded, lots) by {
      forall w: string, b: nat
        ensures Indexed(f.bidded, w, b) <==> 1 <= b <= |lots| && BidsOn(w, lots[b - 1])
      {
        assert 1 <= b <= |lots| ==> (BidsOn(w, lots[b - 1]) <==> BidsOn(w, l.lots[b - 1]));
      }
    }
    UpdateLot(f, l, a, x.(end := Some(EndAt(x.start.value, now))), y', f.bidded, now);
    assert lots == if Over(y, now) then l.lots else l.lots[a - 1 := y'];
  }

  lemma CloseStep(f: Files, l: Ledger, a: nat, u: string, p: string, now: nat)
    requires Matches(f, l, now) && now < WORD
    ensures Simulates(f, l, Close(a, u, p), now)
  {
    if CorrectPassword(f.accounts, u, p) && Known(l, a) {
      assert SameLot(f.auctions[a - 1 + 1], l.lots[a - 1], now);
      assert Indexed(f.hosted, u, a) <==> Hosts(u, l.lots[a - 1]);
      if l.lots[a - 1].readable && f.auctions[a].end.None? { CloseMatches(f, l, a, now); }
    }
  }

  lemma NextIdIs(n: nat)
    ensures NextId(FirstIds(n)) == n + 1
  {
    if n > 0 {
      assert n in FirstIds(n);
    }
  }

  /** A new lot at the end, its directory under the next id, and the host's index entry. */
  lemma AddLot(f: Files, l: Ledger, x: Auction, y: Lot, hosted: map<string, set<nat>>, now: nat)
    requires Matches(f, l, now) && |l.lots| < 999
    requires SameLot(x, y, now) && Sound(y, now) && y.bids == []
    requires hosted.Keys == f.hosted.Keys
    requires HostIndex(hosted, l.lots + [y])
    ensures Matches(f.(auctions := f.auctions[|l.lots| + 1 := x], hosted := hosted), l.(lots := l.lots + [y]), now)
  {
    var n := |l.lots|;
    var lots := l.lots + [y];
    assert FirstIds(n + 1) == FirstIds(n) + {n + 1};
    forall u: string, a: nat
      ensures Indexed(f.bidded, u, a) <==> 1 <= a <= |lots| && BidsOn(u, lots[a - 1])
    {
      assert 1 <= a <= n ==> lots[a - 1] == l.lots[a - 1];
      assert a == n + 1 ==> lots[a - 1] == y;
    }
    forall i | 0 <= i < |lots| ensures SameLot(f.auctions[n + 1 := x][i + 1], lots[i], now) {
      assert i < n ==> lots[i] == l.lots[i];
    }
  }

  lemma OfferReads(d: Offer)
    requires StartAccepted(d) && Readable(d)
    ensures StartReads(AsRead(d))
  {
    var words := Words(d.name + " " + d.fname);
    WordsAreTokens(d.name + " " + d.fname);
    assert words[0] in words && words[1] in words;
  }

  /** The lot and the directory that an Open past the password check makes. */
  function NewLot(u: string, d: Upload, now: nat): Lot {
    Lot(u, AsRead(d), now, StartAccepted(d) && Readable(d), StartAccepted(d) && Paths.AssetNameOk(d.fname), None, [])
  }

  function NewDir(u: string, d: Offer, now: nat): Auction {
    if StartAccepted(d) then EMPTY_DIR.(start := StartWritten(d, u, now)) else EMPTY_DIR
  }

  lemma OpenMatches(f: Files, l: Ledger, u: string, d: Upload, now: nat)
    requires Matches(f, l, now) && |l.lots| < 999 && u in f.hosted
    ensures var n, y := |l.lots| + 1, NewLot(u, d, now);
            Matches(f.(auctions := f.auctions[n := NewDir(u, d, now)],
                       hosted := if y.registered then f.hosted[u := f.hosted[u] + {n}] else f.hosted),
                    l.(lots := l.lots + [y]), now)
  {
    var n, y := |l.lots| + 1, NewLot(u, d, now);
    var lots := l.lots + [y];
    var hosted := if y.registered then f.hosted[u := f.hosted[u] + {n}] else f.hosted;
    forall w: string, a: nat
      ensures Indexed(hosted, w, a) <==> 1 <= a <= n && Hosts(w, lots[a - 1])
    {
      assert Indexed(f.hosted, w, a) <==> 1 <= a < n && Hosts(w, l.lots[a - 1]);
    }
    assert Sound(y, now) by {
      if y.readable { OfferReads(d); }
    }
    AddLot(f, l, NewDir(u, d, now), y, hosted, now);
  }

  lemma OpenStep(f: Files, l: Ledger, u: string, p: string, d: Upload, now: nat)
    requires Matches(f, l, now) && now < WORD
    ensures Simulates(f, l, Open(u, p, d), now)
  {
    NextIdIs(|l.lots|);
    if LoggedIn(f.accounts, u) && CorrectPassword(f.accounts, u, p) && |l.lots| < 999 {
      OpenMatches(f, l, u, d, now);
    }
  }

  lemma BidFilesAppend(bids: seq<BidInfo>, b: BidInfo)
    ensures BidFiles(bids + [b]) == BidFiles(bids)[b.value := b]
  {
    assert (bids + [b])[..|bids|] == bids;
  }

  /** A bid above the floor, in time, keeps a lot sound. */
  lemma SoundBid(x: Lot, b: BidInfo, now: nat)
    requires Sound(x, now) && x.readable && !Over(x, now) && b.value > Floor(x)
    requires b.date == now && b.elapsed == now - x.since
    ensures Sound(x.(bids := x.bids + [b]), now)
  {
  }

  lemma BidStep(f: Files, l: Ledger, u: string, p: string, a: nat, v: nat, now: nat)
    requires Matches(f, l, now) && now < WORD
    ensures Simulates(f, l, Bid(u, p, a, v), now)
  {
    if LoggedIn(f.accounts, u) && CorrectPassword(f.accounts, u, p) && Known(l, a) {
      var x, y := f.auctions[a], l.lots[a - 1];
      assert SameLot(f.auctions[a - 1 + 1], y, now);
      assert Indexed(f.hosted, u, a) <==> Hosts(u, y);
      if y.readable && !Hosts(u, y) && x.end.None? {
        NoWrap(y, now);
        TooLowIsFloor(x, y, v, now);
        if Over(y, now) {
          CloseManyMatches(f, l, {a}, now);
          assert f.(auctions := f.auctions[a := Settle(x, now)]) == CloseMany(f, {a}, now);
        } else if v > Floor(y) {
          AcceptBid(f, l, u, p, a, v, now);
        }
      }
    }
  }

  /** Marking the auction in the bidder's BIDDED keeps pace with the new bid. */
  lemma BidIndexGrows(index: map<string, set<nat>>, lots: seq<Lot>, a: nat, b: BidInfo)
    requires BidIndex(index, lots) && b.user in index && 1 <= a <= |lots|
    ensures BidIndex(index[b.user := index[b.user] + {a}],
                     lots[a - 1 := lots[a - 1].(bids := lots[a - 1].bids + [b])])
  {
    var y := lots[a - 1];
    var y' := y.(bids := y.bids + [b]);
    forall w ensures BidsOn(w, y') <==> BidsOn(w, y) || w == b.user {
      assert b in y'.bids && forall e :: e in y'.bids <==> e in y.bids || e == b;
    }
    var index', lots' := index[b.user := index[b.user] + {a}], lots[a - 1 := y'];
    forall w: string, c: nat
      ensures Indexed(index', w, c) <==> 1 <= c <= |lots'| && BidsOn(w, lots'[c - 1])
    {
      assert Indexed(index, w, c) <==> 1 <= c <= |lots| && BidsOn(w, lots[c - 1]);
    }
  }

  /** What an accepted bid does to the tree and to the ledger. */
  lemma BidEffects(f: Files, l: Ledger, u: string, p: string, a: nat, v: nat, now: nat)
    requires Matches(f, l, now) && now < WORD
    requires LoggedIn(f.accounts, u) && CorrectPassword(f.accounts, u, p) && Known(l, a)
    requires l.lots[a - 1].readable && !Hosts(u, l.lots[a - 1]) && !Over(l.lots[a - 1], now)
    requires v > Floor(l.lots[a - 1])
    ensures a in f.auctions && f.auctions[a].start.Some? && u in f.bidded
    ensures var x, y := f.auctions[a], l.lots[a - 1];
            var b := BidInfo(u, v, now, now - y.since);
            && SameLot(x, y, now)
            && Do(f, Bid(u, p, a, v), now) ==
               Outcome(f.(auctions := f.auctions[a := x.(bids := x.bids[v := b])],
                          bidded := f.bidded[u := f.bidded[u] + {a}]), OK, 0)
            && Act(l, Bid(u, p, a, v), now) == (l.(lots := l.lots[a - 1 := y.(bids := y.bids + [b])]), OK)
  {
    var x, y := f.auctions[a], l.lots[a - 1];
    assert SameLot(f.auctions[a - 1 + 1], y, now);
    assert Indexed(f.hosted, u, a) <==> Hosts(u, y);
    NoWrap(y, now);
    TooLowIsFloor(x, y, v, now);
  }

  /** The trees match after a new bid. */
  lemma BidMatches(f: Files, l: Ledger, a: nat, b: BidInfo, now: nat)
    requires Matches(f, l, now) && Known(l, a) && b.user in f.bidded
    requires l.lots[a - 1].readable && !Over(l.lots[a - 1], now) && b.value > Floor(l.lots[a - 1])
    requires b.date == now && b.elapsed == now - l.lots[a - 1].since
    ensures a in f.auctions
    ensures var x, y := f.auctions[a], l.lots[a - 1];
            Matches(f.(auctions := f.auctions[a := x.(bids := x.bids[b.value := b])],
                       bidded := f.bidded[b.user := f.bidded[b.user] + {a}]),
                    l.(lots := l.lots[a - 1 := y.(bids := y.bids + [b])]), now)
  {
    var x, y := f.auctions[a], l.lots[a - 1];
    assert SameLot(f.auctions[a - 1 + 1], y, now);
    var x', y' := x.(bids := x.bids[b.value := b]), y.(bids := y.bids + [b]);
    var bidded := f.bidded[b.user := f.bidded[b.user] + {a}];
    assert SameLot(x', y', now) by { BidFilesAppend(y.bids, b); }
    assert Sound(y', now) by { SoundBid(y, b, now); }
    assert BidIndex(bidded, l.lots[a - 1 := y']) by { BidIndexGrows(f.bidded, l.lots, a, b); }
    UpdateLot(f, l, a, x', y', bidded, now);
  }

  lemma AcceptBid(f: Files, l: Ledger, u: string, p: string, a: nat, v: nat, now: nat)
    requires Matches(f, l, now) && now < WORD
    requires LoggedIn(f.accounts, u) && CorrectPassword(f.accounts, u, p) && Known(l, a)
    requires l.lots[a - 1].readable && !Hosts(u, l.lots[a - 1]) && !Over(l.lots[a - 1], now)
    requires v > Floor(l.lots[a - 1])
    ensures Simulates(f, l, Bid(u, p, a, v), now)
  {
    BidEffects(f, l, u, p, a, v, now);
    BidMatches(f, l, a, BidInfo(u, v, now, now - l.lots[a - 1].since), now);
  }

  lemma IndexSelects(f: Files, l: Ledger, u: string, now: nat)
    requires Matches(f, l, now) && u in f.accounts
    ensures Selects(f.hosted[u], l.lots, KeepHost(u)) && Selects(f.bidded[u], l.lots, KeepBidder(u))
  {
    assert forall a: nat :: a in f.hosted[u] <==> Indexed(f.hosted, u, a);
    assert forall a: nat :: a in f.bidded[u] <==> Indexed(f.bidded, u, a);
  }

  lemma ListingStep(f: Files, l: Ledger, op: Op, now: nat)
    requires Matches(f, l, now) && now < WORD
    requires op.MyAuctions? || op.MyBids? || op.List?
    ensures Simulates(f, l, op, now)
  {
    if op.List? {
      ListSame(f, l, f.auctions.Keys, KeepAll(), op.reached, now, 1);
    } else if op.user in f.accounts {
      IndexSelects(f, l, op.user, now);
      if op.MyAuctions? {
        ListSame(f, l, f.hosted[op.user], KeepHost(op.user), op.reached, now, 0);
      } else {
        ListSame(f, l, f.bidded[op.user], KeepBidder(op.user), op.reached, now, 0);
      }
    }
  }

  /**
   * The simulation: every operation, from matching states, at any later clock reading. An Open's
   * file name is one that stays in ASSET, by the type Store.Upload.
   */
  lemma Simulation(f: Files, l: Ledger, op: Op, before: nat, now: nat)
    requires Matches(f, l, before) && before <= now < WORD
    ensures Do(f, op, now).reply == Act(l, op, now).1
    ensures Matches(Do(f, op, now).files, Act(l, op, now).0, now)
  {
    TimePasses(f, l, before, now);
    assert Simulates(f, l, op, now) by {
      match op
      case Open(u, p, d) => OpenStep(f, l, u, p, d, now);
      case Close(a, u, p) => CloseStep(f, l, a, u, p, now);
      case Bid(u, p, a, v) => BidStep(f, l, u, p, a, v, now);
      case ShowRecord(a) => ShowStep(f, l, a, now);
      case Login(_, _) => AccountStep(f, l, op, now);
      case Logout(_, _) => AccountStep(f, l, op, now);
      case Unregister(_, _) => AccountStep(f, l, op, now);
      case _ => ListingStep(f, l, op, now);
    }
  }
}
