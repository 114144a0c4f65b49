/**
 * Whole runs of the database, from an empty directory tree, and what they promise.
 * The answers a run gives are enough to tell its state: who is logged in, who hosts what,
 * which bids stand and when an auction ended.
 */
module History {
  import opened Common
  import opened Text
  import opened Store
  import opened Ledger
  import opened Refinement

  /** An operation and the clock reading it takes. An Open carries a Store.Upload, whose file name stays in ASSET. */
  datatype Call = Call(op: Op, now: nat)

  ghost predicate Clocked(calls: seq<Call>) {
    && (forall i :: 0 <= i < |calls| ==> calls[i].now < WORD)
    && (forall i, j :: 0 <= i < j < |calls| ==> calls[i].now <= calls[j].now)
  }

  ghost function Run(calls: seq<Call>): Files {
    if calls == [] then NO_FILES
    else
      var n := |calls| - 1;
      Do(Run(calls[..n]), calls[n].op, calls[n].now).files
  }

  /** The answer to a call made after the calls before it. */
  ghost function Answer(calls: seq<Call>, c: Call): Reply {
    Do(Run(calls), c.op, c.now).reply
  }

  function Replay(calls: seq<Call>): Ledger {
    if calls == [] then NEW_LEDGER
    else
      var n := |calls| - 1;
      Act(Replay(calls[..n]), calls[n].op, calls[n].now).0
  }

  ghost function Time(calls: seq<Call>): nat {
    if calls == [] then 0 else calls[|calls| - 1].now
  }

  lemma Earlier(calls: seq<Call>)
    requires Clocked(calls) && calls != []
    ensures Clocked(calls[..|calls| - 1]) && Time(calls[..|calls| - 1]) <= Time(calls) < WORD
  {
  }

  lemma BeforeLast(calls: seq<Call>, c: Call)
    requires Clocked(calls + [c])
    ensures Clocked(calls) && Time(calls) <= c.now < WORD
  {
    var all := calls + [c];
    assert all[..|calls|] == calls;
    Earlier(all);
  }

  // ----- The run refines the ledger -----

  lemma {:induction false} RunRefinesLedger(calls: seq<Call>)
    requires Clocked(calls)
    ensures Matches(Run(calls), Replay(calls), Time(calls))
  {
    if calls != [] {
      var n := |calls| - 1;
      Earlier(calls);
      RunRefinesLedger(calls[..n]);
      Simulation(Run(calls[..n]), Replay(calls[..n]), calls[n].op, Time(calls[..n]), calls[n].now);
    }
  }

  /** Every answer of the database is the ledger's. */
  lemma AnswersAreTheLedgers(calls: seq<Call>, c: Call)
    requires Clocked(calls + [c])
    ensures Answer(calls, c) == Act(Replay(calls), c.op, c.now).1
  {
    assert (calls + [c])[..|calls|] == calls;
    Earlier(calls + [c]);
    RunRefinesLedger(calls);
    Simulation(Run(calls), Replay(calls), c.op, Time(calls), c.now);
  }

  // ----- Lazy closing cannot be observed -----

  predicate IsQuery(op: Op) {
    op.MyAuctions? || op.MyBids? || op.List? || op.ShowRecord?
  }

  /** The calls whose flag is set. */
  function Kept(calls: seq<Call>, keep: seq<bool>): (r: seq<Call>)
    requires |keep| == |calls|
  {
    if calls == [] then []
    else
      var n := |calls| - 1;
      Kept(calls[..n], keep[..n]) + if keep[n] then [calls[n]] else []
  }

  /** Only queries, and calls that end in an exception, are left out. */
  ghost predicate DropsSilent(calls: seq<Call>, keep: seq<bool>) {
    |keep| == |calls| && forall i :: 0 <= i < |calls| ==> MayDrop(calls, keep, i)
  }

  ghost predicate MayDrop(calls: seq<Call>, keep: seq<bool>, i: nat)
    requires i < |calls| == |keep|
  {
    keep[i] || IsQuery(calls[i].op) || Answer(calls[..i], calls[i]).Threw?
  }

  lemma SilentCall(l: Ledger, op: Op, now: nat)
    requires IsQuery(op) || Act(l, op, now).1.Threw?
    ensures Act(l, op, now).0 == l
  {
  }

  lemma {:induction false} KeptClocked(calls: seq<Call>, keep: seq<bool>, now: nat)
    requires |keep| == |calls| && Clocked(calls) && Time(calls) <= now
    ensures Clocked(Kept(calls, keep))
    ensures forall i :: 0 <= i < |Kept(calls, keep)| ==> Kept(calls, keep)[i].now <= now
  {
    if calls != [] {
      Earlier(calls);
      KeptClocked(calls[..|calls| - 1], keep[..|calls| - 1], Time(calls));
    }
  }

  lemma PrefixDropsSilent(calls: seq<Call>, keep: seq<bool>, n: nat)
    requires DropsSilent(calls, keep) && n <= |calls|
    ensures DropsSilent(calls[..n], keep[..n])
  {
    forall i | 0 <= i < n ensures MayDrop(calls[..n], keep[..n], i) {
      assert MayDrop(calls, keep, i) && calls[..n][..i] == calls[..i];
    }
  }

  lemma {:induction false} KeptReplay(calls: seq<Call>, keep: seq<bool>)
    requires Clocked(calls) && DropsSilent(calls, keep)
    ensures Replay(Kept(calls, keep)) == Replay(calls)
  {
    if calls != [] {
      var n := |calls| - 1;
      Earlier(calls);
      PrefixDropsSilent(calls, keep, n);
      KeptReplay(calls[..n], keep[..n]);
      var k := Kept(calls[..n], keep[..n]);
      if keep[n] {
        assert (k + [calls[n]])[..|k|] == k;
      } else {
        assert MayDrop(calls, keep, n) && calls[..n] + [calls[n]] == calls;
        AnswersAreTheLedgers(calls[..n], calls[n]);
        SilentCall(Replay(calls[..n]), calls[n].op, calls[n].now);
        assert Kept(calls, keep) == k;
      }
    }
  }

  /**
   * Deleting any queries and any calls that failed with an exception (an expired bid among them),
   * although they may have written END files, changes no other answer, now or later.
   */
  lemma LazyClosingIsUnobservable(calls: seq<Call>, keep: seq<bool>, c: Call)
    requires Clocked(calls + [c]) && DropsSilent(calls, keep)
    ensures Answer(Kept(calls, keep), c) == Answer(calls, c)
  {
    var k := Kept(calls, keep);
    BeforeLast(calls, c);
    assert Replay(k) == Replay(calls) by { KeptReplay(calls, keep); }
    assert Clocked(k + [c]) by { KeptClocked(calls, keep, c.now); }
    assert Answer(calls, c) == Act(Replay(calls), c.op, c.now).1 by { AnswersAreTheLedgers(calls, c); }
    assert Answer(k, c) == Act(Replay(k), c.op, c.now).1 by { AnswersAreTheLedgers(k, c); }
  }

  // ----- Bid history -----

  datatype Placed = Placed(user: string, value: nat, date: nat)

  function Placements(bids: seq<BidInfo>): (r: seq<Placed>)
    ensures |r| == |bids|
  {
    seq(|bids|, i requires 0 <= i < |bids| => Placed(bids[i].user, bids[i].value, bids[i].date))
  }

  ghost predicate IsAcceptedBid(calls: seq<Call>, c: Call, a: nat) {
    c.op.Bid? && c.op.auction == a && Answer(calls, c) == OK
  }

  /** The accepted bids on an auction, in the order in which they were placed. */
  ghost function Accepted(calls: seq<Call>, a: nat): seq<Placed> {
    if calls == [] then []
    else
      var n := |calls| - 1;
      var c := calls[n];
      Accepted(calls[..n], a) +
      if IsAcceptedBid(calls[..n], c, a) then [Placed(c.op.user, c.op.value, c.now)] else []
  }

  function BidsOf(l: Ledger, a: nat): seq<BidInfo> {
    if Known(l, a) then l.lots[a - 1].bids else []
  }

  lemma ActOnBids(l: Ledger, op: Op, now: nat, a: nat)
    ensures Placements(BidsOf(Act(l, op, now).0, a)) ==
            Placements(BidsOf(l, a)) +
            if op.Bid? && op.auction == a && Act(l, op, now).1 == OK
            then [Placed(op.user, op.value, now)] else []
  {
  }

  lemma {:induction false} AcceptedAreTheBids(calls: seq<Call>, a: nat)
    requires Clocked(calls)
    ensures Accepted(calls, a) == Placements(BidsOf(Replay(calls), a))
  {
    if calls != [] {
      var n := |calls| - 1;
      Earlier(calls);
      AcceptedAreTheBids(calls[..n], a);
      ActOnBids(Replay(calls[..n]), calls[n].op, calls[n].now, a);
      assert calls[..n] + [calls[n]] == calls;
      AnswersAreTheLedgers(calls[..n], calls[n]);
    }
  }

  /** The bids shown are the last 50 placed, or all of them, in the order placed, each with its age. */
  predicate ShowsLast(shown: seq<BidInfo>, placed: seq<Placed>, start: StartInfo) {
    var n := if |placed| < 50 then |placed| else 50;
    && |shown| == n
    && forall i :: 0 <= i < n ==>
         && Placed(shown[i].user, shown[i].value, shown[i].date) == placed[|placed| - n + i]
         && shown[i].elapsed == shown[i].date - start.time
  }

  predicate RisesAbove(placed: seq<Placed>, floor: nat) {
    && (forall i :: 0 <= i < |placed| ==> placed[i].value > floor)
    && (forall i, j :: 0 <= i < j < |placed| ==> placed[i].value < placed[j].value)
  }

  /**
   * A record shows exactly the last 50 accepted bids, in the order placed, however BIDS was listed;
   * all accepted bids rise strictly from above the start value.
   */
  lemma RecordShowsTheHistory(calls: seq<Call>, a: nat, now: nat)
    requires Clocked(calls + [Call(ShowRecord(a), now)])
    requires Answer(calls, Call(ShowRecord(a), now)).Record?
    ensures var r := Answer(calls, Call(ShowRecord(a), now)).record;
            ShowsLast(r.bids, Accepted(calls, a), r.start) && RisesAbove(Accepted(calls, a), r.start.startValue)
  {
    var c := Call(ShowRecord(a), now);
    var l := Replay(calls);
    BeforeLast(calls, c);
    assert Answer(calls, c) == ShowLot(l, a, now) by { AnswersAreTheLedgers(calls, c); }
    var x := l.lots[a - 1];
    assert Accepted(calls, a) == Placements(x.bids) by { AcceptedAreTheBids(calls, a); }
    assert Sound(x, Time(calls)) by { SoundLot(calls, a); }
    LotHistory(x, Time(calls));
  }

  lemma LotHistory(x: Lot, now: nat)
    requires Sound(x, now)
    ensures ShowsLast(LastFifty(x.bids), Placements(x.bids), StartOf(x.offer, x.host, x.since))
    ensures RisesAbove(Placements(x.bids), x.offer.startValue)
  {
    var shown, placed := LastFifty(x.bids), Placements(x.bids);
    var k := |x.bids| - |shown|;
    forall i | 0 <= i < |shown|
      ensures Placed(shown[i].user, shown[i].value, shown[i].date) == placed[k + i]
      ensures shown[i].elapsed == shown[i].date - x.since
    {
      assert shown[i] == x.bids[k + i];
    }
    PlacedRise(x);
  }

  lemma PlacedRise(x: Lot)
    requires Rising(x)
    ensures RisesAbove(Placements(x.bids), x.offer.startValue)
  {
  }

  // ----- The end of an auction -----

  /** When the host closed the auction, if it did. */
  ghost function ClosedAt(calls: seq<Call>, a: nat): Option<nat> {
    if calls == [] then None
    else
      var n := |calls| - 1;
      var c := calls[n];
      if c.op.Close? && c.op.auction == a && Answer(calls[..n], c) == OK then Some(c.now)
      else ClosedAt(calls[..n], a)
  }

  function ClosedIn(l: Ledger, a: nat): Option<nat> {
    if Known(l, a) then l.lots[a - 1].closed else None
  }

  lemma ActOnClosed(l: Ledger, op: Op, now: nat, a: nat)
    ensures ClosedIn(Act(l, op, now).0, a) ==
            if op.Close? && op.auction == a && Act(l, op, now).1 == OK then Some(now) else ClosedIn(l, a)
  {
  }

  lemma {:induction false} ClosedAtIsTheLots(calls: seq<Call>, a: nat)
    requires Clocked(calls)
    ensures ClosedAt(calls, a) == ClosedIn(Replay(calls), a)
  {
    if calls != [] {
      var n := |calls| - 1;
      Earlier(calls);
      ClosedAtIsTheLots(calls[..n], a);
      ActOnClosed(Replay(calls[..n]), calls[n].op, calls[n].now, a);
      assert calls[..n] + [calls[n]] == calls;
      AnswersAreTheLedgers(calls[..n], calls[n]);
    }
  }

  /** The end of an auction: an early Close, or else the deadline once it has come. */
  function Ended(closed: Option<nat>, start: StartInfo, now: nat): Option<EndInfo> {
    var deadline := start.time + start.timeactive;
    match closed
    case Some(t) => if start.time <= t < deadline then Some(EndInfo(t, t - start.time)) else None
    case None => if now >= deadline then Some(EndInfo(deadline, start.timeactive)) else None
  }

  lemma SoundLot(calls: seq<Call>, a: nat)
    requires Clocked(calls) && Known(Replay(calls), a)
    ensures Sound(Replay(calls).lots[a - 1], Time(calls))
  {
    RunRefinesLedger(calls);
  }

  lemma EndOfSound(x: Lot, before: nat, now: nat)
    requires Sound(x, before)
    ensures EndOf(x, now) == Ended(x.closed, StartOf(x.offer, x.host, x.since), now)
  {
  }

  /**
   * An auction ends at the earlier of its host's Close and its deadline, whoever discovers it and
   * whenever: the record gives that date and elapsed time, and none before.
   */
  lemma RecordShowsTheEnd(calls: seq<Call>, a: nat, now: nat)
    requires Clocked(calls + [Call(ShowRecord(a), now)])
    requires Answer(calls, Call(ShowRecord(a), now)).Record?
    ensures var r := Answer(calls, Call(ShowRecord(a), now)).record;
            r.end == Ended(ClosedAt(calls, a), r.start, now)
  {
    var c := Call(ShowRecord(a), now);
    var l := Replay(calls);
    assert Answer(calls, c) == ShowLot(l, a, now) by { AnswersAreTheLedgers(calls, c); }
    assert Clocked(calls) by {
      assert (calls + [c])[..|calls|] == calls;
      Earlier(calls + [c]);
    }
    ClosedAtIsTheLots(calls, a);
    SoundLot(calls, a);
    EndOfSound(l.lots[a - 1], Time(calls), now);
  }

  /** From any state, no operation touches an auction that has its END file. */
  lemma EndStays(f: Files, op: Op, now: nat, a: nat)
    requires a in f.auctions && f.auctions[a].end.Some?
    ensures a in Do(f, op, now).files.auctions && Do(f, op, now).files.auctions[a] == f.auctions[a]
  {
  }

  /** Once END is written, START, END and the bids stay as they are for the rest of the run. */
  lemma {:induction false} ClosedIsFrozen(calls: seq<Call>, i: nat, a: nat)
    requires i <= |calls|
    requires a in Run(calls[..i]).auctions && Run(calls[..i]).auctions[a].end.Some?
    ensures a in Run(calls).auctions && Run(calls).auctions[a] == Run(calls[..i]).auctions[a]
  {
    if i == |calls| {
      assert calls[..i] == calls;
    } else {
      var n := |calls| - 1;
      assert calls[..n][..i] == calls[..i];
      ClosedIsFrozen(calls[..n], i, a);
      EndStays(Run(calls[..n]), calls[n].op, calls[n].now, a);
    }
  }

  /** END lies within the auction's time, and every bid within both. */
  lemma EndBounds(calls: seq<Call>, a: nat)
    requires Clocked(calls)
    requires a in Run(calls).auctions && Run(calls).auctions[a].end.Some?
    ensures var x := Run(calls).auctions[a];
            && x.start.Some?
            && x.end.value.elapsed <= x.start.value.timeactive
            && x.end.value.date == x.start.value.time + x.end.value.elapsed
            && forall v <- x.bids ::
                 x.bids[v].elapsed < x.start.value.timeactive && x.bids[v].elapsed <= x.end.value.elapsed
  {
    RunRefinesLedger(calls);
    var x, y := Run(calls).auctions[a], Replay(calls).lots[a - 1];
    assert SameLot(Run(calls).auctions[a - 1 + 1], y, Time(calls));
    BidFilesHold(y.bids);
    forall v | v in x.bids
      ensures x.bids[v].elapsed < x.start.value.timeactive && x.bids[v].elapsed <= x.end.value.elapsed
    {
      var i :| 0 <= i < |y.bids| && y.bids[i].value == v;
    }
  }

  // ----- Ids and indexes -----

  ghost predicate IsOpened(calls: seq<Call>, c: Call, a: nat) {
    c.op.Open? && a > 0 && Answer(calls, c) == Code(a)
  }

  /** The ids that a user's successful Opens returned. */
  ghost function OpenedBy(calls: seq<Call>, u: string): set<nat> {
    if calls == [] then {}
    else
      var n := |calls| - 1;
      var c := calls[n];
      OpenedBy(calls[..n], u) +
      if c.op.Open? && c.op.user == u && Answer(calls[..n], c).Code? && Answer(calls[..n], c).code > 0
      then {Answer(calls[..n], c).code} else {}
  }

  /** The auctions on which a user had a bid accepted. */
  ghost function BidOnBy(calls: seq<Call>, u: string): set<nat> {
    if calls == [] then {}
    else
      var n := |calls| - 1;
      var c := calls[n];
      BidOnBy(calls[..n], u) +
      if c.op.Bid? && c.op.user == u && Answer(calls[..n], c) == OK then {c.op.auction} else {}
  }

  ghost predicate HostsIn(l: Ledger, u: string, a: nat) { Known(l, a) && Hosts(u, l.lots[a - 1]) }

  ghost predicate BidsIn(l: Ledger, u: string, a: nat) { Known(l, a) && BidsOn(u, l.lots[a - 1]) }

  lemma ActOnHosts(l: Ledger, op: Op, now: nat, u: string, a: nat)
    ensures HostsIn(Act(l, op, now).0, u, a) <==>
            HostsIn(l, u, a) || (op.Open? && op.user == u && a > 0 && Act(l, op, now).1 == Code(a))
  {
  }

  lemma ActOnBidders(l: Ledger, op: Op, now: nat, u: string, a: nat)
    ensures BidsIn(Act(l, op, now).0, u, a) <==>
            BidsIn(l, u, a) || (op.Bid? && op.user == u && op.auction == a && Act(l, op, now).1 == OK)
  {
    if op.Bid? && op.auction == a && Act(l, op, now).1 == OK {
      var x, y := l.lots[a - 1], Act(l, op, now).0.lots[a - 1];
      var b := y.bids[|x.bids|];
      assert b in y.bids && forall e :: e in y.bids <==> e in x.bids || e == b;
    }
  }

  lemma {:induction false} IndexesAreTheLots(calls: seq<Call>, u: string, a: nat)
    requires Clocked(calls)
    ensures a in OpenedBy(calls, u) <==> HostsIn(Replay(calls), u, a)
    ensures a in BidOnBy(calls, u) <==> BidsIn(Replay(calls), u, a)
  {
    if calls != [] {
      var n := |calls| - 1;
      Earlier(calls);
      IndexesAreTheLots(calls[..n], u, a);
      ActOnHosts(Replay(calls[..n]), calls[n].op, calls[n].now, u, a);
      ActOnBidders(Replay(calls[..n]), calls[n].op, calls[n].now, u, a);
      assert calls[..n] + [calls[n]] == calls;
      AnswersAreTheLedgers(calls[..n], calls[n]);
    }
  }

  /** Some bid file of auction a is by u. */
  ghost predicate HasBidFile(f: Files, u: string, a: nat) {
    a in f.auctions && exists v <- f.auctions[a].bids :: f.auctions[a].bids[v].user == u
  }

  lemma BidFileIsIndexed(f: Files, l: Ledger, u: string, a: nat, now: nat)
    requires Matches(f, l, now) && HasBidFile(f, u, a)
    ensures Indexed(f.bidded, u, a)
  {
    var x := l.lots[a - 1];
    assert SameLot(f.auctions[a - 1 + 1], x, now);
    BidFilesHold(x.bids);
    var v :| v in f.auctions[a].bids && f.auctions[a].bids[v].user == u;
    var i :| 0 <= i < |x.bids| && x.bids[i].value == v;
    assert x.bids[i] in x.bids && BidsOn(u, x);
  }

  /**
   * The HOSTED and BIDDED directories and START agree with the answers given: HOSTED holds the ids
   * of the user's successful Opens, BIDDED those of its accepted bids, which are those with a bid file
   * of the user's.
   */
  lemma IndexesTellTheTruth(calls: seq<Call>, u: string)
    requires Clocked(calls) && u in Run(calls).accounts
    ensures var f := Run(calls);
            && u in f.hosted && f.hosted[u] == OpenedBy(calls, u)
            && u in f.bidded && f.bidded[u] == BidOnBy(calls, u)
            && (forall a <- f.hosted[u] :: a in f.auctions && (f.auctions[a].start.Some? ==> f.auctions[a].start.value.user == u))
            && (forall a <- f.bidded[u] :: HasBidFile(f, u, a))
            && (forall a :: HasBidFile(f, u, a) ==> a in f.bidded[u])
  {
    RunRefinesLedger(calls);
    var f, l := Run(calls), Replay(calls);
    forall a: nat
      ensures a in f.hosted[u] <==> a in OpenedBy(calls, u)
      ensures a in f.bidded[u] <==> a in BidOnBy(calls, u)
    {
      IndexesAreTheLots(calls, u, a);
      assert Indexed(f.hosted, u, a) <==> HostsIn(l, u, a);
      assert Indexed(f.bidded, u, a) <==> BidsIn(l, u, a);
    }
    forall a | a in f.hosted[u] ensures a in f.auctions && (f.auctions[a].start.Some? ==> f.auctions[a].start.value.user == u) {
      assert Indexed(f.hosted, u, a);
      assert SameLot(f.auctions[a - 1 + 1], l.lots[a - 1], Time(calls));
    }
    forall a: nat | HasBidFile(f, u, a) ensures a in f.bidded[u] {
      BidFileIsIndexed(f, l, u, a, Time(calls));
    }
    forall a | a in f.bidded[u] ensures HasBidFile(f, u, a) {
      assert Indexed(f.bidded, u, a);
      var x := l.lots[a - 1];
      assert SameLot(f.auctions[a - 1 + 1], x, Time(calls));
      BidFilesHold(x.bids);
      var b :| b in x.bids && b.user == u;
      var i :| 0 <= i < |x.bids| && x.bids[i] == b;
      assert f.auctions[a].bids[x.bids[i].value].user == u;
    }
  }

  function ListedIds(entries: seq<AuctionListing>): (r: seq<nat>)
    ensures |r| == |entries|
  {
    seq(|entries|, i requires 0 <= i < |entries| => entries[i].id)
  }

  /** MyAuctions and MyBids list exactly those ids, once each and in order, unless a START is unreadable. */
  lemma ListingsTellTheTruth(calls: seq<Call>, u: string, reached: set<nat>, now: nat)
    requires Clocked(calls) && u in Run(calls).accounts
    ensures var r := Answer(calls, Call(MyAuctions(u, reached), now));
            if forall a <- OpenedBy(calls, u) :: Visitable(Run(calls), a)
            then r.Listing? && ListedIds(r.entries) == Sorted(OpenedBy(calls, u))
            else r == Threw(AuctionNotFound)
    ensures var r := Answer(calls, Call(MyBids(u, reached), now));
            r.Listing? && ListedIds(r.entries) == Sorted(BidOnBy(calls, u))
  {
    var f := Run(calls);
    assert u in f.hosted && f.hosted[u] == OpenedBy(calls, u) && u in f.bidded && f.bidded[u] == BidOnBy(calls, u) by {
      IndexesTellTheTruth(calls, u);
    }
    assert forall a <- f.bidded[u] :: Visitable(f, a) by { BidsAreVisitable(calls, u); }
    MyListsAnswer(f, u, reached, now);
  }

  lemma MyListsAnswer(f: Files, u: string, reached: set<nat>, now: nat)
    requires u in f.hosted && u in f.bidded && forall a <- f.bidded[u] :: Visitable(f, a)
    ensures var r := Do(f, MyAuctions(u, reached), now).reply;
            if forall a <- f.hosted[u] :: Visitable(f, a) then r.Listing? && ListedIds(r.entries) == Sorted(f.hosted[u])
            else r == Threw(AuctionNotFound)
    ensures var r := Do(f, MyBids(u, reached), now).reply;
            r.Listing? && ListedIds(r.entries) == Sorted(f.bidded[u])
  {
    VisitAnswer(f, f.hosted[u], reached, now);
    VisitAnswer(f, f.bidded[u], reached, now);
  }

  lemma VisitAnswer(f: Files, ids: set<nat>, reached: set<nat>, now: nat)
    ensures var r := Visit(f, ids, reached, now, 0).reply;
            if forall a <- ids :: Visitable(f, a) then r.Listing? && ListedIds(r.entries) == Sorted(ids)
            else r == Threw(AuctionNotFound)
  {
    assert ListedIds(Entries(f, Sorted(ids), now)) == Sorted(ids);
  }

  /** An auction with a bid has a readable START. */
  lemma BidsAreVisitable(calls: seq<Call>, u: string)
    requires Clocked(calls) && u in Run(calls).bidded
    ensures forall a <- Run(calls).bidded[u] :: Visitable(Run(calls), a)
  {
    RunRefinesLedger(calls);
    var f, l := Run(calls), Replay(calls);
    forall a | a in f.bidded[u] ensures Visitable(f, a) {
      assert Indexed(f.bidded, u, a);
      assert SameLot(f.auctions[a - 1 + 1], l.lots[a - 1], Time(calls));
    }
  }

  predicate IsListing(op: Op) { op.MyAuctions? || op.MyBids? || op.List? }

  lemma EntryShowsTheEnd(f: Files, l: Ledger, a: nat, now: nat)
    requires Matches(f, l, now) && now < WORD && Visitable(f, a)
    ensures Known(l, a) && f.auctions[a].start.Some?
    ensures Active(f.auctions[a], now) <==> Ended(l.lots[a - 1].closed, f.auctions[a].start.value, now).None?
  {
    assert SameLot(f.auctions[a - 1 + 1], l.lots[a - 1], now);
    SettleSame(f.auctions[a], l.lots[a - 1], now);
    EndOfSound(l.lots[a - 1], now, now);
  }

  lemma EntriesVisitable(f: Files, op: Op, now: nat)
    requires IsListing(op) && Do(f, op, now).reply.Listing?
    ensures var entries := Do(f, op, now).reply.entries;
            forall i :: 0 <= i < |entries| ==> Visitable(f, entries[i].id) && entries[i] == Entry(f, entries[i].id, now)
  {
    var ids := if op.List? then f.auctions.Keys else if op.MyAuctions? then f.hosted[op.user] else f.bidded[op.user];
    assert forall i :: 0 <= i < |Sorted(ids)| ==> Sorted(ids)[i] in Sorted(ids);
  }

  /** Every entry of every listing is ACTIVE exactly when neither Close nor the deadline has come. */
  lemma ListingsShowTheEnd(calls: seq<Call>, c: Call, i: nat)
    requires Clocked(calls + [c]) && IsListing(c.op) && Answer(calls, c).Listing? && i < |Answer(calls, c).entries|
    ensures var e, f := Answer(calls, c).entries[i], Run(calls);
            && e.id in f.auctions && f.auctions[e.id].start.Some?
            && (e.active <==> Ended(ClosedAt(calls, e.id), f.auctions[e.id].start.value, c.now).None?)
  {
    var f, l := Run(calls), Replay(calls);
    var e := Answer(calls, c).entries[i];
    BeforeLast(calls, c);
    assert Matches(f, l, c.now) by {
      RunRefinesLedger(calls);
      TimePasses(f, l, Time(calls), c.now);
    }
    assert Visitable(f, e.id) && e == Entry(f, e.id, c.now) by { EntriesVisitable(f, c.op, c.now); }
    EntryShowsTheEnd(f, l, e.id, c.now);
    assert ClosedAt(calls, e.id) == ClosedIn(l, e.id) by { ClosedAtIsTheLots(calls, e.id); }
  }

  predicate NoOwnBid(x: Lot) { x.registered ==> !BidsOn(x.host, x) }

  ghost predicate NoOwnBids(l: Ledger) { forall i :: 0 <= i < |l.lots| ==> NoOwnBid(l.lots[i]) }

  lemma ActNoOwnBids(l: Ledger, op: Op, now: nat)
    requires NoOwnBids(l)
    ensures NoOwnBids(Act(l, op, now).0)
  {
    var l' := Act(l, op, now).0;
    forall i | 0 <= i < |l'.lots| ensures NoOwnBid(l'.lots[i]) {
      assert i < |l.lots| ==> NoOwnBid(l.lots[i]);
    }
  }

  lemma {:induction false} ReplayNoOwnBids(calls: seq<Call>)
    ensures NoOwnBids(Replay(calls))
  {
    if calls != [] {
      var n := |calls| - 1;
      ReplayNoOwnBids(calls[..n]);
      ActNoOwnBids(Replay(calls[..n]), calls[n].op, calls[n].now);
    }
  }

  /** Nobody bids on an auction of theirs. */
  lemma NoBidOnOwn(calls: seq<Call>, u: string)
    requires Clocked(calls)
    ensures OpenedBy(calls, u) !! BidOnBy(calls, u)
  {
    ReplayNoOwnBids(calls);
    forall a | a in OpenedBy(calls, u) ensures a !in BidOnBy(calls, u) {
      IndexesAreTheLots(calls, u, a);
    }
  }

  /** The auction directories are always 001 to some number below 1000. */
  lemma DirectoriesAreDense(calls: seq<Call>)
    requires Clocked(calls)
    ensures |Replay(calls).lots| <= 999 && Run(calls).auctions.Keys == FirstIds(|Replay(calls).lots|)
  {
    RunRefinesLedger(calls);
  }

  /** The Open that made the directory of auction a, whatever it answered. */
  ghost function MadeBy(calls: seq<Call>, a: nat): Option<Call> {
    if calls == [] then None
    else
      var n := |calls| - 1;
      if calls[n].op.Open? && a !in Run(calls[..n]).auctions && a in Run(calls).auctions then Some(calls[n])
      else MadeBy(calls[..n], a)
  }

  /** What it asked for. */
  ghost function OfferOf(calls: seq<Call>, a: nat): Option<Offer> {
    if MadeBy(calls, a).Some? && MadeBy(calls, a).value.op.Open? then Some(MadeBy(calls, a).value.op.offer) else None
  }

  /** The lot that an Open makes. */
  predicate LotOf(x: Lot, c: Call) {
    && c.op.Open?
    && x.host == c.op.user && x.since == c.now && x.offer == AsRead(c.op.offer)
    && (x.readable <==> StartAccepted(c.op.offer) && Readable(c.op.offer))
  }

  ghost predicate SameTerms(x: Lot, y: Lot) {
    x.host == y.host && x.since == y.since && x.offer == y.offer && x.readable == y.readable
  }

  lemma ActOnOffers(l: Ledger, c: Call, a: nat)
    requires Known(Act(l, c.op, c.now).0, a)
    ensures if Known(l, a) then SameTerms(Act(l, c.op, c.now).0.lots[a - 1], l.lots[a - 1])
            else LotOf(Act(l, c.op, c.now).0.lots[a - 1], c)
  {
  }

  lemma {:induction false} LotIsOffered(calls: seq<Call>, a: nat)
    requires Clocked(calls) && Known(Replay(calls), a)
    ensures MadeBy(calls, a).Some? && LotOf(Replay(calls).lots[a - 1], MadeBy(calls, a).value)
    ensures MadeBy(calls, a).value in calls
  {
    var n := |calls| - 1;
    var before := calls[..n];
    Earlier(calls);
    assert Run(calls).auctions.Keys == FirstIds(|Replay(calls).lots|) by { DirectoriesAreDense(calls); }
    assert Run(before).auctions.Keys == FirstIds(|Replay(before).lots|) by { DirectoriesAreDense(before); }
    ActOnOffers(Replay(before), calls[n], a);
    if Known(Replay(before), a) {
      LotIsOffered(before, a);
      assert forall c <- before :: c in calls;
    }
  }

  /**
   * A record shows the host, the time and the terms of the Open that made the auction, its name and
   * file name being the two words that they make together.
   */
  lemma RecordShowsTheStart(calls: seq<Call>, a: nat, now: nat)
    requires Clocked(calls + [Call(ShowRecord(a), now)])
    requires Answer(calls, Call(ShowRecord(a), now)).Record?
    ensures MadeBy(calls, a).Some? && MadeBy(calls, a).value in calls && MadeBy(calls, a).value.op.Open?
    ensures var s, c := Answer(calls, Call(ShowRecord(a), now)).record.start, MadeBy(calls, a).value;
            && s.user == c.op.user && s.time == c.now
            && s.startValue == c.op.offer.startValue && s.timeactive == c.op.offer.timeactive
            && Words(c.op.offer.name + " " + c.op.offer.fname) == [s.name, s.fname]
  {
    var c := Call(ShowRecord(a), now);
    BeforeLast(calls, c);
    assert Answer(calls, c) == ShowLot(Replay(calls), a, now) by { AnswersAreTheLedgers(calls, c); }
    LotIsOffered(calls, a);
  }

  /** Directories never vanish. */
  lemma DirectoriesStay(f: Files, op: Op, now: nat, a: nat)
    requires a in f.auctions
    ensures a in Do(f, op, now).files.auctions
  {
  }

  lemma {:induction false} IdsStayKnown(calls: seq<Call>, i: nat, a: nat)
    requires i <= |calls| && a in Run(calls[..i]).auctions
    ensures a in Run(calls).auctions
  {
    if i == |calls| {
      assert calls[..i] == calls;
    } else {
      var n := |calls| - 1;
      assert calls[..n][..i] == calls[..i];
      IdsStayKnown(calls[..n], i, a);
      DirectoriesStay(Run(calls[..n]), calls[n].op, calls[n].now, a);
    }
  }

  /** A later Open never returns the id of an earlier one. */
  lemma OpensAreDistinct(calls: seq<Call>, i: nat, j: nat, a: nat, b: nat)
    requires Clocked(calls) && i < j < |calls|
    requires IsOpened(calls[..i], calls[i], a) && IsOpened(calls[..j], calls[j], b)
    ensures a != b
  {
    assert calls[..i + 1][..i] == calls[..i];
    assert a in Run(calls[..i + 1]).auctions;
    assert calls[..j][..i + 1] == calls[..i + 1];
    IdsStayKnown(calls[..j], i + 1, a);
  }

  ghost predicate EveryStartReadable(f: Files) {
    forall a <- f.auctions :: f.auctions[a].start.Some?
  }

  /**
   * List answers exactly when every START reads back: one Open that fails after its mkdir (an
   * active time of 0 does it) leaves a directory that makes every later List throw.
   */
  lemma ListNeedsEveryStart(calls: seq<Call>, reached: set<nat>, now: nat)
    requires Clocked(calls + [Call(List(reached), now)])
    ensures Answer(calls, Call(List(reached), now)).Listing? <==>
            EveryStartReadable(Run(calls))
  {
    assert (calls + [Call(List(reached), now)])[..|calls|] == calls;
    Earlier(calls + [Call(List(reached), now)]);
    RunRefinesLedger(calls);
    var f, l := Run(calls), Replay(calls);
    forall a | a in f.auctions ensures Visitable(f, a) <==> f.auctions[a].start.Some? {
      assert SameLot(f.auctions[a - 1 + 1], l.lots[a - 1], Time(calls));
    }
    assert Answer(calls, Call(List(reached), now)) == Visit(f, f.auctions.Keys, reached, now, 1).reply;
    if !EveryStartReadable(f) {
      var a :| a in f.auctions && f.auctions[a].start.None?;
      assert a in f.auctions.Keys && !Visitable(f, a);
    }
  }

  /** The failing run: log in, open with terms that START refuses, such as an active time of 0, list. */
  lemma RefusedOpenBreaksList(u: string, p: string, d: Upload, reached: set<nat>, now: nat)
    requires ValidUser(u) && ValidPassword(p) && !StartAccepted(d)
    ensures var login, open := Call(Login(u, p), now), Call(Open(u, p, d), now);
            && Answer([login], open) == CREATE_FAIL
            && Answer([login, open], Call(List(reached), now)) == Threw(AuctionNotFound)
  {
    var login, open := Call(Login(u, p), now), Call(Open(u, p, d), now);
    FirstLogin(u, p, now);
    var f := Run([login]);
    FailedOpen(f, u, p, d, now);
    assert [login, open][..1] == [login];
    ListThrows(Do(f, open.op, now).files, reached, now);
  }

  lemma FirstLogin(u: string, p: string, now: nat)
    requires ValidUser(u) && ValidPassword(p)
    ensures var f := Run([Call(Login(u, p), now)]);
            f.accounts == map[u := Account(Some(p), true)] && f.auctions == map[]
  {
    var login := Call(Login(u, p), now);
    assert [login][..0] == [] && Run([]) == NO_FILES;
    assert Run([login]) == Do(NO_FILES, login.op, now).files;
  }

  lemma ListThrows(f: Files, reached: set<nat>, now: nat)
    requires exists a <- f.auctions.Keys :: !Visitable(f, a)
    ensures Do(f, List(reached), now).reply == Threw(AuctionNotFound)
  {
  }

  /** An Open that START refuses still leaves its directory behind, and nothing can list it. */
  lemma FailedOpen(f: Files, u: string, p: string, d: Upload, now: nat)
    requires LoggedIn(f.accounts, u) && CorrectPassword(f.accounts, u, p)
    requires NextId(f.auctions.Keys) <= 999 && !StartAccepted(d)
    ensures Do(f, Open(u, p, d), now).reply == CREATE_FAIL
    ensures var g := Do(f, Open(u, p, d), now).files; exists a <- g.auctions.Keys :: !Visitable(g, a)
  {
    var g := Do(f, Open(u, p, d), now).files;
    assert !Visitable(g, NextId(f.auctions.Keys));
  }

  // ----- Permits of a sequential run -----

  ghost function Permits(calls: seq<Call>): int {
    if calls == [] then 1
    else
      var n := |calls| - 1;
      Permits(calls[..n]) + Do(Run(calls[..n]), calls[n].op, calls[n].now).permits
  }

  /**
   * The exits that keep the permit: an authorised bid on another's auction that finds the deadline
   * passed and no END, an authorised Close of an own auction that has END, and a listing of a user
   * who has no directory.
   */
  ghost predicate KeepsPermit(f: Files, op: Op, now: nat) {
    match op
    case Bid(u, p, a, _) =>
      && LoggedIn(f.accounts, u) && CorrectPassword(f.accounts, u, p)
      && a in f.auctions && !Indexed(f.hosted, u, a)
      && f.auctions[a].end.None? && f.auctions[a].start.Some? && Expired(f.auctions[a].start.value, now)
    case Close(a, u, p) =>
      && LoggedIn(f.accounts, u) && CorrectPassword(f.accounts, u, p)
      && a in f.auctions && Indexed(f.hosted, u, a)
      && f.auctions[a].start.Some? && f.auctions[a].end.Some?
    case MyAuctions(u, _) => u !in f.accounts
    case MyBids(u, _) => u !in f.accounts
    case _ => false
  }

  ghost function ListCalls(calls: seq<Call>): nat {
    if calls == [] then 0
    else ListCalls(calls[..|calls| - 1]) + if calls[|calls| - 1].op.List? then 1 else 0
  }

  ghost function LeakCalls(calls: seq<Call>): nat {
    if calls == [] then 0
    else
      var n := |calls| - 1;
      LeakCalls(calls[..n]) + if KeepsPermit(Run(calls[..n]), calls[n].op, calls[n].now) then 1 else 0
  }

  lemma PermitChange(f: Files, l: Ledger, op: Op, before: nat, now: nat)
    requires Matches(f, l, before)
    ensures Do(f, op, now).permits == if op.List? then 1 else if KeepsPermit(f, op, now) then -1 else 0
  {
  }

  /** Every other exit, normal or by exception, gives back exactly the permit it took. */
  lemma {:induction false} PermitsAddUp(calls: seq<Call>)
    requires Clocked(calls)
    ensures Permits(calls) == 1 + ListCalls(calls) - LeakCalls(calls)
  {
    if calls != [] {
      var n := |calls| - 1;
      Earlier(calls);
      PermitsAddUp(calls[..n]);
      RunRefinesLedger(calls[..n]);
      PermitChange(Run(calls[..n]), Replay(calls[..n]), calls[n].op, Time(calls[..n]), calls[n].now);
    }
  }

  /**
   * Only the permits tell lazy closing: a bid that would find the deadline passed keeps the permit,
   * but not if somebody has looked at the auction just before, and its answer is the same.
   */
  lemma LookingSavesThePermit(calls: seq<Call>, u: string, p: string, a: nat, v: nat, now: nat)
    requires Clocked(calls + [Call(ShowRecord(a), now)]) && KeepsPermit(Run(calls), Bid(u, p, a, v), now)
    ensures var bid, look := Bid(u, p, a, v), Call(ShowRecord(a), now);
            && Do(Run(calls), bid, now).permits == -1
            && Do(Run(calls + [look]), bid, now).permits == 0
            && Do(Run(calls + [look]), bid, now).reply == Do(Run(calls), bid, now).reply
  {
    var look := Call(ShowRecord(a), now);
    BeforeLast(calls, look);
    assert (calls + [look])[..|calls|] == calls;
    RunRefinesLedger(calls);
    var f, g := Run(calls), Run(calls + [look]);
    assert g == Do(f, look.op, now).files;
    PermitChange(f, Replay(calls), Bid(u, p, a, v), Time(calls), now);
  }
}
