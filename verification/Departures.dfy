/**
 * Concrete runs on which the server does not do what its protocol promises, one for each condition
 * that the theorems of module Handlers or the type Store.Upload put on requests.
 */
module Departures {
  import opened Common
  import opened Text
  import opened Store
  import opened Ledger
  import opened Refinement
  import opened History
  import opened Wire
  import opened Messages
  import opened Handlers
  import Disk
  import Paths

  // ----- Two requests that the server accepts and no record can show -----

  const HOST := Call(LoginOp(123_456, "password"), 0)
  const BIDDER := Call(LoginOp(234_567, "password"), 0)

  function Opening(name: string, fname: string): Call
    requires Paths.Contained(fname)
  {
    Call(OpenOp(OpenMsg(123_456, "password", name, 1, 60, fname, "")), 0)
  }

  lemma Two()
    ensures Pad(123_456, 6) == Dec(123_456) && Pad(234_567, 6) == Dec(234_567)
    ensures ValidUser(Dec(123_456)) && ValidUser(Dec(234_567)) && Dec(123_456) != Dec(234_567)
    ensures ValidPassword("password")
  {
    UserText(123_456);
    UserText(234_567);
  }

  lemma ReplayOne(calls: seq<Call>, c: Call)
    ensures Replay(calls + [c]) == Act(Replay(calls), c.op, c.now).0
  {
    assert (calls + [c])[..|calls|] == calls;
  }

  /** The ledger after the host has logged in and opened. */
  lemma AfterOpening(name: string, fname: string)
    requires ValidName(name) && Readable(Offer(name, fname, 1, 60))
    requires Paths.Contained(fname) && Paths.AssetNameOk(fname)
    ensures Replay([HOST, Opening(name, fname)]) ==
            Ledger(map[Dec(123_456) := Account(Some("password"), true)],
                   [Lot(Dec(123_456), AsRead(Offer(name, fname, 1, 60)), 0, true, true, None, [])])
  {
    Two();
    assert [] + [HOST] == [HOST] && [HOST] + [Opening(name, fname)] == [HOST, Opening(name, fname)];
    ReplayOne([], HOST);
    ReplayOne([HOST], Opening(name, fname));
  }

  lemma TwoWords(v: string, c: char, w: string)
    requires IsToken(v) && IsToken(w) && IsSpace(c)
    ensures Words(v + ([c] + w)) == [v, w] == Words([' '] + (v + ([c] + w)))
  {
    var s := v + ([c] + w);
    WordsSplit(v, c, w);
    WordsOfToken(v);
    WordsOfToken(w);
    assert ([' '] + s)[1..] == s;
  }

  lemma ShiftedOffer(v: string, w: string, d: Offer)
    requires IsToken(v) && IsToken(w)
    requires d.name == "" && d.fname == v + (['\t'] + w)
    ensures Readable(d) && AsRead(d).name == v
  {
    TwoWords(v, '\t', w);
    assert d.name + " " + d.fname == [' '] + (v + (['\t'] + w));
  }

  lemma PlainOffer(d: Offer)
    requires IsToken(d.name) && IsToken(d.fname)
    ensures Readable(d) && AsRead(d) == d
  {
    TwoWords(d.name, ' ', d.fname);
    assert d.name + " " + d.fname == d.name + ([' '] + d.fname);
  }

  lemma AtOneTime(calls: seq<Call>, c: Call)
    requires c.now < WORD && forall i :: 0 <= i < |calls| ==> calls[i].now == c.now
    ensures Clocked(calls + [c])
  {
    var all := calls + [c];
    assert forall i :: 0 <= i < |all| ==> all[i].now == c.now;
  }

  /** What a record shows. */
  lemma ShownAt(calls: seq<Call>, a: nat, now: nat)
    requires Clocked(calls + [Call(ShowRecord(a), now)])
    ensures Answer(calls, Call(ShowRecord(a), now)) == ShowLot(Replay(calls), a, now)
  {
    AnswersAreTheLedgers(calls, Call(ShowRecord(a), now));
  }

  lemma FromTheHost(name: string, fname: string)
    requires Plain(name, 10) && Plain(fname, 24) && Paths.Contained(fname)
    ensures AllFromWire([HOST, Opening(name, fname)])
  {
    var n := 123_456;
    assert HOST.op.user == Dec(n);
  }

  lemma Joined(v: string, c: char, w: string)
    requires IsToken(v) && IsToken(w) && c == '\t'
    ensures Plain(v + ([c] + w), |v| + 1 + |w|)
    ensures Paths.IsName(v + ([c] + w))
  {
    var s := v + ([c] + w);
    assert s[|v|] == c;
  }

  /**
   * An empty name and a file name "v<tab>w" are accepted. With more than ten characters before the
   * tab, as in "elevenchars<tab>x", the record's name is too long for the client to read.
   */
  lemma ShiftedNameIsLost(v: string, w: string, fname: string)
    requires IsToken(v) && IsToken(w) && fname == v + (['\t'] + w) && 10 < |v| && |fname| <= 24
    requires '/' !in fname && '\0' !in fname
    ensures Paths.Contained(fname)
    ensures var calls := [HOST, Opening("", fname)];
            var reply := Answer(calls, Call(ShowRecord(1), 0));
            AllFromWire(calls) && Clocked(calls + [Call(ShowRecord(1), 0)]) && reply.Record? && !AnswerableIn(calls, 1)
  {
    Joined(v, '\t', w);
    Paths.FlatName(fname);
    FromTheHost("", fname);
    ShiftedOffer(v, w, Offer("", fname, 1, 60));
    AfterOpening("", fname);
    AtOneTime([HOST, Opening("", fname)], Call(ShowRecord(1), 0));
    ShownAt([HOST, Opening("", fname)], 1, 0);
    AnswerableByCalls([HOST, Opening("", fname)], 1, 0);
  }

  lemma AfterLogin(l: Ledger)
    requires Dec(234_567) !in l.accounts
    ensures Act(l, BIDDER.op, 0).0 == l.(accounts := l.accounts[Dec(234_567) := Account(Some("password"), true)])
  {
    Two();
  }

  lemma AfterBidding(l: Ledger, u: string, p: string, x: Lot, v: nat)
    requires LoggedIn(l.accounts, u) && CorrectPassword(l.accounts, u, p) && l.lots == [x]
    requires x.readable && x.host != u && x.since == 0 < x.offer.timeactive && x.closed.None? && x.bids == []
    requires v > x.offer.startValue
    ensures Act(l, Bid(u, p, 1, v), 0).0.lots == [x.(bids := [BidInfo(u, v, 0, 0)])]
  {
    var bids := [BidInfo(u, v, 0, 0)];
    assert x.bids + bids == bids;
    assert [x][0 := x.(bids := bids)] == [x.(bids := bids)];
  }

  function Wrapped(): Call { Call(BidOp(BidMsg(234_567, "password", 1, 4_294_967_291)), 0) }

  lemma AfterBoth(before: seq<Call>, l: Ledger, bid: Call, x: Lot, v: nat)
    requires Replay(before) == l && l.lots == [x] && Dec(234_567) !in l.accounts
    requires x.readable && x.host != Dec(234_567) && x.since == 0 < x.offer.timeactive && x.closed.None? && x.bids == []
    requires v > x.offer.startValue && bid == Call(Bid(Dec(234_567), "password", 1, v), 0)
    ensures Replay(before + [BIDDER] + [bid]).lots == [x.(bids := [BidInfo(Dec(234_567), v, 0, 0)])]
  {
    Two();
    ReplayOne(before, BIDDER);
    ReplayOne(before + [BIDDER], bid);
    AfterLogin(l);
    AfterBidding(Replay(before + [BIDDER]), Dec(234_567), "password", x, v);
  }

  lemma AfterWrapped()
    ensures Paths.Contained("f")
    ensures Replay([HOST, Opening("n", "f"), BIDDER, Wrapped()]).lots ==
            [Lot(Dec(123_456), Offer("n", "f", 1, 60), 0, true, true, None, [BidInfo(Dec(234_567), 4_294_967_291, 0, 0)])]
  {
    Paths.FlatName("f");
    var before, host := [HOST, Opening("n", "f")], Dec(123_456);
    var x := Lot(host, Offer("n", "f", 1, 60), 0, true, true, None, []);
    var l := Ledger(map[host := Account(Some("password"), true)], [x]);
    assert Replay(before) == l by {
      PlainOffer(Offer("n", "f", 1, 60));
      AfterOpening("n", "f");
    }
    Two();
    AfterBoth(before, l, Wrapped(), x, 4_294_967_291);
    assert before + [BIDDER] + [Wrapped()] == [HOST, Opening("n", "f"), BIDDER, Wrapped()];
  }

  lemma WrappedFromWire()
    ensures Paths.Contained("f")
    ensures AllFromWire([HOST, Opening("n", "f"), BIDDER, Wrapped()])
  {
    Paths.FlatName("f");
    FromTheHost("n", "f");
    var calls := [HOST, Opening("n", "f"), BIDDER, Wrapped()];
    assert FromWire(HOST.op) && FromWire(Opening("n", "f").op) by {
      assert [HOST, Opening("n", "f")][0] == HOST && [HOST, Opening("n", "f")][1] == Opening("n", "f");
    }
    var n := 234_567;
    assert BIDDER.op.user == Dec(n);
  }

  lemma WideBidIsLost(calls: seq<Call>, now: nat)
    requires Clocked(calls + [Call(ShowRecord(1), now)])
    requires var lots := Replay(calls).lots; |lots| == 1 && lots[0].readable && |lots[0].bids| == 1 && lots[0].bids[0].value > 999_999
    ensures Answer(calls, Call(ShowRecord(1), now)).Record? && !AnswerableIn(calls, 1)
  {
    assert Answer(calls, Call(ShowRecord(1), now)) == ShowLot(Replay(calls), 1, now) by { ShownAt(calls, 1, now); }
    var r := Answer(calls, Call(ShowRecord(1), now)).record;
    assert r.bids[0] in r.bids;
    AnswerableByCalls(calls, 1, now);
  }

  /** A bid of -5 is accepted as 4294967291, and the record gets no reply from then on. */
  lemma WrappedBidIsLost()
    ensures Paths.Contained("f")
    ensures var calls := [HOST, Opening("n", "f"), BIDDER, Wrapped()];
            var reply := Answer(calls, Call(ShowRecord(1), 0));
            AllFromWire(calls) && Clocked(calls + [Call(ShowRecord(1), 0)]) && reply.Record? && !AnswerableIn(calls, 1)
  {
    WrappedFromWire();
    AfterWrapped();
    AtOneTime([HOST, Opening("n", "f"), BIDDER, Wrapped()], Call(ShowRecord(1), 0));
    WideBidIsLost([HOST, Opening("n", "f"), BIDDER, Wrapped()], 0);
  }

  // ----- File names that Store.Upload excludes -----

  /** The run before: the host has opened auction 1 and closed it. */
  function Closing(): Call { Call(Close(1, Dec(123_456), "password"), 0) }

  lemma AfterClosing()
    ensures Paths.Contained("f")
    ensures var l := Replay([HOST, Opening("n", "f"), Closing()]);
            l.accounts == map[Dec(123_456) := Account(Some("password"), true)] && |l.lots| == 1 && l.lots[0].closed == Some(0)
  {
    Paths.FlatName("f");
    PlainOffer(Offer("n", "f", 1, 60));
    AfterOpening("n", "f");
    ReplayOne([HOST, Opening("n", "f")], Closing());
    Two();
    assert [HOST, Opening("n", "f")] + [Closing()] == [HOST, Opening("n", "f"), Closing()];
    CloseOnlyLot(Replay([HOST, Opening("n", "f")]), Dec(123_456), "password");
  }

  lemma CloseOnlyLot(l: Ledger, u: string, p: string)
    requires LoggedIn(l.accounts, u) && CorrectPassword(l.accounts, u, p) && |l.lots| == 1
    requires Hosts(u, l.lots[0]) && l.lots[0].readable && l.lots[0].closed.None? && Deadline(l.lots[0]) > 0
    ensures var m := Act(l, Close(1, u, p), 0).0;
            m.accounts == l.accounts && |m.lots| == 1 && m.lots[0].closed == Some(0)
  {
  }

  /**
   * A closed auction need not stay as it is. After this run auction 1 has END and the host may open
   * auction 2; if it names the asset of that "../../001/END_001.txt", which the reader of requests
   * lets through, the END of auction 1 becomes whatever the asset holds.
   */
  lemma EndMayBeOverwritten(t: Paths.Tree, home: Paths.Path, data: string)
    requires Paths.HasDirs(t, Paths.AssetDir(home, 2)) && Paths.IsDir(t, Paths.AuctionDir(home, 1))
    requires !Paths.IsDir(t, Paths.EndPath(home, 1))
    ensures Paths.Contained("f")
    ensures var f := Run([HOST, Opening("n", "f"), Closing()]);
            && LoggedIn(f.accounts, Dec(123_456)) && CorrectPassword(f.accounts, Dec(123_456), "password")
            && NextId(f.auctions.Keys) == 2
            && 1 in f.auctions && f.auctions[1].end.Some?
    ensures Plain(Paths.EndName(1), 24)
    ensures Paths.CreateAsset(t, home, 2, Paths.EndName(1), data) == Some(t[Paths.EndPath(home, 1) := Paths.File(data)])
  {
    AfterClosing();
    Two();
    var calls := [HOST, Opening("n", "f"), Closing()];
    assert Clocked(calls);
    RunRefinesLedger(calls);
    NextIdIs(1);
    assert SameLot(Run(calls).auctions[0 + 1], Replay(calls).lots[0], Time(calls));
    EndNameIsPlain();
    Paths.EndOverwritten(t, home, 2, 1, data);
  }

  lemma EndNameIsPlain()
    ensures Plain(Paths.EndName(1), 24)
  {
    Powers();
    PadValue(1, 3);
    SidewaysIsPlain(Pad(1, 3), Paths.EndFile(1));
  }

  lemma PlainJoins(v: string, w: string)
    requires Plain(v, |v|) && Plain(w, |w|)
    ensures Plain(v + (['/'] + w), |v| + 1 + |w|)
  {
  }

  lemma SidewaysIsPlain(id: string, file: string)
    requires Plain(id, 3) && Plain(file, 11)
    ensures Plain(Paths.Sideways(id, file), 24)
  {
    var tail := id + (['/'] + file);
    PlainJoins(id, file);
    PlainJoins("..", tail);
    PlainJoins("..", ".." + (['/'] + tail));
  }

  /**
   * A NUL in the file name: the asset is made under the name before the NUL, so the Open goes
   * through, but START is cut there too and cannot be read.
   */
  lemma NulLosesStart(d: Offer, u: string, v: string, w: string, date: Datetime, now: nat)
    requires ValidUser(u) && StartAccepted(d) && IsToken(d.name) && Disk.DigitDate(date) && now < WORD
    requires IsToken(v) && Paths.IsName(v) && '/' !in v && '\0' !in v && |v| <= 24 && '\n' !in d.name
    requires d.fname == v + (['\0'] + w)
    ensures Paths.Cut(d.fname) == v && Paths.AssetNameOk(v)
    ensures Disk.StartFromWords(Words(Disk.FGets(Disk.Printed(Disk.StartText(d, u, date, now)), 200))) == Disk.Malformed
  {
    Paths.FlatName(v);
    Paths.CutAt(v, w);
    Disk.CutStart(d, u, v, w, date, now);
  }
}
