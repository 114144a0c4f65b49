/**
 * From wire to database and back (src/server/handlers.cpp): which calls parsed requests become, and
 * exactly which answers of any run of such calls reach the client as the database gave them.
 */
module Handlers {
  import opened Common
  import opened Text
  import opened Store
  import opened Ledger
  import opened Refinement
  import opened History
  import opened Sessions
  import opened Promises
  import opened Wire
  import opened Messages
  import Disk
  import Paths

  // ----- Requests -----

  /** LoginRequest::handle prints the id with std::to_string. */
  function LoginOp(user: nat, password: string): Op { Login(Dec(user), password) }

  /** OpenAuctionRequest::handle prints it with six digits. */
  function OpenOp(m: OpenMsg): Op
    requires Paths.Contained(m.fname)
  {
    Open(Pad(m.user, 6), m.password, Offer(m.name, m.fname, m.startValue, m.timeactive))
  }

  function BidOp(m: BidMsg): Op { Bid(Pad(m.user, 6), m.password, m.auction, m.value) }

  /**
   * Opens, Closes and Bids act for the id as it was sent; logins for the same id only if it does
   * not start with a zero.
   */
  lemma IdsAsSent(uid: string)
    requires ValidUser(uid)
    ensures Pad(Value(uid), 6) == uid
    ensures Dec(Value(uid)) == uid <==> uid[0] != '0'
  {
    Disk.ReprintSame(uid);
    Powers();
    var n := Value(uid);
    DecWidth(n, 5);
    if uid[0] == '0' {
      assert Zeros(1) == "0" && uid == Zeros(1) + uid[1..] && AllDigits(uid[1..]);
      ValueOfZeros(1, uid[1..]);
      Disk.ValueWidth(uid[1..]);
    } else if |Dec(n)| < 6 {
      StartsWithZero(n, 6);
    }
  }

  lemma StartsWithZero(n: nat, w: nat)
    requires |Dec(n)| < w
    ensures Pad(n, w)[0] == '0'
  {
    var zeros := Zeros(w - |Dec(n)|);
    assert zeros[0] in zeros;
  }

  /** Six digits; or one of the great numbers that reading a minus sign and up to five digits makes. */
  predicate WireValue(v: nat) { v <= 999_999 || 0xFFFF_FFFF - 99_999 < v <= 0xFFFF_FFFF }

  /** What every parsed request satisfies. */
  ghost predicate FromWire(op: Op) {
    match op
    case Login(u, _) => exists n :: u == Dec(n)
    case Open(_, _, d) => Plain(d.name, 10) && Plain(d.fname, 24) && d.startValue >= 1
    case Bid(_, _, _, v) => WireValue(v)
    case _ => true
  }

  lemma {:induction false} StringIsPlain(s: string, max: nat)
    requires PString(s, max).Parsed?
    ensures Plain(PString(s, max).value, max)
    decreases max
  {
    if max > 0 && s != "" && !IsSeparator(s[0]) {
      StringIsPlain(s[1..], max - 1);
    }
  }

  lemma HeaderFromWire(s: string)
    requires POpenHeader(s).Parsed?
    ensures Plain(POpenHeader(s).value.name, 10) && POpenHeader(s).value.startValue >= 1
  {
    var s1 := PExpect(s, ' ').rest;
    var s2 := PExpect(PUserId(s1).rest, ' ').rest;
    var s3 := PExpect(PPassword(s2).rest, ' ').rest;
    StringIsPlain(s3, 10);
  }

  lemma AssetFromWire(s: string)
    requires PAsset(s).Parsed?
    ensures Plain(PAsset(s).value.0, 24)
  {
    StringIsPlain(PExpect(s, ' ').rest, 24);
  }

  /** Whatever an OPA message holds, if its file name stays in ASSET, the call it becomes is one from the wire. */
  lemma ParsedOpenIsFromWire(s: string)
    requires POpen(s).Parsed? && Paths.Contained(POpen(s).value.fname)
    ensures FromWire(OpenOp(POpen(s).value))
  {
    HeaderFromWire(s);
    AssetFromWire(POpenHeader(s).rest);
  }

  lemma {:induction false} DigitPrefixShort(s: string)
    ensures |DigitPrefix(s)| <= |s|
  {
    if s != "" && IsDigit(s[0]) { DigitPrefixShort(s[1..]); }
  }

  lemma {:induction false} ValueBound(s: string, k: nat)
    requires AllDigits(s) && |s| <= k
    ensures Value(s) < Pow10(k)
    decreases k
  {
    if s != "" {
      assert AllDigits(s[..|s| - 1]);
      ValueBound(s[..|s| - 1], k - 1);
    }
  }

  lemma StolRange(t: string)
    requires |t| <= 6 && Stol(t).Some?
    ensures -99_999 <= Stol(t).value <= 999_999
  {
    var u := SkipSpaces(t);
    var signed := u != "" && (u[0] == '-' || u[0] == '+');
    var d := DigitPrefix(if signed then u[1..] else u);
    DigitPrefixShort(if signed then u[1..] else u);
    Powers();
    ValueBound(d, if signed then 5 else 6);
  }

  /** A value read from the wire has at most six digits, or it was negative and wrapped around. */
  lemma ParsedValueRange(s: string)
    requires PAuctionValue(s).Parsed?
    ensures PAuctionValue(s).value >= 1 && WireValue(PAuctionValue(s).value)
  {
    StolRange(PString(s, 6).value);
  }

  lemma ParsedBidIsFromWire(s: string)
    requires PBidRequest(s).Parsed?
    ensures FromWire(BidOp(PBidRequest(s).value))
  {
    var s1 := PExpect(s, ' ').rest;
    var s2 := PExpect(PUserId(s1).rest, ' ').rest;
    var s3 := PExpect(PPassword(s2).rest, ' ').rest;
    ParsedValueRange(PExpect(PAuctionId(s3).rest, ' ').rest);
  }

  /** The sign the reader accepts, concretely: a bid of -5 is read as 4294967291. */
  lemma SignedBidWraps()
    ensures PAuctionValue("-5" + "\n") == Parsed(4_294_967_291, "\n")
  {
    StringComesBack("-5", 6, "\n");
    var d := "5";
    assert "-5"[1..] == d;
    assert DigitPrefix(d) == d by { DigitPrefixOfDigits(d); }
    assert d[..0] == "";
    assert Value(d) == 5;
  }

  // ----- What a run of wire calls keeps -----

  ghost predicate WireUser(u: string) { exists n :: WideUser(n) && u == Dec(n) }

  ghost predicate WireLot(x: Lot, accounts: Accounts) {
    && x.host in accounts
    && (x.readable ==> Plain(x.offer.name, 24) && Plain(x.offer.fname, 24) && x.offer.startValue >= 1)
    && forall i :: 0 <= i < |x.bids| ==> x.bids[i].user in accounts && WireValue(x.bids[i].value)
  }

  ghost predicate WireLedger(l: Ledger) {
    && (forall u <- l.accounts :: WireUser(u))
    && (forall i :: 0 <= i < |l.lots| ==> WireLot(l.lots[i], l.accounts))
  }

  /** A user directory made through LoginRequest has a six-digit id without leading zeros. */
  lemma DirectoryNames(n: nat)
    requires ValidUser(Dec(n))
    ensures WideUser(n)
  {
    Powers();
    DecWidth(n, 6);
    DecWidth(n, 5);
  }

  lemma ShiftedNames(d: Offer)
    requires d.name == "" && Plain(d.fname, 24) && Readable(d)
    ensures Plain(AsRead(d).name, 24) && Plain(AsRead(d).fname, 24)
  {
    assert ("" + " " + d.fname)[1..] == d.fname;
    assert Words(d.name + " " + d.fname) == Words(d.fname);
    WordsAreTokens(d.fname);
    var words := Words(d.fname);
    assert words[0] in words && words[1] in words;
  }

  lemma NamesKept(d: Offer)
    requires IsToken(d.name) && Plain(d.name, 10) && Plain(d.fname, 24) && Readable(d)
    ensures AsRead(d).name == d.name && Plain(AsRead(d).fname, 24)
  {
    assert d.name + " " + d.fname == d.name + ([' '] + d.fname);
    WordsSplit(d.name, ' ', d.fname);
    WordsOfToken(d.name);
    WordsAreTokens(d.fname);
    var words := Words(d.fname);
    assert words[0] in words;
  }

  /** Read back from START, the names are words of what was offered; a name that is not empty stays. */
  lemma NamesReadBack(d: Offer)
    requires Plain(d.name, 10) && Plain(d.fname, 24) && ValidName(d.name) && Readable(d)
    ensures Plain(AsRead(d).name, 24) && Plain(AsRead(d).fname, 24)
    ensures d.name != "" ==> AsRead(d).name == d.name
  {
    if d.name == "" {
      ShiftedNames(d);
    } else {
      assert IsToken(d.name) by { assert forall c <- d.name :: IsPrint(c) && !IsSeparator(c); }
      NamesKept(d);
    }
  }

  lemma WireOpen(l: Ledger, op: Op, now: nat)
    requires WireLedger(l) && op.Open? && FromWire(op)
    ensures WireLedger(Act(l, op, now).0)
  {
    var l' := Act(l, op, now).0;
    var d := op.offer;
    if StartAccepted(d) && Readable(d) { NamesReadBack(d); }
    forall i | 0 <= i < |l'.lots| ensures WireLot(l'.lots[i], l'.accounts) {
      assert i < |l.lots| ==> WireLot(l.lots[i], l.accounts);
    }
  }

  lemma WireAccounts(l: Ledger, op: Op, now: nat)
    requires WireLedger(l) && FromWire(op) && (op.Login? || op.Logout? || op.Unregister?)
    ensures WireLedger(Act(l, op, now).0)
  {
    var l' := Act(l, op, now).0;
    forall u | u in l'.accounts ensures WireUser(u) {
      if u !in l.accounts {
        var n :| u == Dec(n);
        DirectoryNames(n);
      }
    }
    forall i | 0 <= i < |l'.lots| ensures WireLot(l'.lots[i], l'.accounts) {
      assert WireLot(l.lots[i], l.accounts);
    }
  }

  lemma WireStep(l: Ledger, op: Op, now: nat)
    requires WireLedger(l) && FromWire(op)
    ensures WireLedger(Act(l, op, now).0)
  {
    if op.Open? {
      WireOpen(l, op, now);
    } else if op.Login? || op.Logout? || op.Unregister? {
      WireAccounts(l, op, now);
    } else {
      var l' := Act(l, op, now).0;
      forall i | 0 <= i < |l'.lots| ensures WireLot(l'.lots[i], l'.accounts) {
        assert WireLot(l.lots[i], l.accounts);
      }
    }
  }

  ghost predicate AllFromWire(calls: seq<Call>) {
    forall i :: 0 <= i < |calls| ==> FromWire(calls[i].op)
  }

  lemma {:induction false} WireRun(calls: seq<Call>)
    requires AllFromWire(calls)
    ensures WireLedger(Replay(calls))
  {
    if calls != [] {
      var n := |calls| - 1;
      WireRun(calls[..n]);
      WireStep(Replay(calls[..n]), calls[n].op, calls[n].now);
    }
  }

  // ----- The files behind a run -----

  predicate EndReadsBack(e: EndInfo, fmt: nat -> Datetime) {
    var date := fmt(e.date);
    Disk.EndFromWords(Words(Disk.FGets(Disk.EndFileText(date, e.elapsed), 200))) ==
    Disk.Read(Disk.EndFile(Day(date) + " " + Clock(date), e.elapsed))
  }

  predicate BidReadsBack(b: BidInfo, fmt: nat -> Datetime) {
    var date := fmt(b.date);
    Disk.BidFromWords(Words(Disk.FGets(Disk.BidFileText(b.user, b.value, date, b.elapsed), 100))) ==
    Disk.Read(Disk.BidFile(b.user, Dec(b.value), Day(date) + " " + Clock(date), b.elapsed))
  }

  /** In any run of parsed requests every END and every bid file holds a line that reads back as written. */
  lemma EveryFileReadsBack(calls: seq<Call>, a: nat, fmt: nat -> Datetime)
    requires AllFromWire(calls) && Clocked(calls) && a in Run(calls).auctions
    requires forall t: nat :: t < WORD ==> Disk.DigitDate(fmt(t))
    ensures var x := Run(calls).auctions[a];
            && (x.end.Some? ==> EndReadsBack(x.end.value, fmt))
            && forall v <- x.bids :: x.bids[v].value == v && BidReadsBack(x.bids[v], fmt)
  {
    RunRefinesLedger(calls);
    WireRun(calls);
    var x, y := Run(calls).auctions[a], Replay(calls).lots[a - 1];
    assert SameLot(Run(calls).auctions[a - 1 + 1], y, Time(calls));
    assert Time(calls) < WORD;
    if x.end.Some? {
      Disk.EndFileComesBack(fmt(x.end.value.date), x.end.value.elapsed);
    }
    BidFilesHold(y.bids);
    forall v | v in x.bids ensures x.bids[v].value == v && BidReadsBack(x.bids[v], fmt) {
      var i :| 0 <= i < |y.bids| && y.bids[i].value == v;
      LotBidReadsBack(y, i, Replay(calls).accounts, Time(calls), fmt);
    }
  }

  lemma LotBidReadsBack(y: Lot, i: nat, accounts: Accounts, now: nat, fmt: nat -> Datetime)
    requires Sound(y, now) && now < WORD && i < |y.bids|
    requires WireLot(y, accounts) && forall u <- accounts :: WireUser(u)
    requires forall t: nat :: t < WORD ==> Disk.DigitDate(fmt(t))
    ensures BidReadsBack(y.bids[i], fmt)
  {
    var b := y.bids[i];
    var n :| WideUser(n) && b.user == Dec(n);
    UserText(n);
    Disk.BidFileComesBack(b.user, b.value, fmt(b.date), b.elapsed);
  }

  // ----- ShowRecordRequest::handle -----

  /** std::stoi throws out_of_range from here on. */
  const INT_LIMIT := 0x8000_0000

  /** gmtime and sprintf as an unknown function from seconds to fields of fixed width. */
  ghost predicate DateFormat(fmt: nat -> Datetime) { forall t: nat :: t < WORD ==> WfDate(fmt(t)) }

  predicate UsersValid(r: AuctionRecord) {
    ValidUser(r.start.user) && forall b <- r.bids :: ValidUser(b.user)
  }

  function WireBidOf(b: BidInfo, fmt: nat -> Datetime): WireBid
    requires ValidUser(b.user)
  {
    WireBid(Value(b.user), b.value, fmt(b.date), b.elapsed)
  }

  function RecordOf(r: AuctionRecord, bids: seq<WireBid>, fmt: nat -> Datetime): RecordMsg
    requires UsersValid(r)
  {
    RecordOk(Value(r.start.user), r.start.name, r.start.fname, r.start.startValue, fmt(r.start.time), r.start.timeactive, bids,
             if r.end.Some? then fmt(r.end.value.date) else NO_DATE, if r.end.Some? then r.end.value.elapsed else 0)
  }

  predicate TooGreat(bids: seq<BidInfo>) { exists b <- bids :: b.value >= INT_LIMIT }

  function WireBids(bids: seq<BidInfo>, fmt: nat -> Datetime): (r: seq<WireBid>)
    requires forall b <- bids :: ValidUser(b.user)
    ensures |r| == |bids| && forall i :: 0 <= i < |r| ==> r[i] == WireBidOf(bids[i], fmt)
  {
    seq(|bids|, i requires 0 <= i < |bids| => WireBidOf(bids[i], fmt))
  }

  /** The reply to a RecordRequest, if the client gets one. */
  function ShowReply(reply: Reply, fmt: nat -> Datetime): Option<RecordMsg>
    requires reply.Record? ==> UsersValid(reply.record)
  {
    match reply
    case Record(r) => if TooGreat(r.bids) then None else Some(RecordOf(r, WireBids(r.bids, fmt), fmt))
    case Threw(AuctionNotFound) => Some(RecordNok)
    case _ => None
  }

  /** ShowRecordRequest::handle, from what the database returned or threw. */
  method HandleShowRecord(reply: Reply, fmt: nat -> Datetime) returns (out: Option<RecordMsg>)
    requires reply.Record? ==> UsersValid(reply.record)
    ensures out == ShowReply(reply, fmt)
  {
    if reply == Threw(AuctionNotFound) { return Some(RecordNok); }
    if !reply.Record? { return None; }
    var r := reply.record;
    var bids := [];
    for i := 0 to |r.bids|
      invariant |bids| == i
      invariant forall k :: 0 <= k < i ==> bids[k] == WireBidOf(r.bids[k], fmt) && r.bids[k].value < INT_LIMIT
    {
      if r.bids[i].value >= INT_LIMIT {
        assert r.bids[i] in r.bids;
        return None;
      }
      bids := bids + [WireBidOf(r.bids[i], fmt)];
    }
    assert bids == WireBids(r.bids, fmt);
    return Some(RecordOf(r, bids, fmt));
  }

  // ----- Every record of a run -----

  ghost predicate WireBidInfo(b: BidInfo) {
    WireUser(b.user) && WireValue(b.value) && b.date < WORD && b.elapsed <= 99_999
  }

  ghost predicate WireRecord(r: AuctionRecord) {
    && WireUser(r.start.user) && r.start.time < WORD
    && Plain(r.start.name, 24) && Plain(r.start.fname, 24)
    && 1 <= r.start.startValue <= 999_999 && r.start.timeactive <= 99_999
    && |r.bids| <= 50 && (forall i :: 0 <= i < |r.bids| ==> WireBidInfo(r.bids[i]))
    && (r.end.Some? ==> r.end.value.date < WORD && r.end.value.elapsed <= 99_999)
  }

  lemma UsersAreValid(r: AuctionRecord)
    requires WireRecord(r)
    ensures UsersValid(r)
  {
    forall u | WireUser(u) ensures ValidUser(u) {
      var n :| WideUser(n) && u == Dec(n);
      UserText(n);
    }
    forall b | b in r.bids ensures ValidUser(b.user) {
      var i :| 0 <= i < |r.bids| && r.bids[i] == b;
      assert WireBidInfo(r.bids[i]);
    }
  }

  lemma LotRecord(x: Lot, accounts: Accounts, before: nat, now: nat)
    requires Sound(x, before) && x.readable && before <= now < WORD
    requires WireLot(x, accounts) && forall u <- accounts :: WireUser(u)
    ensures WireRecord(AuctionRecord(StartOf(x.offer, x.host, x.since), LastFifty(x.bids), EndOf(x, now)))
  {
    var bids := LastFifty(x.bids);
    forall i | 0 <= i < |bids| ensures WireBidInfo(bids[i]) {
      var k := |x.bids| - |bids| + i;
      assert bids[i] == x.bids[k];
    }
  }

  lemma RecordsAreWire(calls: seq<Call>, a: nat, now: nat)
    requires AllFromWire(calls) && Clocked(calls + [Call(ShowRecord(a), now)])
    requires Answer(calls, Call(ShowRecord(a), now)).Record?
    ensures WireRecord(Answer(calls, Call(ShowRecord(a), now)).record)
    ensures UsersValid(Answer(calls, Call(ShowRecord(a), now)).record)
  {
    var c := Call(ShowRecord(a), now);
    var l := Replay(calls);
    BeforeLast(calls, c);
    assert Answer(calls, c) == ShowLot(l, a, now) by { AnswersAreTheLedgers(calls, c); }
    assert WireLedger(l) by { WireRun(calls); }
    assert Sound(l.lots[a - 1], Time(calls)) by { SoundLot(calls, a); }
    LotRecord(l.lots[a - 1], l.accounts, Time(calls), now);
    UsersAreValid(Answer(calls, c).record);
  }

  // ----- The client sees the database's record -----

  /** Field by field, what the client has read is the database's record, with the end as given. */
  ghost predicate Shows(m: RecordMsg, r: AuctionRecord, end: Option<EndInfo>, fmt: nat -> Datetime) {
    && m.RecordOk?
    && Dec(m.host) == r.start.user && m.name == r.start.name && m.fname == r.start.fname
    && m.startValue == r.start.startValue && m.start == fmt(r.start.time) && m.timeactive == r.start.timeactive
    && |m.bids| == |r.bids|
    && (forall i :: 0 <= i < |r.bids| ==> ShowsBid(m.bids[i], r.bids[i], fmt))
    && (m.endDate, m.endSec) == if end.Some? then (fmt(end.value.date), end.value.elapsed) else (NO_DATE, 0)
  }

  ghost predicate ShowsBid(m: WireBid, b: BidInfo, fmt: nat -> Datetime) {
    Dec(m.user) == b.user && m.value == b.value && m.date == fmt(b.date) && m.sec == b.elapsed
  }

  /** The record can be printed and read: no shifted long name, no wrapped bid. */
  predicate Answerable(r: AuctionRecord) {
    |r.start.name| <= 10 && forall b <- r.bids :: b.value <= 999_999
  }

  /**
   * The condition on the run: the name, as it reads back, of the Open that made the auction has at
   * most ten characters, and none of the last 50 bids accepted on it has more than six digits.
   */
  ghost predicate AnswerableIn(calls: seq<Call>, a: nat) {
    NameFits(calls, a) && LastWithin(Accepted(calls, a))
  }

  /** None of the last 50 has more than six digits. */
  predicate LastWithin(placed: seq<Placed>) {
    forall i :: 0 <= i < |placed| && |placed| - 50 <= i ==> placed[i].value <= 999_999
  }

  ghost predicate NameFits(calls: seq<Call>, a: nat) {
    OfferOf(calls, a).Some? && |AsRead(OfferOf(calls, a).value).name| <= 10
  }

  lemma BidsWithin(bids: seq<BidInfo>, placed: seq<Placed>, start: StartInfo)
    requires ShowsLast(bids, placed, start)
    ensures (forall b <- bids :: b.value <= 999_999) <==> LastWithin(placed)
  {
    var k := |placed| - |bids|;
    forall i | 0 <= i < |bids| ensures placed[k + i].value == bids[i].value {
    }
    forall i | k <= i < |placed| ensures placed[i].value == bids[i - k].value && bids[i - k] in bids {
      assert placed[k + (i - k)].value == bids[i - k].value;
    }
  }

  lemma NameByCalls(calls: seq<Call>, a: nat, now: nat)
    requires Clocked(calls + [Call(ShowRecord(a), now)])
    requires Answer(calls, Call(ShowRecord(a), now)).Record?
    ensures |Answer(calls, Call(ShowRecord(a), now)).record.start.name| <= 10 <==> NameFits(calls, a)
    ensures OfferOf(calls, a).Some? && StartAccepted(OfferOf(calls, a).value) && Readable(OfferOf(calls, a).value)
  {
    var c := Call(ShowRecord(a), now);
    BeforeLast(calls, c);
    assert Answer(calls, c) == ShowLot(Replay(calls), a, now) by { AnswersAreTheLedgers(calls, c); }
    LotIsOffered(calls, a);
  }

  lemma AnswerableByCalls(calls: seq<Call>, a: nat, now: nat)
    requires Clocked(calls + [Call(ShowRecord(a), now)])
    requires Answer(calls, Call(ShowRecord(a), now)).Record?
    ensures Answerable(Answer(calls, Call(ShowRecord(a), now)).record) <==> AnswerableIn(calls, a)
    ensures OfferOf(calls, a).Some? && StartAccepted(OfferOf(calls, a).value) && Readable(OfferOf(calls, a).value)
  {
    var r := Answer(calls, Call(ShowRecord(a), now)).record;
    NameByCalls(calls, a, now);
    var placed := Accepted(calls, a);
    assert ShowsLast(r.bids, placed, r.start) by { RecordShowsTheHistory(calls, a, now); }
    BidsWithin(r.bids, placed, r.start);
  }

  /** What a careful client asks for: a name, and bids without a sign. */
  predicate Careful(op: Op) {
    match op
    case Open(_, _, d) => d.name != ""
    case Bid(_, _, _, v) => v <= 999_999
    case _ => true
  }

  ghost predicate AllCareful(calls: seq<Call>) { forall i :: 0 <= i < |calls| ==> Careful(calls[i].op) }

  lemma {:induction false} CarefulBids(calls: seq<Call>, a: nat)
    requires AllCareful(calls)
    ensures forall b <- Accepted(calls, a) :: b.value <= 999_999
  {
    if calls != [] {
      CarefulBids(calls[..|calls| - 1], a);
      assert Careful(calls[|calls| - 1].op);
    }
  }

  /** Every record of a run of careful requests is answerable. */
  lemma CarefulIsAnswerable(calls: seq<Call>, a: nat, now: nat)
    requires AllFromWire(calls) && AllCareful(calls) && Clocked(calls + [Call(ShowRecord(a), now)])
    requires Answer(calls, Call(ShowRecord(a), now)).Record?
    ensures AnswerableIn(calls, a)
  {
    var c := Call(ShowRecord(a), now);
    AnswerableByCalls(calls, a, now);
    CarefulBids(calls, a);
    assert NameFits(calls, a) by {
      BeforeLast(calls, c);
      assert Answer(calls, c) == ShowLot(Replay(calls), a, now) by { AnswersAreTheLedgers(calls, c); }
      LotIsOffered(calls, a);
      var i :| 0 <= i < |calls| && calls[i] == MadeBy(calls, a).value;
      assert FromWire(calls[i].op) && Careful(calls[i].op);
      NamesReadBack(OfferOf(calls, a).value);
    }
  }

  lemma UserNumber(u: string)
    requires WireUser(u)
    ensures ValidUser(u) && WideUser(Value(u)) && Dec(Value(u)) == u
  {
    var n :| WideUser(n) && u == Dec(n);
    UserText(n);
  }

  lemma {:induction false} AllWfBids(bids: seq<WireBid>)
    requires forall i :: 0 <= i < |bids| ==> WfBid(bids[i])
    ensures WfBids(bids)
  {
    if bids != [] {
      AllWfBids(bids[1..]);
    }
  }

  lemma BidIsShown(b: BidInfo, fmt: nat -> Datetime)
    requires WireBidInfo(b) && DateFormat(fmt)
    ensures ValidUser(b.user)
    ensures ShowsBid(WireBidOf(b, fmt), b, fmt)
    ensures b.value <= 999_999 ==> WfBid(WireBidOf(b, fmt))
  {
    UserNumber(b.user);
  }

  lemma AnswerableIsSent(r: AuctionRecord, fmt: nat -> Datetime)
    requires WireRecord(r) && UsersValid(r) && Answerable(r) && DateFormat(fmt)
    ensures ShowReply(Record(r), fmt).Some?
    ensures var m := ShowReply(Record(r), fmt).value;
            && m.RecordOk? && WfRecord(m) && |m.bids| <= 50 && Shows(m, r, r.end, fmt)
  {
    UserNumber(r.start.user);
    var bids := WireBids(r.bids, fmt);
    forall i | 0 <= i < |bids| ensures ShowsBid(bids[i], r.bids[i], fmt) && WfBid(bids[i]) {
      BidIsShown(r.bids[i], fmt);
      assert r.bids[i] in r.bids;
    }
    AllWfBids(bids);
    assert Plain(r.start.name, 10);
  }

  lemma LongNameRead(name: string, rest: string)
    requires |name| > 10 && Plain(name, 24)
    ensures PString(name + rest, 10) == Parsed(name[..10], name[10..] + rest)
    ensures PExpect(name[10..] + rest, ' ').Failed?
  {
    var left := name[10..] + rest;
    assert name + rest == name[..10] + left;
    StringComesBack(name[..10], 10, left);
    assert left[0] == name[10] && name[10] in name;
  }

  lemma LongNameFails(m: RecordMsg, rest: string)
    requires m.RecordOk? && WideUser(m.host) && |m.name| > 10 && Plain(m.name, 24)
    ensures PRecord(RecordText(m, rest)).Failed?
  {
    var s3 := m.fname + Sp(Dec(m.startValue) + Sp(DateText(m.start, Sp(Dec(m.timeactive) +
                BidsText(m.bids, EndText(m.endDate, m.endSec, rest))))));
    var s2 := m.name + Sp(s3);
    var s1 := Dec(m.host) + Sp(s2);
    StatusComesBack("RRC", "OK", Sp(s1));
    NamesFail(m.host, m.name, s3);
  }

  lemma NamesFail(host: nat, name: string, rest: string)
    requires WideUser(host) && |name| > 10 && Plain(name, 24)
    ensures PNames(Sp(Dec(host) + Sp(name + Sp(rest)))).Failed?
  {
    var s2 := name + Sp(rest);
    ExpectIts(' ', Dec(host) + Sp(s2));
    UserComesBack(host, Sp(s2));
    ExpectIts(' ', s2);
    LongNameRead(name, Sp(rest));
  }

  /** The reply to the call is sent, fits the client's buffer, and shows it the database's record. */
  ghost predicate Reaches(reply: Reply, fmt: nat -> Datetime)
    requires reply.Record? && UsersValid(reply.record)
  {
    var sent := ShowReply(reply, fmt);
    && sent.Some?
    && |RecordText(sent.value, "")| < UDP_BUFFER
    && PRecord(RecordText(sent.value, "")).Parsed?
    && Shows(PRecord(RecordText(sent.value, "")).value, reply.record, EndSeen(reply.record.end), fmt)
  }

  /**
   * The join. In any run of parsed requests the reply to a record request is sent and can be read
   * exactly when the run makes the auction answerable; then it fits the client's buffer and shows
   * the database's own record, but for an end in the very second of the start, which is not shown.
   */
  lemma RecordsReachTheClient(calls: seq<Call>, a: nat, now: nat, fmt: nat -> Datetime)
    requires AllFromWire(calls) && Clocked(calls + [Call(ShowRecord(a), now)]) && DateFormat(fmt)
    requires Answer(calls, Call(ShowRecord(a), now)).Record?
    ensures UsersValid(Answer(calls, Call(ShowRecord(a), now)).record)
    ensures var reply := Answer(calls, Call(ShowRecord(a), now));
            var sent := ShowReply(reply, fmt);
            && (AnswerableIn(calls, a) <==> sent.Some? && PRecord(RecordText(sent.value, "")).Parsed?)
            && (AnswerableIn(calls, a) ==> Reaches(reply, fmt))
  {
    var reply := Answer(calls, Call(ShowRecord(a), now));
    RecordsAreWire(calls, a, now);
    AnswerableByCalls(calls, a, now);
    if Answerable(reply.record) {
      AnswerableReaches(reply.record, fmt);
    } else {
      UnanswerableIsLost(reply.record, fmt);
    }
  }

  lemma AnswerableReaches(r: AuctionRecord, fmt: nat -> Datetime)
    requires WireRecord(r) && UsersValid(r) && Answerable(r) && DateFormat(fmt)
    ensures Reaches(Record(r), fmt)
  {
    AnswerableIsSent(r, fmt);
    var m := ShowReply(Record(r), fmt).value;
    RecordFits(m);
    RecordComesBack(m, "");
  }

  /**
   * Every reachable record can be answered: in any run of parsed requests that give every auction a
   * name and bid without a sign, every record request reaches the client.
   */
  lemma CarefulRunsAreAnswered(calls: seq<Call>, a: nat, now: nat, fmt: nat -> Datetime)
    requires AllFromWire(calls) && AllCareful(calls) && Clocked(calls + [Call(ShowRecord(a), now)]) && DateFormat(fmt)
    requires Answer(calls, Call(ShowRecord(a), now)).Record?
    ensures UsersValid(Answer(calls, Call(ShowRecord(a), now)).record)
    ensures Reaches(Answer(calls, Call(ShowRecord(a), now)), fmt)
  {
    RecordsReachTheClient(calls, a, now, fmt);
    CarefulIsAnswerable(calls, a, now);
  }

  function EndSeen(end: Option<EndInfo>): Option<EndInfo> {
    if end.Some? && end.value.elapsed > 0 then end else None
  }

  lemma UnanswerableIsLost(r: AuctionRecord, fmt: nat -> Datetime)
    requires WireRecord(r) && UsersValid(r) && !Answerable(r)
    ensures var sent := ShowReply(Record(r), fmt); sent.Some? ==> PRecord(RecordText(sent.value, "")).Failed?
  {
    if !TooGreat(r.bids) {
      forall b | b in r.bids ensures b.value <= 999_999 {
        var i :| 0 <= i < |r.bids| && r.bids[i] == b;
        assert WireBidInfo(r.bids[i]);
      }
      UserNumber(r.start.user);
      LongNameFails(ShowReply(Record(r), fmt).value, "");
    }
  }

  // ----- The list handlers -----

  function ListEntries(entries: seq<AuctionListing>): (r: seq<ListEntry>)
    ensures |r| == |entries| && forall i :: 0 <= i < |r| ==> r[i] == ListEntry(entries[i].id, entries[i].active)
  {
    seq(|entries|, i requires 0 <= i < |entries| => ListEntry(entries[i].id, entries[i].active))
  }

  /** The reply to LMA, LMB (which ask whether the user is logged in only after listing) and LST. */
  function ListReply(reply: Reply, loggedIn: bool): Option<ListMsg> {
    match reply
    case Listing(entries) =>
      if !loggedIn then Some(ListStatus("NLG"))
      else if entries == [] then Some(ListStatus("NOK"))
      else Some(ListOk(ListEntries(entries)))
    case _ => None
  }

  method HandleList(reply: Reply, loggedIn: bool) returns (out: Option<ListMsg>)
    ensures out == ListReply(reply, loggedIn)
  {
    if !reply.Listing? { return None; }
    if !loggedIn { return Some(ListStatus("NLG")); }
    if reply.entries == [] { return Some(ListStatus("NOK")); }
    var auctions := [];
    for i := 0 to |reply.entries|
      invariant |auctions| == i
      invariant forall k :: 0 <= k < i ==> auctions[k] == ListEntry(reply.entries[k].id, reply.entries[k].active)
    {
      auctions := auctions + [ListEntry(reply.entries[i].id, reply.entries[i].active)];
    }
    assert auctions == ListEntries(reply.entries);
    return Some(ListOk(auctions));
  }

  lemma {:induction false} IdsCount(lots: seq<Lot>, keep: Lot -> bool)
    ensures |Ids(lots, keep)| <= |lots|
  {
    if lots != [] { IdsCount(lots[..|lots| - 1], keep); }
  }

  lemma {:induction false} AllIds(lots: seq<Lot>, keep: Lot -> bool)
    requires forall x :: keep(x)
    ensures |Ids(lots, keep)| == |lots| && forall i :: 0 <= i < |lots| ==> Ids(lots, keep)[i] == i + 1
  {
    if lots != [] { AllIds(lots[..|lots| - 1], keep); }
  }

  lemma LotsBound(lots: seq<Lot>, keep: Lot -> bool, now: nat)
    requires |lots| <= 999 && ListLots(lots, keep, now).Listing?
    ensures var entries := ListLots(lots, keep, now).entries;
            |entries| <= 999 && forall i :: 0 <= i < |entries| ==> entries[i].id <= 999
  {
    IdsCount(lots, keep);
    IdsAre(lots, keep);
    var ids := Ids(lots, keep);
    assert forall i :: 0 <= i < |ids| ==> ids[i] in ids;
  }

  lemma EntriesBound(calls: seq<Call>, c: Call)
    requires Clocked(calls + [c]) && IsListing(c.op) && Answer(calls, c).Listing?
    ensures var entries := Answer(calls, c).entries;
            |entries| <= 999 && forall i :: 0 <= i < |entries| ==> entries[i].id <= 999
  {
    var lots := Replay(calls).lots;
    assert |lots| <= 999 by {
      BeforeLast(calls, c);
      DirectoriesAreDense(calls);
    }
    assert Answer(calls, c) == Act(Replay(calls), c.op, c.now).1 by { AnswersAreTheLedgers(calls, c); }
    match c.op
    case MyAuctions(u, _) => LotsBound(lots, KeepHost(u), c.now);
    case MyBids(u, _) => LotsBound(lots, KeepBidder(u), c.now);
    case List(_) => LotsBound(lots, KeepAll(), c.now);
  }

  /** What the client shows for a listing. */
  function ListSeen(entries: seq<AuctionListing>, loggedIn: bool): ListRead {
    if !loggedIn then ReadStatus("NLG")
    else if entries == [] then ReadStatus("NOK")
    else Shown(Lines(ListEntries(entries)))
  }

  /** Every listing a run can give is sent, fits the client's buffer and reads back line by line. */
  lemma ListsReachTheClient(calls: seq<Call>, c: Call, loggedIn: bool, code: string)
    requires Clocked(calls + [c]) && IsListing(c.op) && Answer(calls, c).Listing?
    requires |code| == 3 && (c.op.List? ==> loggedIn)
    ensures ListReply(Answer(calls, c), loggedIn).Some?
    ensures var text := ListText(code, ListReply(Answer(calls, c), loggedIn).value, "");
            && |text| < UDP_BUFFER
            && PList(text, code, !c.op.List?) == Parsed(ListSeen(Answer(calls, c).entries, loggedIn), "")
    ensures var entries := Answer(calls, c).entries;
            loggedIn && entries != [] ==>
              && |ListSeen(entries, loggedIn).lines| == |entries|
              && forall i :: 0 <= i < |entries| ==>
                   ListSeen(entries, loggedIn).lines[i] ==
                   "AID: " + Pad(entries[i].id, 3) + " --- STATUS: " + (if entries[i].active then "ACTIVE" else "OVER")
  {
    var entries := Answer(calls, c).entries;
    if !loggedIn {
      StatusReads(code, "NLG", true);
    } else if entries == [] {
      StatusReads(code, "NOK", !c.op.List?);
    } else {
      EntriesBound(calls, c);
      ListFits(code, ListEntries(entries));
      ListComesBack(code, ListEntries(entries), "", !c.op.List?);
    }
  }

  lemma StatusReads(code: string, status: string, nlg: bool)
    requires status == "NOK" || (nlg && status == "NLG")
    ensures PList(ListText(code, ListStatus(status), ""), code, nlg) == Parsed(ReadStatus(status), "")
  {
    StatusComesBack(code, status, ['\n'] + "");
    ExpectIts('\n', "");
  }

  /** One line an auction, in id order, ACTIVE just when it is not over. */
  function LotLines(lots: seq<Lot>, now: nat): (r: seq<string>)
    ensures |r| == |lots|
  {
    seq(|lots|, i requires 0 <= i < |lots| => Line(Pad(i + 1, 3), if Over(lots[i], now) then "0" else "1"))
  }

  lemma AllLotsListed(lots: seq<Lot>, now: nat)
    requires ListLots(lots, KeepAll(), now).Listing?
    ensures Lines(ListEntries(ListLots(lots, KeepAll(), now).entries)) == LotLines(lots, now)
  {
    AllIds(lots, KeepAll());
    var entries := ListLots(lots, KeepAll(), now).entries;
    assert |entries| == |lots|;
    forall i | 0 <= i < |lots| ensures Lines(ListEntries(entries))[i] == LotLines(lots, now)[i] {
      assert entries[i] == Listed(lots, i + 1, now);
    }
  }

  lemma LotLinesRead(lots: seq<Lot>, now: nat)
    ensures forall i :: 0 <= i < |lots| ==>
              LotLines(lots, now)[i] ==
              "AID: " + Pad(i + 1, 3) + " --- STATUS: " + (if Over(lots[i], now) then "OVER" else "ACTIVE")
  {
  }

  /** List shows the client every auction of the ledger. */
  lemma ListShowsEveryAuction(calls: seq<Call>, reached: set<nat>, now: nat)
    requires Clocked(calls + [Call(List(reached), now)]) && Answer(calls, Call(List(reached), now)).Listing?
    ensures var lots := Replay(calls).lots;
            ListSeen(Answer(calls, Call(List(reached), now)).entries, true) ==
            if lots == [] then ReadStatus("NOK") else Shown(LotLines(lots, now))
    ensures var lots := Replay(calls).lots;
            forall i :: 0 <= i < |lots| ==>
              LotLines(lots, now)[i] ==
              "AID: " + Pad(i + 1, 3) + " --- STATUS: " + (if Over(lots[i], now) then "OVER" else "ACTIVE")
  {
    var lots := Replay(calls).lots;
    assert Answer(calls, Call(List(reached), now)) == ListLots(lots, KeepAll(), now) by {
      AnswersAreTheLedgers(calls, Call(List(reached), now));
    }
    assert lots == [] <==> ListLots(lots, KeepAll(), now) == Listing([]) by { AllIds(lots, KeepAll()); }
    AllLotsListed(lots, now);
    LotLinesRead(lots, now);
  }

  // ----- Which status stands for which outcome -----

  datatype Status =
    | StatusOK | StatusNOK | StatusERR | REG | UNR | NLG | ACC | REF | ILG | EAU | EOW | END | Opened(id: int)

  /** LoginRequest::handle; an exception from the database leaves the client without a reply. */
  function LoginStatus(reply: Reply): Option<Status> {
    match reply
    case Code(c) => Some(if c == -1 then StatusNOK else if c == 0 then StatusOK else if c == 2 then REG else StatusERR)
    case _ => None
  }

  /** LogoutRequest::handle and UnregisterRequest::handle */
  function LogoutStatus(reply: Reply): Option<Status> {
    match reply
    case Code(c) => Some(if c == -1 then StatusNOK else if c == 0 then StatusOK else if c == 2 then UNR else StatusERR)
    case _ => None
  }

  /** BidRequest::handle sends ACC for every code but DB_BID_NOK, DB_BID_REFUSE among them. */
  function BidStatus(reply: Reply): Option<Status> {
    match reply
    case Code(c) => if c == -2 then Some(StatusNOK) else Some(ACC)
    case Threw(AuctionAlreadyClosed) => Some(StatusNOK)
    case Threw(UserNotLoggedIn) => Some(NLG)
    case Threw(AuctionNotFound) => Some(StatusNOK)
    case Threw(LargerBidAlreadyExists) => Some(REF)
    case Threw(BidOnSelf) => Some(ILG)
    case _ => None
  }

  function CloseStatus(reply: Reply): Option<Status> {
    match reply
    case Code(c) => Some(StatusOK)
    case Threw(UserDoesNotExist) => Some(StatusNOK)
    case Threw(IncorrectPassword) => Some(StatusNOK)
    case Threw(UserNotLoggedIn) => Some(NLG)
    case Threw(AuctionNotFound) => Some(EAU)
    case Threw(AuctionNotOwnedByUser) => Some(EOW)
    case Threw(AuctionAlreadyClosed) => Some(END)
    case _ => None
  }

  /** OpenAuctionRequest::handle expects -1 for a user who is not logged in; Open throws instead. */
  function OpenStatus(reply: Reply): Option<Status> {
    match reply
    case Code(c) => if c > 0 then Some(Opened(c)) else if c == -1 then Some(NLG) else Some(StatusNOK)
    case _ => None
  }

  /** A login is answered unless the user is in session and gives another password. */
  lemma LoginIsAnswered(calls: seq<Call>, u: string, p: string, now: nat)
    ensures LoginStatus(Answer(calls, Call(Login(u, p), now))) ==
            match Registered(calls, u)
            case Some(q) =>
              if p == q then Some(StatusOK) else if HasSession(calls, u) then None else Some(StatusNOK)
            case None =>
              if && |u| == 6 && u != "000000" && (forall c <- u :: '0' <= c <= '9')
                 && |p| == 8 && (forall c <- p :: '0' <= c <= '9' || 'a' <= c <= 'z' || 'A' <= c <= 'Z')
              then Some(REG) else Some(StatusNOK)
  {
    LoginAnswers(calls, u, p, now);
  }

  /** A logout or unregistration with the right password outside a session gets no reply, and UNR is never sent. */
  lemma LogoutIsAnswered(calls: seq<Call>, op: Op, now: nat)
    requires op.Logout? || op.Unregister?
    ensures LogoutStatus(Answer(calls, Call(op, now))) ==
            if Registered(calls, op.user) != Some(op.password) then Some(StatusNOK)
            else if InSession(calls, op.user, op.password) then Some(StatusOK)
            else None
  {
    if op.Logout? { LogoutAnswers(calls, op.user, op.password, now); }
    else { UnregisterAnswers(calls, op.user, op.password, now); }
  }

  /** In a run every bid is answered, and ACC is sent exactly when the bid stands. */
  lemma AcceptedMeansPlaced(calls: seq<Call>, c: Call)
    requires Clocked(calls + [c]) && c.op.Bid?
    ensures BidStatus(Answer(calls, c)).Some?
    ensures BidStatus(Answer(calls, c)) == Some(ACC) <==> IsAcceptedBid(calls, c, c.op.auction)
  {
    assert Answer(calls, c) == Act(Replay(calls), c.op, c.now).1 by { AnswersAreTheLedgers(calls, c); }
  }

  /** The status due to a bid. */
  function BidStatusDue(t: Told, v: nat, now: nat): Status {
    if !t.session then NLG
    else if !t.authorised || !t.known then StatusNOK
    else if t.own then ILG
    else if t.start.None? || IsOver(t, now) then StatusNOK
    else if v <= Standing(t.placed, t.start.value.startValue) then REF
    else ACC
  }

  /** The status due to a Close. */
  function CloseStatusDue(t: Told, now: nat): Status {
    if !t.directory then StatusNOK
    else if !t.session then NLG
    else if !t.authorised then StatusNOK
    else if !t.known then EAU
    else if !t.own then EOW
    else if t.start.None? then EAU
    else if IsOver(t, now) then END
    else StatusOK
  }

  lemma StatusesDue(t: Told, v: nat, now: nat)
    ensures BidStatus(BidDue(t, v, now)) == Some(BidStatusDue(t, v, now))
    ensures CloseStatus(CloseDue(t, now)) == Some(CloseStatusDue(t, now))
  {
  }

  /** In a run every bid is answered: NLG without a session, ILG on an own auction, REF when too low, ACC when it stands. */
  lemma BidIsAnswered(calls: seq<Call>, u: string, p: string, a: nat, v: nat, now: nat)
    requires Clocked(calls + [Call(Bid(u, p, a, v), now)])
    ensures BidStatus(Answer(calls, Call(Bid(u, p, a, v), now))) == Some(BidStatusDue(ToldOf(calls, u, p, a), v, now))
  {
    BidAnswers(calls, u, p, a, v, now);
    StatusesDue(ToldOf(calls, u, p, a), v, now);
  }

  /** In a run every Close is answered; EAU, EOW and END say that the auction is unknown, another's, or over. */
  lemma CloseIsAnswered(calls: seq<Call>, a: nat, u: string, p: string, now: nat)
    requires Clocked(calls + [Call(Close(a, u, p), now)])
    ensures CloseStatus(Answer(calls, Call(Close(a, u, p), now))) == Some(CloseStatusDue(ToldOf(calls, u, p, a), now))
  {
    CloseAnswers(calls, a, u, p, now);
    StatusesDue(ToldOf(calls, u, p, a), 0, now);
  }

  /** An Open is answered exactly in a session, with the id it made or NOK: NLG is never sent. */
  lemma OpenIsAnswered(calls: seq<Call>, u: string, p: string, d: Upload, now: nat)
    requires Clocked(calls + [Call(Open(u, p, d), now)])
    ensures OpenStatus(Answer(calls, Call(Open(u, p, d), now))) ==
            if !HasSession(calls, u) then None
            else if && InSession(calls, u, p) && Count(calls) < 999
                    && 1 <= d.timeactive <= 99_999 && d.startValue <= 999_999
                    && |d.name| <= 24 && (forall c <- d.name :: ' ' <= c <= '~')
                    && Paths.AssetNameOk(d.fname)
            then Some(Opened(Count(calls) + 1))
            else Some(StatusNOK)
  {
    OpenAnswers(calls, u, p, d, now);
  }

  /** A record request for an auction that is unknown, or has no readable START, is answered NOK. */
  lemma UnknownRecordIsNok(calls: seq<Call>, a: nat, now: nat, fmt: nat -> Datetime)
    requires Clocked(calls + [Call(ShowRecord(a), now)])
    requires !(1 <= a <= Count(calls)) || a !in Run(calls).auctions || Run(calls).auctions[a].start.None?
    ensures !Answer(calls, Call(ShowRecord(a), now)).Record?
    ensures ShowReply(Answer(calls, Call(ShowRecord(a), now)), fmt) == Some(RecordNok)
  {
    ShowAnswers(calls, a, now);
  }
}
