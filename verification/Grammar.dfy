/**
 * The protocol's messages as text: how each is laid out, and exactly which strings the readers of
 * requests accept, signs and leading zeros included.
 */
module Grammar {
  import opened Common
  import opened Text
  import opened Wire
  import opened Messages

  // ----- Layout: fields with one space between them -----

  lemma DateLayout(d: Datetime, rest: string)
    ensures DateText(d, rest) == Day(d) + Sp(Clock(d) + rest)
  {
    assert Day(d) + Sp(Clock(d) + rest) ==
      d.year + (['-'] + (d.month + (['-'] + (d.day + ([' '] + (d.hours + ([':'] + (d.minutes + ([':'] + (d.seconds + rest))))))))));
  }

  function BidFields(b: WireBid): seq<string> { ["B", Dec(b.user), Dec(b.value), Day(b.date), Clock(b.date), Dec(b.sec)] }

  function AllBidFields(bids: seq<WireBid>): seq<string> {
    if bids == [] then [] else BidFields(bids[0]) + AllBidFields(bids[1..])
  }

  function EndFields(date: Datetime, sec: nat): seq<string> {
    if sec > 0 then ["E", Day(date), Clock(date), Dec(sec)] else []
  }

  function RecordFields(m: RecordMsg): seq<string> {
    match m
    case RecordNok => ["RRC", "NOK"]
    case RecordErr => ["RRC", "ERR"]
    case RecordOk(host, name, fname, value, start, timeactive, bids, endDate, endSec) =>
      ["RRC", "OK", Dec(host), name, fname, Dec(value), Day(start), Clock(start), Dec(timeactive)]
      + AllBidFields(bids) + EndFields(endDate, endSec)
  }

  /** Fields in front of a text: each with a space before it. */
  function Spaced(fields: seq<string>, rest: string): string {
    if fields == [] then rest else Sp(fields[0] + Spaced(fields[1..], rest))
  }

  lemma {:induction false} SpacedAppend(a: seq<string>, b: seq<string>, rest: string)
    ensures Spaced(a + b, rest) == Spaced(a, Spaced(b, rest))
  {
    if a == [] {
      assert a + b == b;
    } else {
      assert (a + b)[1..] == a[1..] + b;
      SpacedAppend(a[1..], b, rest);
    }
  }

  lemma {:induction false} JoinedIsSpaced(fields: seq<string>, rest: string)
    requires fields != []
    ensures Joined(fields) + rest == fields[0] + Spaced(fields[1..], rest)
  {
    if |fields| > 1 {
      JoinedIsSpaced(fields[1..], rest);
      assert Joined(fields) + rest == fields[0] + Sp(Joined(fields[1..]) + rest);
    }
  }

  lemma Spaced2(u: string, v: string, rest: string)
    ensures Spaced([u, v], rest) == Sp(u + Sp(v + rest))
  {
    assert [u, v][1..] == [v];
    assert Spaced([v], rest) == Sp(v + rest);
  }

  lemma Spaced3(u: string, v: string, w: string, rest: string)
    ensures Spaced([u, v, w], rest) == Sp(u + Sp(v + Sp(w + rest)))
  {
    assert [u, v, w][1..] == [v, w];
    Spaced2(v, w, rest);
  }

  lemma BidLayout(b: WireBid, rest: string)
    ensures BidText(b, rest) == Spaced(BidFields(b), rest)
  {
    var head, tail := ["B", Dec(b.user), Dec(b.value)], [Day(b.date), Clock(b.date), Dec(b.sec)];
    assert BidFields(b) == head + tail;
    SpacedAppend(head, tail, rest);
    Spaced3("B", Dec(b.user), Dec(b.value), Spaced(tail, rest));
    Spaced3(Day(b.date), Clock(b.date), Dec(b.sec), rest);
    DateLayout(b.date, Sp(Dec(b.sec) + rest));
  }

  lemma {:induction false} BidsLayout(bids: seq<WireBid>, rest: string)
    ensures BidsText(bids, rest) == Spaced(AllBidFields(bids), rest)
    decreases |bids|
  {
    if bids != [] {
      BidsLayout(bids[1..], rest);
      BidLayout(bids[0], BidsText(bids[1..], rest));
      SpacedAppend(BidFields(bids[0]), AllBidFields(bids[1..]), rest);
    }
  }

  lemma EndLayout(date: Datetime, sec: nat, rest: string)
    ensures EndText(date, sec, rest) == Spaced(EndFields(date, sec), ['\n'] + rest)
  {
    if sec > 0 {
      var end := ['\n'] + rest;
      assert EndFields(date, sec) == ["E", Day(date)] + [Clock(date), Dec(sec)];
      SpacedAppend(["E", Day(date)], [Clock(date), Dec(sec)], end);
      Spaced2("E", Day(date), Spaced([Clock(date), Dec(sec)], end));
      Spaced2(Clock(date), Dec(sec), end);
      DateLayout(date, Sp(Dec(sec) + end));
    }
  }

  lemma HeaderLayout(host: string, name: string, fname: string, value: string, start: Datetime, time: string, rest: string)
    ensures Spaced(["OK", host, name, fname, value, Day(start), Clock(start), time], rest) ==
            Sp("OK" + Sp(host + Sp(name + Sp(fname + Sp(value + Sp(DateText(start, Sp(time + rest))))))))
  {
    var one, two, three := ["OK", host, name], [fname, value], [Day(start), Clock(start), time];
    assert ["OK", host, name, fname, value, Day(start), Clock(start), time] == one + (two + three);
    SpacedAppend(one, two + three, rest);
    SpacedAppend(two, three, rest);
    Spaced3("OK", host, name, Spaced(two, Spaced(three, rest)));
    Spaced2(fname, value, Spaced(three, rest));
    Spaced3(Day(start), Clock(start), time, rest);
    DateLayout(start, Sp(time + rest));
  }

  /** The record message is its fields, in this order, with one space between them, and a newline. */
  lemma RecordLayout(m: RecordMsg)
    ensures RecordText(m, "") == Joined(RecordFields(m)) + "\n"
  {
    var fields, end := RecordFields(m), ['\n'] + "";
    JoinedIsSpaced(fields, end);
    if m.RecordOk? {
      OkLayout(m);
    } else {
      assert fields[1..] == [fields[1]];
      assert Spaced([fields[1]], end) == Sp(fields[1] + end);
    }
  }

  lemma OkLayout(m: RecordMsg)
    requires m.RecordOk?
    ensures RecordText(m, "") == "RRC" + Spaced(RecordFields(m)[1..], ['\n'] + "")
  {
    var header := ["OK", Dec(m.host), m.name, m.fname, Dec(m.startValue), Day(m.start), Clock(m.start), Dec(m.timeactive)];
    var sections := AllBidFields(m.bids) + EndFields(m.endDate, m.endSec);
    var end := EndText(m.endDate, m.endSec, "");
    assert RecordFields(m)[1..] == header + sections;
    SpacedAppend(header, sections, ['\n'] + "");
    SpacedAppend(AllBidFields(m.bids), EndFields(m.endDate, m.endSec), ['\n'] + "");
    EndLayout(m.endDate, m.endSec, "");
    BidsLayout(m.bids, end);
    HeaderLayout(Dec(m.host), m.name, m.fname, Dec(m.startValue), m.start, Dec(m.timeactive), BidsText(m.bids, end));
  }

  function ListFields(entries: seq<ListEntry>): seq<string> {
    if entries == [] then []
    else [Pad(entries[0].id, 3), if entries[0].active then "1" else "0"] + ListFields(entries[1..])
  }

  lemma EntryLayout(e: ListEntry, more: string)
    ensures Sp(EntryText(e) + more) == Spaced([Pad(e.id, 3), if e.active then "1" else "0"], more)
  {
    var id, bit := Pad(e.id, 3), if e.active then "1" else "0";
    Spaced2(id, bit, more);
    assert EntryText(e) + more == id + Sp(bit + more);
  }

  lemma {:induction false} EntriesLayout(entries: seq<ListEntry>, rest: string)
    ensures EntriesText(entries, rest) == Spaced(ListFields(entries), rest)
    decreases |entries|
  {
    if entries != [] {
      var e, more := entries[0], entries[1..];
      EntriesLayout(more, rest);
      EntryLayout(e, EntriesText(more, rest));
      SpacedAppend([Pad(e.id, 3), if e.active then "1" else "0"], ListFields(more), rest);
    }
  }

  /** The list messages. */
  lemma ListLayout(code: string, entries: seq<ListEntry>)
    ensures ListText(code, ListOk(entries), "") == Joined([code, "OK"] + ListFields(entries)) + "\n"
  {
    var fields, end := [code, "OK"] + ListFields(entries), ['\n'] + "";
    JoinedIsSpaced(fields, end);
    assert fields[1..] == ["OK"] + ListFields(entries);
    SpacedAppend(["OK"], ListFields(entries), end);
    assert Spaced(["OK"], Spaced(ListFields(entries), end)) == Sp("OK" + Spaced(ListFields(entries), end));
    EntriesLayout(entries, end);
  }

  /** The open request; the payload ends it. */
  lemma OpenLayout(m: OpenMsg)
    ensures "OPA" + OpenText(m, "") ==
            Joined(["OPA", Dec(m.user), m.password, m.name, Dec(m.startValue), Dec(m.timeactive), m.fname, Dec(|m.data|), m.data]) + "\n"
  {
    var one, two := [Dec(m.user), m.password, m.name], [Dec(m.startValue), Dec(m.timeactive)];
    var three := [m.fname, Dec(|m.data|), m.data];
    var fields := ["OPA", Dec(m.user), m.password, m.name, Dec(m.startValue), Dec(m.timeactive), m.fname, Dec(|m.data|), m.data];
    assert fields[1..] == one + (two + three);
    JoinedIsSpaced(fields, "\n");
    SpacedAppend(one, two + three, "\n");
    SpacedAppend(two, three, "\n");
    Spaced3(Dec(m.user), m.password, m.name, Spaced(two, Spaced(three, "\n")));
    Spaced2(Dec(m.startValue), Dec(m.timeactive), Spaced(three, "\n"));
    Spaced3(m.fname, Dec(|m.data|), m.data, "\n");
  }

  /** The bid request. */
  lemma BidRequestLayout(m: BidMsg)
    ensures "BID" + BidRequestText(m, "") ==
            Joined(["BID", Dec(m.user), m.password, Pad(m.auction, 3), Dec(m.value)]) + "\n"
  {
    var fields := ["BID", Dec(m.user), m.password, Pad(m.auction, 3), Dec(m.value)];
    assert fields[1..] == [Dec(m.user), m.password] + [Pad(m.auction, 3), Dec(m.value)];
    JoinedIsSpaced(fields, "\n");
    SpacedAppend([Dec(m.user), m.password], [Pad(m.auction, 3), Dec(m.value)], "\n");
    Spaced2(Dec(m.user), m.password, Spaced([Pad(m.auction, 3), Dec(m.value)], "\n"));
    Spaced2(Pad(m.auction, 3), Dec(m.value), "\n");
  }

  /** The asset answer. */
  lemma AssetLayout(fname: string, data: string)
    ensures AssetText(AssetOk(fname, data), "") == Joined(["RSA", "OK", fname, Dec(|data|), data]) + "\n"
  {
    FiveFields("RSA", "OK", fname, Dec(|data|), data);
  }

  lemma FiveFields(code: string, status: string, v: string, w: string, x: string)
    ensures Joined([code, status, v, w, x]) + "\n" == code + Sp(status + Sp(v + Sp(w + Sp(x + (['\n'] + "")))))
  {
    var fields, end := [code, status, v, w, x], ['\n'] + "";
    assert fields[1..] == [status, v] + [w, x];
    JoinedIsSpaced(fields, end);
    SpacedAppend([status, v], [w, x], end);
    Spaced2(status, v, Spaced([w, x], end));
    Spaced2(w, x, end);
  }

  // ----- What the readers accept -----

  /** readString takes a word of at most max characters, and stops at its width, a space or a newline. */
  lemma {:induction false} StringReads(s: string, max: nat)
    requires PString(s, max).Parsed?
    ensures var (v, rest) := (PString(s, max).value, PString(s, max).rest);
            && s == v + rest && Plain(v, max) && (|v| == max || Wire.Ends(rest))
    decreases max
  {
    if max > 0 && s != "" && !IsSeparator(s[0]) {
      StringReads(s[1..], max - 1);
      assert s == [s[0]] + s[1..];
    }
  }

  lemma StringExactly(s: string, max: nat, v: string, rest: string)
    ensures PString(s, max) == Parsed(v, rest) <==>
            && s == v + rest && |v| <= max && (forall c <- v :: c != ' ' && c != '\n')
            && (|v| == max || (rest != "" && (rest[0] == ' ' || rest[0] == '\n')))
  {
    if PString(s, max) == Parsed(v, rest) {
      StringReads(s, max);
    } else if s == v + rest && Plain(v, max) && (|v| == max || Wire.Ends(rest)) {
      StringComesBack(v, max, rest);
    }
  }

  /** readChar takes exactly the character it expects. */
  lemma CharExactly(s: string, c: char, rest: string)
    ensures PExpect(s, c) == Parsed((), rest) <==> s == [c] + rest
  {
    if PExpect(s, c) == Parsed((), rest) { assert s == [s[0]] + s[1..]; }
  }

  /** readMessageId takes exactly the code. */
  lemma {:induction false} IdExactly(s: string, code: string, rest: string)
    ensures PMessageId(s, code) == Parsed((), rest) <==> s == code + rest
  {
    if code == "" {
      assert code + rest == rest;
    } else if s != "" && s[0] == code[0] {
      IdExactly(s[1..], code[1..], rest);
      assert s == [s[0]] + s[1..];
      assert code + rest == [code[0]] + (code[1..] + rest);
    }
  }

  /** readFile takes exactly n characters, and no more than ten million. */
  lemma FileExactly(s: string, n: nat, data: string, rest: string)
    ensures PFile(s, n) == Parsed(data, rest) <==> s == data + rest && |data| == n <= 10_000_000
  {
    if PFile(s, n) == Parsed(data, rest) { assert s == s[..n] + s[n..]; }
  }

  function Signed(sign: string, n: nat): int { if sign == "-" then 0 - (n as int) else n as int }

  /** stol takes digits after white space and a sign, and ignores what follows; without a digit it throws. */
  lemma StolExactly(space: string, sign: string, digits: string, junk: string)
    requires forall c <- space :: IsSpace(c)
    requires sign == "" || sign == "+" || sign == "-"
    requires AllDigits(digits) && (junk != "" ==> !('0' <= junk[0] <= '9'))
    requires sign == "" && digits == "" && junk != "" ==> !IsSpace(junk[0]) && junk[0] != '+' && junk[0] != '-'
    ensures Stol(space + (sign + (digits + junk))) ==
            if digits == "" then None else Some(Signed(sign, Value(digits)))
  {
    var t := sign + (digits + junk);
    assert digits != "" ==> IsDigit(digits[0]) && (digits + junk)[0] == digits[0];
    assert digits == "" ==> digits + junk == junk;
    if sign == "" {
      assert t == digits + junk;
    } else {
      assert t[0] == sign[0] && t[1..] == digits + junk;
    }
    assert SkipSpaces(space + t) == t by { SpacesSkipped(space, t); }
    assert DigitPrefix(digits + junk) == digits by { DigitsTaken(digits, junk); }
    StolOf(space + t, t, sign != "", digits + junk, digits);
  }

  lemma StolOf(s: string, t: string, signed: bool, u: string, digits: string)
    requires SkipSpaces(s) == t && signed == (t != "" && (t[0] == '-' || t[0] == '+'))
    requires u == (if signed then t[1..] else t) && DigitPrefix(u) == digits
    ensures Stol(s) == if digits == "" then None else Some(Signed(if signed && t[0] == '-' then "-" else "", Value(digits)))
  {
  }

  lemma {:induction false} SpacesSkipped(space: string, t: string)
    requires (forall c <- space :: IsSpace(c)) && (t != "" ==> !IsSpace(t[0]))
    ensures SkipSpaces(space + t) == t
  {
    if space == "" {
      assert space + t == t;
    } else {
      assert (space + t)[1..] == space[1..] + t;
      SpacesSkipped(space[1..], t);
    }
  }

  lemma {:induction false} DigitsTaken(digits: string, junk: string)
    requires AllDigits(digits) && (junk != "" ==> !IsDigit(junk[0]))
    ensures DigitPrefix(digits + junk) == digits
  {
    if digits == "" {
      assert digits + junk == junk;
    } else {
      assert (digits + junk)[1..] == digits[1..] + junk;
      DigitsTaken(digits[1..], junk);
      assert digits == [digits[0]] + digits[1..];
    }
  }

  /** The words of a bid request: ids and password in their exact form, the value as stol takes it. */
  ghost predicate BidSpelt(s: string, m: BidMsg, rest: string, uid: string, aid: string, value: string) {
    && s == Sp(uid + Sp(m.password + Sp(aid + Sp(value + (['\n'] + rest)))))
    && |uid| == 6 && uid != "000000" && AllDigits(uid) && Value(uid) == m.user
    && |m.password| == 8 && (forall c <- m.password :: '0' <= c <= '9' || 'a' <= c <= 'z' || 'A' <= c <= 'Z')
    && |aid| == 3 && AllDigits(aid) && Value(aid) == m.auction
    && |value| <= 6 && (forall c <- value :: c != ' ' && c != '\n')
    && Stol(value).Some? && m.value == Stol(value).value % 0x1_0000_0000 && m.value != 0
  }

  /** The reader of bid requests accepts exactly such texts. */
  lemma BidRequestExactly(s: string, m: BidMsg, rest: string)
    ensures PBidRequest(s) == Parsed(m, rest) <==> exists uid, aid, value :: BidSpelt(s, m, rest, uid, aid, value)
  {
    if PBidRequest(s) == Parsed(m, rest) {
      BidIsSpelt(s, m, rest);
    }
    if uid, aid, value :| BidSpelt(s, m, rest, uid, aid, value) {
      SpeltBidReads(s, m, rest, uid, aid, value);
    }
  }

  lemma BidIsSpelt(s: string, m: BidMsg, rest: string)
    requires PBidRequest(s) == Parsed(m, rest)
    ensures exists uid, aid, value :: BidSpelt(s, m, rest, uid, aid, value)
  {
    var s1 := PExpect(s, ' ').rest;
    var uid, s2 := PString(s1, 6).value, PString(s1, 6).rest;
    var s3 := PExpect(s2, ' ').rest;
    var s4 := PString(s3, 8).rest;
    var s5 := PExpect(s4, ' ').rest;
    var aid, s6 := PString(s5, 3).value, PString(s5, 3).rest;
    var s7 := PExpect(s6, ' ').rest;
    var value, s8 := PString(s7, 6).value, PString(s7, 6).rest;
    CharExactly(s, ' ', s1);
    CharExactly(s2, ' ', s3);
    CharExactly(s4, ' ', s5);
    CharExactly(s6, ' ', s7);
    CharExactly(s8, '\n', rest);
    StringExactly(s7, 6, value, s8);
    assert BidSpelt(s, m, rest, uid, aid, value);
  }

  lemma SpeltBidReads(s: string, m: BidMsg, rest: string, uid: string, aid: string, value: string)
    requires BidSpelt(s, m, rest, uid, aid, value)
    ensures PBidRequest(s) == Parsed(m, rest)
  {
    var s4 := value + (['\n'] + rest);
    var s3 := aid + Sp(s4);
    var s2 := m.password + Sp(s3);
    var s1 := uid + Sp(s2);
    ExpectIts(' ', s1);
    DigitsArePlain(uid, 6);
    StringComesBack(uid, 6, Sp(s2));
    ExpectIts(' ', s2);
    PasswordComesBack(m.password, Sp(s3));
    ExpectIts(' ', s3);
    DigitsArePlain(aid, 3);
    StringComesBack(aid, 3, Sp(s4));
    ExpectIts(' ', s4);
    StringComesBack(value, 6, ['\n'] + rest);
    ExpectIts('\n', rest);
  }

  /** The words of an open request's header. */
  ghost predicate HeaderSpelt(s: string, h: OpenHeader, rest: string, uid: string, value: string, time: string) {
    && s == Sp(uid + Sp(h.password + Sp(h.name + Sp(value + Sp(time + rest)))))
    && |uid| == 6 && uid != "000000" && AllDigits(uid) && Value(uid) == h.user
    && |h.password| == 8 && (forall c <- h.password :: '0' <= c <= '9' || 'a' <= c <= 'z' || 'A' <= c <= 'Z')
    && |h.name| <= 10 && (forall c <- h.name :: c != ' ' && c != '\n')
    && |value| <= 6 && (forall c <- value :: c != ' ' && c != '\n')
    && Stol(value).Some? && h.startValue == Stol(value).value % 0x1_0000_0000 && h.startValue != 0
    && |time| <= 5 && (forall c <- time :: c != ' ' && c != '\n') && (|time| == 5 || Wire.Ends(rest))
    && Stol(time).Some? && h.timeactive == Stol(time).value % 0x1_0000_0000
  }

  /** And of the asset behind it: a name, a length of at most eight characters, that many bytes. */
  ghost predicate AssetSpelt(s: string, fname: string, data: string, rest: string, size: string) {
    && s == Sp(fname + Sp(size + Sp(data + (['\n'] + rest))))
    && |fname| <= 24 && (forall c <- fname :: c != ' ' && c != '\n')
    && |size| <= 8 && (forall c <- size :: c != ' ' && c != '\n')
    && Stol(size).Some? && |data| == Stol(size).value % 0x1_0000_0000 && |data| <= 10_000_000
  }

  ghost predicate OpenSpelt(s: string, m: OpenMsg, rest: string, tail: string, uid: string, value: string, time: string, size: string) {
    && HeaderSpelt(s, OpenHeader(m.user, m.password, m.name, m.startValue, m.timeactive), tail, uid, value, time)
    && AssetSpelt(tail, m.fname, m.data, rest, size)
  }

  /** The reader of open requests accepts exactly such texts. */
  lemma OpenExactly(s: string, m: OpenMsg, rest: string)
    ensures POpen(s) == Parsed(m, rest) <==>
            exists tail, uid, value, time, size :: OpenSpelt(s, m, rest, tail, uid, value, time, size)
  {
    if POpen(s) == Parsed(m, rest) {
      var h := OpenHeader(m.user, m.password, m.name, m.startValue, m.timeactive);
      var tail := POpenHeader(s).rest;
      assert POpenHeader(s) == Parsed(h, tail) && PAsset(tail) == Parsed((m.fname, m.data), rest);
      var uid, value, time := HeaderIsSpelt(s, h, tail);
      var size := AssetIsSpelt(tail, m.fname, m.data, rest);
      assert OpenSpelt(s, m, rest, tail, uid, value, time, size);
    }
    if tail, uid, value, time, size :| OpenSpelt(s, m, rest, tail, uid, value, time, size) {
      var h := OpenHeader(m.user, m.password, m.name, m.startValue, m.timeactive);
      SpeltHeaderReads(s, h, tail, uid, value, time);
      SpeltAssetReads(tail, m.fname, m.data, rest, size);
    }
  }

  lemma HeaderIsSpelt(s: string, h: OpenHeader, rest: string) returns (uid: string, value: string, time: string)
    requires POpenHeader(s) == Parsed(h, rest)
    ensures HeaderSpelt(s, h, rest, uid, value, time)
  {
    var s1 := PExpect(s, ' ').rest;
    var s2 := PString(s1, 6).rest;
    uid := PString(s1, 6).value;
    var s3 := PExpect(s2, ' ').rest;
    var s4 := PString(s3, 8).rest;
    var s5 := PExpect(s4, ' ').rest;
    var s6 := PString(s5, 10).rest;
    var s7 := PExpect(s6, ' ').rest;
    var s8 := PString(s7, 6).rest;
    value := PString(s7, 6).value;
    var s9 := PExpect(s8, ' ').rest;
    time := PString(s9, 5).value;
    CharExactly(s, ' ', s1);
    CharExactly(s2, ' ', s3);
    CharExactly(s4, ' ', s5);
    CharExactly(s6, ' ', s7);
    CharExactly(s8, ' ', s9);
    StringReads(s5, 10);
    StringReads(s7, 6);
    StringReads(s9, 5);
  }

  lemma SpeltHeaderReads(s: string, h: OpenHeader, rest: string, uid: string, value: string, time: string)
    requires HeaderSpelt(s, h, rest, uid, value, time)
    ensures POpenHeader(s) == Parsed(h, rest)
  {
    var s5 := time + rest;
    var s4 := value + Sp(s5);
    var s3 := h.name + Sp(s4);
    var s2 := h.password + Sp(s3);
    var s1 := uid + Sp(s2);
    ExpectIts(' ', s1);
    DigitsArePlain(uid, 6);
    StringComesBack(uid, 6, Sp(s2));
    ExpectIts(' ', s2);
    PasswordComesBack(h.password, Sp(s3));
    ExpectIts(' ', s3);
    StringComesBack(h.name, 10, Sp(s4));
    ExpectIts(' ', s4);
    StringComesBack(value, 6, Sp(s5));
    ExpectIts(' ', s5);
    StringComesBack(time, 5, rest);
  }

  lemma AssetIsSpelt(s: string, fname: string, data: string, rest: string) returns (size: string)
    requires PAsset(s) == Parsed((fname, data), rest)
    ensures AssetSpelt(s, fname, data, rest, size)
  {
    var s1 := PExpect(s, ' ').rest;
    var s2 := PString(s1, 24).rest;
    var s3 := PExpect(s2, ' ').rest;
    var s4 := PString(s3, 8).rest;
    size := PString(s3, 8).value;
    var s5 := PExpect(s4, ' ').rest;
    var n := PNumber(s3, 8).value;
    var s6 := PFile(s5, n).rest;
    CharExactly(s, ' ', s1);
    CharExactly(s2, ' ', s3);
    CharExactly(s4, ' ', s5);
    CharExactly(s6, '\n', rest);
    StringReads(s1, 24);
    StringReads(s3, 8);
    FileExactly(s5, n, data, s6);
  }

  lemma SpeltAssetReads(s: string, fname: string, data: string, rest: string, size: string)
    requires AssetSpelt(s, fname, data, rest, size)
    ensures PAsset(s) == Parsed((fname, data), rest)
  {
    var s3 := data + (['\n'] + rest);
    var s2 := size + Sp(s3);
    ExpectIts(' ', fname + Sp(s2));
    StringComesBack(fname, 24, Sp(s2));
    ExpectIts(' ', s2);
    StringComesBack(size, 8, Sp(s3));
    ExpectIts(' ', s3);
    FileComesBack(data, ['\n'] + rest);
    ExpectIts('\n', rest);
  }

  // ----- Numerals -----

  /** A numeral is its digits, most significant first. */
  lemma NumeralGrows(q: nat, d: nat)
    requires d < 10
    ensures Dec(d) == ["0123456789"[d]]
    ensures q >= 1 ==> Dec(10 * q + d) == Dec(q) + ["0123456789"[d]]
  {
    if q >= 1 {
      var n := 10 * q + d;
      assert n / 10 == q && n % 10 == d;
    }
  }

  /** Padding puts zeros in front up to the width. */
  lemma PadFills(n: nat, w: nat)
    ensures |Dec(n)| >= w ==> Pad(n, w) == Dec(n)
    ensures |Dec(n)| < w ==> Pad(n, w) == seq(w - |Dec(n)|, i => '0') + Dec(n)
  {
    if |Dec(n)| < w {
      var zeros := Zeros(w - |Dec(n)|);
      assert forall i :: 0 <= i < |zeros| ==> zeros[i] in zeros;
      assert zeros == seq(w - |Dec(n)|, i => '0');
    }
  }
}
