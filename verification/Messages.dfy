/**
 * The record, list, open and bid messages: printers, readers, and that readers undo printers.
 */
module Messages {
  import opened Text
  import opened Wire

  // ----- Show record (RRC) -----

  datatype WireBid = WireBid(user: nat, value: nat, date: Datetime, sec: nat)

  datatype RecordMsg =
    | RecordOk(host: nat, name: string, fname: string, startValue: nat, start: Datetime, timeactive: nat,
               bids: seq<WireBid>, endDate: Datetime, endSec: nat)
    | RecordNok
    | RecordErr

  function BidText(b: WireBid, rest: string): string {
    Sp(['B'] + Sp(Dec(b.user) + Sp(Dec(b.value) + Sp(DateText(b.date, Sp(Dec(b.sec) + rest))))))
  }

  function BidsText(bids: seq<WireBid>, rest: string): string {
    if bids == [] then rest else BidText(bids[0], BidsText(bids[1..], rest))
  }

  /** The E section is printed only for a positive elapsed time. */
  function EndText(date: Datetime, sec: nat, rest: string): string {
    if sec > 0 then Sp(['E'] + Sp(DateText(date, Sp(Dec(sec) + (['\n'] + rest))))) else ['\n'] + rest
  }

  /** ServerShowRecord::buildMessage, then rest */
  function RecordText(m: RecordMsg, rest: string): string {
    "RRC" + Sp(
      match m
      case RecordNok => "NOK" + (['\n'] + rest)
      case RecordErr => "ERR" + (['\n'] + rest)
      case RecordOk(host, name, fname, startValue, start, timeactive, bids, endDate, endSec) =>
        "OK" + Sp(Dec(host) + Sp(name + Sp(fname + Sp(Dec(startValue) + Sp(DateText(start, Sp(Dec(timeactive) +
          BidsText(bids, EndText(endDate, endSec, rest)))))))))
    )
  }

  function PBid(s: string): (r: Parse<WireBid>)
    ensures r.Parsed? ==> |r.rest| < |s|
  {
    var (_, s) :- PExpect(s, ' ');
    var (user, s) :- PUserId(s);
    var (_, s) :- PExpect(s, ' ');
    var (value, s) :- PNumber(s, 6);
    var (_, s) :- PExpect(s, ' ');
    var (date, s) :- PDate(s);
    var (_, s) :- PExpect(s, ' ');
    var (sec, s) :- PNumber(s, 5);
    Parsed(WireBid(user, value, date, sec), s)
  }

  /** A bid and whether a space follows it, which is then taken. */
  function PBidSpace(s: string): (r: Parse<(WireBid, bool)>)
    ensures r.Parsed? ==> |r.rest| < |s|
  {
    var (b, s) :- PBid(s);
    var (space, s) :- PCharEqual(s, ' ');
    Parsed((b, space), s)
  }

  /** The loop over B sections: it stops at another letter, or after a bid with no space behind it. */
  function PBids(s: string): (r: Parse<seq<WireBid>>)
    decreases |s|, 1
  {
    var (more, s) :- PCharEqual(s, 'B');
    if more then PAfterB(s) else Parsed([], s)
  }

  function PAfterB(s: string): (r: Parse<seq<WireBid>>)
    decreases |s|, 0
  {
    var (turn, s) :- PBidSpace(s);
    if !turn.1 then Parsed([turn.0], s)
    else
      var (bids, s) :- PBids(s);
      Parsed([turn.0] + bids, s)
  }

  /** The optional E section and its newline. */
  function PEnd(s: string): Parse<(Datetime, nat)> {
    var (end, s) :- PCharEqual(s, 'E');
    if !end then Parsed((NO_DATE, 0), s)
    else
      var (_, s) :- PExpect(s, ' ');
      var (date, s) :- PDate(s);
      var (_, s) :- PExpect(s, ' ');
      var (sec, s) :- PNumber(s, 5);
      var (_, s) :- PExpect(s, '\n');
      Parsed((date, sec), s)
  }

  /** What follows the active time. */
  function PSections(s: string): Parse<(seq<WireBid>, (Datetime, nat))> {
    var (space, s) :- PCharEqual(s, ' ');
    if !space then Parsed(([], (NO_DATE, 0)), s)
    else
      var (bids, s) :- PBids(s);
      var (end, s) :- PEnd(s);
      Parsed((bids, end), s)
  }

  function PNames(s: string): Parse<(nat, string, string)> {
    var (_, s) :- PExpect(s, ' ');
    var (host, s) :- PUserId(s);
    var (_, s) :- PExpect(s, ' ');
    var (name, s) :- PString(s, 10);
    var (_, s) :- PExpect(s, ' ');
    var (fname, s) :- PString(s, 24);
    Parsed((host, name, fname), s)
  }

  function PTerms(s: string): Parse<(nat, Datetime, nat)> {
    var (_, s) :- PExpect(s, ' ');
    var (startValue, s) :- PAuctionValue(s);
    var (_, s) :- PExpect(s, ' ');
    var (start, s) :- PDate(s);
    var (_, s) :- PExpect(s, ' ');
    var (timeactive, s) :- PNumber(s, 6);
    Parsed((startValue, start, timeactive), s)
  }

  /** The fields of an OK record up to the active time. */
  function PHeader(s: string): Parse<RecordMsg> {
    var (names, s) :- PNames(s);
    var (terms, s) :- PTerms(s);
    Parsed(RecordOk(names.0, names.1, names.2, terms.0, terms.1, terms.2, [], NO_DATE, 0), s)
  }

  /** ServerShowRecord::readMessage */
  function PRecord(s: string): Parse<RecordMsg> {
    var (_, s) :- PMessageId(s, "RRC");
    var (_, s) :- PExpect(s, ' ');
    var (status, s) :- PString(s, 3);
    if status == "OK" then
      var (m, s) :- PHeader(s);
      var (sections, s) :- PSections(s);
      match m
      case RecordOk(host, name, fname, startValue, start, timeactive, _, _, _) =>
        Parsed(RecordOk(host, name, fname, startValue, start, timeactive, sections.0, sections.1.0, sections.1.1), s)
      case _ => Failed(InvalidMessage)
    else if status == "NOK" then
      var (_, s) :- PExpect(s, '\n');
      Parsed(RecordNok, s)
    else if status == "ERR" then
      var (_, s) :- PExpect(s, '\n');
      Parsed(RecordErr, s)
    else Failed(InvalidMessage)
  }

  // ----- The record comes back -----

  predicate WfBid(b: WireBid) {
    WideUser(b.user) && b.value <= 999_999 && WfDate(b.date) && b.sec <= 99_999
  }

  predicate WfBids(bids: seq<WireBid>) {
    bids == [] || (WfBid(bids[0]) && WfBids(bids[1..]))
  }

  predicate WfRecord(m: RecordMsg) {
    m.RecordOk? ==>
      && WideUser(m.host) && Plain(m.name, 10) && Plain(m.fname, 24)
      && 1 <= m.startValue <= 999_999 && WfDate(m.start) && m.timeactive <= 999_999
      && WfBids(m.bids)
      && (m.endSec > 0 ==> WfDate(m.endDate) && m.endSec <= 99_999)
  }

  /** What the reader can know: no end date without an E section. */
  function Seen(m: RecordMsg): RecordMsg {
    if m.RecordOk? && m.endSec == 0 then m.(endDate := NO_DATE) else m
  }

  lemma BidComesBack(b: WireBid, rest: string)
    requires WfBid(b) && Wire.Ends(rest)
    ensures PBid(Sp(Dec(b.user) + Sp(Dec(b.value) + Sp(DateText(b.date, Sp(Dec(b.sec) + rest)))))) == Parsed(b, rest)
  {
    Powers();
    var s4 := Dec(b.sec) + rest;
    var s3 := DateText(b.date, Sp(s4));
    var s2 := Dec(b.value) + Sp(s3);
    var s1 := Dec(b.user) + Sp(s2);
    ExpectIts(' ', s1);
    UserComesBack(b.user, Sp(s2));
    ExpectIts(' ', s2);
    NumberComesBack(b.value, 6, Sp(s3));
    ExpectIts(' ', s3);
    DateComesBack(b.date, Sp(s4));
    ExpectIts(' ', s4);
    NumberComesBack(b.sec, 5, rest);
  }

  /** One turn of the loop over B sections. */
  lemma BidsTurn(b: WireBid, more: string)
    requires WfBid(b) && Wire.Ends(more)
    ensures var s := BidText(b, more);
            && s != "" && s[0] == ' '
            && PBids(s[1..]) ==
               if more[0] == '\n' then Parsed([b], more)
               else var r := PBids(more[1..]); if r.Failed? then r else Parsed([b] + r.value, r.rest)
  {
    var fields := Sp(Dec(b.user) + Sp(Dec(b.value) + Sp(DateText(b.date, Sp(Dec(b.sec) + more)))));
    BidComesBack(b, more);
    assert BidText(b, more)[1..] == ['B'] + fields;
    assert (['B'] + fields)[1..] == fields;
  }

  /** After its first space, s reads as the given bids, and `tail` stays. */
  predicate ReadsBids(s: string, bids: seq<WireBid>, tail: string) {
    s != "" && s[0] == ' ' && PBids(s[1..]) == Parsed(bids, tail)
  }

  lemma LastBid(b: WireBid, end: string)
    requires WfBid(b) && end != "" && end[0] == '\n'
    ensures ReadsBids(BidText(b, end), [b], end)
  {
    BidsTurn(b, end);
  }

  lemma OneMoreBid(b: WireBid, more: string, bids: seq<WireBid>, tail: string)
    requires WfBid(b) && ReadsBids(more, bids, tail)
    ensures ReadsBids(BidText(b, more), [b] + bids, tail)
  {
    BidsTurn(b, more);
  }

  lemma NoMoreBids(date: Datetime, sec: nat, rest: string)
    requires sec > 0
    ensures ReadsBids(EndText(date, sec, rest), [], AfterBids(date, sec, rest))
  {
    assert EndText(date, sec, rest)[1..][0] == 'E';
  }

  /** What the loop over bids leaves: the E section, or just the newline. */
  function AfterBids(date: Datetime, sec: nat, rest: string): string {
    if sec > 0 then EndText(date, sec, rest)[1..] else ['\n'] + rest
  }

  /** The loop reads every bid, in order, and stops at the end: an E section, or a newline it leaves. */
  lemma {:induction false} BidsComeBack(bids: seq<WireBid>, end: string, tail: string)
    requires WfBids(bids)
    requires ReadsBids(end, [], tail) || (bids != [] && end == tail && end != "" && end[0] == '\n')
    ensures ReadsBids(BidsText(bids, end), bids, tail)
    decreases |bids|
  {
    if bids != [] {
      var b, more := bids[0], bids[1..];
      if more == [] && end[0] == '\n' {
        LastBid(b, end);
        assert [b] == bids;
      } else {
        BidsComeBack(more, end, tail);
        OneMoreBid(b, BidsText(more, end), more, tail);
        assert [b] + more == bids;
      }
    }
  }

  lemma EndComesBack(date: Datetime, sec: nat, rest: string)
    requires 0 < sec <= 99_999 && WfDate(date)
    ensures PEnd(EndText(date, sec, rest)[1..]) == Parsed((date, sec), rest)
  {
    Powers();
    var s3 := ['\n'] + rest;
    var s2 := Dec(sec) + s3;
    var s1 := DateText(date, Sp(s2));
    assert EndText(date, sec, rest)[1..] == ['E'] + Sp(s1);
    ExpectIts('E', Sp(s1));
    ExpectIts(' ', s1);
    DateComesBack(date, Sp(s2));
    ExpectIts(' ', s2);
    NumberComesBack(sec, 5, s3);
    ExpectIts('\n', rest);
  }

  lemma SectionsComeBack(bids: seq<WireBid>, date: Datetime, sec: nat, rest: string)
    requires WfBids(bids)
    requires sec > 0 ==> WfDate(date) && sec <= 99_999
    ensures PSections(BidsText(bids, EndText(date, sec, rest))) ==
            if sec > 0 then Parsed((bids, (date, sec)), rest) else Parsed((bids, (NO_DATE, 0)), ['\n'] + rest)
  {
    var end := EndText(date, sec, rest);
    if sec > 0 {
      NoMoreBids(date, sec, rest);
      EndComesBack(date, sec, rest);
    }
    if bids != [] || sec > 0 {
      BidsComeBack(bids, end, AfterBids(date, sec, rest));
    }
  }

  lemma HeaderComesBack(m: RecordMsg, rest: string)
    requires m.RecordOk? && WfRecord(m) && Wire.Ends(rest)
    ensures PHeader(Sp(Dec(m.host) + Sp(m.name + Sp(m.fname + Sp(Dec(m.startValue) + Sp(DateText(m.start,
              Sp(Dec(m.timeactive) + rest)))))))) ==
            Parsed(m.(bids := [], endDate := NO_DATE, endSec := 0), rest)
  {
    Powers();
    var s6 := Dec(m.timeactive) + rest;
    var s5 := DateText(m.start, Sp(s6));
    var s4 := Dec(m.startValue) + Sp(s5);
    var s3 := m.fname + Sp(s4);
    var s2 := m.name + Sp(s3);
    var s1 := Dec(m.host) + Sp(s2);
    ExpectIts(' ', s1);
    UserComesBack(m.host, Sp(s2));
    ExpectIts(' ', s2);
    StringComesBack(m.name, 10, Sp(s3));
    ExpectIts(' ', s3);
    StringComesBack(m.fname, 24, Sp(s4));
    ExpectIts(' ', s4);
    ValueComesBack(m.startValue, Sp(s5));
    ExpectIts(' ', s5);
    DateComesBack(m.start, Sp(s6));
    ExpectIts(' ', s6);
    NumberComesBack(m.timeactive, 6, rest);
  }

  lemma StatusComesBack(code: string, status: string, rest: string)
    requires Plain(status, 3) && (|status| == 3 || Wire.Ends(rest))
    ensures PMessageId(code + Sp(status + rest), code) == Parsed((), Sp(status + rest))
    ensures PExpect(Sp(status + rest), ' ') == Parsed((), status + rest)
    ensures PString(status + rest, 3) == Parsed(status, rest)
  {
    IdComesBack(code, Sp(status + rest));
    ExpectIts(' ', status + rest);
    StringComesBack(status, 3, rest);
  }

  lemma OkComesBack(m: RecordMsg, rest: string)
    requires m.RecordOk? && WfRecord(m)
    ensures PRecord(RecordText(m, rest)) == Parsed(Seen(m), if m.endSec == 0 then ['\n'] + rest else rest)
  {
    var sections := BidsText(m.bids, EndText(m.endDate, m.endSec, rest));
    assert Wire.Ends(sections);
    var header := Sp(Dec(m.host) + Sp(m.name + Sp(m.fname + Sp(Dec(m.startValue) + Sp(DateText(m.start,
                    Sp(Dec(m.timeactive) + sections)))))));
    StatusComesBack("RRC", "OK", header);
    HeaderComesBack(m, sections);
    SectionsComeBack(m.bids, m.endDate, m.endSec, rest);
  }

  /**
   * Reading a printed record gives every field and every bid back in order. An elapsed time of 0
   * loses the end date, and without an E section the final newline stays unread.
   */
  lemma RecordComesBack(m: RecordMsg, rest: string)
    requires WfRecord(m)
    ensures PRecord(RecordText(m, rest)) ==
            Parsed(Seen(m), if m.RecordOk? && m.endSec == 0 then ['\n'] + rest else rest)
  {
    match m
    case RecordNok =>
      StatusComesBack("RRC", "NOK", ['\n'] + rest);
      ExpectIts('\n', rest);
    case RecordErr =>
      StatusComesBack("RRC", "ERR", ['\n'] + rest);
      ExpectIts('\n', rest);
    case RecordOk(_, _, _, _, _, _, _, _, _) =>
      OkComesBack(m, rest);
  }

  /** The record comes back as it was exactly when it has a positive end, or no end date to lose. */
  lemma RecordComesBackExactly(m: RecordMsg, rest: string)
    requires WfRecord(m)
    ensures PRecord(RecordText(m, rest)).Parsed?
    ensures PRecord(RecordText(m, rest)).value == m <==> (m.RecordOk? && m.endSec == 0 ==> m.endDate == NO_DATE)
  {
    RecordComesBack(m, rest);
  }

  lemma {:induction false} BidsLength(bids: seq<WireBid>, rest: string)
    requires WfBids(bids)
    ensures |BidsText(bids, rest)| <= 42 * |bids| + |rest|
    decreases |bids|
  {
    if bids != [] {
      var b := bids[0];
      BidsLength(bids[1..], rest);
      Powers();
      DecWidth(b.user, 6);
      DecWidth(b.value, 6);
      DecWidth(b.sec, 5);
    }
  }

  /** Of the client's buffer for UDP answers, UDP_SOCKET_BUFFER_LEN in src/shared/config.hpp, one byte is for the NUL. */
  const UDP_BUFFER := 6002

  lemma RecordFits(m: RecordMsg)
    requires m.RecordOk? && WfRecord(m) && |m.bids| <= 50
    ensures |RecordText(m, "")| <= 2212 < UDP_BUFFER
  {
    Powers();
    DecWidth(m.host, 6);
    DecWidth(m.startValue, 6);
    DecWidth(m.timeactive, 6);
    if m.endSec > 0 { DecWidth(m.endSec, 5); }
    var end := EndText(m.endDate, m.endSec, "");
    assert |end| <= 29;
    BidsLength(m.bids, end);
  }

  // ----- Lists (RMA, RMB, RLS) -----

  /** An auction id and its state bit, as the list handlers push them. */
  datatype ListEntry = ListEntry(id: nat, active: bool)

  datatype ListMsg = ListOk(entries: seq<ListEntry>) | ListStatus(status: string)

  /** What the reader stores: the text shown for each entry, or a status; an empty OK list reads as ERR. */
  datatype ListRead = Shown(lines: seq<string>) | ReadStatus(status: string)

  function EntryText(e: ListEntry): string {
    Pad(e.id, 3) + Sp(if e.active then "1" else "0")
  }

  function EntriesText(entries: seq<ListEntry>, rest: string): string {
    if entries == [] then rest else Sp(EntryText(entries[0]) + EntriesText(entries[1..], rest))
  }

  /** buildMessage of the three list answers, then rest */
  function ListText(code: string, m: ListMsg, rest: string): string {
    code + Sp(
      match m
      case ListOk(entries) => "OK" + EntriesText(entries, ['\n'] + rest)
      case ListStatus(status) => status + (['\n'] + rest)
    )
  }

  function Line(id: string, state: string): string {
    "AID: " + id + " --- STATUS: " + (if state == "1" then "ACTIVE" else if state == "0" then "OVER" else state)
  }

  /** readAuctionAndState, where the message goes on */
  function PEntry(s: string): (r: Parse<string>)
    ensures r.Parsed? ==> |r.rest| < |s|
  {
    var (_, s) :- PExpect(s, ' ');
    var (id, s) :- PString(s, 3);
    var (_, s) :- PExpect(s, ' ');
    var (state, s) :- PString(s, 1);
    Parsed(Line(id, state), s)
  }

  /** The loop over readAuctionAndState, which ends at the newline. */
  function PEntries(s: string): Parse<seq<string>>
    decreases |s|
  {
    if s == "" then Failed(InvalidMessage)
    else if s[0] == '\n' then Parsed([], s)
    else
      var (line, s) :- PEntry(s);
      var (lines, s) :- PEntries(s);
      Parsed([line] + lines, s)
  }

  /** readMessage of the three list answers; only RMA and RMB know the status NLG. */
  function PList(s: string, code: string, nlg: bool): Parse<ListRead> {
    var (_, s) :- PMessageId(s, code);
    var (_, s) :- PExpect(s, ' ');
    var (status, s) :- PString(s, 3);
    if status == "OK" then
      var (lines, s) :- PEntries(s);
      var (_, s) :- PExpect(s, '\n');
      Parsed(if lines == [] then ReadStatus("ERR") else Shown(lines), s)
    else if status == "NOK" || status == "ERR" || (nlg && status == "NLG") then
      var (_, s) :- PExpect(s, '\n');
      Parsed(ReadStatus(status), s)
    else Failed(InvalidMessage)
  }

  function EntryLine(e: ListEntry): string { Line(Pad(e.id, 3), if e.active then "1" else "0") }

  function Lines(entries: seq<ListEntry>): (r: seq<string>)
    ensures |r| == |entries|
  {
    seq(|entries|, i requires 0 <= i < |entries| => EntryLine(entries[i]))
  }

  lemma EntryComesBack(e: ListEntry, rest: string)
    requires e.id <= 999
    ensures var s := EntryText(e) + rest;
            var s' := (if e.active then "1" else "0") + rest;
            && PString(s, 3) == Parsed(Pad(e.id, 3), Sp(s'))
            && PExpect(Sp(s'), ' ') == Parsed((), s')
            && PString(s', 1) == Parsed(if e.active then "1" else "0", rest)
  {
    Powers();
    PadValue(e.id, 3);
    DigitsArePlain(Pad(e.id, 3), 3);
    var bit := if e.active then "1" else "0";
    assert EntryText(e) + rest == Pad(e.id, 3) + Sp(bit + rest);
    StringComesBack(Pad(e.id, 3), 3, Sp(bit + rest));
    ExpectIts(' ', bit + rest);
    StringComesBack(bit, 1, rest);
  }

  lemma OneMoreEntry(e: ListEntry, more: string, lines: seq<string>, tail: string)
    requires e.id <= 999 && PEntries(more) == Parsed(lines, tail)
    ensures PEntries(Sp(EntryText(e) + more)) == Parsed([EntryLine(e)] + lines, tail)
  {
    var s := EntryText(e) + more;
    ExpectIts(' ', s);
    EntryComesBack(e, more);
    assert PEntry(Sp(s)) == Parsed(EntryLine(e), more);
  }

  lemma {:induction false} EntriesComeBack(entries: seq<ListEntry>, rest: string)
    requires forall e <- entries :: e.id <= 999
    ensures PEntries(EntriesText(entries, ['\n'] + rest)) == Parsed(Lines(entries), ['\n'] + rest)
    decreases |entries|
  {
    if entries == [] {
      assert Lines(entries) == [];
    } else {
      var tail := ['\n'] + rest;
      EntriesComeBack(entries[1..], rest);
      OneMoreEntry(entries[0], EntriesText(entries[1..], tail), Lines(entries[1..]), tail);
      assert [EntryLine(entries[0])] + Lines(entries[1..]) == Lines(entries);
    }
  }

  /** Reading a printed list gives one line an entry, in order, with the right state. */
  lemma ListComesBack(code: string, entries: seq<ListEntry>, rest: string, nlg: bool)
    requires forall e <- entries :: e.id <= 999
    ensures PList(ListText(code, ListOk(entries), rest), code, nlg) ==
            Parsed(if entries == [] then ReadStatus("ERR") else Shown(Lines(entries)), rest)
    ensures forall i :: 0 <= i < |entries| ==>
              Lines(entries)[i] ==
              "AID: " + Pad(entries[i].id, 3) + " --- STATUS: " + (if entries[i].active then "ACTIVE" else "OVER")
  {
    var text := EntriesText(entries, ['\n'] + rest);
    assert Wire.Ends(text);
    StatusComesBack(code, "OK", text);
    EntriesComeBack(entries, rest);
    ExpectIts('\n', rest);
  }

  lemma {:induction false} EntriesLength(entries: seq<ListEntry>, rest: string)
    requires forall e <- entries :: e.id <= 999
    ensures |EntriesText(entries, rest)| == 6 * |entries| + |rest|
    decreases |entries|
  {
    if entries != [] {
      EntriesLength(entries[1..], rest);
      Powers();
      PadValue(entries[0].id, 3);
    }
  }

  /** A list of all 999 auctions takes 6001 characters, one below the client's UDP buffer. */
  lemma ListFits(code: string, entries: seq<ListEntry>)
    requires |code| == 3 && |entries| <= 999 && forall e <- entries :: e.id <= 999
    ensures |ListText(code, ListOk(entries), "")| == 7 + 6 * |entries| < 6002
  {
    EntriesLength(entries, ['\n'] + "");
  }

  // ----- Open auction (OPA) -----

  datatype OpenMsg = OpenMsg(user: nat, password: string, name: string, startValue: nat, timeactive: nat,
                             fname: string, data: string)

  /** ClientOpenAuction::buildMessage without the code, which the server has read already, then rest */
  function OpenText(m: OpenMsg, rest: string): string {
    Sp(Dec(m.user) + Sp(m.password + Sp(m.name + Sp(Dec(m.startValue) + Sp(Dec(m.timeactive) +
      Sp(m.fname + Sp(Dec(|m.data|) + Sp(m.data + (['\n'] + rest)))))))))
  }

  datatype OpenHeader = OpenHeader(user: nat, password: string, name: string, startValue: nat, timeactive: nat)

  function POpenHeader(s: string): Parse<OpenHeader> {
    var (_, s) :- PExpect(s, ' ');
    var (user, s) :- PUserId(s);
    var (_, s) :- PExpect(s, ' ');
    var (password, s) :- PPassword(s);
    var (_, s) :- PExpect(s, ' ');
    var (name, s) :- PString(s, 10);
    var (_, s) :- PExpect(s, ' ');
    var (startValue, s) :- PAuctionValue(s);
    var (_, s) :- PExpect(s, ' ');
    var (timeactive, s) :- PNumber(s, 5);
    Parsed(OpenHeader(user, password, name, startValue, timeactive), s)
  }

  /** The file name, the length and the payload. */
  function PAsset(s: string): Parse<(string, string)> {
    var (_, s) :- PExpect(s, ' ');
    var (fname, s) :- PString(s, 24);
    var (_, s) :- PExpect(s, ' ');
    var (size, s) :- PNumber(s, 8);
    var (_, s) :- PExpect(s, ' ');
    var (data, s) :- PFile(s, size);
    var (_, s) :- PExpect(s, '\n');
    Parsed((fname, data), s)
  }

  /** ClientOpenAuction::readMessage */
  function POpen(s: string): Parse<OpenMsg> {
    var (h, s) :- POpenHeader(s);
    var (asset, s) :- PAsset(s);
    Parsed(OpenMsg(h.user, h.password, h.name, h.startValue, h.timeactive, asset.0, asset.1), s)
  }

  predicate WfOpen(m: OpenMsg) {
    && WideUser(m.user) && ValidPassword(m.password) && Plain(m.name, 10) && Plain(m.fname, 24)
    && 1 <= m.startValue <= 999_999 && m.timeactive <= 99_999 && |m.data| <= 10_000_000
  }

  lemma FileComesBack(data: string, rest: string)
    requires |data| <= 10_000_000
    ensures PFile(data + rest, |data|) == Parsed(data, rest)
  {
    assert (data + rest)[..|data|] == data && (data + rest)[|data|..] == rest;
  }

  /** The payload is read by its length: spaces and newlines in it are just bytes, and nothing past it is taken. */
  lemma PayloadComesBack(m: OpenMsg, rest: string)
    requires WfOpen(m)
    ensures var tail := m.data + (['\n'] + rest);
            && PNumber(Dec(|m.data|) + Sp(tail), 8) == Parsed(|m.data|, Sp(tail))
            && PFile(tail, |m.data|) == Parsed(m.data, ['\n'] + rest)
  {
    Powers();
    NumberComesBack(|m.data|, 8, Sp(m.data + (['\n'] + rest)));
    FileComesBack(m.data, ['\n'] + rest);
  }

  /** The whole open request comes back, payload included. */
  lemma OpenComesBack(m: OpenMsg, rest: string)
    requires WfOpen(m)
    ensures POpen(OpenText(m, rest)) == Parsed(m, rest)
  {
    Powers();
    var s8 := m.data + (['\n'] + rest);
    var s7 := Dec(|m.data|) + Sp(s8);
    var s6 := m.fname + Sp(s7);
    var s5 := Dec(m.timeactive) + Sp(s6);
    var s4 := Dec(m.startValue) + Sp(s5);
    var s3 := m.name + Sp(s4);
    var s2 := m.password + Sp(s3);
    var s1 := Dec(m.user) + Sp(s2);
    ExpectIts(' ', s1);
    UserComesBack(m.user, Sp(s2));
    ExpectIts(' ', s2);
    PasswordComesBack(m.password, Sp(s3));
    ExpectIts(' ', s3);
    StringComesBack(m.name, 10, Sp(s4));
    ExpectIts(' ', s4);
    ValueComesBack(m.startValue, Sp(s5));
    ExpectIts(' ', s5);
    NumberComesBack(m.timeactive, 5, Sp(s6));
    ExpectIts(' ', s6);
    StringComesBack(m.fname, 24, Sp(s7));
    ExpectIts(' ', s7);
    ExpectIts(' ', s8);
    PayloadComesBack(m, rest);
    ExpectIts('\n', rest);
  }

  // ----- Show asset (RSA) -----

  datatype AssetMsg = AssetOk(fname: string, data: string) | AssetNok | AssetErr

  /** ServerShowAsset::buildMessage, then rest */
  function AssetText(m: AssetMsg, rest: string): string {
    "RSA" + Sp(
      match m
      case AssetOk(fname, data) => "OK" + Sp(fname + Sp(Dec(|data|) + Sp(data + (['\n'] + rest))))
      case AssetNok => "NOK" + (['\n'] + rest)
      case AssetErr => "ERR" + (['\n'] + rest)
    )
  }

  /** ServerShowAsset::readMessage */
  function PAssetReply(s: string): Parse<AssetMsg> {
    var (_, s) :- PMessageId(s, "RSA");
    var (_, s) :- PExpect(s, ' ');
    var (status, s) :- PString(s, 3);
    if status == "OK" then
      var (asset, s) :- PAsset(s);
      Parsed(AssetOk(asset.0, asset.1), s)
    else if status == "NOK" then
      var (_, s) :- PExpect(s, '\n');
      Parsed(AssetNok, s)
    else if status == "ERR" then
      var (_, s) :- PExpect(s, '\n');
      Parsed(AssetErr, s)
    else Failed(InvalidMessage)
  }

  predicate WfAsset(m: AssetMsg) { m.AssetOk? ==> Plain(m.fname, 24) && |m.data| <= 10_000_000 }

  lemma AssetComesBack(fname: string, data: string, rest: string)
    requires Plain(fname, 24) && |data| <= 10_000_000
    ensures PAsset(Sp(fname + Sp(Dec(|data|) + Sp(data + (['\n'] + rest))))) == Parsed((fname, data), rest)
  {
    Powers();
    var s3 := data + (['\n'] + rest);
    var s2 := Dec(|data|) + Sp(s3);
    ExpectIts(' ', fname + Sp(s2));
    StringComesBack(fname, 24, Sp(s2));
    ExpectIts(' ', s2);
    NumberComesBack(|data|, 8, Sp(s3));
    ExpectIts(' ', s3);
    FileComesBack(data, ['\n'] + rest);
    ExpectIts('\n', rest);
  }

  /** The asset comes back byte for byte, and nothing past the message is taken. */
  lemma AssetReplyComesBack(m: AssetMsg, rest: string)
    requires WfAsset(m)
    ensures PAssetReply(AssetText(m, rest)) == Parsed(m, rest)
  {
    match m
    case AssetNok =>
      StatusComesBack("RSA", "NOK", ['\n'] + rest);
      ExpectIts('\n', rest);
    case AssetErr =>
      StatusComesBack("RSA", "ERR", ['\n'] + rest);
      ExpectIts('\n', rest);
    case AssetOk(fname, data) =>
      StatusComesBack("RSA", "OK", Sp(fname + Sp(Dec(|data|) + Sp(data + (['\n'] + rest)))));
      AssetComesBack(fname, data, rest);
  }

  // ----- Bid (BID) -----

  datatype BidMsg = BidMsg(user: nat, password: string, auction: nat, value: nat)

  function BidRequestText(m: BidMsg, rest: string): string {
    Sp(Dec(m.user) + Sp(m.password + Sp(Pad(m.auction, 3) + Sp(Dec(m.value) + (['\n'] + rest)))))
  }

  /** ClientBid::readMessage */
  function PBidRequest(s: string): Parse<BidMsg> {
    var (_, s) :- PExpect(s, ' ');
    var (user, s) :- PUserId(s);
    var (_, s) :- PExpect(s, ' ');
    var (password, s) :- PPassword(s);
    var (_, s) :- PExpect(s, ' ');
    var (auction, s) :- PAuctionId(s);
    var (_, s) :- PExpect(s, ' ');
    var (value, s) :- PAuctionValue(s);
    var (_, s) :- PExpect(s, '\n');
    Parsed(BidMsg(user, password, auction, value), s)
  }

  lemma BidRequestComesBack(m: BidMsg, rest: string)
    requires WideUser(m.user) && ValidPassword(m.password) && m.auction <= 999 && 1 <= m.value <= 999_999
    ensures PBidRequest(BidRequestText(m, rest)) == Parsed(m, rest)
  {
    var s4 := Dec(m.value) + (['\n'] + rest);
    var s3 := Pad(m.auction, 3) + Sp(s4);
    var s2 := m.password + Sp(s3);
    var s1 := Dec(m.user) + Sp(s2);
    ExpectIts(' ', s1);
    UserComesBack(m.user, Sp(s2));
    ExpectIts(' ', s2);
    PasswordComesBack(m.password, Sp(s3));
    ExpectIts(' ', s3);
    AuctionComesBack(m.auction, Sp(s4));
    ExpectIts(' ', s4);
    ValueComesBack(m.value, ['\n'] + rest);
    ExpectIts('\n', rest);
  }
}
