/**
 * readMessage of the record, list and open messages in the source's form, over either adapter, and
 * the sending loop of send_tcp_message with the transport guarantee that the two make together.
 */
module Readers {
  import opened Wire
  import opened Messages
  import opened Adapters

  // ----- ServerShowRecord -----

  class ServerShowRecord {
    var status: string
    var host: nat
    var auctionName: string
    var assetName: string
    var startValue: nat
    var start: Datetime
    var timeactive: nat
    var bids: seq<WireBid>
    var endDate: Datetime
    var endSec: nat

    constructor ()
      ensures bids == [] && endDate == NO_DATE && endSec == 0
    {
      status, host, auctionName, assetName, startValue := "", 0, "", "", 0;
      start, timeactive, bids, endDate, endSec := NO_DATE, 0, [], NO_DATE, 0;
    }

    ghost function Message(): RecordMsg
      reads this
    {
      if status == "OK" then
        RecordOk(host, auctionName, assetName, startValue, start, timeactive, bids, endDate, endSec)
      else if status == "NOK" then RecordNok
      else RecordErr
    }

    static method ReadNames(a: Adapter) returns (r: Try<(nat, string, string)>)
      requires Ready(a) && Started(a)
      modifies Obj(a)
      ensures Gives(r, PNames(old(Rest(a))), a, old(Rest(a)), true)
    {
      var _ :- Expect(a, ' ');
      var host :- ReadUserId(a);
      var _ :- Expect(a, ' ');
      var name :- ReadString(a, 10);
      var _ :- Expect(a, ' ');
      var fname :- ReadString(a, 24);
      return Ok((host, name, fname));
    }

    static method ReadTerms(a: Adapter) returns (r: Try<(nat, Datetime, nat)>)
      requires Ready(a) && Started(a)
      modifies Obj(a)
      ensures Gives(r, PTerms(old(Rest(a))), a, old(Rest(a)), true)
    {
      var _ :- Expect(a, ' ');
      var value :- ReadAuctionValue(a);
      var _ :- Expect(a, ' ');
      var date :- ReadDate(a);
      var _ :- Expect(a, ' ');
      var duration :- ReadNumber(a, 6);
      return Ok((value, date, duration));
    }

    static method ReadFields(a: Adapter) returns (r: Try<RecordMsg>)
      requires Ready(a) && Started(a)
      modifies Obj(a)
      ensures Gives(r, PHeader(old(Rest(a))), a, old(Rest(a)), true)
      ensures r.Ok? ==> r.value.RecordOk? && (r.value.bids, r.value.endDate, r.value.endSec) == ([], NO_DATE, 0)
    {
      var names :- ReadNames(a);
      var terms :- ReadTerms(a);
      return Ok(RecordOk(names.0, names.1, names.2, terms.0, terms.1, terms.2, [], NO_DATE, 0));
    }

    method ReadHeader(a: Adapter) returns (r: Try<RecordMsg>)
      requires Ready(a) && Started(a) && Obj(a) != this
      modifies this, Obj(a)
      ensures status == old(status) && bids == old(bids) && endDate == old(endDate) && endSec == old(endSec)
      ensures Gives(r, PHeader(old(Rest(a))), a, old(Rest(a)), true)
      ensures r.Ok? ==> r.value == Header()
    {
      r := ReadFields(a);
      if r.Ok? { SetHeader(r.value); }
    }

    method SetHeader(m: RecordMsg)
      requires m.RecordOk? && (m.bids, m.endDate, m.endSec) == ([], NO_DATE, 0)
      modifies this
      ensures status == old(status) && bids == old(bids) && endDate == old(endDate) && endSec == old(endSec)
      ensures Header() == m
    {
      host, auctionName, assetName := m.host, m.name, m.fname;
      startValue, start, timeactive := m.startValue, m.start, m.timeactive;
    }

    /** The fields before the sections. */
    ghost function Header(): RecordMsg
      reads this
    {
      RecordOk(host, auctionName, assetName, startValue, start, timeactive, [], NO_DATE, 0)
    }

    static method ReadBid(a: Adapter) returns (r: Try<WireBid>)
      requires Ready(a) && Started(a)
      modifies Obj(a)
      ensures Gives(r, PBid(old(Rest(a))), a, old(Rest(a)), true)
    {
      var _ :- Expect(a, ' ');
      var user :- ReadUserId(a);
      var _ :- Expect(a, ' ');
      var value :- ReadNumber(a, 6);
      var _ :- Expect(a, ' ');
      var date :- ReadDate(a);
      var _ :- Expect(a, ' ');
      var sec :- ReadNumber(a, 5);
      return Ok(WireBid(user, value, date, sec));
    }

    /** The bids still to be read, behind those read already. */
    static function Behind(bids: seq<WireBid>, p: Parse<seq<WireBid>>): Parse<seq<WireBid>> {
      match p
      case Failed(e) => Failed(e)
      case Parsed(more, rest) => Parsed(bids + more, rest)
    }

    static method ReadBidSpace(a: Adapter) returns (r: Try<(WireBid, bool)>)
      requires Ready(a) && Started(a)
      modifies Obj(a)
      ensures Gives(r, PBidSpace(old(Rest(a))), a, old(Rest(a)), true)
    {
      var bid :- ReadBid(a);
      var skip :- ReadCharEqual(a, ' ');
      return Ok((bid, skip));
    }

    /** The while loop over B sections. */
    method ReadBids(a: Adapter) returns (r: Try<()>)
      requires Ready(a) && Started(a) && Obj(a) != this && bids == []
      modifies this`bids, Obj(a)
      ensures match PBids(old(Rest(a)))
              case Failed(e) => r == Throw(Invalid(e))
              case Parsed(read, rest) => r == Ok(()) && Ready(a) && Started(a) && Rest(a) == rest && bids == read
    {
      BehindNone(PBids(Rest(a)));
      var more :- ReadCharEqual(a, 'B');
      while more
        invariant Ready(a) && Started(a)
        invariant PBids(old(Rest(a))) == Behind(bids, if more then PAfterB(Rest(a)) else Parsed([], Rest(a)))
        decreases more, |Rest(a)|
      {
        ghost var before := bids;
        var turn :- ReadBidSpace(a);
        bids := bids + [turn.0];
        if !turn.1 {
          return Ok(());
        }
        AddBid(before, turn.0, PBids(Rest(a)));
        more :- ReadCharEqual(a, 'B');
      }
      assert bids + [] == bids;
      return Ok(());
    }

    static lemma BehindNone(p: Parse<seq<WireBid>>)
      ensures Behind([], p) == p
    {
      if p.Parsed? { assert [] + p.value == p.value; }
    }

    static lemma AddBid(bids: seq<WireBid>, b: WireBid, p: Parse<seq<WireBid>>)
      ensures Behind(bids, Behind([b], p)) == Behind(bids + [b], p)
    {
      if p.Parsed? { assert bids + ([b] + p.value) == bids + [b] + p.value; }
    }

    method ReadEnd(a: Adapter) returns (r: Try<()>)
      requires Ready(a) && Started(a) && Obj(a) != this && endDate == NO_DATE && endSec == 0
      modifies this`endDate, this`endSec, Obj(a)
      ensures match PEnd(old(Rest(a)))
              case Failed(e) => r == Throw(Invalid(e))
              case Parsed(end, rest) => r == Ok(()) && Ready(a) && Started(a) && Rest(a) == rest && (endDate, endSec) == end
    {
      var end :- ReadCharEqual(a, 'E');
      if end {
        var _ :- Expect(a, ' ');
        endDate :- ReadDate(a);
        var _ :- Expect(a, ' ');
        endSec :- ReadNumber(a, 5);
        var _ :- Expect(a, '\n');
      }
      return Ok(());
    }

    method ReadSections(a: Adapter) returns (r: Try<()>)
      requires Ready(a) && Started(a) && Obj(a) != this && bids == [] && endDate == NO_DATE && endSec == 0
      modifies this`bids, this`endDate, this`endSec, Obj(a)
      ensures match PSections(old(Rest(a)))
              case Failed(e) => r == Throw(Invalid(e))
              case Parsed(read, rest) =>
                r == Ok(()) && Ready(a) && Started(a) && Rest(a) == rest && (bids, (endDate, endSec)) == read
    {
      var space :- ReadCharEqual(a, ' ');
      if !space { return Ok(()); }
      r := ReadBids(a);
      if r.Ok? { r := ReadEnd(a); }
    }

    /** ServerShowRecord::readMessage */
    method ReadMessage(a: Adapter) returns (r: Try<()>)
      requires Ready(a) && Obj(a) != this && bids == [] && endDate == NO_DATE && endSec == 0
      modifies this, Obj(a)
      ensures match PRecord(old(Rest(a)))
              case Failed(e) =>
                r == Throw(Invalid(e)) || (old(Rest(a)) == "" && !old(Started(a)) && r == Throw(NothingReceived))
              case Parsed(m, rest) => r == Ok(()) && Ready(a) && Rest(a) == rest && Message() == m
    {
      var _ :- ReadMessageId(a, "RRC");
      var _ :- Expect(a, ' ');
      status :- ReadString(a, 3);
      if status == "OK" {
        var _ :- ReadHeader(a);
        var _ :- ReadSections(a);
      } else if status == "NOK" || status == "ERR" {
        var _ :- Expect(a, '\n');
      } else {
        return Throw(Invalid(InvalidMessage));
      }
      return Ok(());
    }
  }

  // ----- Lists -----

  method ReadEntry(a: Adapter) returns (r: Try<string>)
    requires Ready(a) && Started(a)
    modifies Obj(a)
    ensures Gives(r, PEntry(old(Rest(a))), a, old(Rest(a)), true)
  {
    var _ :- Expect(a, ' ');
    var id :- ReadString(a, 3);
    var _ :- Expect(a, ' ');
    var state :- ReadString(a, 1);
    return Ok(Line(id, state));
  }

  /** The lines still to be read, behind those read already. */
  function BehindLines(lines: seq<string>, p: Parse<seq<string>>): Parse<seq<string>> {
    match p
    case Failed(e) => Failed(e)
    case Parsed(more, rest) => Parsed(lines + more, rest)
  }

  lemma AddLine(lines: seq<string>, line: string, p: Parse<seq<string>>)
    ensures BehindLines(lines, BehindLines([line], p)) == BehindLines(lines + [line], p)
    ensures BehindLines([], p) == p
  {
    if p.Parsed? {
      assert lines + ([line] + p.value) == lines + [line] + p.value;
      assert [] + p.value == p.value;
    }
  }

  /** The loop over readAuctionAndState, up to the newline that checkIfOver finds and puts back. */
  method ReadEntries(a: Adapter) returns (r: Try<seq<string>>)
    requires Ready(a) && Started(a)
    modifies Obj(a)
    ensures Gives(r, PEntries(old(Rest(a))), a, old(Rest(a)), true)
  {
    var lines := [];
    AddLine([], "", PEntries(Rest(a)));
    while true
      invariant Ready(a) && Started(a)
      invariant PEntries(old(Rest(a))) == BehindLines(lines, PEntries(Rest(a)))
      decreases |Rest(a)|
    {
      var over :- PeekChar(a, x => false);
      if over.0 == '\n' {
        assert lines + [] == lines;
        return Ok(lines);
      }
      var line :- ReadEntry(a);
      AddLine(lines, line, PEntries(Rest(a)));
      lines := lines + [line];
    }
  }

  /** readMessage of the list answers */
  method ReadList(a: Adapter, code: string, nlg: bool) returns (r: Try<ListRead>)
    requires Ready(a) && code != ""
    modifies Obj(a)
    ensures Gives(r, PList(old(Rest(a)), code, nlg), a, old(Rest(a)), old(Started(a)))
  {
    var _ :- ReadMessageId(a, code);
    var _ :- Expect(a, ' ');
    var status :- ReadString(a, 3);
    if status == "OK" {
      var lines :- ReadEntries(a);
      var _ :- Expect(a, '\n');
      return Ok(if lines == [] then ReadStatus("ERR") else Shown(lines));
    }
    if status == "NOK" || status == "ERR" || (nlg && status == "NLG") {
      var _ :- Expect(a, '\n');
      return Ok(ReadStatus(status));
    }
    return Throw(Invalid(InvalidMessage));
  }

  // ----- Open auction -----

  method ReadOpenHeader(a: Adapter) returns (r: Try<OpenHeader>)
    requires Ready(a) && Started(a)
    modifies Obj(a)
    ensures Gives(r, POpenHeader(old(Rest(a))), a, old(Rest(a)), true)
  {
    var _ :- Expect(a, ' ');
    var user :- ReadUserId(a);
    var _ :- Expect(a, ' ');
    var password :- ReadPassword(a);
    var _ :- Expect(a, ' ');
    var name :- ReadString(a, 10);
    var _ :- Expect(a, ' ');
    var startValue :- ReadAuctionValue(a);
    var _ :- Expect(a, ' ');
    var timeactive :- ReadNumber(a, 5);
    return Ok(OpenHeader(user, password, name, startValue, timeactive));
  }

  method ReadAsset(a: Adapter) returns (r: Try<(string, string)>)
    requires Ready(a) && Started(a)
    modifies Obj(a)
    ensures Gives(r, PAsset(old(Rest(a))), a, old(Rest(a)), true)
  {
    var _ :- Expect(a, ' ');
    var fname :- ReadString(a, 24);
    var _ :- Expect(a, ' ');
    var size :- ReadNumber(a, 8);
    var _ :- Expect(a, ' ');
    var data :- ReadFile(a, size);
    var _ :- Expect(a, '\n');
    return Ok((fname, data));
  }

  /** ClientOpenAuction::readMessage; the server has read the message code before. */
  method ReadOpen(a: Adapter) returns (r: Try<OpenMsg>)
    requires Ready(a) && Started(a)
    modifies Obj(a)
    ensures Gives(r, POpen(old(Rest(a))), a, old(Rest(a)), true)
  {
    var h :- ReadOpenHeader(a);
    var asset :- ReadAsset(a);
    return Ok(OpenMsg(h.user, h.password, h.name, h.startValue, h.timeactive, asset.0, asset.1));
  }

  // ----- Show asset -----

  /** ServerShowAsset::readMessage */
  method ReadAssetReply(a: Adapter) returns (r: Try<AssetMsg>)
    requires Ready(a)
    modifies Obj(a)
    ensures Gives(r, PAssetReply(old(Rest(a))), a, old(Rest(a)), old(Started(a)))
  {
    var _ :- ReadMessageId(a, "RSA");
    var _ :- Expect(a, ' ');
    var status :- ReadString(a, 3);
    if status == "OK" {
      var asset :- ReadAsset(a);
      return Ok(AssetOk(asset.0, asset.1));
    }
    if status == "NOK" || status == "ERR" {
      var _ :- Expect(a, '\n');
      return Ok(if status == "NOK" then AssetNok else AssetErr);
    }
    return Throw(Invalid(InvalidMessage));
  }

  // ----- Sending over TCP -----

  /** A socket: `plan` is how much each coming write() will take; a negative number is an error. */
  class Socket {
    var plan: seq<int>
    var delivered: string

    constructor (writes: seq<int>)
      ensures plan == writes && delivered == ""
    {
      plan, delivered := writes, "";
    }

    /** write(): takes a prefix of the data, all of it once the plan is used up. */
    method Write(data: string) returns (n: int)
      modifies this
      ensures n < 0 ==> delivered == old(delivered)
      ensures n >= 0 ==> n <= |data| && delivered == old(delivered) + data[..n]
      ensures n < 0 ==> exists p <- old(plan) :: p < 0
      ensures |plan| < |old(plan)| || (old(plan) == [] && plan == [] && n == |data|)
      ensures forall p <- plan :: p in old(plan)
    {
      n := |data|;
      if plan != [] {
        assert plan[0] in plan;
        if plan[0] < |data| { n := plan[0]; }
        plan := plan[1..];
      }
      if n >= 0 { delivered := delivered + data[..n]; }
    }
  }

  /**
   * The loop of send_tcp_message. Whatever sizes the writes take, what is delivered is always a
   * prefix; without a write error it ends with the whole message delivered.
   */
  method SendTcpMessage(message: string, socket: Socket) returns (sent: bool)
    requires socket.delivered == ""
    modifies socket
    ensures socket.delivered <= message
    ensures sent ==> socket.delivered == message
    ensures (forall p <- old(socket.plan) :: p >= 0) ==> sent
  {
    var bytesSent := 0;
    while bytesSent < |message|
      invariant 0 <= bytesSent <= |message|
      invariant socket.delivered == message[..bytesSent]
      invariant forall p <- socket.plan :: p in old(socket.plan)
      decreases |socket.plan|, |message| - bytesSent
    {
      var n := socket.Write(message[bytesSent..]);
      if n < 0 { return false; }
      assert message[..bytesSent] + message[bytesSent..][..n] == message[..bytesSent + n];
      bytesSent := bytesSent + n;
    }
    assert message[..|message|] == message;
    return true;
  }

  /**
   * End to end: an asset sent with any nonnegative write sizes and received in any chunks of 1 to
   * 512 bytes is the asset the client ends up with, byte for byte.
   */
  method AssetArrives(m: AssetMsg, socket: Socket, chunks: seq<string>) returns (asset: AssetMsg)
    requires WfAsset(m) && socket.delivered == "" && forall p <- socket.plan :: p >= 0
    requires forall i :: 0 <= i < |chunks| ==> 1 <= |chunks[i]| <= SOCKET_BUFFER_LEN
    requires Flatten(chunks) == AssetText(m, "")
    modifies socket
    ensures socket.delivered == Flatten(chunks)
    ensures asset == m
  {
    var sent := SendTcpMessage(AssetText(m, ""), socket);
    var tcp := new TcpMessage(chunks);
    AssetReplyComesBack(m, "");
    var r := ReadAssetReply(OverTcp(tcp));
    asset := r.value;
  }

  /** The same for an open request, whose code the server takes off with getn first. */
  method OpenArrives(m: OpenMsg, socket: Socket, chunks: seq<string>) returns (code: string, open: OpenMsg)
    requires WfOpen(m) && socket.delivered == "" && forall p <- socket.plan :: p >= 0
    requires forall i :: 0 <= i < |chunks| ==> 1 <= |chunks[i]| <= SOCKET_BUFFER_LEN
    requires Flatten(chunks) == "OPA" + OpenText(m, "")
    modifies socket
    ensures socket.delivered == Flatten(chunks)
    ensures code == "OPA" && open == m
  {
    var sent := SendTcpMessage("OPA" + OpenText(m, ""), socket);
    var tcp := new TcpMessage(chunks);
    var a := OverTcp(tcp);
    var c := ReadChars(a, 3);
    code := c.value;
    assert ("OPA" + OpenText(m, ""))[3..] == OpenText(m, "");
    OpenComesBack(m, "");
    var r := ReadOpen(a);
    open := r.value;
  }

  /** recvfrom: what of a datagram fits the buffer. */
  function Received(datagram: string): string {
    if |datagram| <= UDP_BUFFER then datagram else datagram[..UDP_BUFFER]
  }

  /** End to end over UDP: a record of at most 50 bids arrives whole and is the record the client ends up with. */
  method RecordArrives(m: RecordMsg) returns (record: ServerShowRecord)
    requires WfRecord(m) && (m.RecordOk? ==> |m.bids| <= 50)
    ensures record.Message() == Seen(m)
  {
    var datagram := RecordText(m, "");
    if m.RecordOk? { RecordFits(m); }
    var s := new StreamMessage(Received(datagram));
    RecordComesBack(m, "");
    var r;
    record, r := RecordOver(OverStream(s));
  }

  /** Reading a record from a nonempty input depends on its bytes only. */
  method RecordOver(a: Adapter) returns (record: ServerShowRecord, r: Try<()>)
    requires Ready(a) && Rest(a) != ""
    modifies Obj(a)
    ensures fresh(record)
    ensures match PRecord(old(Rest(a)))
            case Failed(e) => r == Throw(Invalid(e))
            case Parsed(m, _) => r == Ok(()) && record.Message() == m
  {
    record := new ServerShowRecord();
    r := record.ReadMessage(a);
  }

  /** The two adapters agree: a nonempty input, however chunked, reads the same as from a stream. */
  method RecordReadsAgree(text: string, chunks: seq<string>)
    returns (overTcp: ServerShowRecord, tcp: Try<()>, overStream: ServerShowRecord, stream: Try<()>)
    requires text != "" && Flatten(chunks) == text
    requires forall i :: 0 <= i < |chunks| ==> 1 <= |chunks[i]| <= SOCKET_BUFFER_LEN
    ensures tcp == stream
    ensures tcp.Ok? ==> overTcp.Message() == overStream.Message()
  {
    var t := new TcpMessage(chunks);
    overTcp, tcp := RecordOver(OverTcp(t));
    var s := new StreamMessage(text);
    overStream, stream := RecordOver(OverStream(s));
  }
}
