/**
 * The two message adapters (src/shared/protocol.hpp) and the readers that run over them. Whatever
 * sizes read() returns, a reader over TcpMessage gives what the reader of module Wire or Messages
 * makes of the flat string of bytes still to come; so does the same reader over StreamMessage.
 */
module Adapters {
  import opened Common
  import opened Text
  import opened Wire

  /** The exceptions of a reader; MessageReceiveException only when nothing at all arrived. */
  datatype Exception = Invalid(error: Error) | NothingReceived

  datatype Try<+T> = Ok(value: T) | Throw(exception: Exception) {
    predicate IsFailure() { Throw? }

    function PropagateFailure<U>(): Try<U>
      requires Throw?
    {
      Throw(exception)
    }

    function Extract(): T
      requires Ok?
    {
      value
    }
  }

  function Reverse(s: string): (r: string)
    ensures |r| == |s| && forall i :: 0 <= i < |s| ==> r[i] == s[|s| - 1 - i]
  {
    if s == "" then "" else [s[|s| - 1]] + Reverse(s[..|s| - 1])
  }

  function Flatten(chunks: seq<string>): string {
    if chunks == [] then "" else chunks[0] + Flatten(chunks[1..])
  }

  lemma {:induction false} ReverseAppend(s: string, t: string)
    ensures Reverse(s + t) == Reverse(t) + Reverse(s)
    decreases |t|
  {
    if t == "" {
      assert s + t == s;
    } else {
      var n := |t| - 1;
      ReverseAppend(s, t[..n]);
      assert (s + t)[..|s + t| - 1] == s + t[..n];
    }
  }

  lemma ReverseTwice(s: string)
    ensures Reverse(Reverse(s)) == s
  {
  }

  const SOCKET_BUFFER_LEN := 512

  /** TcpMessage: a vector used from its end, refilled by read(); `chunks` is what read() will return. */
  class TcpMessage {
    var buffer: string
    var last: char
    var anyRead: bool
    var chunks: seq<string>

    ghost predicate Valid()
      reads this
    {
      && (forall i :: 0 <= i < |chunks| ==> 1 <= |chunks[i]| <= SOCKET_BUFFER_LEN)
      && (buffer != "" ==> anyRead)
    }

    /** The bytes still to come. */
    ghost function Rest(): string
      reads this
    {
      Reverse(buffer) + Flatten(chunks)
    }

    constructor (incoming: seq<string>)
      requires forall i :: 0 <= i < |incoming| ==> 1 <= |incoming[i]| <= SOCKET_BUFFER_LEN
      ensures Valid() && Rest() == Flatten(incoming) && !anyRead
    {
      buffer, last, anyRead, chunks := "", ' ', false, incoming;
    }

    method FillBuffer() returns (r: Try<()>)
      requires Valid() && buffer == ""
      modifies this
      ensures Valid() && Rest() == old(Rest()) && last == old(last)
      ensures r.Ok? <==> old(Rest()) != ""
      ensures r.Ok? ==> buffer != "" && anyRead
      ensures r.Throw? ==> r.exception == (if old(anyRead) then Invalid(InvalidMessage) else NothingReceived)
    {
      if chunks == [] {
        return Throw(if anyRead then Invalid(InvalidMessage) else NothingReceived);
      }
      var buf := chunks[0];
      chunks := chunks[1..];
      anyRead := true;
      PushReversed(buf);
      ReverseTwice(buf);
      return Ok(());
    }

    /** The bytes go in back to front, so that the vector's end is the next byte. */
    method PushReversed(buf: string)
      requires buffer == ""
      modifies this`buffer
      ensures buffer == Reverse(buf)
    {
      var i := |buf|;
      while i > 0
        invariant 0 <= i <= |buf|
        invariant buffer == Reverse(buf[i..])
      {
        i := i - 1;
        assert Reverse(buf[i..]) == Reverse(buf[i + 1..]) + [buf[i]] by {
          assert buf[i..] == [buf[i]] + buf[i + 1..];
          ReverseAppend([buf[i]], buf[i + 1..]);
        }
        buffer := buffer + [buf[i]];
      }
      assert buf[0..] == buf;
    }

    method Get() returns (r: Try<char>)
      requires Valid()
      modifies this
      ensures Valid()
      ensures r.Ok? <==> old(Rest()) != ""
      ensures r.Ok? ==> anyRead && old(Rest()) == [r.value] + Rest() && last == r.value
      ensures r.Throw? ==> r.exception == (if old(anyRead) then Invalid(InvalidMessage) else NothingReceived)
    {
      if buffer == "" {
        var filled := FillBuffer();
        if filled.Throw? { return Throw(filled.exception); }
      }
      var n := |buffer| - 1;
      last := buffer[n];
      assert Reverse(buffer) == [buffer[n]] + Reverse(buffer[..n]);
      buffer := buffer[..n];
      return Ok(last);
    }

    /** Puts the last character back in front. */
    method Unget()
      requires Valid() && anyRead
      modifies this
      ensures Valid() && Rest() == [last] + old(Rest()) && last == old(last) && anyRead == old(anyRead)
    {
      ReverseAppend(buffer, [last]);
      assert Reverse([last]) == [last];
      buffer := buffer + [last];
    }
  }

  const EOF := '\U{FF}'

  /** StreamMessage over a stringstream. */
  class StreamMessage {
    var data: string
    var pos: nat
    var good: bool

    ghost predicate Valid()
      reads this
    {
      pos <= |data|
    }

    ghost function Rest(): string
      reads this
      requires Valid()
    {
      data[pos..]
    }

    constructor (text: string)
      ensures Valid() && Rest() == text && good
    {
      data, pos, good := text, 0, true;
    }

    method Get() returns (c: char)
      requires Valid() && good
      modifies this
      ensures Valid() && data == old(data)
      ensures good == (old(Rest()) != "")
      ensures good ==> pos == old(pos) + 1 && old(Rest()) == [c] + Rest()
    {
      if pos == |data| {
        good := false;
        return EOF;
      }
      c := data[pos];
      pos := pos + 1;
    }

    method Unget()
      requires Valid() && good && pos > 0
      modifies this
      ensures Valid() && good && data == old(data) && pos == old(pos) - 1
    {
      pos := pos - 1;
    }
  }

  // ----- MessageAdapter: either of the two -----

  datatype Adapter = OverStream(stream: StreamMessage) | OverTcp(tcp: TcpMessage)

  function Obj(a: Adapter): object {
    match a
    case OverStream(s) => s
    case OverTcp(t) => t
  }

  /** Ready to read: no stream has failed yet. */
  ghost predicate Ready(a: Adapter)
    reads Obj(a)
  {
    match a
    case OverStream(s) => s.Valid() && s.good
    case OverTcp(t) => t.Valid()
  }

  ghost function Rest(a: Adapter): string
    reads Obj(a)
    requires Ready(a)
  {
    match a
    case OverStream(s) => s.Rest()
    case OverTcp(t) => t.Rest()
  }

  /** Something has arrived, so the end of the input is an InvalidMessageException. */
  ghost predicate Started(a: Adapter)
    reads Obj(a)
  {
    a.OverTcp? ==> a.tcp.anyRead
  }

  /**
   * A reader that started on `before` did what the flat reader's result p says. The two may differ
   * only when nothing at all arrives, which over TCP is a MessageReceiveException.
   */
  ghost predicate Gives<T(!new)>(r: Try<T>, p: Parse<T>, a: Adapter, before: string, started: bool)
    reads Obj(a)
  {
    match p
    case Parsed(value, rest) => Ready(a) && r == Ok(value) && Rest(a) == rest && (started ==> Started(a))
    case Failed(error) =>
      r.Throw? && (r.exception == Invalid(error) || (before == "" && !started && r.exception == NothingReceived))
  }

  /** readChar(buffer) */
  method ReadChar(a: Adapter) returns (r: Try<char>)
    requires Ready(a)
    modifies Obj(a)
    ensures Gives(r, PChar(old(Rest(a))), a, old(Rest(a)), old(Started(a)))
    ensures r.Ok? ==> Started(a) && (a.OverTcp? ==> a.tcp.last == r.value)
    ensures r.Ok? && a.OverStream? ==> a.stream.pos > 0 && a.stream.data[a.stream.pos - 1] == r.value
  {
    match a
    case OverStream(s) =>
      var c := s.Get();
      if !s.good { return Throw(Invalid(InvalidMessage)); }
      return Ok(c);
    case OverTcp(t) =>
      r := t.Get();
  }

  /** unget of a character just read. */
  method PutBack(a: Adapter, c: char)
    requires Ready(a) && Started(a) && (a.OverTcp? ==> a.tcp.last == c)
    requires a.OverStream? ==> a.stream.pos > 0 && a.stream.data[a.stream.pos - 1] == c
    modifies Obj(a)
    ensures Ready(a) && Started(a) && Rest(a) == [c] + old(Rest(a))
  {
    match a
    case OverStream(s) => s.Unget();
    case OverTcp(t) => t.Unget();
  }

  /** readChar, and unget if the character is not one to take. */
  method PeekChar(a: Adapter, take: char -> bool) returns (r: Try<(char, bool)>)
    requires Ready(a)
    modifies Obj(a)
    ensures r.Ok? <==> old(Rest(a)) != ""
    ensures r.Throw? ==> r.exception == Invalid(InvalidMessage) || (!old(Started(a)) && r.exception == NothingReceived)
    ensures r.Ok? ==>
              && Ready(a) && Started(a)
              && r.value == (old(Rest(a))[0], take(old(Rest(a))[0]))
              && Rest(a) == if r.value.1 then old(Rest(a))[1..] else old(Rest(a))
  {
    ghost var before := Rest(a);
    var c :- ReadChar(a);
    assert before == [c] + Rest(a);
    if !take(c) { PutBack(a, c); }
    return Ok((c, take(c)));
  }

  /** readChar(buffer, c) */
  method Expect(a: Adapter, c: char) returns (r: Try<()>)
    requires Ready(a)
    modifies Obj(a)
    ensures Gives(r, PExpect(old(Rest(a)), c), a, old(Rest(a)), old(Started(a)))
    ensures r.Ok? ==> Started(a)
  {
    var d :- ReadChar(a);
    if d != c { return Throw(Invalid(InvalidMessage)); }
    return Ok(());
  }

  method ReadCharEqual(a: Adapter, c: char) returns (r: Try<bool>)
    requires Ready(a)
    modifies Obj(a)
    ensures Gives(r, PCharEqual(old(Rest(a)), c), a, old(Rest(a)), old(Started(a)))
    ensures r.Ok? ==> Started(a)
  {
    var d :- PeekChar(a, x => x == c);
    return Ok(d.1);
  }

  /** What a string reader still has to add to what it has collected. */
  function Collected(s: string, p: Parse<string>): Parse<string> {
    match p
    case Failed(e) => Failed(e)
    case Parsed(t, rest) => Parsed(s + t, rest)
  }

  /** One turn of readString's loop, `str` being what the turns before have collected of `all`. */
  method ReadLetter(a: Adapter, ghost all: Parse<string>, ghost str: string, ghost max: nat) returns (r: Try<Option<char>>)
    requires Ready(a) && max > 0 && all == Collected(str, PString(Rest(a), max))
    modifies Obj(a)
    ensures r.Throw? ==> all == Failed(InvalidMessage)
    ensures r.Throw? ==> r.exception == Invalid(InvalidMessage)
                         || (old(Rest(a)) == "" && !old(Started(a)) && r.exception == NothingReceived)
    ensures r.Ok? ==> Ready(a) && Started(a)
    ensures r == Ok(None) ==> all == Parsed(str, Rest(a))
    ensures r.Ok? && r.value.Some? ==> all == Collected(str + [r.value.value], PString(Rest(a), max - 1))
  {
    ghost var now := Rest(a);
    var c :- PeekChar(a, x => !IsSeparator(x));
    if !c.1 {
      CollectEnd(str, now);
      return Ok(None);
    }
    CollectOne(str, c.0, now, max);
    return Ok(Some(c.0));
  }

  method ReadString(a: Adapter, max: nat) returns (r: Try<string>)
    requires Ready(a)
    modifies Obj(a)
    ensures Gives(r, PString(old(Rest(a)), max), a, old(Rest(a)), old(Started(a)))
    ensures r.Ok? && max > 0 ==> Started(a)
  {
    var str := "";
    ghost var before, started, all := Rest(a), Started(a), PString(Rest(a), max);
    assert all == Collected(str, all) by { CollectNone(all); }
    for i := 0 to max
      invariant Ready(a) && all == Collected(str, PString(Rest(a), max - i))
      invariant if i == 0 then Rest(a) == before && Started(a) == started else Started(a)
    {
      var c := ReadLetter(a, all, str, max - i);
      if c.Throw? { return Throw(c.exception); }
      if c.value.None? { return Ok(str); }
      str := str + [c.value.value];
    }
    assert all == Parsed(str, Rest(a)) by { CollectEnd(str, Rest(a)); }
    return Ok(str);
  }

  lemma CollectNone(p: Parse<string>)
    ensures Collected("", p) == p
  {
    if p.Parsed? { assert "" + p.value == p.value; }
  }

  lemma CollectEnd(str: string, s: string)
    ensures Collected(str, Parsed("", s)) == Parsed(str, s)
  {
    assert str + "" == str;
  }

  /** Reading one more character moves it from the rest to what is collected. */
  lemma CollectOne(str: string, c: char, s: string, max: nat)
    requires s != "" && s[0] == c && !IsSeparator(c) && max > 0
    ensures Collected(str, PString(s, max)) == Collected(str + [c], PString(s[1..], max - 1))
  {
    var p := PString(s[1..], max - 1);
    if p.Parsed? {
      assert str + ([c] + p.value) == str + [c] + p.value;
    }
  }

  /** static_cast<uint32_t>(stol(readString(buffer, max))) */
  method ReadNumber(a: Adapter, max: nat) returns (r: Try<nat>)
    requires Ready(a) && max > 0
    modifies Obj(a)
    ensures Gives(r, PNumber(old(Rest(a)), max), a, old(Rest(a)), old(Started(a)))
    ensures r.Ok? ==> Started(a)
  {
    var t :- ReadString(a, max);
    var n := Stol(t);
    if n.None? { return Throw(Invalid(BadNumber)); }
    return Ok(Word(n.value));
  }

  method ReadUserId(a: Adapter) returns (r: Try<nat>)
    requires Ready(a)
    modifies Obj(a)
    ensures Gives(r, PUserId(old(Rest(a))), a, old(Rest(a)), old(Started(a)))
    ensures r.Ok? ==> Started(a)
  {
    var t :- ReadString(a, 6);
    if !ValidUser(t) { return Throw(Invalid(InvalidMessage)); }
    return Ok(Value(t));
  }

  method ReadAuctionValue(a: Adapter) returns (r: Try<nat>)
    requires Ready(a)
    modifies Obj(a)
    ensures Gives(r, PAuctionValue(old(Rest(a))), a, old(Rest(a)), old(Started(a)))
    ensures r.Ok? ==> Started(a)
  {
    var n :- ReadNumber(a, 6);
    if n == 0 { return Throw(Invalid(InvalidMessage)); }
    return Ok(n);
  }

  method ReadPassword(a: Adapter) returns (r: Try<string>)
    requires Ready(a)
    modifies Obj(a)
    ensures Gives(r, PPassword(old(Rest(a))), a, old(Rest(a)), old(Started(a)))
    ensures r.Ok? ==> Started(a)
  {
    var t :- ReadString(a, 8);
    if !ValidPassword(t) { return Throw(Invalid(InvalidMessage)); }
    return Ok(t);
  }

  method ReadDay(a: Adapter) returns (r: Try<(string, string, string)>)
    requires Ready(a)
    modifies Obj(a)
    ensures Gives(r, PDay(old(Rest(a))), a, old(Rest(a)), old(Started(a)))
    ensures r.Ok? ==> Started(a)
  {
    var year :- ReadString(a, 4);
    var _ :- Expect(a, '-');
    var month :- ReadString(a, 2);
    var _ :- Expect(a, '-');
    var day :- ReadString(a, 2);
    return Ok((year, month, day));
  }

  method ReadClock(a: Adapter) returns (r: Try<(string, string, string)>)
    requires Ready(a)
    modifies Obj(a)
    ensures Gives(r, PClock(old(Rest(a))), a, old(Rest(a)), old(Started(a)))
    ensures r.Ok? ==> Started(a)
  {
    var hours :- ReadString(a, 2);
    var _ :- Expect(a, ':');
    var minutes :- ReadString(a, 2);
    var _ :- Expect(a, ':');
    var seconds :- ReadString(a, 2);
    return Ok((hours, minutes, seconds));
  }

  method ReadDate(a: Adapter) returns (r: Try<Datetime>)
    requires Ready(a)
    modifies Obj(a)
    ensures Gives(r, PDate(old(Rest(a))), a, old(Rest(a)), old(Started(a)))
    ensures r.Ok? ==> Started(a)
  {
    var day :- ReadDay(a);
    var _ :- Expect(a, ' ');
    var clock :- ReadClock(a);
    return Ok(Datetime(day.0, day.1, day.2, clock.0, clock.1, clock.2));
  }

  /** n characters, one after the other. */
  method ReadChars(a: Adapter, n: nat) returns (r: Try<string>)
    requires Ready(a)
    modifies Obj(a)
    ensures r.Ok? <==> |old(Rest(a))| >= n
    ensures r.Ok? ==> Ready(a) && r.value == old(Rest(a))[..n] && Rest(a) == old(Rest(a))[n..]
    ensures r.Ok? && (n > 0 || old(Started(a))) ==> Started(a)
    ensures r.Throw? ==> r.exception == Invalid(InvalidMessage)
                         || (old(Rest(a)) == "" && !old(Started(a)) && r.exception == NothingReceived)
  {
    var str := "";
    ghost var all := Rest(a);
    for i := 0 to n
      invariant Ready(a)
      invariant |str| == i && all == str + Rest(a)
      invariant i > 0 || old(Started(a)) ==> Started(a)
      invariant i == 0 ==> Started(a) == old(Started(a))
    {
      ghost var now := Rest(a);
      var c := ReadChar(a);
      if c.Throw? {
        assert now == "" && all == str;
        return Throw(c.exception);
      }
      assert all == (str + [c.value]) + Rest(a) by {
        assert now == [c.value] + Rest(a);
        AppendOne(str, c.value, Rest(a));
      }
      str := str + [c.value];
    }
    FrontOf(str, Rest(a));
    return Ok(str);
  }

  lemma FrontOf(s: string, t: string)
    ensures (s + t)[..|s|] == s && (s + t)[|s|..] == t
  {
  }

  lemma AppendOne(s: string, c: char, t: string)
    ensures s + ([c] + t) == (s + [c]) + t
  {
  }

  method ReadFile(a: Adapter, n: nat) returns (r: Try<string>)
    requires Ready(a)
    modifies Obj(a)
    ensures Gives(r, PFile(old(Rest(a)), n), a, old(Rest(a)), old(Started(a)))
    ensures r.Ok? && old(Started(a)) ==> Started(a)
  {
    if n > 10_000_000 { return Throw(Invalid(FileTooLarge)); }
    r := ReadChars(a, n);
  }

  /** readMessageId */
  method ReadMessageId(a: Adapter, code: string) returns (r: Try<()>)
    requires Ready(a) && code != ""
    modifies Obj(a)
    ensures Gives(r, PMessageId(old(Rest(a)), code), a, old(Rest(a)), old(Started(a)))
    ensures r.Ok? ==> Started(a)
  {
    ghost var all := PMessageId(Rest(a), code);
    assert code[0..] == code;
    for i := 0 to |code|
      invariant Ready(a)
      invariant all == PMessageId(Rest(a), code[i..])
      invariant i > 0 || old(Started(a)) ==> Started(a)
      invariant i == 0 ==> Rest(a) == old(Rest(a)) && Started(a) == old(Started(a))
    {
      assert code[i..][0] == code[i] && code[i..][1..] == code[i + 1..];
      var c :- ReadChar(a);
      if c != code[i] { return Throw(Invalid(UnexpectedMessage)); }
    }
    return Ok(());
  }
}
