/**
 * The wire protocol over a flat string: what each message prints and what its hand-written reader
 * makes of a string (src/shared/protocol.cpp). Printers take the text that follows as `rest`.
 */
module Wire {
  import opened Common
  import opened Text

  datatype Error =
    | InvalidMessage     // InvalidMessageException
    | UnexpectedMessage  // UnexpectedMessageException
    | BadNumber          // std::invalid_argument from stol
    | FileTooLarge       // FileException

  /** A reader's result: a value and the unread rest, or an exception. */
  datatype Parse<+T> = Parsed(value: T, rest: string) | Failed(error: Error) {
    predicate IsFailure() { Failed? }

    function PropagateFailure<U>(): Parse<U>
      requires Failed?
    {
      Failed(error)
    }

    function Extract(): (T, string)
      requires Parsed?
    {
      (value, rest)
    }
  }

  // ----- Numbers -----

  /** The leading digits of a string. */
  function DigitPrefix(s: string): (d: string)
    ensures AllDigits(d)
  {
    if s == "" || !IsDigit(s[0]) then "" else [s[0]] + DigitPrefix(s[1..])
  }

  /** std::stol: spaces, a sign, digits, anything after them ignored; it throws when there is no digit. */
  function Stol(s: string): Option<int> {
    var t := SkipSpaces(s);
    var signed := t != "" && (t[0] == '-' || t[0] == '+');
    var d := DigitPrefix(if signed then t[1..] else t);
    var n: int := if d == "" then 0 else Value(d);
    if d == "" then None else if signed && t[0] == '-' then Some(-n) else Some(n)
  }

  /** static_cast<uint32_t> */
  function Word(n: int): nat { n % 0x1_0000_0000 }

  // ----- Reading primitives -----

  function PChar(s: string): Parse<char> {
    if s == "" then Failed(InvalidMessage) else Parsed(s[0], s[1..])
  }

  /** readChar(buffer, c), readSpace, readDelimiter */
  function PExpect(s: string, c: char): Parse<()> {
    if s == "" || s[0] != c then Failed(InvalidMessage) else Parsed((), s[1..])
  }

  /** readCharEqual: a character that differs is put back. */
  function PCharEqual(s: string, c: char): (r: Parse<bool>)
    ensures r.Parsed? ==> |r.rest| <= |s| && (r.value ==> |r.rest| < |s|)
  {
    if s == "" then Failed(InvalidMessage)
    else if s[0] == c then Parsed(true, s[1..])
    else Parsed(false, s)
  }

  predicate IsSeparator(c: char) { c == ' ' || c == '\n' }

  /** readString: at most max characters, up to a separator that stays unread. */
  function PString(s: string, max: nat): (r: Parse<string>)
    ensures r.Parsed? ==> |r.value| <= max && s == r.value + r.rest
    decreases max
  {
    if max == 0 then Parsed("", s)
    else if s == "" then Failed(InvalidMessage)
    else if IsSeparator(s[0]) then Parsed("", s)
    else
      var (t, rest) :- PString(s[1..], max - 1);
      Parsed([s[0]] + t, rest)
  }

  /** readFile: exactly n characters, whatever they are. */
  function PFile(s: string, n: nat): Parse<string> {
    if n > 10_000_000 then Failed(FileTooLarge)
    else if |s| < n then Failed(InvalidMessage)
    else Parsed(s[..n], s[n..])
  }

  /** readMessageId */
  function PMessageId(s: string, code: string): Parse<()> {
    if code == "" then Parsed((), s)
    else if s == "" then Failed(InvalidMessage)
    else if s[0] != code[0] then Failed(UnexpectedMessage)
    else PMessageId(s[1..], code[1..])
  }

  /** static_cast<uint32_t>(stol(readString(buffer, max))) */
  function PNumber(s: string, max: nat): (r: Parse<nat>)
    ensures r.Parsed? ==> |r.rest| <= |s|
  {
    var (t, rest) :- PString(s, max);
    match Stol(t)
    case None => Failed(BadNumber)
    case Some(n) => Parsed(Word(n), rest)
  }

  function PUserId(s: string): (r: Parse<nat>)
    ensures r.Parsed? ==> |r.rest| <= |s|
  {
    var (t, rest) :- PString(s, 6);
    if ValidUser(t) then Parsed(Value(t), rest) else Failed(InvalidMessage)
  }

  function PAuctionId(s: string): Parse<nat> {
    var (t, rest) :- PString(s, 3);
    if |t| == 3 && AllDigits(t) then Parsed(Value(t), rest) else Failed(InvalidMessage)
  }

  function PAuctionValue(s: string): Parse<nat> {
    var (n, rest) :- PNumber(s, 6);
    if n == 0 then Failed(InvalidMessage) else Parsed(n, rest)
  }

  function PPassword(s: string): Parse<string> {
    var (t, rest) :- PString(s, 8);
    if ValidPassword(t) then Parsed(t, rest) else Failed(InvalidMessage)
  }

  datatype Datetime = Datetime(year: string, month: string, day: string,
                               hours: string, minutes: string, seconds: string)

  const NO_DATE := Datetime("", "", "", "", "", "")

  function PDay(s: string): (r: Parse<(string, string, string)>)
    ensures r.Parsed? ==> |r.rest| <= |s|
  {
    var (year, s) :- PString(s, 4);
    var (_, s) :- PExpect(s, '-');
    var (month, s) :- PString(s, 2);
    var (_, s) :- PExpect(s, '-');
    var (day, s) :- PString(s, 2);
    Parsed((year, month, day), s)
  }

  function PClock(s: string): (r: Parse<(string, string, string)>)
    ensures r.Parsed? ==> |r.rest| <= |s|
  {
    var (hours, s) :- PString(s, 2);
    var (_, s) :- PExpect(s, ':');
    var (minutes, s) :- PString(s, 2);
    var (_, s) :- PExpect(s, ':');
    var (seconds, s) :- PString(s, 2);
    Parsed((hours, minutes, seconds), s)
  }

  /** readDate */
  function PDate(s: string): (r: Parse<Datetime>)
    ensures r.Parsed? ==> |r.rest| <= |s|
  {
    var (day, s) :- PDay(s);
    var (_, s) :- PExpect(s, ' ');
    var (clock, s) :- PClock(s);
    Parsed(Datetime(day.0, day.1, day.2, clock.0, clock.1, clock.2), s)
  }

  // ----- Printing -----

  function Sp(s: string): string { [' '] + s }

  /** The two words of a date, as GetCurrentDate and CreateEndFile print them. */
  function Day(d: Datetime): string { d.year + (['-'] + (d.month + (['-'] + d.day))) }

  function Clock(d: Datetime): string { d.hours + ([':'] + (d.minutes + ([':'] + d.seconds))) }

  /** A line of fields with one space between them. */
  function Joined(fields: seq<string>): string
    requires fields != []
  {
    if |fields| == 1 then fields[0] else fields[0] + Sp(Joined(fields[1..]))
  }

  lemma {:induction false} JoinedAppend(a: seq<string>, b: seq<string>)
    requires a != [] && b != []
    ensures Joined(a + b) == Joined(a) + ([' '] + Joined(b))
  {
    if |a| == 1 {
      assert (a + b)[1..] == b;
    } else {
      JoinedAppend(a[1..], b);
      assert (a + b)[1..] == a[1..] + b;
    }
  }

  /** convert_date_to_str, then rest */
  function DateText(d: Datetime, rest: string): string {
    d.year + (['-'] + (d.month + (['-'] + (d.day + ([' '] + (d.hours + ([':'] + (d.minutes + ([':'] + (d.seconds + rest))))))))))
  }

  /** Text that readString takes whole. */
  predicate Plain(s: string, max: nat) { |s| <= max && forall c <- s :: !IsSeparator(c) }

  predicate Ends(s: string) { s != "" && IsSeparator(s[0]) }

  predicate WfDate(d: Datetime) {
    && |d.year| == 4 && |d.month| == 2 && |d.day| == 2 && |d.hours| == 2 && |d.minutes| == 2 && |d.seconds| == 2
    && Plain(d.year, 4) && Plain(d.month, 2) && Plain(d.day, 2)
    && Plain(d.hours, 2) && Plain(d.minutes, 2) && Plain(d.seconds, 2)
  }

  // ----- What readers make of printed pieces -----

  lemma ExpectIts(c: char, rest: string)
    ensures PExpect([c] + rest, c) == Parsed((), rest)
  {
  }

  /** A word comes back whole: it fills its width, or a separator follows. */
  lemma {:induction false} StringComesBack(w: string, max: nat, rest: string)
    requires Plain(w, max) && (|w| == max || Ends(rest))
    ensures PString(w + rest, max) == Parsed(w, rest)
    decreases |w|
  {
    if w == "" {
      assert w + rest == rest;
    } else {
      StringComesBack(w[1..], max - 1, rest);
      assert (w + rest)[1..] == w[1..] + rest;
      assert w == [w[0]] + w[1..];
    }
  }

  lemma DateComesBack(d: Datetime, rest: string)
    requires WfDate(d)
    ensures PDate(DateText(d, rest)) == Parsed(d, rest)
  {
    var s6 := d.seconds + rest;
    var s5 := d.minutes + ([':'] + s6);
    var s4 := d.hours + ([':'] + s5);
    var s3 := d.day + ([' '] + s4);
    var s2 := d.month + (['-'] + s3);
    StringComesBack(d.year, 4, ['-'] + s2);
    StringComesBack(d.month, 2, ['-'] + s3);
    StringComesBack(d.day, 2, [' '] + s4);
    StringComesBack(d.hours, 2, [':'] + s5);
    StringComesBack(d.minutes, 2, [':'] + s6);
    StringComesBack(d.seconds, 2, rest);
    ExpectIts('-', s2);
    ExpectIts('-', s3);
    ExpectIts(' ', s4);
    ExpectIts(':', s5);
    ExpectIts(':', s6);
  }

  lemma {:induction false} DigitPrefixOfDigits(s: string)
    requires AllDigits(s)
    ensures DigitPrefix(s) == s
  {
    if s != "" {
      assert AllDigits(s[1..]);
      DigitPrefixOfDigits(s[1..]);
    }
  }

  lemma StolOfDigits(s: string)
    requires AllDigits(s) && s != ""
    ensures Stol(s) == Some(Value(s))
  {
    assert IsDigit(s[0]);
    DigitPrefixOfDigits(s);
  }

  lemma DigitsArePlain(s: string, max: nat)
    requires AllDigits(s) && |s| <= max
    ensures Plain(s, max)
  {
  }

  /** A number comes back when its numeral fits the reader's width. */
  lemma NumberComesBack(n: nat, max: nat, rest: string)
    requires 1 <= max <= 8 && n < Pow10(max) && Ends(rest)
    ensures PNumber(Dec(n) + rest, max) == Parsed(n, rest)
  {
    DecWidth(n, max);
    DigitsArePlain(Dec(n), max);
    StringComesBack(Dec(n), max, rest);
    StolOfDigits(Dec(n));
    ValueOfDec(n);
    SmallNumber(n, max);
  }

  lemma {:induction false} SmallNumber(n: nat, max: nat)
    requires max <= 8 && n < Pow10(max)
    ensures Word(n) == n
  {
    Powers();
    assert Pow10(7) == 10 * Pow10(6);
    assert Pow10(0) == 1;
  }

  predicate WideUser(u: nat) { 100_000 <= u <= 999_999 }

  lemma UserText(u: nat)
    requires WideUser(u)
    ensures ValidUser(Dec(u)) && Value(Dec(u)) == u
  {
    Powers();
    DecWidth(u, 6);
    DecWidth(u, 5);
    ValueOfDec(u);
    if Dec(u) == "000000" {
      assert Dec(u) == Zeros(6) + "";
      ValueOfZeros(6, "");
    }
  }

  /** Unpadded ids below 100000 do not come back; the others do. */
  lemma UserComesBack(u: nat, rest: string)
    requires WideUser(u)
    ensures PUserId(Dec(u) + rest) == Parsed(u, rest)
  {
    UserText(u);
    DigitsArePlain(Dec(u), 6);
    StringComesBack(Dec(u), 6, rest);
  }

  lemma AuctionComesBack(a: nat, rest: string)
    requires a <= 999
    ensures PAuctionId(Pad(a, 3) + rest) == Parsed(a, rest)
  {
    Powers();
    PadValue(a, 3);
    DigitsArePlain(Pad(a, 3), 3);
    StringComesBack(Pad(a, 3), 3, rest);
  }

  lemma ValueComesBack(v: nat, rest: string)
    requires 1 <= v <= 999_999 && Ends(rest)
    ensures PAuctionValue(Dec(v) + rest) == Parsed(v, rest)
  {
    Powers();
    NumberComesBack(v, 6, rest);
  }

  lemma PasswordComesBack(p: string, rest: string)
    requires ValidPassword(p)
    ensures PPassword(p + rest) == Parsed(p, rest)
  {
    assert Plain(p, 8) by { assert forall c <- p :: IsAlnum(c); }
    StringComesBack(p, 8, rest);
  }

  lemma {:induction false} IdComesBack(code: string, rest: string)
    ensures PMessageId(code + rest, code) == Parsed((), rest)
  {
    if code == "" {
      assert code + rest == rest;
    } else {
      IdComesBack(code[1..], rest);
      assert (code + rest)[1..] == code[1..] + rest;
    }
  }
}
