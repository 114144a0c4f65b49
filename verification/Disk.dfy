/**
 * The text of START, END and bid files: what CreateStartFile, CreateEndFile and CreateBidFile write
 * and what GetStart, GetEnd and GetBid make of it (src/server/database.cpp). It justifies module
 * Store, which keeps these files as records: they read back as exactly those records.
 */
module Disk {
  import opened Common
  import opened Text
  import opened Store
  import opened Wire
  import Paths

  /** The result of a Get function: -1 for a malformed line, an exception for a last word stol refuses. */
  datatype ReadBack<+T> = Read(value: T) | Malformed | NotANumber

  // ----- Writing -----

  predicate DigitDate(d: Datetime) {
    && |d.year| == 4 && |d.month| == 2 && |d.day| == 2 && |d.hours| == 2 && |d.minutes| == 2 && |d.seconds| == 2
    && AllDigits(d.year) && AllDigits(d.month) && AllDigits(d.day)
    && AllDigits(d.hours) && AllDigits(d.minutes) && AllDigits(d.seconds)
  }

  function StartText(d: Offer, u: string, date: Datetime, now: nat): string {
    Joined([u, d.name, d.fname, Dec(d.startValue), Dec(d.timeactive), Day(date), Clock(date), Dec(now)])
  }

  /** What fprintf("%s") writes of a line stops at a NUL. */
  function Printed(line: string): string { Paths.Cut(line) }

  function EndFileText(date: Datetime, elapsed: nat): string { Joined([Day(date), Clock(date), Dec(elapsed)]) }

  function BidFileText(u: string, v: nat, date: Datetime, elapsed: nat): string {
    Joined([u, Dec(v), Day(date), Clock(date), Dec(elapsed)])
  }

  // ----- Reading -----

  /** fgets with a buffer of n characters. */
  function FGets(s: string, n: nat): string
    requires n > 0
    decreases |s|
  {
    if n == 1 || s == "" then ""
    else if s[0] == '\n' then "\n"
    else [s[0]] + FGets(s[1..], n - 1)
  }

  datatype StartFile = StartFile(user: string, name: string, fname: string, startValue: string,
                                 timeactive: string, date: string, time: nat)

  datatype EndFile = EndFile(date: string, elapsed: nat)

  datatype BidFile = BidFile(user: string, value: string, date: string, elapsed: nat)

  function StartFromWords(w: seq<string>): ReadBack<StartFile> {
    if |w| != 8 then Malformed
    else match Stol(w[7])
      case None => NotANumber
      case Some(n) => Read(StartFile(w[0], w[1], w[2], w[3], w[4], w[5] + " " + w[6], Word(n)))
  }

  function EndFromWords(w: seq<string>): ReadBack<EndFile> {
    if |w| != 3 then Malformed
    else match Stol(w[2])
      case None => NotANumber
      case Some(n) => Read(EndFile(w[0] + " " + w[1], Word(n)))
  }

  function BidFromWords(w: seq<string>): ReadBack<BidFile> {
    if |w| != 5 then Malformed
    else match Stol(w[4])
      case None => NotANumber
      case Some(n) => Read(BidFile(w[0], w[1], w[2] + " " + w[3], Word(n)))
  }

  /** while (ss >> cont) parsed_content.push_back(cont) */
  method Tokenise(line: string) returns (words: seq<string>)
    ensures words == Words(line)
  {
    words := [];
    var rest := SkipSpaces(line);
    while rest != ""
      invariant rest != "" ==> !IsSpace(rest[0])
      invariant Words(line) == words + Words(rest)
      decreases |rest|
    {
      var w := FirstWord(rest);
      words := words + [w];
      rest := SkipSpaces(rest[|w|..]);
    }
  }

  /** GetStart, with -1 and the exception of stol as results. */
  method GetStart(text: string) returns (r: ReadBack<StartFile>)
    ensures r == StartFromWords(Words(FGets(text, 200)))
  {
    var w := Tokenise(FGets(text, 200));
    if |w| != 8 { return Malformed; }
    var n := Stol(w[7]);
    if n.None? { return NotANumber; }
    return Read(StartFile(w[0], w[1], w[2], w[3], w[4], w[5] + " " + w[6], Word(n.value)));
  }

  method GetEnd(text: string) returns (r: ReadBack<EndFile>)
    ensures r == EndFromWords(Words(FGets(text, 200)))
  {
    var w := Tokenise(FGets(text, 200));
    if |w| != 3 { return Malformed; }
    var n := Stol(w[2]);
    if n.None? { return NotANumber; }
    return Read(EndFile(w[0] + " " + w[1], Word(n.value)));
  }

  method GetBid(text: string) returns (r: ReadBack<BidFile>)
    ensures r == BidFromWords(Words(FGets(text, 100)))
  {
    var w := Tokenise(FGets(text, 100));
    if |w| != 5 { return Malformed; }
    var n := Stol(w[4]);
    if n.None? { return NotANumber; }
    return Read(BidFile(w[0], w[1], w[2] + " " + w[3], Word(n.value)));
  }

  // ----- Lines are read whole -----

  predicate OneLine(s: string) { '\n' !in s }

  lemma {:induction false} FGetsWhole(s: string, n: nat)
    requires OneLine(s) && |s| < n
    ensures FGets(s, n) == s
  {
    if s != "" {
      assert s[0] in s && OneLine(s[1..]);
      FGetsWhole(s[1..], n - 1);
    }
  }

  /** Fields on one line, of at most k characters each. */
  predicate Fields(fields: seq<string>, k: nat) {
    fields != [] && forall w <- fields :: OneLine(w) && |w| <= k
  }

  lemma OneMoreRow(n: nat, width: nat)
    ensures (n + 1) * width == width + n * width
  {
  }

  lemma {:induction false} JoinedFits(fields: seq<string>, k: nat)
    requires Fields(fields, k)
    ensures OneLine(Joined(fields)) && |Joined(fields)| < |fields| * (k + 1)
  {
    assert fields[0] in fields;
    if |fields| > 1 {
      var rest := fields[1..];
      assert Fields(rest, k) by { assert forall w <- rest :: w in fields; }
      JoinedFits(rest, k);
      Cons(fields[0], Joined(rest));
      OneMoreRow(|rest|, k + 1);
    }
  }

  lemma Cons(s: string, t: string)
    requires OneLine(s) && OneLine(t)
    ensures OneLine(s + Sp(t)) && |s + Sp(t)| == |s| + 1 + |t|
  {
  }

  /** Words separated by spaces are read back. */
  lemma {:induction false} TokensComeBack(words: seq<string>)
    requires words != [] && forall w <- words :: IsToken(w)
    ensures Words(Joined(words)) == words
  {
    assert words[0] in words;
    WordsOfToken(words[0]);
    if |words| == 1 {
      assert words == [words[0]];
    } else {
      TokensComeBack(words[1..]);
      WordsSplit(words[0], ' ', Joined(words[1..]));
      assert [words[0]] + words[1..] == words;
    }
  }

  /** What fgets and the stream make of a line of words. */
  lemma WordsAreRead(words: seq<string>, k: nat, n: nat)
    requires words != [] && (forall w <- words :: Field(w, k)) && |words| * (k + 1) <= n
    ensures Words(FGets(Joined(words), n)) == words
  {
    JoinedFits(words, k);
    FGetsWhole(Joined(words), n);
    TokensComeBack(words);
  }

  // ----- The fields -----

  predicate Field(w: string, k: nat) { IsToken(w) && OneLine(w) && |w| <= k }

  lemma DigitsAreField(s: string, k: nat)
    requires AllDigits(s) && 0 < |s| <= k
    ensures Field(s, k)
  {
  }

  lemma NumberIsField(n: nat)
    requires n < WORD
    ensures Field(Dec(n), 10) && Stol(Dec(n)) == Some(n)
  {
    Powers();
    assert Pow10(9) == 10 * Pow10(8) && Pow10(10) == 10 * Pow10(9);
    DecWidth(n, 10);
    DigitsAreField(Dec(n), 10);
    StolOfDigits(Dec(n));
    ValueOfDec(n);
  }

  lemma Glued(a: string, c: char, b: string, k: nat)
    requires Field(a, k) && Field(b, k) && !IsSpace(c)
    ensures Field(a + ([c] + b), |a| + 1 + |b|)
  {
  }

  lemma DateIsFields(d: Datetime)
    requires DigitDate(d)
    ensures Field(Day(d), 10) && Field(Clock(d), 10)
  {
    DigitsAreField(d.year, 10);
    DigitsAreField(d.month, 10);
    DigitsAreField(d.day, 10);
    DigitsAreField(d.hours, 10);
    DigitsAreField(d.minutes, 10);
    DigitsAreField(d.seconds, 10);
    Glued(d.month, '-', d.day, 10);
    Glued(d.year, '-', d.month + (['-'] + d.day), 10);
    Glued(d.minutes, ':', d.seconds, 10);
    Glued(d.hours, ':', d.minutes + ([':'] + d.seconds), 10);
  }

  // ----- Round trips -----

  lemma EndLine(day: string, clock: string, last: string, elapsed: nat)
    requires Field(day, 10) && Field(clock, 10) && Field(last, 10)
    requires Stol(last) == Some(elapsed) && elapsed < WORD
    ensures EndFromWords(Words(FGets(Joined([day, clock, last]), 200))) == Read(EndFile(day + " " + clock, elapsed))
  {
    var words := [day, clock, last];
    assert Words(FGets(Joined(words), 200)) == words by { WordsAreRead(words, 10, 200); }
  }

  /** END reads back as the record the model keeps. */
  lemma EndFileComesBack(date: Datetime, elapsed: nat)
    requires DigitDate(date) && elapsed < WORD
    ensures EndFromWords(Words(FGets(EndFileText(date, elapsed), 200))) == Read(EndFile(Day(date) + " " + Clock(date), elapsed))
  {
    DateIsFields(date);
    NumberIsField(elapsed);
    EndLine(Day(date), Clock(date), Dec(elapsed), elapsed);
  }

  lemma BidLine(u: string, v: string, day: string, clock: string, last: string, elapsed: nat)
    requires Field(u, 10) && Field(v, 10) && Field(day, 10) && Field(clock, 10) && Field(last, 10)
    requires Stol(last) == Some(elapsed) && elapsed < WORD
    ensures BidFromWords(Words(FGets(Joined([u, v, day, clock, last]), 100))) == Read(BidFile(u, v, day + " " + clock, elapsed))
  {
    var words := [u, v, day, clock, last];
    assert Words(FGets(Joined(words), 100)) == words by { WordsAreRead(words, 10, 100); }
  }

  /** A bid file reads back as the record the model keeps. */
  lemma BidFileComesBack(u: string, v: nat, date: Datetime, elapsed: nat)
    requires ValidUser(u) && v < WORD && elapsed < WORD && DigitDate(date)
    ensures BidFromWords(Words(FGets(BidFileText(u, v, date, elapsed), 100))) ==
            Read(BidFile(u, Dec(v), Day(date) + " " + Clock(date), elapsed))
  {
    DigitsAreField(u, 10);
    NumberIsField(v);
    DateIsFields(date);
    NumberIsField(elapsed);
    BidLine(u, Dec(v), Day(date), Clock(date), Dec(elapsed), elapsed);
  }

  /** The fields that follow the names in START. */
  function StartTail(d: Offer, date: Datetime, now: nat): seq<string> {
    [Dec(d.startValue), Dec(d.timeactive), Day(date), Clock(date), Dec(now)]
  }

  lemma StartTailFields(d: Offer, date: Datetime, now: nat)
    requires StartAccepted(d) && DigitDate(date) && now < WORD
    ensures forall w <- StartTail(d, date, now) :: Field(w, 24)
  {
    NumberIsField(d.startValue);
    NumberIsField(d.timeactive);
    DateIsFields(date);
    NumberIsField(now);
  }

  lemma NamesAreFields(d: Offer)
    requires ValidName(d.name) && Plain(d.fname, 24)
    ensures Fields([d.name, d.fname], 24)
  {
  }

  /** START is read whole, as the host's id, the words of the names, and the rest. */
  lemma StartLine(u: string, name: string, fname: string, tail: seq<string>)
    requires Field(u, 24) && Fields([name, fname], 24)
    requires |tail| == 5 && forall w <- tail :: Field(w, 24)
    ensures Words(FGets(Joined([u] + ([name, fname] + tail)), 200)) == [u] + (Words(name + " " + fname) + tail)
  {
    var names := [name, fname];
    var fields := [u] + (names + tail);
    assert FGets(Joined(fields), 200) == Joined(fields) by {
      assert Fields(fields, 24);
      JoinedFits(fields, 24);
      FGetsWhole(Joined(fields), 200);
    }
    assert Joined(names) == name + " " + fname;
    assert Words(Joined(names + tail)) == Words(name + " " + fname) + tail by {
      JoinedAppend(names, tail);
      WordsSplit(Joined(names), ' ', Joined(tail));
      TokensComeBack(tail);
    }
    JoinedAppend([u], names + tail);
    WordsSplit(u, ' ', Joined(names + tail));
    WordsOfToken(u);
  }

  lemma StartWords(d: Offer, u: string, date: Datetime, now: nat)
    requires ValidUser(u) && StartAccepted(d) && Plain(d.fname, 24) && DigitDate(date) && now < WORD
    ensures Words(FGets(StartText(d, u, date, now), 200)) ==
            [u] + (Words(d.name + " " + d.fname) + StartTail(d, date, now))
  {
    var tail := StartTail(d, date, now);
    assert Words(FGets(Joined([u] + ([d.name, d.fname] + tail)), 200)) == [u] + (Words(d.name + " " + d.fname) + tail) by {
      StartTailFields(d, date, now);
      NamesAreFields(d);
      DigitsAreField(u, 24);
      StartLine(u, d.name, d.fname, tail);
    }
    assert [u] + ([d.name, d.fname] + tail) ==
      [u, d.name, d.fname, Dec(d.startValue), Dec(d.timeactive), Day(date), Clock(date), Dec(now)];
  }

  // ----- NUL -----

  lemma {:induction false} NulInJoined(fields: seq<string>)
    requires fields != []
    ensures '\0' in Joined(fields) <==> exists w <- fields :: '\0' in w
  {
    if |fields| == 1 {
      assert fields == [fields[0]];
    } else {
      NulInJoined(fields[1..]);
      assert fields == [fields[0]] + fields[1..];
    }
  }

  lemma DigitsHaveNoNul(s: string)
    requires AllDigits(s)
    ensures '\0' !in s
  {
  }

  lemma DateHasNoNul(d: Datetime)
    requires DigitDate(d)
    ensures '\0' !in Day(d) && '\0' !in Clock(d)
  {
    DigitsHaveNoNul(d.year);
    DigitsHaveNoNul(d.month);
    DigitsHaveNoNul(d.day);
    DigitsHaveNoNul(d.hours);
    DigitsHaveNoNul(d.minutes);
    DigitsHaveNoNul(d.seconds);
  }

  /** START is written whole exactly when the file name has no NUL. */
  lemma StartIsWhole(d: Offer, u: string, date: Datetime, now: nat)
    requires ValidUser(u) && StartAccepted(d) && DigitDate(date)
    ensures Printed(StartText(d, u, date, now)) == StartText(d, u, date, now) <==> '\0' !in d.fname
  {
    DigitsHaveNoNul(u);
    DigitsHaveNoNul(Dec(d.startValue));
    DigitsHaveNoNul(Dec(d.timeactive));
    DigitsHaveNoNul(Dec(now));
    DateHasNoNul(date);
    var fields := [u, d.name, d.fname, Dec(d.startValue), Dec(d.timeactive), Day(date), Clock(date), Dec(now)];
    NulInJoined(fields);
    assert '\0' in d.fname ==> fields[2] in fields;
    Paths.CutWhole(StartText(d, u, date, now));
  }

  /** Cut at a NUL in the file name, the line has three words and is no START. */
  lemma CutStart(d: Offer, u: string, v: string, w: string, date: Datetime, now: nat)
    requires ValidUser(u) && StartAccepted(d) && IsToken(d.name)
    requires IsToken(v) && '\0' !in v && |v| <= 24 && d.fname == v + (['\0'] + w)
    ensures Words(FGets(Printed(StartText(d, u, date, now)), 200)) == [u, d.name, v]
  {
    DigitsHaveNoNul(u);
    var names, line := [u, d.name, v], Joined([u, d.name, v]);
    var tail := [Dec(d.startValue), Dec(d.timeactive), Day(date), Clock(date), Dec(now)];
    var rest := w + Sp(Joined(tail));
    assert StartText(d, u, date, now) == line + (['\0'] + rest) by {
      CutShape(d, u, v, w, tail);
      assert [u, d.name, d.fname] + tail ==
        [u, d.name, d.fname, Dec(d.startValue), Dec(d.timeactive), Day(date), Clock(date), Dec(now)];
    }
    assert '\0' !in line by { NulInJoined(names); }
    Paths.CutAt(line, rest);
    assert Words(FGets(line, 200)) == names by {
      DigitsAreField(u, 24);
      assert Field(d.name, 24) && Field(v, 24);
      WordsAreRead(names, 24, 200);
    }
  }

  lemma CutShape(d: Offer, u: string, v: string, w: string, tail: seq<string>)
    requires tail != [] && d.fname == v + (['\0'] + w)
    ensures Joined([u, d.name, d.fname] + tail) == Joined([u, d.name, v]) + (['\0'] + (w + Sp(Joined(tail))))
  {
    JoinedAppend([u, d.name, d.fname], tail);
    Joined3(u, d.name, d.fname);
    Joined3(u, d.name, v);
    var front := u + Sp(d.name + Sp(v));
    assert u + Sp(d.name + Sp(d.fname)) == front + (['\0'] + w);
  }

  lemma Joined3(a: string, b: string, c: string)
    ensures Joined([a, b, c]) == a + Sp(b + Sp(c))
  {
    assert [a, b, c][1..] == [b, c] && [b, c][1..] == [c];
    assert Joined([c]) == c;
    assert Joined([b, c]) == b + Sp(Joined([c]));
  }

  /** What GetStart gives for a START of the model. */
  function StartFileOf(s: StartInfo, fmt: nat -> Datetime): StartFile {
    StartFile(s.user, s.name, s.fname, Dec(s.startValue), Dec(s.timeactive),
              Day(fmt(s.time)) + " " + Clock(fmt(s.time)), s.time)
  }

  /** What GetStart makes of the words of a line with the five fields behind the names. */
  lemma NamesDecide(u: string, names: seq<string>, sv: string, ta: string, day: string, clock: string, last: string, now: nat)
    requires Stol(last) == Some(now) && now < WORD
    ensures StartFromWords([u] + (names + [sv, ta, day, clock, last])) ==
            if |names| == 2 then Read(StartFile(u, names[0], names[1], sv, ta, day + " " + clock, now)) else Malformed
  {
  }

  /**
   * START reads back exactly when the two names make two words, and then as the record the model
   * keeps; otherwise GetStart rejects it, and the auction exists without a readable START.
   */
  lemma StartFileComesBack(d: Offer, u: string, fmt: nat -> Datetime, now: nat)
    requires ValidUser(u) && StartAccepted(d) && Plain(d.fname, 24) && '\0' !in d.fname
    requires DigitDate(fmt(now)) && now < WORD
    ensures StartFromWords(Words(FGets(Printed(StartText(d, u, fmt(now), now)), 200))) ==
            match StartWritten(d, u, now)
            case Some(s) => Read(StartFileOf(s, fmt))
            case None => Malformed
  {
    var date := fmt(now);
    assert Printed(StartText(d, u, date, now)) == StartText(d, u, date, now) by { StartIsWhole(d, u, date, now); }
    StartWords(d, u, date, now);
    NumberIsField(now);
    NamesDecide(u, Words(d.name + " " + d.fname), Dec(d.startValue), Dec(d.timeactive), Day(date), Clock(date), Dec(now), now);
  }

  /** It comes back unchanged exactly when both names are single words. */
  lemma StartUnchanged(d: Offer)
    ensures IsToken(d.name) && IsToken(d.fname) ==> Readable(d)
    ensures Readable(d) && IsToken(d.name) ==> AsRead(d).name == d.name
    ensures Readable(d) && AsRead(d) == d ==> IsToken(d.name) && IsToken(d.fname)
    ensures IsToken(d.name) && IsToken(d.fname) ==> AsRead(d) == d
  {
    assert d.name + " " + d.fname == d.name + ([' '] + d.fname);
    WordsSplit(d.name, ' ', d.fname);
    if IsToken(d.name) {
      WordsOfToken(d.name);
      if IsToken(d.fname) { WordsOfToken(d.fname); }
    }
    if Readable(d) {
      WordsAreTokens(d.name + " " + d.fname);
      assert AsRead(d).name in Words(d.name + " " + d.fname);
      assert AsRead(d).fname in Words(d.name + " " + d.fname);
    }
  }

  // ----- Dates as the handlers read them -----

  /** convert_str_to_date: scan the six numbers, print them again with leading zeros. */
  function ConvertStrToDate(s: string): Datetime
    requires |s| == 19 && forall i :: 0 <= i < 19 && i !in {4, 7, 10, 13, 16} ==> IsDigit(s[i])
  {
    Datetime(Reprint(s[0..4]), Reprint(s[5..7]), Reprint(s[8..10]), Reprint(s[11..13]), Reprint(s[14..16]), Reprint(s[17..19]))
  }

  function Reprint(s: string): string
    requires AllDigits(s)
  {
    Pad(Value(s), |s|)
  }

  lemma {:induction false} SameDigits(s: string, t: string)
    requires AllDigits(s) && AllDigits(t) && |s| == |t| && Value(s) == Value(t)
    ensures s == t
  {
    if s != "" {
      var n := |s| - 1;
      assert AllDigits(s[..n]) && AllDigits(t[..n]);
      assert s[n] in s && t[n] in t;
      SameDigits(s[..n], t[..n]);
      assert s == s[..n] + [s[n]] && t == t[..n] + [t[n]];
    }
  }

  lemma {:induction false} ValueWidth(s: string)
    requires AllDigits(s)
    ensures Value(s) < Pow10(|s|)
  {
    if s != "" {
      assert AllDigits(s[..|s| - 1]);
      ValueWidth(s[..|s| - 1]);
    }
  }

  lemma ReprintSame(s: string)
    requires AllDigits(s) && s != ""
    ensures Reprint(s) == s
  {
    ValueWidth(s);
    PadValue(Value(s), |s|);
    SameDigits(Pad(Value(s), |s|), s);
  }

  lemma DateSlices(d: Datetime)
    requires DigitDate(d)
    ensures var s := Day(d) + " " + Clock(d);
            && |s| == 19
            && s[0..4] == d.year && s[5..7] == d.month && s[8..10] == d.day
            && s[11..13] == d.hours && s[14..16] == d.minutes && s[17..19] == d.seconds
  {
    var day, t := Day(d), Clock(d);
    var s := day + " " + t;
    assert day[0..4] == d.year && day[5..7] == d.month && day[8..10] == d.day;
    assert t[0..2] == d.hours && t[3..5] == d.minutes && t[6..8] == d.seconds;
    assert s[..10] == day && s[11..] == t;
    assert s[0..4] == day[0..4] && s[5..7] == day[5..7] && s[8..10] == day[8..10];
    assert s[11..13] == t[0..2] && s[14..16] == t[3..5] && s[17..19] == t[6..8];
  }

  lemma SliceDigits(s: string, i: nat, j: nat)
    requires i <= j <= |s| && AllDigits(s[i..j])
    ensures forall k :: i <= k < j ==> IsDigit(s[k])
  {
    forall k | i <= k < j ensures IsDigit(s[k]) {
      assert s[i..j][k - i] == s[k];
    }
  }

  /** The handlers get back the date that was stamped. */
  lemma DateSurvives(d: Datetime)
    requires DigitDate(d)
    ensures var s := Day(d) + " " + Clock(d);
            && |s| == 19 && (forall i :: 0 <= i < 19 && i !in {4, 7, 10, 13, 16} ==> IsDigit(s[i]))
            && ConvertStrToDate(s) == d
  {
    var s := Day(d) + " " + Clock(d);
    DateSlices(d);
    SliceDigits(s, 0, 4);
    SliceDigits(s, 5, 7);
    SliceDigits(s, 8, 10);
    SliceDigits(s, 11, 13);
    SliceDigits(s, 14, 16);
    SliceDigits(s, 17, 19);
    ReprintSame(d.year);
    ReprintSame(d.month);
    ReprintSame(d.day);
    ReprintSame(d.hours);
    ReprintSame(d.minutes);
    ReprintSame(d.seconds);
  }

  // ----- Write, then read -----

  /** CreateStartFile and GetStart: what is found again is what module Store says is there. */
  method StartAgain(d: Offer, u: string, fmt: nat -> Datetime, now: nat) returns (r: ReadBack<StartFile>)
    requires ValidUser(u) && StartAccepted(d) && Plain(d.fname, 24) && '\0' !in d.fname
    requires DigitDate(fmt(now)) && now < WORD
    ensures match StartWritten(d, u, now)
            case Some(s) => r == Read(StartFileOf(s, fmt))
            case None => r == Malformed
  {
    StartFileComesBack(d, u, fmt, now);
    r := GetStart(Printed(StartText(d, u, fmt(now), now)));
  }

  /** CreateEndFile and GetEnd */
  method EndAgain(date: Datetime, elapsed: nat) returns (r: ReadBack<EndFile>)
    requires DigitDate(date) && elapsed < WORD
    ensures r == Read(EndFile(Day(date) + " " + Clock(date), elapsed))
  {
    EndFileComesBack(date, elapsed);
    r := GetEnd(EndFileText(date, elapsed));
  }

  /** CreateBidFile and GetBid */
  method BidAgain(u: string, v: nat, date: Datetime, elapsed: nat) returns (r: ReadBack<BidFile>)
    requires ValidUser(u) && v < WORD && elapsed < WORD && DigitDate(date)
    ensures r == Read(BidFile(u, Dec(v), Day(date) + " " + Clock(date), elapsed))
  {
    BidFileComesBack(u, v, date, elapsed);
    r := GetBid(BidFileText(u, v, date, elapsed));
  }
}
