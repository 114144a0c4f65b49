/** Characters, decimal printing (operator<< and sprintf) and the checks of verifications.cpp. */
module Text {

  predicate IsDigit(c: char) { '0' <= c <= '9' }

  predicate IsAlnum(c: char) { IsDigit(c) || 'a' <= c <= 'z' || 'A' <= c <= 'Z' }

  predicate IsPrint(c: char) { ' ' <= c <= '~' }

  predicate IsSpace(c: char) {
    c == ' ' || c == '\t' || c == '\n' || c == '\r' || c == '\U{0B}' || c == '\U{0C}'
  }

  predicate AllDigits(s: string) { forall c <- s :: IsDigit(c) }

  /** A nonempty word that operator>> and readString take whole. */
  predicate IsToken(s: string) { s != "" && forall c <- s :: !IsSpace(c) }

  function SkipSpaces(s: string): (t: string)
    ensures |t| <= |s| && (t != "" ==> !IsSpace(t[0]))
  {
    if s != "" && IsSpace(s[0]) then SkipSpaces(s[1..]) else s
  }

  /** The characters up to the first white space. */
  function FirstWord(s: string): (w: string)
    ensures |w| <= |s|
    ensures s != "" && !IsSpace(s[0]) ==> w != ""
  {
    if s == "" || IsSpace(s[0]) then "" else [s[0]] + FirstWord(s[1..])
  }

  /** What repeated operator>> takes from a stream. */
  function Words(s: string): seq<string>
    decreases |s|
  {
    var t := SkipSpaces(s);
    if t == "" then [] else [FirstWord(t)] + Words(t[|FirstWord(t)|..])
  }

  /** White space separates words: what stands before it and what stands after are read on their own. */
  lemma {:induction false} WordsSplit(s: string, c: char, t: string)
    requires c == ' ' || c == '\t' || c == '\n' || c == '\r' || c == '\U{0B}' || c == '\U{0C}'
    ensures Words(s + ([c] + t)) == Words(s) + Words(t)
    decreases |s|
  {
    var all := s + ([c] + t);
    if s == "" {
      assert all == [c] + t && all[1..] == t;
      assert Words(all) == Words(t);
    } else if IsSpace(s[0]) {
      assert all[1..] == s[1..] + ([c] + t);
      assert Words(all) == Words(all[1..]) && Words(s) == Words(s[1..]);
      WordsSplit(s[1..], c, t);
    } else {
      var w := FirstWord(s);
      FirstWordSame(s, [c] + t);
      assert all[|w|..] == s[|w|..] + ([c] + t);
      WordsSplit(s[|w|..], c, t);
    }
  }

  lemma {:induction false} FirstWordSame(s: string, t: string)
    requires t != "" && IsSpace(t[0])
    ensures FirstWord(s + t) == FirstWord(s)
  {
    if s == "" {
      assert s + t == t;
    } else {
      FirstWordSame(s[1..], t);
      assert (s + t)[1..] == s[1..] + t;
    }
  }

  lemma {:induction false} FirstWordOfToken(w: string)
    requires forall c <- w :: !IsSpace(c)
    ensures FirstWord(w) == w
  {
    if w != "" { FirstWordOfToken(w[1..]); }
  }

  lemma WordsOfToken(w: string)
    requires IsToken(w)
    ensures Words(w) == [w]
  {
    FirstWordOfToken(w);
    assert w[|w|..] == "";
  }

  lemma {:induction false} FirstWordIsToken(s: string)
    requires s != "" && !IsSpace(s[0])
    ensures IsToken(FirstWord(s))
  {
    if |s| > 1 && !IsSpace(s[1]) {
      FirstWordIsToken(s[1..]);
    }
  }

  lemma {:induction false} WordsAreTokens(s: string)
    ensures forall w <- Words(s) :: IsToken(w) && |w| <= |s|
    decreases |s|
  {
    var t := SkipSpaces(s);
    if t != "" {
      FirstWordIsToken(t);
      WordsAreTokens(t[|FirstWord(t)|..]);
    }
  }

  /** verify_user_id */
  predicate ValidUser(u: string) { |u| == 6 && u != "000000" && AllDigits(u) }

  /** verify_password */
  predicate ValidPassword(p: string) { |p| == 8 && forall c <- p :: IsAlnum(c) }

  /** verify_name */
  predicate ValidName(n: string) { |n| <= 24 && forall c <- n :: IsPrint(c) }

  function Digit(d: nat): (c: char)
    requires d < 10
    ensures IsDigit(c) && DigitValue(c) == d && c == "0123456789"[d]
  {
    ('0' as int + d) as char
  }

  function DigitValue(c: char): (d: nat)
    requires IsDigit(c)
    ensures d < 10
  {
    c as int - '0' as int
  }

  /** The decimal numeral of n without leading zeros. */
  function Dec(n: nat): (s: string)
    ensures s != "" && AllDigits(s)
  {
    if n < 10 then [Digit(n)] else Dec(n / 10) + [Digit(n % 10)]
  }

  /** The number that a string of digits denotes. */
  function Value(s: string): nat
    requires AllDigits(s)
  {
    if s == "" then 0 else 10 * Value(s[..|s| - 1]) + DigitValue(s[|s| - 1])
  }

  function Pow10(k: nat): (p: nat)
    ensures p >= 1
  {
    if k == 0 then 1 else 10 * Pow10(k - 1)
  }

  function Zeros(k: nat): (s: string)
    ensures |s| == k && forall c <- s :: c == '0'
  {
    if k == 0 then "" else Zeros(k - 1) + "0"
  }

  /** sprintf with "%0wd" */
  function Pad(n: nat, w: nat): (s: string)
    ensures AllDigits(s) && |s| >= w
  {
    var d := Dec(n);
    if |d| < w then Zeros(w - |d|) + d else d
  }

  lemma {:induction false} ValueOfDec(n: nat)
    ensures Value(Dec(n)) == n
  {
    if n >= 10 {
      ValueOfDec(n / 10);
      assert Dec(n)[..|Dec(n)| - 1] == Dec(n / 10);
    }
  }

  /** How many characters a numeral takes. */
  lemma {:induction false} DecWidth(n: nat, k: nat)
    requires k >= 1
    ensures |Dec(n)| <= k <==> n < Pow10(k)
  {
    if n >= 10 {
      if k > 1 {
        DecWidth(n / 10, k - 1);
      } else {
        assert Pow10(1) == 10 * Pow10(0);
      }
    } else {
      assert Pow10(k) >= 10;
    }
  }

  lemma {:induction false} ValueOfZeros(k: nat, s: string)
    requires AllDigits(s)
    ensures AllDigits(Zeros(k) + s) && Value(Zeros(k) + s) == Value(s)
  {
    var t := Zeros(k) + s;
    assert AllDigits(t);
    if s != "" {
      ValueOfZeros(k, s[..|s| - 1]);
      assert t[..|t| - 1] == Zeros(k) + s[..|s| - 1];
    } else if k > 0 {
      ValueOfZeros(k - 1, "");
      assert t[..|t| - 1] == Zeros(k - 1) + "";
    }
  }

  /** Zero padding neither changes the number nor, when it fits, exceeds the width. */
  lemma PadValue(n: nat, w: nat)
    requires w >= 1
    ensures Value(Pad(n, w)) == n
    ensures |Pad(n, w)| == w <==> n < Pow10(w)
  {
    var d := Dec(n);
    assert Value(d) == n by { ValueOfDec(n); }
    assert |d| <= w <==> n < Pow10(w) by { DecWidth(n, w); }
    if |d| < w {
      ValueOfZeros(w - |d|, d);
    }
  }

  /** Different numbers get different names: auction directories never collide. */
  lemma PadInjective(m: nat, n: nat, w: nat)
    requires w >= 1 && Pad(m, w) == Pad(n, w)
    ensures m == n
  {
    PadValue(m, w);
    PadValue(n, w);
  }

  /** A line is one word exactly when it has a character, and none of the six of white space. */
  lemma OneWord(s: string)
    ensures Words(s) == [s] <==> s != "" && forall c <- s :: c !in [' ', '\t', '\n', '\r', '\U{0B}', '\U{0C}']
  {
    if Words(s) == [s] {
      WordsAreTokens(s);
      assert s in Words(s);
    } else if IsToken(s) {
      WordsOfToken(s);
    }
  }

  lemma Powers()
    ensures Pow10(1) == 10 && Pow10(2) == 100 && Pow10(3) == 1000 && Pow10(4) == 10_000
    ensures Pow10(5) == 100_000 && Pow10(6) == 1_000_000 && Pow10(8) == 100_000_000
  {
    assert Pow10(2) == 10 * Pow10(1);
    assert Pow10(3) == 10 * Pow10(2);
    assert Pow10(4) == 10 * Pow10(3);
    assert Pow10(5) == 10 * Pow10(4);
    assert Pow10(6) == 10 * Pow10(5);
    assert Pow10(7) == 10 * Pow10(6);
    assert Pow10(8) == 10 * Pow10(7);
  }
}
