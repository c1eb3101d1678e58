/** What texts stand for, told by their characters: escapes as UTF-16 units, numbers as exact decimals, nesting. */
module JsonTexts {
  import opened Basics
  import opened Letters
  import opened JsonGrammar
  import opened JsonParsing

  // Hexadecimal digits, whitespace and short escapes.

  const LOWER_DIGITS := "0123456789abcdef"
  const UPPER_DIGITS := "0123456789ABCDEF"

  /** The character is the digit, in either case. */
  predicate DigitIs(c: char, d: nat) {
    d < 16 && (c == LOWER_DIGITS[d] || c == UPPER_DIGITS[d])
  }

  lemma HexValueIs(c: char, d: nat)
    ensures HexValue(c) == Some(d) <==> DigitIs(c, d)
  {
  }

  lemma SpaceIs(c: char)
    ensures IsSpace(c) <==> c as int in {9, 10, 13, 32}
  {
  }

  /** RFC 8259, section 7: the character behind the backslash and the one that it stands for. */
  lemma SimpleIs(e: char, c: char)
    ensures Simple(e) == Some(c) <==>
      (e in "\"\\/" && c == e) || (e as int, c as int) in {(98, 8), (102, 12), (110, 10), (114, 13), (116, 9)}
  {
  }

  /** Four hexadecimal digits that spell a number. */
  predicate Spells(s: string, n: nat) {
    |s| == 4 && DigitIs(s[0], n / 4096) && DigitIs(s[1], n / 256 % 16) && DigitIs(s[2], n / 16 % 16) &&
      DigitIs(s[3], n % 16)
  }

  lemma FourDigits(t: string, i: nat, a: nat, b: nat, c: nat, d: nat)
    requires i + 4 <= |t| && DigitIs(t[i], a) && DigitIs(t[i + 1], b) && DigitIs(t[i + 2], c) && DigitIs(t[i + 3], d)
    ensures Hex4At(t, i) == Some(((a * 16 + b) * 16 + c) * 16 + d)
  {
    HexValueIs(t[i], a);
    HexValueIs(t[i + 1], b);
    HexValueIs(t[i + 2], c);
    HexValueIs(t[i + 3], d);
    hide HexValue, DigitIs;
    var k := 0;
    assert HexAt(t, i, k) == Some(0);
    assert HexAt(t, i, k + 1) == Some(a);
    assert HexAt(t, i, k + 2) == Some(a * 16 + b);
    assert HexAt(t, i, k + 3) == Some((a * 16 + b) * 16 + c);
    assert HexAt(t, i, k + 4) == Some(((a * 16 + b) * 16 + c) * 16 + d);
  }

  lemma SpelledReads(t: string, i: nat, s: string, n: nat)
    requires Spells(s, n) && Holds(t, i, s)
    ensures Hex4At(t, i) == Some(n)
  {
    SpelledHere(t, i, s, n);
    hide Spells, DigitIs, Hex4At, Holds, HexValue, HexAt;
    var a, b, c, d := n / 4096, n / 256 % 16, n / 16 % 16, n % 16;
    Joined(n);
    FourDigits(t, i, a, b, c, d);
  }

  lemma SpelledHere(t: string, i: nat, s: string, n: nat)
    requires Spells(s, n) && Holds(t, i, s)
    ensures i + 4 <= |t| && DigitIs(t[i], n / 4096) && DigitIs(t[i + 1], n / 256 % 16)
    ensures DigitIs(t[i + 2], n / 16 % 16) && DigitIs(t[i + 3], n % 16)
  {
    hide DigitIs;
    var piece := t[i..i + 4];
    assert piece[0] == t[i] && piece[1] == t[i + 1] && piece[2] == t[i + 2] && piece[3] == t[i + 3];
  }

  lemma Joined(n: nat)
    ensures ((n / 4096 * 16 + n / 256 % 16) * 16 + n / 16 % 16) * 16 + n % 16 == n
  {
    var a, b, c := n / 16, n / 256, n / 4096;
    assert b == a / 16 && c == b / 16;
    assert c * 16 + b % 16 == b;
    assert b * 16 + a % 16 == a;
  }

  // Code points.

  /** The two UTF-16 units of a code point beyond the first plane. */
  function HighUnit(code: nat): nat
    requires 0x10000 <= code < 0x110000
  {
    0xD800 + (code - 0x10000) / 1024
  }

  function LowUnit(code: nat): nat
    requires 0x10000 <= code < 0x110000
  {
    0xDC00 + (code - 0x10000) % 1024
  }

  lemma PairIs(code: nat)
    requires 0x10000 <= code < 0x110000
    ensures High(HighUnit(code)) && Low(LowUnit(code)) && Pair(HighUnit(code), LowUnit(code)) == code
  {
  }

  /** An escaped code point is read as the bytes that encode it. */
  lemma EscapedPair(code: nat, a: string, b: string)
    requires 0x10000 <= code < 0x110000 && Spells(a, HighUnit(code)) && Spells(b, LowUnit(code))
    ensures var v := ParseJson("\"\\u" + a + "\\u" + b + "\"");
      v.Some? && v.value.String? && CodePoint(v.value.text) == Some(code)
  {
    hide Spells, Hex4At, CodePoint, Utf8;
    assert |a| == 4 && |b| == 4 by { SpelledSize(a, HighUnit(code)); SpelledSize(b, LowUnit(code)); }
    var t := "\"\\u" + a + "\\u" + b + "\"";
    assert t[3..7] == a && t[9..13] == b && t[7..9] == "\\u" && t[13] == '"';
    SpelledReads(t, 3, a, HighUnit(code));
    SpelledReads(t, 9, b, LowUnit(code));
    PairIs(code);
    hide Pair, HighUnit, LowUnit, High, Low;
    assert EscapeAt(t, 2) == Parsed(Utf8(code), 13);
    OneEscape(t, 13, Utf8(code));
    EncodesExactly(Utf8(code), code);
  }

  lemma SpelledSize(a: string, n: nat)
    requires Spells(a, n)
    ensures |a| == 4
  {
  }

  /** A text that is one escape between quotes. */
  lemma OneEscape(t: string, end: nat, s: string)
    requires |t| == end + 1 && end >= 3 && t[0] == '"' && t[1] == '\\' && t[end] == '"' &&
      EscapeAt(t, 2) == Parsed(s, end)
    ensures ParseJson(t) == Some(String(s))
  {
    hide EscapeAt;
    assert StringRest(t, end, s) == Parsed(s, end + 1);
    assert "" + s == s;
    assert StringRest(t, 1, "") == Parsed(s, end + 1);
    assert StringAt(t, 0) == Parsed(s, end + 1);
    hide StringRest, StringAt;
    SkipStops(t, 0, 0);
    SkipStops(t, |t|, |t|);
  }

  /** A text that is one bad escape between quotes. */
  lemma NoEscape(t: string)
    requires |t| >= 2 && t[0] == '"' && t[1] == '\\' && EscapeAt(t, 2).Failed?
    ensures ParseJson(t) == None
  {
    hide EscapeAt;
    assert StringRest(t, 1, "").Failed?;
    SkipStops(t, 0, 0);
  }

  /** A code point of the first plane, escaped as one unit. */
  lemma EscapedUnit(code: nat, a: string)
    requires code < 0x10000 && !(0xD800 <= code < 0xE000) && Spells(a, code)
    ensures var v := ParseJson("\"\\u" + a + "\""); v.Some? && v.value.String? && CodePoint(v.value.text) == Some(code)
  {
    hide Spells, Hex4At, CodePoint, Utf8;
    SpelledSize(a, code);
    var t := "\"\\u" + a + "\"";
    assert t[3..7] == a && t[7] == '"';
    SpelledReads(t, 3, a, code);
    OneEscape(t, 7, Utf8(code));
    EncodesExactly(Utf8(code), code);
  }

  /** Half a pair is no code point. */
  lemma LoneSurrogate(code: nat, a: string)
    requires 0xD800 <= code < 0xE000 && Spells(a, code)
    ensures ParseJson("\"\\u" + a + "\"") == None
  {
    hide Spells, Hex4At;
    SpelledSize(a, code);
    var t := "\"\\u" + a + "\"";
    assert t[3..7] == a && t[7] == '"';
    SpelledReads(t, 3, a, code);
    NoEscape(t);
  }

  /** Two units that are no pair in this order. */
  lemma WrongPair(first: nat, second: nat, a: string, b: string)
    requires 0xD800 <= first < 0xE000 && second < 0x10000 && !(first < 0xDC00 <= second < 0xE000)
    requires Spells(a, first) && Spells(b, second)
    ensures ParseJson("\"\\u" + a + "\\u" + b + "\"") == None
  {
    hide Spells, Hex4At;
    SpelledSize(a, first);
    SpelledSize(b, second);
    var t := "\"\\u" + a + "\\u" + b + "\"";
    assert t[3..7] == a && t[9..13] == b && t[7..9] == "\\u";
    SpelledReads(t, 3, a, first);
    SpelledReads(t, 9, b, second);
    NoEscape(t);
  }

  /** A short escape, as a whole text. */
  lemma ShortEscape(e: char)
    ensures ParseJson(['"', '\\', e, '"']) ==
      if e in "\"\\/" then Some(String([e]))
      else if e == 'b' then Some(String([8 as char]))
      else if e == 'f' then Some(String([12 as char]))
      else if e == 'n' then Some(String([10 as char]))
      else if e == 'r' then Some(String([13 as char]))
      else if e == 't' then Some(String([9 as char]))
      else None
  {
    var t := ['"', '\\', e, '"'];
    if Simple(e).Some? { OneEscape(t, 3, [Simple(e).value]); } else { NoEscape(t); }
  }

  /** Any other character stands for itself, except control characters, quotes and backslashes. */
  lemma PlainCharacter(c: char)
    requires c != '\\'
    ensures ParseJson(['"', c, '"']) == if c as int >= 32 && c != '"' then Some(String([c])) else None
  {
    var t := ['"', c, '"'];
    SkipStops(t, 0, 0);
    SkipStops(t, 3, 3);
    if c as int >= 32 && c != '"' {
      assert StringRest(t, 2, [c]) == Parsed([c], 3);
      assert "" + [c] == [c];
      assert StringAt(t, 0) == Parsed([c], 3);
    } else if c == '"' {
      assert StringAt(t, 0) == Parsed("", 2);
    } else {
      assert StringAt(t, 0).Failed?;
    }
  }

  // Bytes.

  /** The order of texts byte by byte. */
  ghost predicate Before(s: string, t: string) {
    exists i :: 0 <= i < |s| && i < |t| && s[..i] == t[..i] && s[i] < t[i]
  }

  lemma DigitsDiffer(a: nat, b: nat)
    requires a < b
    ensures a / 64 < b / 64 || (a / 64 == b / 64 && a % 64 < b % 64)
  {
  }

  lemma DifferAt(s: string, t: string, i: nat)
    requires i < |s| && i < |t| && s[..i] == t[..i] && s[i] < t[i]
    ensures Before(s, t)
  {
  }

  lemma ThreeInOrder(a: nat, b: nat)
    requires 0x800 <= a < b < 0x10000
    ensures Before(Utf8(a), Utf8(b))
  {
    var s, t := Utf8(a), Utf8(b);
    DigitsDiffer(a, b);
    assert a / 64 / 64 == a / 4096 && b / 64 / 64 == b / 4096;
    if a / 64 == b / 64 {
      DifferAt(s, t, 2);
    } else {
      DigitsDiffer(a / 64, b / 64);
      if a / 4096 == b / 4096 { DifferAt(s, t, 1); } else { DifferAt(s, t, 0); }
    }
  }

  lemma FourInOrder(a: nat, b: nat)
    requires 0x10000 <= a < b < 0x110000
    ensures Before(Utf8(a), Utf8(b))
  {
    var s, t := Utf8(a), Utf8(b);
    DigitsDiffer(a, b);
    assert a / 64 / 64 == a / 4096 && b / 64 / 64 == b / 4096;
    assert a / 4096 / 64 == a / 262144 && b / 4096 / 64 == b / 262144;
    if a / 64 == b / 64 {
      DifferAt(s, t, 3);
    } else {
      DigitsDiffer(a / 64, b / 64);
      if a / 4096 == b / 4096 {
        DifferAt(s, t, 2);
      } else {
        DigitsDiffer(a / 4096, b / 4096);
        if a / 262144 == b / 262144 { DifferAt(s, t, 1); } else { DifferAt(s, t, 0); }
      }
    }
  }

  /** Encoding keeps the order of code points, which with the shortest forms leaves no other encoding. */
  lemma EncodingKeepsOrder(a: nat, b: nat)
    requires a < b < 0x110000
    ensures Before(Utf8(a), Utf8(b))
  {
    var s, t := Utf8(a), Utf8(b);
    if 0x10000 <= a { FourInOrder(a, b); }
    else if 0x800 <= a && b < 0x10000 { ThreeInOrder(a, b); }
    else if 0x80 <= a && b < 0x800 {
      DigitsDiffer(a, b);
      if a / 64 == b / 64 { DifferAt(s, t, 1); } else { DifferAt(s, t, 0); }
    } else {
      DifferAt(s, t, 0);
    }
  }

  lemma KnownEncodings()
    ensures Utf8(0x41) == "A" && Utf8(0xe9) == [0xc3 as char, 0xa9 as char]
    ensures Utf8(0x20ac) == [0xe2 as char, 0x82 as char, 0xac as char]
    ensures Utf8(0x1f600) == [0xf0 as char, 0x9f as char, 0x98 as char, 0x80 as char]
  {
  }

  // Numbers.

  predicate AllDigits(s: string) { forall i :: 0 <= i < |s| ==> '0' <= s[i] <= '9' }

  /** The number that digits spell. */
  function Whole(s: string): nat
    requires AllDigits(s)
  {
    if s == "" then 0 else Whole(s[..|s| - 1]) * 10 + (s[|s| - 1] as int - '0' as int)
  }

  function Tens(k: nat): nat { if k == 0 then 1 else 10 * Tens(k - 1) }

  function Twos(k: nat): nat { if k == 0 then 1 else 2 * Twos(k - 1) }

  /** A number in its parts; an empty fraction or exponent is none. */
  datatype Parts = Parts(minus: bool, whole: string, fraction: string, mark: char, sign: string, exponent: string)

  predicate GoodParts(n: Parts) {
    && AllDigits(n.whole) && AllDigits(n.fraction) && AllDigits(n.exponent)
    && n.whole != "" && (n.whole[0] == '0' ==> |n.whole| == 1)
    && (n.mark == 'e' || n.mark == 'E') && n.sign in {"", "+", "-"} && (n.exponent == "" ==> n.sign == "")
  }

  function Mantissa(n: Parts): string {
    (if n.minus then "-" else "") + n.whole + if n.fraction == "" then "" else "." + n.fraction
  }

  function Token(n: Parts): string {
    Mantissa(n) + if n.exponent == "" then "" else [n.mark] + n.sign + n.exponent
  }

  /** The number is below 2^1024 less half a unit in the last place of the largest double, in exact arithmetic. */
  predicate IsFinite(n: Parts)
    requires GoodParts(n)
  {
    var digits, power := Whole(n.whole + n.fraction),
      (if n.sign == "-" then -1 else 1) * Whole(n.exponent) - |n.fraction|;
    if power >= 0 then digits * Tens(power) < Twos(1024) - Twos(970)
      else digits < (Twos(1024) - Twos(970)) * Tens(-power)
  }

  lemma {:induction false} PowerNext(b: nat, e: nat)
    ensures Power(b, e + 1) == b * Power(b, e)
    decreases e
  {
    PowerHalves(b, e);
    PowerHalves(b, e + 1);
    if e % 2 == 1 {
      PowerNext(b * b, e / 2);
      hide Power;
      Halves(e);
      Regroup(b, Power(b * b, e / 2));
    } else {
      hide Power;
      Halves(e);
    }
  }

  lemma PowerHalves(b: nat, e: nat)
    ensures Power(b, e) == if e == 0 then 1 else if e % 2 == 1 then b * Power(b * b, e / 2) else Power(b * b, e / 2)
  {
  }

  lemma Halves(e: nat)
    ensures e % 2 == 1 ==> (e + 1) % 2 == 0 && (e + 1) / 2 == e / 2 + 1
    ensures e % 2 == 0 ==> (e + 1) % 2 == 1 && (e + 1) / 2 == e / 2
  {
  }

  lemma Regroup(b: nat, p: nat)
    ensures b * b * p == b * (b * p)
  {
  }

  lemma {:induction false} TensIs(k: nat)
    ensures Power(10, k) == Tens(k)
  {
    if k > 0 {
      TensIs(k - 1);
      PowerNext(10, k - 1);
    }
  }

  lemma {:induction false} TwosIs(k: nat)
    ensures Power(2, k) == Twos(k)
  {
    if k > 0 {
      TwosIs(k - 1);
      PowerNext(2, k - 1);
    }
  }

  lemma LimitIs()
    ensures Limit() == Twos(1024) - Twos(970)
  {
    hide Power, Twos;
    TwosIs(1024);
    TwosIs(970);
  }

  lemma {:induction false} FirstIs(s: string, i: nat, k: nat, a: char, b: char)
    requires i <= k <= |s| && (forall m :: i <= m < k ==> s[m] != a && s[m] != b)
    requires k < |s| ==> s[k] == a || s[k] == b
    ensures FirstOf(s, i, a, b) == k
    decreases k - i
  {
    if i < k { FirstIs(s, i + 1, k, a, b); }
  }

  lemma {:induction false} DecimalConcat(s: string, t: string, v: nat)
    ensures Decimal(s + t, v) == Decimal(t, Decimal(s, v))
    decreases |s|
  {
    if s == "" {
      assert s + t == t;
    } else {
      assert (s + t)[1..] == s[1..] + t;
      DecimalConcat(s[1..], t, if IsDigit(s[0]) then v * 10 + (s[0] as int - '0' as int) else v);
    }
  }

  lemma DecimalOne(c: char, v: nat)
    ensures Decimal([c], v) == if '0' <= c <= '9' then v * 10 + (c as int - '0' as int) else v
  {
    assert [c][1..] == "";
  }

  lemma {:induction false} DecimalIs(s: string)
    requires AllDigits(s)
    ensures Decimal(s, 0) == Whole(s)
  {
    if s != "" {
      var front, c := s[..|s| - 1], s[|s| - 1];
      DecimalIs(front);
      assert s == front + [c];
      DecimalConcat(front, [c], 0);
      DecimalOne(c, Decimal(front, 0));
    }
  }

  lemma MantissaIs(n: Parts)
    requires GoodParts(n)
    ensures Decimal(Mantissa(n), 0) == Whole(n.whole + n.fraction)
    ensures forall i :: 0 <= i < |Mantissa(n)| ==> Mantissa(n)[i] != 'e' && Mantissa(n)[i] != 'E'
    ensures FirstOf(Mantissa(n), 0, '.', '.') == |Mantissa(n)| - (if n.fraction == "" then 0 else |n.fraction| + 1)
  {
    var minus, point := if n.minus then "-" else "", if n.fraction == "" then "" else ".";
    var m := Mantissa(n);
    assert m == minus + n.whole + (point + n.fraction);
    FirstIs(m, 0, |minus + n.whole|, '.', '.');
    DecimalIs(n.whole + n.fraction);
    DecimalConcat(n.whole, n.fraction, 0);
    DecimalConcat(minus + n.whole, point + n.fraction, 0);
    DecimalConcat(minus, n.whole, 0);
    DecimalConcat(point, n.fraction, Decimal(minus + n.whole, 0));
    if n.minus { DecimalOne('-', 0); }
    if n.fraction != "" { DecimalOne('.', Decimal(minus + n.whole, 0)); }
  }

  lemma ExponentIs(n: Parts)
    requires GoodParts(n) && n.exponent != ""
    ensures Signed(n.sign + n.exponent) == (if n.sign == "-" then -1 else 1) * Whole(n.exponent)
  {
    DecimalIs(n.exponent);
    DecimalConcat(n.sign, n.exponent, 0);
    if n.sign != "" { DecimalOne(n.sign[0], 0); }
  }

  /** Where the parts of a number are in its text. */
  lemma TokenIs(n: Parts)
    requires GoodParts(n)
    ensures var token, m := Token(n), Mantissa(n);
      && FirstOf(token, 0, 'e', 'E') == |m| <= |token| && token[..|m|] == m
      && (if |m| < |token| then Signed(token[|m| + 1..]) else 0) ==
        (if n.sign == "-" then -1 else 1) * Whole(n.exponent)
  {
    hide Whole, Decimal, FirstOf;
    var token, m := Token(n), Mantissa(n);
    MantissaIs(n);
    FirstIs(token, 0, |m|, 'e', 'E');
    assert token[..|m|] == m;
    if n.exponent != "" {
      assert token[|m| + 1..] == n.sign + n.exponent;
      ExponentIs(n);
    } else {
      NoDigits();
    }
  }

  lemma CompareIs(digits: nat, power: int)
    ensures (if power >= 0 then digits * Power(10, power) < Limit() else digits < Limit() * Power(10, -power)) <==>
      if power >= 0 then digits * Tens(power) < Twos(1024) - Twos(970)
        else digits < (Twos(1024) - Twos(970)) * Tens(-power)
  {
    hide Power, Tens, Twos, Limit;
    LimitIs();
    if power >= 0 { TensIs(power); } else { TensIs(-power); }
  }

  /** Whether a number is accepted is decided on its exact value. */
  lemma FiniteExactly(n: Parts)
    requires GoodParts(n)
    ensures Finite(Token(n)) <==> IsFinite(n)
  {
    hide Power, Whole, Decimal, Tens, Twos, FirstOf, Limit, Signed, Token, Mantissa;
    MantissaIs(n);
    TokenIs(n);
    CompareIs(Whole(n.whole + n.fraction), (if n.sign == "-" then -1 else 1) * Whole(n.exponent) - |n.fraction|);
  }

  lemma NoDigits()
    ensures Whole("") == 0
  {
  }

  /** A text that is a number throughout. */
  lemma OnlyNumber(t: string)
    requires t != "" && (t[0] == '-' || IsDigit(t[0])) && NumberEnd(t, 0) == Some(|t|)
    ensures ParseJson(t) == if Finite(t) then Some(Number(t)) else None
  {
    hide Finite, NumberEnd;
    SkipStops(t, 0, 0);
    SkipStops(t, |t|, |t|);
    NoWord(t);
    assert t[0..|t|] == t;
  }

  /** A text that is a number in its parts is read as itself if it is finite. */
  lemma NumberReads(n: Parts)
    requires GoodParts(n)
    ensures ParseJson(Token(n)) == if IsFinite(n) then Some(Number(Token(n))) else None
  {
    hide Finite, IsFinite, ParseJson, Token, NumberText, NumberEnd, GoodParts;
    FiniteExactly(n);
    TokenIsNumber(n);
    NumberComplete(Token(n), 0, |Token(n)|);
    OnlyNumber(Token(n));
  }

  lemma DigitsHere(t: string, i: nat, s: string)
    requires i + |s| <= |t| && t[i..i + |s|] == s && AllDigits(s) && s != ""
    ensures Digits(t, i, i + |s|) && t[i] == s[0]
  {
    var piece := t[i..i + |s|];
    assert forall k :: i <= k < i + |s| ==> t[k] == piece[k - i];
  }

  lemma TokenIsNumber(n: Parts)
    requires GoodParts(n)
    ensures Token(n) != "" && (Token(n)[0] == '-' || IsDigit(Token(n)[0])) && NumberText(Token(n), 0, |Token(n)|)
  {
    var t, m := Token(n), Mantissa(n);
    var a: nat := if n.minus then 1 else 0;
    var b := a + |n.whole|;
    assert t[..|m|] == m;
    MantissaHere(n, t, a, b);
    ExponentHere(n);
    hide Digits, Exponent, Token, Mantissa, AllDigits;
    assert NumberParts(t, 0, a, b, |m|, |t|);
  }

  lemma MantissaHere(n: Parts, t: string, a: nat, b: nat)
    requires GoodParts(n) && a == (if n.minus then 1 else 0) && b == a + |n.whole|
    requires |Mantissa(n)| <= |t| && t[..|Mantissa(n)|] == Mantissa(n)
    ensures b <= |Mantissa(n)| && Digits(t, a, b) && (n.minus ==> t[0] == '-') && t[a] == n.whole[0]
    ensures n.fraction == "" ==> b == |Mantissa(n)|
    ensures n.fraction != "" ==> b + 1 < |Mantissa(n)| && t[b] == '.' && Digits(t, b + 1, |Mantissa(n)|)
  {
    var m := Mantissa(n);
    assert m[a..b] == n.whole;
    assert t[a..b] == m[a..b];
    DigitsHere(t, a, n.whole);
    if n.fraction != "" {
      assert m[b] == '.' && m[b + 1..] == n.fraction;
      assert t[b] == m[b] && t[b + 1..|m|] == m[b + 1..];
      DigitsHere(t, b + 1, n.fraction);
    }
  }

  lemma ExponentHere(n: Parts)
    requires GoodParts(n)
    ensures |Mantissa(n)| <= |Token(n)| && Exponent(Token(n), |Mantissa(n)|, |Token(n)|)
  {
    var t, m := Token(n), Mantissa(n);
    if n.exponent != "" {
      var first := |m| + 1 + |n.sign|;
      assert t[|m|] == n.mark && t[first..] == n.exponent;
      if n.sign != "" { assert t[|m| + 1] == n.sign[0]; }
      DigitsHere(t, first, n.exponent);
    }
  }

  // What is no number.

  /** Digits with a zero in front. */
  lemma LeadingZero(s: string)
    requires |s| >= 2 && AllDigits(s) && s[0] == '0'
    ensures ParseJson(s) == None && ParseJson("-" + s) == None
  {
    var t := "-" + s;
    SkipStops(s, 0, 0);
    SkipStops(t, 0, 0);
    assert NumberEnd(s, 0).None?;
    assert t[1] == s[0] && t[2] == s[1];
    assert NumberEnd(t, 0).None?;
    NoWord(s);
    NoWord(t);
  }

  lemma NoWord(t: string)
    requires t != "" && t[0] !in "tfn"
    ensures !LiteralAt(t, 0, "true") && !LiteralAt(t, 0, "false") && !LiteralAt(t, 0, "null")
  {
    LiteralStarts(t, 0, "true");
    LiteralStarts(t, 0, "false");
    LiteralStarts(t, 0, "null");
  }

  /** Digits that a point or an exponent's mark ends. */
  lemma NothingBehind(s: string, c: char)
    requires s != "" && AllDigits(s) && (c == '.' || c == 'e' || c == 'E')
    ensures ParseJson(s + [c]) == None
  {
    var t := s + [c];
    SkipStops(t, 0, 0);
    NoWord(t);
    assert forall k :: 0 <= k < |s| ==> t[k] == s[k];
    DigitsStop(t, 0, |s|);
    DigitsStop(t, |t|, |t|);
    assert NumberEnd(t, 0).None?;
  }

  /** Nothing but a minus or a digit starts a number. */
  lemma NoNumberStart(t: string)
    requires t != "" && t[0] !in "-0123456789\"{[tfn" && t[0] as int !in {9, 10, 13, 32}
    ensures ParseJson(t) == None
  {
    SpaceIs(t[0]);
    SkipStops(t, 0, 0);
    NoWord(t);
    assert !IsDigit(t[0]) by { assert t[0] != '0' && t[0] != '1' && t[0] != '2' && t[0] != '3' &&
      t[0] != '4'; assert t[0] != '5' && t[0] != '6' && t[0] != '7' && t[0] != '8' && t[0] != '9'; }
    assert NumberEnd(t, 0).None?;
  }

  // Nesting.

  /** The three words. */
  lemma WordsRead(t: string)
    ensures t == "true" ==> ParseJson(t) == Some(Bool(true))
    ensures t == "false" ==> ParseJson(t) == Some(Bool(false))
    ensures t == "null" ==> ParseJson(t) == Some(Null)
  {
    hide Finite, NumberEnd;
    if t == "true" || t == "false" || t == "null" {
      SkipStops(t, 0, 0);
      SkipStops(t, |t|, |t|);
      assert t[0..|t|] == t;
    }
  }

  function Repeated(c: char, n: nat): string { seq(n, _ => c) }

  /** Brackets within brackets are read to thirty-three of them. */
  lemma {:induction false} Brackets(t: string, n: nat, k: nat)
    requires k < n && t == Repeated('[', n) + Repeated(']', n)
    ensures ValueAt(t, k, k).Parsed? <==> n <= 33
    ensures n <= 33 ==> ValueAt(t, k, k).end == 2 * n - k
    decreases n - k
  {
    BracketsAt(t, n);
    hide Repeated, ValueAt, ElementsAt;
    Opens(t, k, k);
    if k <= 32 && k + 1 < n {
      Brackets(t, n, k + 1);
      Closes(t, k + 1, k);
    }
  }

  lemma Opens(t: string, i: nat, depth: nat)
    requires i + 1 < |t| && t[i] == '[' && (t[i + 1] == '[' || t[i + 1] == ']')
    ensures ValueAt(t, i, depth) == if depth > 32 then Failed else if t[i + 1] == ']' then Parsed(Array([]), i + 2)
      else ElementsAt(t, i + 1, depth, [])
  {
    hide Skip, ScalarAt, MembersAt, ElementsAt;
    SkipStops(t, i, i);
    SkipStops(t, i + 1, i + 1);
  }

  lemma Closes(t: string, i: nat, depth: nat)
    requires i < |t| && depth < 33
    ensures var v, items := ValueAt(t, i, depth + 1), ElementsAt(t, i, depth, []);
      if v.Failed? then items.Failed?
      else v.end < |t| && t[v.end] == ']' ==> items.Parsed? && items.end == v.end + 1
  {
    hide Skip, ValueAt;
    var v := ValueAt(t, i, depth + 1);
    if v.Parsed? && v.end < |t| && t[v.end] == ']' { SkipStops(t, v.end, v.end); }
  }

  lemma BracketsAt(t: string, n: nat)
    requires t == Repeated('[', n) + Repeated(']', n)
    ensures |t| == 2 * n && forall i :: 0 <= i < |t| ==> t[i] == if i < n then '[' else ']'
  {
  }

  /** So deep an array is accepted, and no deeper one. */
  lemma NestedThirtyThree(n: nat)
    requires n > 0
    ensures ParseJson(Repeated('[', n) + Repeated(']', n)).Some? <==> n <= 33
  {
    var t := Repeated('[', n) + Repeated(']', n);
    hide ValueAt;
    Brackets(t, n, 0);
    SkipStops(t, 2 * n, 2 * n);
  }
}
