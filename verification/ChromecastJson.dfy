/** JSON values and the grammar of RFC 8259, over intervals of a text whose characters are bytes. */
module JsonGrammar {
  import opened Basics
  import opened Letters

  /** Numbers keep their decimal digits, so nothing is rounded. */
  datatype Json =
    | Null
    | Bool(boolean: bool)
    | Number(digits: string)
    | String(text: string)
    | Array(items: seq<Json>)
    | Object(keys: seq<string>, values: seq<Json>)

  const MAXIMUM_DEPTH := 32

  predicate IsSpace(c: char) { c == ' ' || c == '\t' || c == '\n' || c == '\r' }

  /** Section 2: insignificant whitespace. */
  ghost predicate Spaces(t: string, i: nat, j: nat) {
    i <= j <= |t| && forall k :: i <= k < j ==> IsSpace(t[k])
  }

  ghost predicate Word(t: string, i: nat, j: nat, word: string) {
    i <= j <= |t| && t[i..j] == word
  }

  /** One or more digits. */
  ghost predicate Digits(t: string, i: nat, j: nat) {
    i < j <= |t| && forall k :: i <= k < j ==> IsDigit(t[k])
  }

  /** Section 6: a number is a sign, an integer without leading zeros, a fraction and an exponent. */
  ghost predicate NumberText(t: string, i: nat, j: nat) {
    exists a: nat, b: nat, c: nat :: NumberParts(t, i, a, b, c, j)
  }

  ghost predicate NumberParts(t: string, i: nat, a: nat, b: nat, c: nat, j: nat) {
    && i <= a <= b <= c <= j <= |t|
    && (a == i || (a == i + 1 && t[i] == '-'))
    && Digits(t, a, b) && (t[a] == '0' ==> b == a + 1)
    && (c == b || (t[b] == '.' && Digits(t, b + 1, c)))
    && Exponent(t, c, j)
  }

  ghost predicate Exponent(t: string, c: nat, j: nat)
    requires c <= j <= |t|
  {
    || j == c
    || ((t[c] == 'e' || t[c] == 'E') &&
          (Digits(t, c + 1, j) || (c + 1 < |t| && (t[c + 1] == '+' || t[c + 1] == '-') && Digits(t, c + 2, j))))
  }

  /** The number that n hexadecimal digits spell. */
  function HexAt(t: string, i: nat, n: nat): (r: Option<nat>)
    requires i + n <= |t|
    ensures r.Some? && n == 0 ==> r.value == 0
    ensures r.Some? && n == 1 ==> r.value < 0x10
    ensures r.Some? && n == 2 ==> r.value < 0x100
    ensures r.Some? && n == 3 ==> r.value < 0x1000
    ensures r.Some? && n == 4 ==> r.value < 0x10000
  {
    if n == 0 then Some(0)
    else
      var before, last := HexAt(t, i, n - 1), HexValue(t[i + n - 1]);
      if before.None? || last.None? then None else Some(before.value * 16 + last.value)
  }

  function Hex4At(t: string, i: nat): (r: Option<nat>)
    ensures r.Some? ==> i + 4 <= |t| && r.value < 0x10000
  {
    if i + 4 > |t| then None else HexAt(t, i, 4)
  }

  function Simple(e: char): Option<char> {
    if e == '"' || e == '\\' || e == '/' then Some(e)
    else if e == 'b' then Some(8 as char)
    else if e == 'f' then Some(12 as char)
    else if e == 'n' then Some('\n')
    else if e == 'r' then Some('\r')
    else if e == 't' then Some('\t')
    else None
  }

  /** RFC 3629, section 3: the bytes of a code point. */
  function Utf8(code: nat): string
    requires code < 0x110000
  {
    if code < 0x80 then [code as char]
    else if code < 0x800 then [(0xc0 + code / 64) as char, (0x80 + code % 64) as char]
    else if code < 0x10000 then
      [(0xe0 + code / 4096) as char, (0x80 + code / 64 % 64) as char, (0x80 + code % 64) as char]
    else
      [(0xf0 + code / 262144) as char, (0x80 + code / 4096 % 64) as char, (0x80 + code / 64 % 64) as char,
       (0x80 + code % 64) as char]
  }

  /** A continuation byte carries six bits. */
  predicate Continues(c: char) { 0x80 <= c as int < 0xc0 }

  /** RFC 3629, section 3, read backwards: the one code point that these bytes encode in their shortest form. */
  function CodePoint(s: string): Option<nat> {
    if |s| == 1 && s[0] as int < 0x80 then Some(s[0] as int)
    else if |s| == 2 && 0xc2 <= s[0] as int < 0xe0 && Continues(s[1]) then
      Some((s[0] as int - 0xc0) * 64 + (s[1] as int - 0x80))
    else if |s| == 3 && 0xe0 <= s[0] as int < 0xf0 && Continues(s[1]) && Continues(s[2]) then
      var code := (s[0] as int - 0xe0) * 4096 + (s[1] as int - 0x80) * 64 + (s[2] as int - 0x80);
      if code < 0x800 || High(code) || Low(code) then None else Some(code)
    else if |s| == 4 && 0xf0 <= s[0] as int < 0xf5 && Continues(s[1]) && Continues(s[2]) && Continues(s[3]) then
      var code :=
        (s[0] as int - 0xf0) * 262144 + (s[1] as int - 0x80) * 4096 + (s[2] as int - 0x80) * 64 + (s[3] as int - 0x80);
      if code < 0x10000 || code >= 0x110000 then None else Some(code)
    else None
  }

  lemma Decodes(code: nat)
    requires code < 0x110000 && !High(code) && !Low(code)
    ensures CodePoint(Utf8(code)) == Some(code)
  {
    var a, b, c := code / 64, code / 4096, code / 262144;
    assert a / 64 == b && b / 64 == c;
  }

  lemma ThreeBytes(s: string)
    requires |s| == 3 && CodePoint(s).Some?
    ensures CodePoint(s).value < 0x110000 && s == Utf8(CodePoint(s).value)
  {
    var code := CodePoint(s).value;
    var a, b, c := s[0] as int - 0xe0, s[1] as int - 0x80, s[2] as int - 0x80;
    SixBits(a, b);
    SixBits(a * 64 + b, c);
    assert code / 4096 == code / 64 / 64;
  }

  lemma FourBytes(s: string)
    requires |s| == 4 && CodePoint(s).Some?
    ensures CodePoint(s).value < 0x110000 && s == Utf8(CodePoint(s).value)
  {
    var code := CodePoint(s).value;
    var a, b, c, d := s[0] as int - 0xf0, s[1] as int - 0x80, s[2] as int - 0x80, s[3] as int - 0x80;
    SixBits(a, b);
    SixBits(a * 64 + b, c);
    SixBits((a * 64 + b) * 64 + c, d);
    assert code / 4096 == code / 64 / 64 && code / 262144 == code / 4096 / 64;
  }

  lemma ShortestForm(s: string)
    ensures CodePoint(s).None? || (CodePoint(s).value < 0x110000 && s == Utf8(CodePoint(s).value))
  {
    if CodePoint(s).Some? {
      if |s| == 2 {
        SixBits(s[0] as int - 0xc0, s[1] as int - 0x80);
      } else if |s| == 3 {
        ThreeBytes(s);
      } else if |s| == 4 {
        FourBytes(s);
      }
    }
  }

  lemma SixBits(high: int, low: int)
    requires 0 <= low < 64
    ensures (high * 64 + low) / 64 == high && (high * 64 + low) % 64 == low
  {
  }

  /** The encoder is exactly the inverse of the decoder. */
  lemma EncodesExactly(s: string, code: nat)
    ensures CodePoint(s) == Some(code) <==> code < 0x110000 && !High(code) && !Low(code) && s == Utf8(code)
  {
    ShortestForm(s);
    if code < 0x110000 && !High(code) && !Low(code) { Decodes(code); }
    assert |s| == 1 || |s| == 2 || |s| == 4 ==> CodePoint(s).Some? ==>
      !High(CodePoint(s).value) && !Low(CodePoint(s).value);
    hide Utf8;
  }

  predicate High(code: nat) { 0xd800 <= code < 0xdc00 }

  predicate Low(code: nat) { 0xdc00 <= code < 0xe000 }

  function Pair(high: nat, low: nat): nat
    requires High(high) && Low(low)
  {
    0x10000 + (high - 0xd800) * 1024 + (low - 0xdc00)
  }

  /** Section 7: one character or escape of a string, and the bytes it stands for. */
  ghost predicate Piece(t: string, i: nat, j: nat, s: string) {
    && i < j <= |t|
    && (|| (j == i + 1 && t[i] >= ' ' && t[i] != '"' && t[i] != '\\' && s == [t[i]])
        || (j == i + 2 && t[i] == '\\' && Simple(t[i + 1]).Some? && s == [Simple(t[i + 1]).value])
        || (j == i + 6 && t[i] == '\\' && t[i + 1] == 'u' && Hex4At(t, i + 2).Some? &&
              var code := Hex4At(t, i + 2).value; !High(code) && !Low(code) && s == Utf8(code))
        || (j == i + 12 && t[i] == '\\' && t[i + 1] == 'u' && t[i + 6] == '\\' && t[i + 7] == 'u' &&
              Hex4At(t, i + 2).Some? && Hex4At(t, i + 8).Some? &&
              var high, low := Hex4At(t, i + 2).value, Hex4At(t, i + 8).value;
              High(high) && Low(low) && s == Utf8(Pair(high, low))))
  }

  /** The inside of a string. */
  ghost predicate Pieces(t: string, i: nat, j: nat, s: string)
    decreases j - i
  {
    i <= j <= |t| &&
    if i == j then s == ""
    else exists k, n :: i < k <= j && 0 <= n <= |s| && Piece(t, i, k, s[..n]) && Pieces(t, k, j, s[n..])
  }

  ghost predicate StringText(t: string, i: nat, j: nat, s: string) {
    i + 2 <= j <= |t| && t[i] == '"' && t[j - 1] == '"' && Pieces(t, i + 1, j - 1, s)
  }

  /** Sections 3 to 7: the value that an interval denotes, nested no deeper than the limit. */
  ghost predicate Value(t: string, i: nat, j: nat, v: Json, depth: nat)
    decreases j - i, 0
  {
    && i < j <= |t| && depth <= MAXIMUM_DEPTH
    && match v
       case Null => Word(t, i, j, "null")
       case Bool(b) => Word(t, i, j, if b then "true" else "false")
       case Number(digits) => NumberText(t, i, j) && digits == t[i..j] && Finite(digits)
       case String(s) => StringText(t, i, j, s)
       case Array(items) =>
         i + 2 <= j && t[i] == '[' && t[j - 1] == ']' &&
         (if items == [] then Spaces(t, i + 1, j - 1) else Elements(t, i + 1, j - 1, items, depth + 1))
       case Object(keys, values) =>
         i + 2 <= j && t[i] == '{' && t[j - 1] == '}' && |keys| == |values| &&
         (if keys == [] then Spaces(t, i + 1, j - 1) else Members(t, i + 1, j - 1, keys, values, depth + 1))
  }

  ghost predicate Padded(t: string, i: nat, j: nat, v: Json, depth: nat)
    decreases j - i, 1
  {
    exists a, b :: i <= a <= b <= j && Spaces(t, i, a) && Value(t, a, b, v, depth) && Spaces(t, b, j)
  }

  ghost predicate Elements(t: string, i: nat, j: nat, items: seq<Json>, depth: nat)
    decreases j - i, 2
  {
    items != [] && i <= j <= |t| &&
    if |items| == 1 then Padded(t, i, j, items[0], depth)
    else
      exists k ::
        i <= k < j && t[k] == ',' && Padded(t, i, k, items[0], depth) && Elements(t, k + 1, j, items[1..], depth)
  }

  ghost predicate Member(t: string, i: nat, j: nat, key: string, v: Json, depth: nat)
    decreases j - i, 2
  {
    exists a, b, c :: i <= a <= b <= c < j <= |t| && Spaces(t, i, a) && StringText(t, a, b, key) && Spaces(t, b, c) &&
      t[c] == ':' && Padded(t, c + 1, j, v, depth)
  }

  ghost predicate Members(t: string, i: nat, j: nat, keys: seq<string>, values: seq<Json>, depth: nat)
    decreases j - i, 3
  {
    |keys| == |values| && keys != [] && i <= j <= |t| &&
    if |keys| == 1 then Member(t, i, j, keys[0], values[0], depth)
    else
      exists k :: i <= k < j && t[k] == ',' && Member(t, i, k, keys[0], values[0], depth) &&
        Members(t, k + 1, j, keys[1..], values[1..], depth)
  }

  ghost predicate JsonText(t: string, v: Json) {
    Padded(t, 0, |t|, v, 0)
  }

  /** Objects hold one value a key, and no value nests deeper than the room it has. */
  ghost predicate Nested(v: Json, room: int) {
    && room >= 0
    && match v
       case Array(items) => forall k :: 0 <= k < |items| ==> Nested(items[k], room - 1)
       case Object(keys, values) => |keys| == |values| && forall k :: 0 <= k < |values| ==> Nested(values[k], room - 1)
       case _ => true
  }

  /** Whether a double can hold the number: its exact value rounds to something finite. */
  predicate Finite(token: string) {
    var mark := FirstOf(token, 0, 'e', 'E');
    var dot := FirstOf(token[..mark], 0, '.', '.');
    var power := (if mark < |token| then Signed(token[mark + 1..]) else 0) - (if dot < mark then mark - dot - 1 else 0);
    var digits := Decimal(token[..mark], 0);
    if power >= 0 then digits * Power(10, power) < Limit() else digits < Limit() * Power(10, -power)
  }

  function FirstOf(s: string, i: nat, a: char, b: char): (r: nat)
    requires i <= |s|
    ensures i <= r <= |s|
    decreases |s| - i
  {
    if i == |s| || s[i] == a || s[i] == b then i else FirstOf(s, i + 1, a, b)
  }

  /** The decimal digits of a token, read as one number. */
  function Decimal(s: string, value: nat): nat {
    if s == "" then value
    else Decimal(s[1..], if IsDigit(s[0]) then value * 10 + (s[0] as int - '0' as int) else value)
  }

  function Signed(s: string): int {
    if s != "" && s[0] == '-' then 0 - Decimal(s, 0) else Decimal(s, 0)
  }

  function Power(b: nat, e: nat): nat
    decreases e
  {
    if e == 0 then 1 else var half := Power(b * b, e / 2); if e % 2 == 1 then b * half else half
  }

  /** Halfway past the largest double: from here on a number rounds to infinity. */
  function Limit(): int {
    Power(2, 1024) - Power(2, 970)
  }
}
