/** The parser itself: a text and a position that moves through it. */
module JsonReader {
  import opened Basics
  import opened Letters
  import opened JsonGrammar
  import opened JsonParsing

  /** A step of the parser did what the position-by-position functions say. */
  ghost predicate Agrees<T>(expected: Parsed<T>, result: Option<T>, at: nat) {
    match expected
    case Failed => result.None?
    case Parsed(value, end) => result == Some(value) && at == end
  }

  class Parser {
    const text: string
    var at: nat

    ghost predicate Valid()
      reads this
    {
      at <= |text|
    }

    constructor (text: string)
      ensures Valid() && this.text == text && at == 0
    {
      this.text := text;
      at := 0;
    }

    method Space()
      requires Valid()
      modifies this
      ensures Valid() && at == Skip(text, old(at))
    {
      while at < |text| && IsSpace(text[at])
        invariant at <= |text| && Skip(text, at) == Skip(text, old(at))
        decreases |text| - at
      {
        at := at + 1;
      }
    }

    method Literal(word: string) returns (ok: bool)
      requires Valid()
      modifies this
      ensures ok <==> LiteralAt(text, old(at), word)
      ensures Valid() && at == old(at) + if ok then |word| else 0
    {
      if at + |word| > |text| || text[at..at + |word|] != word {
        return false;
      }
      at := at + |word|;
      return true;
    }

    method Hex4() returns (value: Option<nat>)
      requires Valid()
      modifies this
      ensures Valid() && value == Hex4At(text, old(at))
      ensures value.Some? ==> at == old(at) + 4
    {
      if at + 4 > |text| {
        return None;
      }
      var code := 0;
      for i := 0 to 4
        invariant at == old(at) + i
        invariant HexAt(text, old(at), i) == Some(code)
      {
        var digit := HexValue(text[at]);
        at := at + 1;
        if digit.None? {
          HexStops(text, old(at), i + 1, 4);
          return None;
        }
        code := code * 16 + digit.value;
      }
      return Some(code);
    }

    method String() returns (s: Option<string>)
      requires Valid()
      modifies this
      ensures Valid() && Agrees(StringAt(text, old(at)), s, at)
    {
      hide EscapeAt, Utf8;
      if at == |text| || text[at] != '"' {
        return None;
      }
      at := at + 1;
      var out := "";
      while at < |text|
        invariant old(at) < at <= |text|
        invariant StringRest(text, at, out) == StringAt(text, old(at))
        decreases |text| - at
      {
        var c := text[at];
        if c == '"' {
          at := at + 1;
          return Some(out);
        }
        if c < ' ' {
          return None;
        }
        at := at + 1;
        if c != '\\' {
          out := out + [c];
        } else {
          var escape := Escape();
          if escape.None? {
            return None;
          }
          out := out + escape.value;
        }
      }
      return None;
    }

    /** One escape, from behind its backslash. */
    method Escape() returns (s: Option<string>)
      requires Valid()
      modifies this
      ensures Valid() && Agrees(EscapeAt(text, old(at)), s, at)
    {
      hide Utf8, HexAt;
      if at == |text| {
        return None;
      }
      var e := text[at];
      at := at + 1;
      if e != 'u' {
        return if Simple(e).Some? then Some([Simple(e).value]) else None;
      }
      var code := Hex4();
      if code.None? || Low(code.value) {
        return None;
      }
      if High(code.value) {
        var follows := Literal("\\u");
        if !follows {
          return None;
        }
        var low := Hex4();
        if low.None? || !Low(low.value) {
          return None;
        }
        return Some(Utf8(Pair(code.value, low.value)));
      }
      return Some(Utf8(code.value));
    }

    /** At least one digit. */
    method Digits() returns (some: bool)
      requires Valid()
      modifies this
      ensures Valid() && at == DigitsEnd(text, old(at)) && (some <==> at > old(at))
    {
      var first := at;
      while at < |text| && IsDigit(text[at])
        invariant first <= at <= |text| && DigitsEnd(text, at) == DigitsEnd(text, old(at))
        decreases |text| - at
      {
        at := at + 1;
      }
      return at > first;
    }

    method Fraction() returns (ok: bool)
      requires Valid()
      modifies this
      ensures Valid() && ok == FractionEnd(text, old(at)).Some?
      ensures ok ==> at == FractionEnd(text, old(at)).value
    {
      hide DigitsEnd;
      if at < |text| && text[at] == '.' {
        at := at + 1;
        ok := Digits();
      } else {
        ok := true;
      }
    }

    method Exponent() returns (ok: bool)
      requires Valid()
      modifies this
      ensures Valid() && ok == ExponentEnd(text, old(at)).Some?
      ensures ok ==> at == ExponentEnd(text, old(at)).value
    {
      hide DigitsEnd;
      if at < |text| && (text[at] == 'e' || text[at] == 'E') {
        at := at + 1;
        if at < |text| && (text[at] == '+' || text[at] == '-') {
          at := at + 1;
        }
        ok := Digits();
      } else {
        ok := true;
      }
    }

    method Number() returns (token: Option<string>)
      requires Valid()
      modifies this
      ensures Valid()
      ensures var end := NumberEnd(text, old(at));
        if end.None? || !Finite(text[old(at)..end.value]) then token.None?
        else token == Some(text[old(at)..end.value]) && at == end.value
    {
      hide DigitsEnd, FractionEnd, ExponentEnd, Finite;
      var start := at;
      if at < |text| && text[at] == '-' {
        at := at + 1;
      }
      if at + 1 < |text| && text[at] == '0' && IsDigit(text[at + 1]) {
        return None;
      }
      var ok := Digits();
      if ok {
        ok := Fraction();
      }
      if ok {
        ok := Exponent();
      }
      return if ok && Finite(text[start..at]) then Some(text[start..at]) else None;
    }

    method Scalar() returns (v: Option<Json>)
      requires Valid() && at < |text|
      modifies this
      ensures Valid() && Agrees(ScalarAt(text, old(at)), v, at)
    {
      hide StringAt, NumberEnd, Finite;
      if text[at] == '"' {
        var parsed := String();
        return if parsed.None? then None else Some(Json.String(parsed.value));
      }
      var ok := Literal("true");
      if ok {
        return Some(Bool(true));
      }
      ok := Literal("false");
      if ok {
        return Some(Bool(false));
      }
      ok := Literal("null");
      if ok {
        return Some(Null);
      }
      var token := Number();
      return if token.None? then None else Some(Json.Number(token.value));
    }

    method Value(depth: nat) returns (v: Option<Json>)
      requires Valid()
      modifies this
      ensures Valid() && Agrees(ValueAt(text, old(at), depth), v, at)
      decreases |text| - at, 1
    {
      if depth > MAXIMUM_DEPTH {
        return None;
      }
      Space();
      if at == |text| {
        return None;
      }
      if text[at] == '{' {
        v := Object(depth);
      } else if text[at] == '[' {
        v := Array(depth);
      } else {
        v := Scalar();
      }
    }

    method Array(depth: nat) returns (v: Option<Json>)
      requires Valid() && at < |text| && text[at] == '[' && depth <= MAXIMUM_DEPTH
      modifies this
      ensures Valid() && Agrees(ValueAt(text, old(at), depth), v, at)
      decreases |text| - at, 0
    {
      hide ScalarAt, MembersAt, Skip;
      at := at + 1;
      Space();
      if at < |text| && text[at] == ']' {
        at := at + 1;
        return Some(Json.Array([]));
      }
      v := Elements(depth);
    }

    method Elements(depth: nat) returns (v: Option<Json>)
      requires Valid() && depth <= MAXIMUM_DEPTH
      modifies this
      ensures Valid() && Agrees(ElementsAt(text, old(at), depth, []), v, at)
      decreases |text| - at, 2
    {
      hide ValueAt, Skip;
      var items := [];
      while true
        invariant old(at) <= at <= |text|
        invariant ElementsAt(text, at, depth, items) == ElementsAt(text, old(at), depth, [])
        decreases |text| - at
      {
        var item := Value(depth + 1);
        if item.None? {
          return None;
        }
        Space();
        if at == |text| {
          return None;
        }
        items := items + [item.value];
        if text[at] == ',' {
          at := at + 1;
        } else if text[at] != ']' {
          return None;
        } else {
          at := at + 1;
          return Some(Json.Array(items));
        }
      }
    }

    /** A key and its colon. */
    method Key() returns (key: Option<string>)
      requires Valid()
      modifies this
      ensures Valid() && Agrees(KeyAt(text, old(at)), key, at)
    {
      hide StringAt, Skip;
      Space();
      key := String();
      if key.None? {
        return;
      }
      Space();
      if at == |text| || text[at] != ':' {
        return None;
      }
      at := at + 1;
    }

    method Object(depth: nat) returns (v: Option<Json>)
      requires Valid() && at < |text| && text[at] == '{' && depth <= MAXIMUM_DEPTH
      modifies this
      ensures Valid() && Agrees(ValueAt(text, old(at), depth), v, at)
      decreases |text| - at, 0
    {
      hide ScalarAt, ElementsAt, KeyAt, Skip;
      at := at + 1;
      Space();
      if at < |text| && text[at] == '}' {
        at := at + 1;
        return Some(Json.Object([], []));
      }
      v := Members(depth);
    }

    method Members(depth: nat) returns (v: Option<Json>)
      requires Valid() && depth <= MAXIMUM_DEPTH
      modifies this
      ensures Valid() && Agrees(MembersAt(text, old(at), depth, [], []), v, at)
      decreases |text| - at, 2
    {
      hide ValueAt, KeyAt, Skip;
      var keys, values := [], [];
      while true
        invariant old(at) <= at <= |text|
        invariant MembersAt(text, at, depth, keys, values) == MembersAt(text, old(at), depth, [], [])
        decreases |text| - at
      {
        var key := Key();
        if key.None? {
          return None;
        }
        keys := keys + [key.value];
        var item := Value(depth + 1);
        if item.None? {
          return None;
        }
        values := values + [item.value];
        Space();
        if at == |text| {
          return None;
        }
        if text[at] == ',' {
          at := at + 1;
        } else if text[at] != '}' {
          return None;
        } else {
          at := at + 1;
          return Some(Json.Object(keys, values));
        }
      }
    }
  }

  /** A digit that is none spoils every longer number. */
  lemma HexStops(t: string, i: nat, n: nat, m: nat)
    requires n <= m && i + m <= |t| && HexAt(t, i, n).None?
    ensures HexAt(t, i, m).None?
    decreases m
  {
    if n < m { HexStops(t, i, n, m - 1); }
  }

  /** Accepts exactly the texts of the grammar, and returns what they denote. */
  method Parse(text: string) returns (result: Option<Json>)
    ensures result == ParseJson(text)
    ensures forall v :: result == Some(v) <==> JsonText(text, v)
  {
    hide ValueAt, Padded;
    var parser := new Parser(text);
    result := parser.Value(0);
    if result.Some? {
      parser.Space();
      if parser.at != |text| {
        result := None;
      }
    }
    forall v: Json ensures ParseJson(text) == Some(v) <==> JsonText(text, v) { ParsesExactly(text, v); }
  }

  /** Follow one key into an object; the first match counts. */
  function Lookup(v: Json, key: string): Option<Json> {
    if v.Object? && |v.keys| == |v.values| then First(v.keys, v.values, key, 0) else None
  }

  function First(keys: seq<string>, values: seq<Json>, key: string, i: nat): (r: Option<Json>)
    requires |keys| == |values| && i <= |keys|
    ensures r.Some? ==> exists k :: i <= k < |keys| && keys[k] == key && r == Some(values[k]) && key !in keys[i..k]
    ensures r.None? ==> key !in keys[i..]
    decreases |keys| - i
  {
    if i == |keys| then None
    else if keys[i] == key then Some(values[i])
    else
      var r := First(keys, values, key, i + 1);
      assert r.Some? ==> forall k :: i < k < |keys| ==> keys[i..k] == [keys[i]] + keys[i + 1..k];
      assert keys[i..] == [keys[i]] + keys[i + 1..];
      r
  }
}
