/** What the recursive-descent parser computes, position by position. */
module JsonParsing {
  import opened Basics
  import opened Letters
  import opened JsonGrammar

  datatype Parsed<T> = Failed | Parsed(value: T, end: nat)

  function Skip(t: string, at: nat): (r: nat)
    requires at <= |t|
    ensures at <= r <= |t| && Spaces(t, at, r) && (r < |t| ==> !IsSpace(t[r]))
    decreases |t| - at
  {
    if at < |t| && IsSpace(t[at]) then Skip(t, at + 1) else at
  }

  /** The end of a run of digits. */
  function DigitsEnd(t: string, at: nat): (r: nat)
    requires at <= |t|
    ensures at <= r <= |t| && (forall k :: at <= k < r ==> IsDigit(t[k])) && (r < |t| ==> !IsDigit(t[r]))
    decreases |t| - at
  {
    if at < |t| && IsDigit(t[at]) then DigitsEnd(t, at + 1) else at
  }

  function FractionEnd(t: string, b: nat): (r: Option<nat>)
    requires b <= |t|
    ensures r.Some? ==> b <= r.value <= |t|
  {
    if b < |t| && t[b] == '.' then
      var c := DigitsEnd(t, b + 1);
      if c == b + 1 then None else Some(c)
    else Some(b)
  }

  function ExponentEnd(t: string, c: nat): (r: Option<nat>)
    requires c <= |t|
    ensures r.Some? ==> c <= r.value <= |t|
  {
    if c < |t| && (t[c] == 'e' || t[c] == 'E') then
      var first := if c + 1 < |t| && (t[c + 1] == '+' || t[c + 1] == '-') then c + 2 else c + 1;
      var j := DigitsEnd(t, first);
      if j == first then None else Some(j)
    else Some(c)
  }

  /** Where the number that starts here ends, if it is one. */
  function NumberEnd(t: string, at: nat): (r: Option<nat>)
    requires at <= |t|
    ensures r.Some? ==> at < r.value <= |t|
  {
    var a := if at < |t| && t[at] == '-' then at + 1 else at;
    if a + 1 < |t| && t[a] == '0' && IsDigit(t[a + 1]) then None
    else
      var b := DigitsEnd(t, a);
      if b == a then None
      else
        var c := FractionEnd(t, b);
        if c.None? then None else ExponentEnd(t, c.value)
  }

  /** An escape, from behind its backslash. */
  function EscapeAt(t: string, at: nat): (r: Parsed<string>)
    requires at <= |t|
    ensures r.Parsed? ==> at < r.end <= |t|
  {
    if at == |t| then Failed
    else if t[at] != 'u' then
      if Simple(t[at]).Some? then Parsed([Simple(t[at]).value], at + 1) else Failed
    else
      var code := Hex4At(t, at + 1);
      if code.None? then Failed
      else if High(code.value) then
        if at + 7 > |t| || t[at + 5..at + 7] != "\\u" then Failed
        else
          var low := Hex4At(t, at + 7);
          if low.None? || !Low(low.value) then Failed
          else Parsed(Utf8(Pair(code.value, low.value)), at + 11)
      else if Low(code.value) then Failed
      else Parsed(Utf8(code.value), at + 5)
  }

  /** The rest of a string, with the bytes already read. */
  function StringRest(t: string, at: nat, out: string): (r: Parsed<string>)
    requires at <= |t|
    ensures r.Parsed? ==> at < r.end <= |t|
    decreases |t| - at
  {
    if at == |t| then Failed
    else if t[at] == '"' then Parsed(out, at + 1)
    else if t[at] < ' ' then Failed
    else if t[at] != '\\' then StringRest(t, at + 1, out + [t[at]])
    else
      var escape := EscapeAt(t, at + 1);
      if escape.Failed? then Failed else StringRest(t, escape.end, out + escape.value)
  }

  function StringAt(t: string, at: nat): (r: Parsed<string>)
    requires at <= |t|
    ensures r.Parsed? ==> at < r.end <= |t|
  {
    if at == |t| || t[at] != '"' then Failed else StringRest(t, at + 1, "")
  }

  predicate LiteralAt(t: string, at: nat, word: string) {
    at + |word| <= |t| && t[at..at + |word|] == word
  }

  function ScalarAt(t: string, a: nat): (r: Parsed<Json>)
    requires a < |t|
    ensures r.Parsed? ==> a < r.end <= |t|
  {
    if t[a] == '"' then
      var s := StringAt(t, a);
      if s.Failed? then Failed else Parsed(String(s.value), s.end)
    else if LiteralAt(t, a, "true") then Parsed(Bool(true), a + 4)
    else if LiteralAt(t, a, "false") then Parsed(Bool(false), a + 5)
    else if LiteralAt(t, a, "null") then Parsed(Null, a + 4)
    else
      var end := NumberEnd(t, a);
      if end.None? || !Finite(t[a..end.value]) then Failed else Parsed(Number(t[a..end.value]), end.value)
  }

  function ValueAt(t: string, at: nat, depth: nat): (r: Parsed<Json>)
    requires at <= |t|
    ensures r.Parsed? ==> at < r.end <= |t|
    decreases |t| - at, 0
  {
    if depth > MAXIMUM_DEPTH then Failed
    else
      var a := Skip(t, at);
      if a == |t| then Failed
      else if t[a] == '{' then
        var b := Skip(t, a + 1);
        if b < |t| && t[b] == '}' then Parsed(Object([], []), b + 1) else MembersAt(t, b, depth, [], [])
      else if t[a] == '[' then
        var b := Skip(t, a + 1);
        if b < |t| && t[b] == ']' then Parsed(Array([]), b + 1) else ElementsAt(t, b, depth, [])
      else ScalarAt(t, a)
  }

  /** The rest of an array, with the items already read. */
  function ElementsAt(t: string, at: nat, depth: nat, items: seq<Json>): (r: Parsed<Json>)
    requires at <= |t|
    ensures r.Parsed? ==> at < r.end <= |t|
    decreases |t| - at, 1
  {
    var item := ValueAt(t, at, depth + 1);
    if item.Failed? then Failed
    else
      var f := Skip(t, item.end);
      if f == |t| then Failed
      else if t[f] == ',' then ElementsAt(t, f + 1, depth, items + [item.value])
      else if t[f] == ']' then Parsed(Array(items + [item.value]), f + 1)
      else Failed
  }

  /** A key and its colon. */
  function KeyAt(t: string, at: nat): (r: Parsed<string>)
    requires at <= |t|
    ensures r.Parsed? ==> at < r.end <= |t|
  {
    var key := StringAt(t, Skip(t, at));
    if key.Failed? then Failed
    else
      var c := Skip(t, key.end);
      if c == |t| || t[c] != ':' then Failed else Parsed(key.value, c + 1)
  }

  /** The rest of an object, with the members already read. */
  function MembersAt(t: string, at: nat, depth: nat, keys: seq<string>, values: seq<Json>): (r: Parsed<Json>)
    requires at <= |t|
    ensures r.Parsed? ==> at < r.end <= |t|
    decreases |t| - at, 1
  {
    var key := KeyAt(t, at);
    if key.Failed? then Failed
    else
      var item := ValueAt(t, key.end, depth + 1);
      if item.Failed? then Failed
      else
        var f := Skip(t, item.end);
        if f == |t| then Failed
        else if t[f] == ',' then MembersAt(t, f + 1, depth, keys + [key.value], values + [item.value])
        else if t[f] == '}' then Parsed(Object(keys + [key.value], values + [item.value]), f + 1)
        else Failed
  }

  function ParseJson(t: string): Option<Json> {
    var v := ValueAt(t, 0, 0);
    if v.Parsed? && Skip(t, v.end) == |t| then Some(v.value) else None
  }

  // What may follow a value: the end, whitespace or a structural character.

  predicate Ends(t: string, j: nat) {
    j >= |t| || IsSpace(t[j]) || t[j] == ',' || t[j] == ']' || t[j] == '}'
  }

  // Scalars.

  lemma SkipStops(t: string, i: nat, a: nat)
    requires Spaces(t, i, a) && (a < |t| ==> !IsSpace(t[a]))
    ensures Skip(t, i) == a
  {
  }

  lemma SpacesJoin(t: string, i: nat, a: nat, b: nat)
    requires Spaces(t, i, a) && Spaces(t, a, b)
    ensures Spaces(t, i, b)
  {
  }

  lemma SkipThrough(t: string, i: nat, a: nat)
    requires Spaces(t, i, a)
    ensures Skip(t, i) == Skip(t, a)
  {
  }

  lemma DigitsStop(t: string, i: nat, j: nat)
    requires i <= j <= |t| && (forall k :: i <= k < j ==> IsDigit(t[k])) && (j < |t| ==> !IsDigit(t[j]))
    ensures DigitsEnd(t, i) == j
  {
  }

  lemma NumberSound(t: string, at: nat)
    requires at <= |t| && NumberEnd(t, at).Some?
    ensures NumberText(t, at, NumberEnd(t, at).value)
  {
    var a := if at < |t| && t[at] == '-' then at + 1 else at;
    var b := DigitsEnd(t, a);
    var c := FractionEnd(t, b).value;
    assert b > a + 1 ==> IsDigit(t[a + 1]);
    assert NumberParts(t, at, a, b, c, NumberEnd(t, at).value);
  }

  lemma FractionComplete(t: string, b: nat, c: nat)
    requires b <= c <= |t| && (c == b || (t[b] == '.' && Digits(t, b + 1, c)))
    requires c < |t| ==> !IsDigit(t[c]) && t[c] != '.'
    ensures FractionEnd(t, b) == Some(c)
  {
  }

  lemma ExponentComplete(t: string, c: nat, j: nat)
    requires c <= j <= |t| && Exponent(t, c, j) && Ends(t, j)
    ensures ExponentEnd(t, c) == Some(j)
  {
  }

  lemma NumberComplete(t: string, i: nat, j: nat)
    requires NumberText(t, i, j) && Ends(t, j)
    ensures NumberEnd(t, i) == Some(j)
  {
    hide FractionEnd, ExponentEnd;
    var a: nat, b: nat, c: nat :| NumberParts(t, i, a, b, c, j);
    DigitsStop(t, a, b);
    ExponentComplete(t, c, j);
    FractionComplete(t, b, c);
  }

  lemma EscapeIsPiece(t: string, i: nat, k: nat, s: string)
    requires i < |t| && t[i] == '\\'
    ensures Piece(t, i, k, s) <==> EscapeAt(t, i + 1) == Parsed(s, k)
  {
  }

  lemma PlainIsPiece(t: string, i: nat)
    requires i < |t| && t[i] >= ' ' && t[i] != '"' && t[i] != '\\'
    ensures Piece(t, i, i + 1, [t[i]])
  {
  }

  lemma PieceIsUnique(t: string, i: nat, k: nat, s: string)
    requires Piece(t, i, k, s)
    ensures t[i] != '"' && t[i] >= ' '
    ensures if t[i] == '\\' then EscapeAt(t, i + 1) == Parsed(s, k) else k == i + 1 && s == [t[i]]
  {
  }

  lemma {:induction false} StringRestSound(t: string, at: nat, out: string) returns (s: string)
    requires at <= |t| && StringRest(t, at, out).Parsed?
    ensures var r := StringRest(t, at, out);
      r.value == out + s && t[r.end - 1] == '"' && Pieces(t, at, r.end - 1, s)
    decreases |t| - at
  {
    hide EscapeAt, Piece;
    if t[at] == '"' {
      s := "";
    } else {
      var k, first := at + 1, [t[at]];
      if t[at] == '\\' {
        k, first := EscapeAt(t, at + 1).end, EscapeAt(t, at + 1).value;
        EscapeIsPiece(t, at, k, first);
      } else {
        PlainIsPiece(t, at);
      }
      var rest := StringRestSound(t, k, out + first);
      s := first + rest;
      assert s[..|first|] == first && s[|first|..] == rest;
      assert out + first + rest == out + s;
    }
  }

  lemma {:induction false} StringRestComplete(t: string, i: nat, j: nat, s: string, out: string)
    requires Pieces(t, i, j, s) && j < |t| && t[j] == '"'
    ensures StringRest(t, i, out) == Parsed(out + s, j + 1)
    decreases j - i
  {
    hide Piece, EscapeAt;
    if i < j {
      var k, n :| i < k <= j && 0 <= n <= |s| && Piece(t, i, k, s[..n]) && Pieces(t, k, j, s[n..]);
      PieceIsUnique(t, i, k, s[..n]);
      StringRestComplete(t, k, j, s[n..], out + s[..n]);
      assert out + s[..n] + s[n..] == out + s;
    } else {
      assert out + s == out;
    }
  }

  lemma StringIsText(t: string, i: nat, j: nat, s: string)
    requires i <= |t|
    ensures StringAt(t, i) == Parsed(s, j) <==> StringText(t, i, j, s)
  {
    if StringAt(t, i) == Parsed(s, j) {
      var inside := StringRestSound(t, i + 1, "");
      assert inside == s;
    }
    if StringText(t, i, j, s) {
      StringRestComplete(t, i + 1, j - 1, s, "");
      assert "" + s == s;
    }
  }

  // Values.

  predicate IsScalar(v: Json) { !v.Array? && !v.Object? }

  lemma ScalarSound(t: string, a: nat, depth: nat)
    requires a < |t| && ScalarAt(t, a).Parsed? && depth <= MAXIMUM_DEPTH
    ensures Value(t, a, ScalarAt(t, a).end, ScalarAt(t, a).value, depth)
  {
    hide Finite, NumberText, StringText, Digits, StringAt, NumberEnd;
    if t[a] == '"' {
      StringIsText(t, a, StringAt(t, a).end, StringAt(t, a).value);
    } else if NumberEnd(t, a).Some? {
      NumberSound(t, a);
    }
  }

  lemma NumberStarts(t: string, i: nat, j: nat)
    requires NumberText(t, i, j)
    ensures i < j <= |t| && (t[i] == '-' || IsDigit(t[i]))
  {
  }

  /** No value begins like whitespace or like the end of a list. */
  lemma ValueStarts(t: string, i: nat, j: nat, v: Json, depth: nat)
    requires Value(t, i, j, v, depth)
    ensures i < j <= |t| && depth <= MAXIMUM_DEPTH && !IsSpace(t[i]) && t[i] != ']' && t[i] != '}'
    ensures t[i] == '[' <==> v.Array?
    ensures t[i] == '{' <==> v.Object?
    ensures t[i] == '"' <==> v.String?
  {
  }

  lemma LiteralStarts(t: string, i: nat, word: string)
    requires i < |t| && word != ""
    ensures LiteralAt(t, i, word) ==> t[i] == word[0]
  {
  }

  lemma ScalarComplete(t: string, i: nat, j: nat, v: Json, depth: nat)
    requires Value(t, i, j, v, depth) && IsScalar(v) && Ends(t, j)
    ensures ScalarAt(t, i) == Parsed(v, j)
  {
    hide Finite, NumberText, StringText, Digits, StringAt, NumberEnd;
    ValueStarts(t, i, j, v, depth);
    LiteralStarts(t, i, "true");
    LiteralStarts(t, i, "false");
    LiteralStarts(t, i, "null");
    match v {
      case String(s) => StringIsText(t, i, j, s);
      case Number(_) => {
        NumberStarts(t, i, j);
        NumberComplete(t, i, j);
      }
      case Null => {
        assert LiteralAt(t, i, "null");
        assert t[i..j][0] == 'n' == t[i];
      }
      case Bool(b) => {
        assert LiteralAt(t, i, if b then "true" else "false");
        assert t[i..j][0] == t[i];
      }
    }
  }

  lemma PaddedIs(t: string, i: nat, a: nat, b: nat, j: nat, v: Json, depth: nat)
    requires Spaces(t, i, a) && Value(t, a, b, v, depth) && Spaces(t, b, j)
    ensures Padded(t, i, j, v, depth)
  {
  }

  lemma ArrayIs(t: string, i: nat, j: nat, items: seq<Json>, depth: nat)
    requires i + 2 <= j <= |t| && depth <= MAXIMUM_DEPTH && t[i] == '[' && t[j - 1] == ']'
    requires if items == [] then Spaces(t, i + 1, j - 1) else Elements(t, i + 1, j - 1, items, depth + 1)
    ensures Value(t, i, j, Array(items), depth)
  {
    hide Spaces, Elements;
  }

  lemma ObjectIs(t: string, i: nat, j: nat, keys: seq<string>, values: seq<Json>, depth: nat)
    requires i + 2 <= j <= |t| && depth <= MAXIMUM_DEPTH && t[i] == '{' && t[j - 1] == '}' && |keys| == |values|
    requires if keys == [] then Spaces(t, i + 1, j - 1) else Members(t, i + 1, j - 1, keys, values, depth + 1)
    ensures Value(t, i, j, Object(keys, values), depth)
  {
    hide Spaces, Members;
  }

  lemma {:induction false} ValueSound(t: string, at: nat, depth: nat)
    requires at <= |t| && ValueAt(t, at, depth).Parsed?
    ensures Value(t, Skip(t, at), ValueAt(t, at, depth).end, ValueAt(t, at, depth).value, depth)
    decreases |t| - at, 0
  {
    hide Skip, Spaces, ScalarAt, Elements, Members, ElementsAt, MembersAt, Value;
    var a := Skip(t, at);
    var b := Skip(t, a + 1);
    if t[a] == '{' {
      if b < |t| && t[b] == '}' {
        ObjectIs(t, a, b + 1, [], [], depth);
      } else {
        var keys, values := MembersSound(t, a + 1, b, depth, [], []);
        assert [] + keys == keys && [] + values == values;
        ObjectIs(t, a, MembersAt(t, b, depth, [], []).end, keys, values, depth);
      }
    } else if t[a] == '[' {
      if b < |t| && t[b] == ']' {
        ArrayIs(t, a, b + 1, [], depth);
      } else {
        var items := ElementsSound(t, a + 1, b, depth, []);
        assert [] + items == items;
        ArrayIs(t, a, ElementsAt(t, b, depth, []).end, items, depth);
      }
    } else {
      ScalarSound(t, a, depth);
    }
  }

  lemma OneElement(t: string, i: nat, j: nat, item: Json, depth: nat)
    requires i <= j <= |t| && Padded(t, i, j, item, depth)
    ensures Elements(t, i, j, [item], depth)
  {
    hide Padded;
  }

  lemma ElementsJoin(t: string, i: nat, k: nat, j: nat, item: Json, items: seq<Json>, depth: nat)
    requires i <= k < j <= |t| && t[k] == ',' && Padded(t, i, k, item, depth) && Elements(t, k + 1, j, items, depth)
    ensures Elements(t, i, j, [item] + items, depth)
  {
    hide Padded;
    var all := [item] + items;
    assert all[1..] == items;
  }

  lemma {:induction false} ElementsSound(t: string, i: nat, at: nat, depth: nat, items: seq<Json>)
      returns (rest: seq<Json>)
    requires Spaces(t, i, at) && ElementsAt(t, at, depth, items).Parsed?
    ensures rest != []
    ensures var r := ElementsAt(t, at, depth, items);
      r.value == Array(items + rest) && t[r.end - 1] == ']' && Elements(t, i, r.end - 1, rest, depth + 1)
    decreases |t| - at, 1
  {
    hide Value, ValueAt, Padded, Skip, Elements;
    var item := ValueAt(t, at, depth + 1);
    ValueSound(t, at, depth + 1);
    var f := Skip(t, item.end);
    SpacesJoin(t, i, at, Skip(t, at));
    PaddedIs(t, i, Skip(t, at), item.end, f, item.value, depth + 1);
    if t[f] == ',' {
      var more := ElementsSound(t, f + 1, f + 1, depth, items + [item.value]);
      rest := [item.value] + more;
      ElementsJoin(t, i, f, ElementsAt(t, at, depth, items).end - 1, item.value, more, depth + 1);
      assert items + [item.value] + more == items + rest;
    } else {
      rest := [item.value];
      OneElement(t, i, f, item.value, depth + 1);
    }
  }

  lemma {:induction false} MemberSound(t: string, i: nat, at: nat, depth: nat)
    requires Spaces(t, i, at) && KeyAt(t, at).Parsed? && ValueAt(t, KeyAt(t, at).end, depth).Parsed?
    ensures var key := KeyAt(t, at); var item := ValueAt(t, key.end, depth);
      Member(t, i, Skip(t, item.end), key.value, item.value, depth)
    decreases |t| - at, 1
  {
    hide Value, ValueAt, StringAt, StringText, Padded, Skip;
    var a := Skip(t, at);
    var text := StringAt(t, a);
    StringIsText(t, a, text.end, text.value);
    var c := KeyAt(t, at).end;
    var item := ValueAt(t, c, depth);
    ValueSound(t, c, depth);
    PaddedIs(t, c, Skip(t, c), item.end, Skip(t, item.end), item.value, depth);
    SpacesJoin(t, i, at, a);
  }

  lemma OneMember(t: string, i: nat, j: nat, key: string, value: Json, depth: nat)
    requires i <= j <= |t| && Member(t, i, j, key, value, depth)
    ensures Members(t, i, j, [key], [value], depth)
  {
    hide Member;
  }

  lemma MembersJoin(t: string, i: nat, k: nat, j: nat, key: string, value: Json, keys: seq<string>,
      values: seq<Json>, depth: nat)
    requires i <= k < j <= |t| && t[k] == ',' && Member(t, i, k, key, value, depth) &&
      Members(t, k + 1, j, keys, values, depth)
    ensures Members(t, i, j, [key] + keys, [value] + values, depth)
  {
    hide Member;
    var ks, vs := [key] + keys, [value] + values;
    assert ks[1..] == keys && vs[1..] == values;
  }

  lemma {:induction false} MembersSound(t: string, i: nat, at: nat, depth: nat, keys: seq<string>, values: seq<Json>)
    returns (ks: seq<string>, vs: seq<Json>)
    requires Spaces(t, i, at) && MembersAt(t, at, depth, keys, values).Parsed?
    ensures |ks| == |vs| && ks != []
    ensures var r := MembersAt(t, at, depth, keys, values);
      r.value == Object(keys + ks, values + vs) && t[r.end - 1] == '}' && Members(t, i, r.end - 1, ks, vs, depth + 1)
    decreases |t| - at, 2
  {
    hide Value, ValueAt, KeyAt, Member, Members, Skip;
    var key := KeyAt(t, at);
    var item := ValueAt(t, key.end, depth + 1);
    MemberSound(t, i, at, depth + 1);
    var f := Skip(t, item.end);
    if t[f] == ',' {
      var mk, mv := MembersSound(t, f + 1, f + 1, depth, keys + [key.value], values + [item.value]);
      ks, vs := [key.value] + mk, [item.value] + mv;
      MembersJoin(t, i, f, MembersAt(t, at, depth, keys, values).end - 1, key.value, item.value, mk, mv, depth + 1);
      assert keys + [key.value] + mk == keys + ks;
      assert values + [item.value] + mv == values + vs;
    } else {
      ks, vs := [key.value], [item.value];
      OneMember(t, i, f, key.value, item.value, depth + 1);
    }
  }

  /** What a list or an object is made of. */
  lemma ValueParts(t: string, i: nat, j: nat, v: Json, depth: nat)
    requires Value(t, i, j, v, depth) && (v.Array? || v.Object?)
    ensures i + 2 <= j <= |t| && depth <= MAXIMUM_DEPTH && t[j - 1] == (if v.Array? then ']' else '}')
    ensures v.Array? ==>
      if v.items == [] then Spaces(t, i + 1, j - 1) else Elements(t, i + 1, j - 1, v.items, depth + 1)
    ensures v.Object? ==> |v.keys| == |v.values|
    ensures v.Object? ==>
      if v.keys == [] then Spaces(t, i + 1, j - 1) else Members(t, i + 1, j - 1, v.keys, v.values, depth + 1)
  {
    hide Spaces, Elements, Members;
  }

  lemma {:induction false} ValueComplete(t: string, at: nat, i: nat, j: nat, v: Json, depth: nat)
    requires Spaces(t, at, i) && Value(t, i, j, v, depth) && Ends(t, j)
    ensures ValueAt(t, at, depth) == Parsed(v, j)
    decreases j - i, 0
  {
    hide Value, Spaces, Skip, ScalarAt, Elements, Members, ElementsAt, MembersAt;
    ValueStarts(t, i, j, v, depth);
    if v.Array? || v.Object? { ValueParts(t, i, j, v, depth); }
    SkipStops(t, at, i);
    match v {
      case Array(items) =>
        if items == [] {
          SkipStops(t, i + 1, j - 1);
        } else {
          ElementsComplete(t, i + 1, j - 1, items, depth, []);
          ElementsSkip(t, i + 1, depth, []);
          assert [] + items == items;
        }
      case Object(keys, values) =>
        if keys == [] {
          SkipStops(t, i + 1, j - 1);
        } else {
          MembersComplete(t, i + 1, j - 1, keys, values, depth, [], []);
          MembersSkip(t, i + 1, depth, [], []);
          assert [] + keys == keys && [] + values == values;
        }
      case _ => ScalarComplete(t, i, j, v, depth);
    }
  }

  /** A padded value in a list is read up to what closes or separates it. */
  lemma {:induction false} PaddedComplete(t: string, i: nat, k: nat, v: Json, depth: nat)
    requires Padded(t, i, k, v, depth) && k < |t| && (t[k] == ',' || t[k] == ']' || t[k] == '}')
    ensures var r := ValueAt(t, i, depth); r.Parsed? && r.value == v && Skip(t, r.end) == k
    ensures var a := Skip(t, i); a < k && t[a] != ']' && t[a] != '}'
    decreases k - i, 1
  {
    hide Value, ValueAt;
    var a, b :| i <= a <= b <= k && Spaces(t, i, a) && Value(t, a, b, v, depth) && Spaces(t, b, k);
    ValueStarts(t, a, b, v, depth);
    SkipStops(t, i, a);
    assert b < k ==> IsSpace(t[b]);
    ValueComplete(t, i, a, b, v, depth);
    SkipStops(t, b, k);
  }

  lemma ValueSkip(t: string, i: nat, depth: nat)
    requires i <= |t|
    ensures ValueAt(t, Skip(t, i), depth) == ValueAt(t, i, depth)
  {
  }

  lemma ElementsSkip(t: string, i: nat, depth: nat, items: seq<Json>)
    requires i <= |t|
    ensures ElementsAt(t, Skip(t, i), depth, items) == ElementsAt(t, i, depth, items)
  {
    hide ValueAt, Skip;
    ValueSkip(t, i, depth + 1);
  }

  lemma MembersSkip(t: string, i: nat, depth: nat, keys: seq<string>, values: seq<Json>)
    requires i <= |t|
    ensures MembersAt(t, Skip(t, i), depth, keys, values) == MembersAt(t, i, depth, keys, values)
  {
    hide ValueAt, StringAt;
    SkipThrough(t, i, Skip(t, i));
    assert KeyAt(t, Skip(t, i)) == KeyAt(t, i);
  }

  lemma {:induction false} ElementsComplete(t: string, i: nat, j: nat, items: seq<Json>, depth: nat, before: seq<Json>)
    requires Elements(t, i, j, items, depth + 1) && j < |t| && t[j] == ']'
    ensures ElementsAt(t, i, depth, before) == Parsed(Array(before + items), j + 1)
    ensures var a := Skip(t, i); a < |t| && t[a] != ']'
    decreases j - i, 2
  {
    hide Value, ValueAt, Padded, Skip, Spaces;
    if |items| == 1 {
      PaddedComplete(t, i, j, items[0], depth + 1);
      assert [items[0]] == items;
    } else {
      var k :| i <= k < j && t[k] == ',' && Padded(t, i, k, items[0], depth + 1) &&
        Elements(t, k + 1, j, items[1..], depth + 1);
      PaddedComplete(t, i, k, items[0], depth + 1);
      ElementsComplete(t, k + 1, j, items[1..], depth, before + [items[0]]);
      assert before + [items[0]] + items[1..] == before + items;
    }
  }

  /** A member's key is read up to its value. */
  lemma KeyComplete(t: string, i: nat, a: nat, b: nat, c: nat, key: string)
    requires Spaces(t, i, a) && StringText(t, a, b, key) && Spaces(t, b, c) && c < |t| && t[c] == ':'
    ensures KeyAt(t, i) == Parsed(key, c + 1)
    ensures Skip(t, i) == a && t[a] == '"'
  {
    hide Pieces, StringAt;
    SkipStops(t, i, a);
    StringIsText(t, a, b, key);
    SkipStops(t, b, c);
  }

  lemma {:induction false} MemberComplete(t: string, i: nat, k: nat, key: string, v: Json, depth: nat)
    requires Member(t, i, k, key, v, depth) && k < |t| && (t[k] == ',' || t[k] == '}')
    ensures var name := KeyAt(t, i);
      && name.Parsed? && name.value == key
      && var r := ValueAt(t, name.end, depth); r.Parsed? && r.value == v && Skip(t, r.end) == k
    ensures var a := Skip(t, i); a < k && t[a] == '"'
    decreases k - i, 2
  {
    hide Value, ValueAt, KeyAt, StringText, Padded;
    var a, b, c :| i <= a <= b <= c < k <= |t| && Spaces(t, i, a) && StringText(t, a, b, key) && Spaces(t, b, c) &&
      t[c] == ':' && Padded(t, c + 1, k, v, depth);
    KeyComplete(t, i, a, b, c, key);
    PaddedComplete(t, c + 1, k, v, depth);
  }

  lemma {:induction false} MembersComplete(t: string, i: nat, j: nat, keys: seq<string>, values: seq<Json>, depth: nat,
      ks: seq<string>, vs: seq<Json>)
    requires Members(t, i, j, keys, values, depth + 1) && j < |t| && t[j] == '}'
    ensures MembersAt(t, i, depth, ks, vs) == Parsed(Object(ks + keys, vs + values), j + 1)
    ensures var a := Skip(t, i); a < |t| && t[a] != '}'
    decreases j - i, 3
  {
    hide Value, ValueAt, Member, KeyAt, Skip, Spaces;
    if |keys| == 1 {
      MemberComplete(t, i, j, keys[0], values[0], depth + 1);
      assert [keys[0]] == keys && [values[0]] == values;
    } else {
      var k :| i <= k < j && t[k] == ',' && Member(t, i, k, keys[0], values[0], depth + 1) &&
        Members(t, k + 1, j, keys[1..], values[1..], depth + 1);
      MemberComplete(t, i, k, keys[0], values[0], depth + 1);
      MembersComplete(t, k + 1, j, keys[1..], values[1..], depth, ks + [keys[0]], vs + [values[0]]);
      assert ks + [keys[0]] + keys[1..] == ks + keys;
      assert vs + [values[0]] + values[1..] == vs + values;
    }
  }

  /** The parser accepts exactly the texts of the grammar, and returns what they denote. */
  lemma ParsesExactly(t: string, v: Json)
    ensures ParseJson(t) == Some(v) <==> JsonText(t, v)
  {
    hide Value, ValueAt;
    if ParseJson(t) == Some(v) {
      ValueSound(t, 0, 0);
      PaddedIs(t, 0, Skip(t, 0), ValueAt(t, 0, 0).end, |t|, v, 0);
    }
    if JsonText(t, v) {
      var a, b :| 0 <= a <= b <= |t| && Spaces(t, 0, a) && Value(t, a, b, v, 0) && Spaces(t, b, |t|);
      ValueStarts(t, a, b, v, 0);
      assert b < |t| ==> IsSpace(t[b]);
      ValueComplete(t, 0, a, b, v, 0);
      SkipStops(t, b, |t|);
    }
  }

  // Shape.

  lemma {:induction false} ValueNests(t: string, i: nat, j: nat, v: Json, depth: nat)
    requires Value(t, i, j, v, depth)
    ensures Nested(v, MAXIMUM_DEPTH - depth)
    decreases j - i, 0
  {
    match v {
      case Array(items) => if items != [] { ElementsNest(t, i + 1, j - 1, items, depth + 1); }
      case Object(keys, values) => if keys != [] { MembersNest(t, i + 1, j - 1, keys, values, depth + 1); }
      case _ =>
    }
  }

  lemma {:induction false} PaddedNests(t: string, i: nat, j: nat, v: Json, depth: nat)
    requires Padded(t, i, j, v, depth)
    ensures Nested(v, MAXIMUM_DEPTH - depth)
    decreases j - i, 1
  {
    hide Value, Nested;
    var a, b :| i <= a <= b <= j && Spaces(t, i, a) && Value(t, a, b, v, depth) && Spaces(t, b, j);
    ValueNests(t, a, b, v, depth);
  }

  lemma {:induction false} ElementsNest(t: string, i: nat, j: nat, items: seq<Json>, depth: nat)
    requires Elements(t, i, j, items, depth)
    ensures forall k :: 0 <= k < |items| ==> Nested(items[k], MAXIMUM_DEPTH - depth)
    decreases j - i, 2
  {
    hide Value, Nested, Padded;
    var k := j;
    if |items| > 1 {
      k :| i <= k < j && t[k] == ',' && Padded(t, i, k, items[0], depth) && Elements(t, k + 1, j, items[1..], depth);
      ElementsNest(t, k + 1, j, items[1..], depth);
      assert forall n :: 1 <= n < |items| ==> items[n] == items[1..][n - 1];
    }
    PaddedNests(t, i, k, items[0], depth);
  }

  lemma MemberNests(t: string, i: nat, k: nat, key: string, v: Json, depth: nat)
    requires Member(t, i, k, key, v, depth)
    ensures Nested(v, MAXIMUM_DEPTH - depth)
    decreases k - i, 2
  {
    hide Value, Nested, StringText, Padded, Spaces;
    var a, b, c :| i <= a <= b <= c < k <= |t| && Spaces(t, i, a) && StringText(t, a, b, key) && Spaces(t, b, c) &&
      t[c] == ':' && Padded(t, c + 1, k, v, depth);
    PaddedNests(t, c + 1, k, v, depth);
  }

  lemma {:induction false} MembersNest(t: string, i: nat, j: nat, keys: seq<string>, values: seq<Json>, depth: nat)
    requires Members(t, i, j, keys, values, depth)
    ensures forall k :: 0 <= k < |values| ==> Nested(values[k], MAXIMUM_DEPTH - depth)
    decreases j - i, 3
  {
    hide Nested, Member;
    var k := j;
    if |keys| > 1 {
      k :| i <= k < j && t[k] == ',' && Member(t, i, k, keys[0], values[0], depth) &&
        Members(t, k + 1, j, keys[1..], values[1..], depth);
      MembersNest(t, k + 1, j, keys[1..], values[1..], depth);
      assert forall n :: 1 <= n < |values| ==> values[n] == values[1..][n - 1];
    }
    MemberNests(t, i, k, keys[0], values[0], depth);
  }

  /** Every parsed tree has one value a key and at most 33 levels. */
  lemma ParsedIsNested(t: string)
    requires ParseJson(t).Some?
    ensures Nested(ParseJson(t).value, MAXIMUM_DEPTH)
  {
    ValueSound(t, 0, 0);
    ValueNests(t, Skip(t, 0), ValueAt(t, 0, 0).end, ParseJson(t).value, 0);
  }
}
