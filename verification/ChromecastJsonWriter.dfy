/** Printing strings, and what reading them back gives. */
module JsonWriter {
  import opened Basics
  import opened Letters
  import opened JsonGrammar
  import opened JsonParsing

  function HexDigit(d: nat): char
    requires d < 16
  {
    if d < 10 then ('0' as int + d) as char else ('a' as int + d - 10) as char
  }

  function QuotedChar(c: char): string {
    if c == '"' then "\\\""
    else if c == '\\' then "\\\\"
    else if c == '\n' then "\\n"
    else if c == '\r' then "\\r"
    else if c == '\t' then "\\t"
    else if c < ' ' then "\\u00" + [HexDigit(c as int / 16), HexDigit(c as int % 16)]
    else [c]
  }

  function QuotedChars(s: string): string {
    if s == "" then "" else QuotedChars(s[..|s| - 1]) + QuotedChar(s[|s| - 1])
  }

  function Quoted(s: string): string {
    "\"" + QuotedChars(s) + "\""
  }

  lemma Associate(a: string, b: string, c: string)
    ensures a + b + c == a + (b + c)
  {
  }

  lemma NothingQuoted()
    ensures QuotedChars("") == ""
  {
  }

  lemma QuotedGrows(s: string, i: nat)
    requires i < |s|
    ensures QuotedChars(s[..i + 1]) == QuotedChars(s[..i]) + QuotedChar(s[i])
  {
    hide QuotedChar;
    assert s[..i + 1][..i] == s[..i] && s[..i + 1][i] == s[i];
  }

  method Quote(value: string) returns (out: string)
    ensures out == Quoted(value)
    ensures ParseJson(out) == Some(String(value))
  {
    hide ParseJson, HexDigit, QuotedChars;
    out := "\"";
    NothingQuoted();
    for i := 0 to |value|
      invariant out == "\"" + QuotedChars(value[..i])
    {
      ghost var before := out;
      var c := value[i];
      if c == '"' {
        out := out + "\\\"";
      } else if c == '\\' {
        out := out + "\\\\";
      } else if c == '\n' {
        out := out + "\\n";
      } else if c == '\r' {
        out := out + "\\r";
      } else if c == '\t' {
        out := out + "\\t";
      } else if c < ' ' {
        out := out + "\\u00" + [HexDigit(c as int / 16), HexDigit(c as int % 16)];
      } else {
        out := out + [c];
      }
      assert out == before + QuotedChar(c);
      QuotedGrows(value, i);
      Associate("\"", QuotedChars(value[..i]), QuotedChar(c));
    }
    assert value[..|value|] == value;
    out := out + "\"";
    QuoteReadsBack(value);
  }

  lemma HoldsParts(t: string, i: nat, a: string, b: string)
    requires Holds(t, i, a + b)
    ensures Holds(t, i, a) && Holds(t, i + |a|, b)
  {
    assert (a + b)[..|a|] == a && (a + b)[|a|..] == b;
    assert t[i..i + |a|] == t[i..i + |a + b|][..|a|];
    assert t[i + |a|..i + |a| + |b|] == t[i..i + |a + b|][|a|..];
  }

  lemma HoldsEach(t: string, i: nat, piece: string)
    requires Holds(t, i, piece)
    ensures forall k :: i <= k < i + |piece| ==> t[k] == piece[k - i]
  {
  }

  lemma HexReads(d: nat)
    requires d < 16
    ensures HexValue(HexDigit(d)) == Some(d)
  {
  }

  lemma ControlReads(t: string, i: nat, c: char)
    requires c < ' ' && Holds(t, i, "\\u00" + [HexDigit(c as int / 16), HexDigit(c as int % 16)])
    ensures EscapeAt(t, i + 1) == Parsed([c], i + 6)
  {
    HoldsEach(t, i, "\\u00" + [HexDigit(c as int / 16), HexDigit(c as int % 16)]);
    HexReads(c as int / 16);
    HexReads(c as int % 16);
    hide HexDigit, HexValue, Holds;
    var n := 0;
    assert HexAt(t, i + 2, n) == Some(0);
    assert HexValue('0') == Some(0) by { HexReads(0); assert HexDigit(0) == '0' by { HexZero(); } }
    assert HexAt(t, i + 2, n + 1) == Some(0);
    assert HexAt(t, i + 2, n + 2) == Some(0);
    assert HexAt(t, i + 2, n + 3) == Some(c as int / 16);
    assert HexAt(t, i + 2, n + 4) == Some(c as int);
  }

  lemma HexZero()
    ensures HexDigit(0) == '0'
  {
  }

  /** One printed character is read back as itself. */
  lemma CharReads(t: string, i: nat, c: char, out: string)
    requires Holds(t, i, QuotedChar(c))
    ensures StringRest(t, i, out) == StringRest(t, i + |QuotedChar(c)|, out + [c])
  {
    HoldsEach(t, i, QuotedChar(c));
    if c < ' ' && c != '\n' && c != '\r' && c != '\t' {
      ControlReads(t, i, c);
    }
    hide EscapeAt, HexDigit, Holds;
    if c == '"' || c == '\\' || c == '\n' || c == '\r' || c == '\t' {
      SimpleReads(t, i + 1);
    }
  }

  lemma SimpleReads(t: string, i: nat)
    requires i < |t| && Simple(t[i]).Some?
    ensures EscapeAt(t, i) == Parsed([Simple(t[i]).value], i + 1)
  {
  }

  lemma {:induction false} CharsRead(t: string, i: nat, s: string, out: string)
    requires Holds(t, i, QuotedChars(s))
    ensures StringRest(t, i, out) == StringRest(t, i + |QuotedChars(s)|, out + s)
  {
    hide StringRest, QuotedChar, Holds;
    if s == "" {
      assert out + s == out;
    } else {
      var front, c := s[..|s| - 1], s[|s| - 1];
      HoldsParts(t, i, QuotedChars(front), QuotedChar(c));
      CharsRead(t, i, front, out);
      CharReads(t, i + |QuotedChars(front)|, c, out + front);
      assert out + front + [c] == out + s;
    }
  }

  lemma QuotedReads(t: string, i: nat, s: string)
    requires Holds(t, i, Quoted(s))
    ensures StringAt(t, i) == Parsed(s, i + |Quoted(s)|)
    ensures i < |t| && t[i] == '"'
  {
    hide QuotedChars;
    var chars := QuotedChars(s);
    HoldsParts(t, i, "\"" + chars, "\"");
    HoldsParts(t, i, "\"", chars);
    HoldsEach(t, i, "\"");
    HoldsEach(t, i + 1 + |chars|, "\"");
    CharsRead(t, i + 1, s, "");
    assert "" + s == s;
  }

  /** A printed string is exactly the JSON text of that string, for every string of bytes. */
  lemma QuoteReadsBack(s: string)
    ensures ParseJson(Quoted(s)) == Some(String(s))
  {
    var t, i := Quoted(s), 0;
    assert t[i..|t|] == t;
    QuotedReads(t, i, s);
    hide Quoted, StringAt, Finite, NumberEnd;
    SkipStops(t, i, i);
    SkipStops(t, |t|, |t|);
  }

  lemma PlainChar(c: char)
    requires ' ' <= c && c != '"' && c != '\\'
    ensures QuotedChar(c) == [c]
  {
  }

  lemma {:induction false} PlainQuoted(s: string)
    requires forall k :: 0 <= k < |s| ==> ' ' <= s[k] && s[k] != '"' && s[k] != '\\'
    ensures QuotedChars(s) == s
  {
    hide QuotedChar;
    if s != "" {
      var front, c := s[..|s| - 1], s[|s| - 1];
      PlainQuoted(front);
      PlainChar(c);
      assert front + [c] == s;
    }
  }
}
