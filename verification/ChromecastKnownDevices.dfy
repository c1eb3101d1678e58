/** The remembered devices, written as JSON and read back. */
module KnownDevices {
  import opened Basics
  import opened Letters
  import opened JsonGrammar
  import opened JsonParsing
  import opened JsonReader
  import opened JsonWriter

  /** The seven fields of a device that are saved. */
  datatype Known = Known(
    name: string, model: string, mac: string, udn: string, hotspotBssid: string, ssid: string, ip: string)
  {
    function Fields(): (r: seq<string>)
      ensures |r| == 7
    {
      [name, model, mac, udn, hotspotBssid, ssid, ip]
    }

    predicate Kept() { mac != "" || udn != "" }
  }

  function Names(): (r: seq<string>)
    ensures |r| == 7
  {
    ["name", "model", "mac", "udn", "hotspot_bssid", "ssid", "ip"]
  }

  predicate Plain(s: string) {
    forall k :: 0 <= k < |s| ==> ' ' <= s[k] && s[k] != '"' && s[k] != '\\'
  }

  lemma NamesArePlain(k: nat)
    requires k < |Names()|
    ensures Plain(Names()[k])
  {
  }

  function Strings(values: seq<string>): (r: seq<Json>)
    ensures |r| == |values| && forall k :: 0 <= k < |r| ==> r[k] == String(values[k])
  {
    if values == [] then [] else [String(values[0])] + Strings(values[1..])
  }

  // Writing.

  function Member(key: string, value: string): string {
    Quoted(key) + ":" + Quoted(value)
  }

  /** The first members of an object, separated. */
  function Members(keys: seq<string>, values: seq<string>, n: nat): string
    requires n <= |keys| == |values|
  {
    if n == 0 then ""
    else Members(keys, values, n - 1) + (if n > 1 then "," else "") + Member(keys[n - 1], values[n - 1])
  }

  function Row(d: Known): string {
    "{" + Members(Names(), d.Fields(), |Names()|) + "}"
  }

  function Rows(known: seq<Known>): string {
    if known == [] then ""
    else Rows(known[..|known| - 1]) + (if |known| > 1 then "," else "") + Row(known[|known| - 1])
  }

  function Encoded(known: seq<Known>): string {
    "[" + Rows(known) + "]"
  }

  /** The lead of a member, in pieces. */
  lemma NameSpelled(key: string, mark: string, comma: string)
    requires mark == "\"" && (comma == "" || comma == ",")
    ensures mark + key + mark + ":" == mark + key + "\":"
    ensures (if comma == "," then ",\"" else "\"") + key + "\":" == comma + (mark + key + "\":")
  {
    assert mark + ":" == "\":";
    Associate(mark + key, mark, ":");
    Associate(comma, mark, key);
    Associate(comma, mark + key, "\":");
    assert comma + mark == if comma == "," then ",\"" else "\"";
  }

  lemma KeySpelled(key: string, value: string, comma: string, lead: string)
    requires Plain(key) && (comma == "" || comma == ",") && lead == (if comma == "," then ",\"" else "\"") + key + "\":"
    ensures lead + Quoted(value) == comma + Member(key, value)
  {
    PlainQuoted(key);
    assert Quoted(key) == "\"" + key + "\"";
    hide Quoted, QuotedChars, Plain;
    var mark, q := "\"", Quoted(value);
    var name := mark + key + "\":";
    NameSpelled(key, mark, comma);
    Associate(comma, name, q);
  }

  lemma NoMembers(keys: seq<string>, values: seq<string>)
    requires |keys| == |values|
    ensures Members(keys, values, 0) == ""
  {
  }

  /** What stands before a member's value. */
  function Lead(n: nat): string
    requires n < |Names()|
  {
    (if n > 0 then ",\"" else "\"") + Names()[n] + "\":"
  }

  lemma LeadsSpelled()
    ensures Lead(0) == "\"name\":"
    ensures Lead(1) == ",\"model\":"
    ensures Lead(2) == ",\"mac\":"
    ensures Lead(3) == ",\"udn\":"
    ensures Lead(4) == ",\"hotspot_bssid\":"
    ensures Lead(5) == ",\"ssid\":"
    ensures Lead(6) == ",\"ip\":"
  {
  }

  lemma MemberSpelled(values: seq<string>, n: nat, out: string)
    requires n < |Names()| == |values| && out == "{" + Members(Names(), values, n)
    ensures out + Lead(n) + Quoted(values[n]) == "{" + Members(Names(), values, n + 1)
  {
    NamesArePlain(n);
    hide Plain, Quoted, Member, Names;
    var comma, key := if n > 0 then "," else "", Names()[n];
    var member, q := Member(key, values[n]), Quoted(values[n]);
    KeySpelled(key, values[n], comma, Lead(n));
    hide Lead;
    var before := Members(Names(), values, n);
    assert Members(Names(), values, n + 1) == before + comma + member;
    hide Members;
    Associate(out, Lead(n), q);
    Associate("{", before, comma + member);
    Associate(before, comma, member);
  }

  method WriteRow(d: Known) returns (row: string)
    ensures row == Row(d)
  {
    hide Quoted, Members, ParseJson, Names, Lead;
    ghost var values := d.Fields();
    NoMembers(Names(), values);
    LeadsSpelled();
    var name := Quote(d.name);
    var model := Quote(d.model);
    var mac := Quote(d.mac);
    var udn := Quote(d.udn);
    var hotspotBssid := Quote(d.hotspotBssid);
    var ssid := Quote(d.ssid);
    var ip := Quote(d.ip);
    row := "{";
    MemberSpelled(values, 0, row);
    row := row + "\"name\":" + name;
    MemberSpelled(values, 1, row);
    row := row + ",\"model\":" + model;
    MemberSpelled(values, 2, row);
    row := row + ",\"mac\":" + mac;
    MemberSpelled(values, 3, row);
    row := row + ",\"udn\":" + udn;
    MemberSpelled(values, 4, row);
    row := row + ",\"hotspot_bssid\":" + hotspotBssid;
    MemberSpelled(values, 5, row);
    row := row + ",\"ssid\":" + ssid;
    MemberSpelled(values, 6, row);
    row := row + ",\"ip\":" + ip;
    row := row + "}";
  }

  method EncodeKnown(known: seq<Known>) returns (out: string)
    ensures out == Encoded(known)
    ensures Restored(out) == Keepable(known)
  {
    hide Row, Restored, Keepable;
    out := "[";
    for i := 0 to |known|
      invariant out == "[" + Rows(known[..i])
      invariant |out| > 1 <==> i > 0
    {
      assert known[..i + 1][..i] == known[..i] && known[..i + 1][i] == known[i];
      if |out| > 1 {
        out := out + ",";
      }
      var row := WriteRow(known[i]);
      assert |row| > 1 by { RowStarts(known[i]); }
      out := out + row;
    }
    assert known[..|known|] == known;
    out := out + "]";
    SavedIsRestored(known);
  }

  lemma RowStarts(d: Known)
    ensures |Row(d)| > 1
  {
  }

  // Reading.

  function TextAt(row: Json, key: string): string {
    var field := Lookup(row, key);
    if field.Some? && field.value.String? then field.value.text else ""
  }

  function FromRow(row: Json): Known {
    Known(TextAt(row, "name"), TextAt(row, "model"), TextAt(row, "mac"), TextAt(row, "udn"),
          TextAt(row, "hotspot_bssid"), TextAt(row, "ssid"), TextAt(row, "ip"))
  }

  function Keepable(known: seq<Known>): (r: seq<Known>)
    ensures (forall d <- known :: d.Kept()) ==> r == known
    ensures forall d :: d in r <==> d in known && d.Kept()
  {
    if known == [] then []
    else
      var front, d := known[..|known| - 1], known[|known| - 1];
      assert known == front + [d];
      Keepable(front) + if d.Kept() then [d] else []
  }

  function FromRows(rows: seq<Json>): (r: seq<Known>)
    ensures |r| == |rows| && forall k :: 0 <= k < |r| ==> r[k] == FromRow(rows[k])
  {
    seq(|rows|, k requires 0 <= k < |rows| => FromRow(rows[k]))
  }

  function Restored(text: string): seq<Known> {
    var root := ParseJson(text);
    if root.None? || !root.value.Array? then [] else Keepable(FromRows(root.value.items))
  }

  lemma RowFiltered(rows: seq<Json>, i: nat)
    requires i < |rows|
    ensures Keepable(FromRows(rows[..i + 1])) == Keepable(FromRows(rows[..i])) + if FromRow(rows[i]).Kept()
      then [FromRow(rows[i])] else []
  {
    hide FromRow;
    var before, after := FromRows(rows[..i]), FromRows(rows[..i + 1]);
    assert after[..i] == before && after[i] == FromRow(rows[i]);
  }

  lemma RowsEmpty()
    ensures Keepable(FromRows([])) == []
  {
  }

  method DecodeKnown(text: string) returns (known: seq<Known>)
    ensures known == Restored(text)
  {
    hide ParseJson, JsonText, FromRow, FromRows, Keepable;
    known := [];
    RowsEmpty();
    var root := Parse(text);
    if root.None? || !root.value.Array? {
      return;
    }
    var rows := root.value.items;
    for i := 0 to |rows|
      invariant known == Keepable(FromRows(rows[..i]))
    {
      var d := FromRow(rows[i]);
      RowFiltered(rows, i);
      if d.mac != "" || d.udn != "" {
        known := known + [d];
      }
    }
    assert rows[..|rows|] == rows;
  }

  // The round trip.

  function Tree(d: Known): Json {
    Object(Names(), Strings(d.Fields()))
  }

  function Trees(known: seq<Known>): (r: seq<Json>)
    ensures |r| == |known| && forall k :: 0 <= k < |r| ==> r[k] == Tree(known[k])
  {
    if known == [] then [] else Trees(known[..|known| - 1]) + [Tree(known[|known| - 1])]
  }

  lemma NamesDiffer()
    ensures forall m, k :: 0 <= m < k < 7 ==> Names()[m] != Names()[k]
  {
    var n := Names();
    assert n[0][0] == 'n' && n[5][0] == 's' && n[2][0] == 'm' && n[3][0] == 'u';
    forall m, k | 0 <= m < k < 7 ensures n[m] != n[k] {
      if |n[m]| == |n[k]| { assert (m == 0 && k == 5) || (m == 2 && k == 3); }
    }
  }

  lemma FieldReads(d: Known, k: nat)
    requires k < 7
    ensures TextAt(Tree(d), Names()[k]) == d.Fields()[k]
  {
    hide First;
    NamesDiffer();
  }

  lemma TreeIsRow(d: Known)
    ensures FromRow(Tree(d)) == d
  {
    hide Tree, TextAt;
    FieldReads(d, 0);
    FieldReads(d, 1);
    FieldReads(d, 2);
    FieldReads(d, 3);
    FieldReads(d, 4);
    FieldReads(d, 5);
    FieldReads(d, 6);
  }

  lemma NameReads(t: string, i: nat, key: string)
    requires Holds(t, i, Quoted(key) + ":")
    ensures KeyAt(t, i) == Parsed(key, i + |Quoted(key)| + 1) && i < |t| && t[i] == '"'
  {
    hide Quoted, StringAt;
    HoldsParts(t, i, Quoted(key), ":");
    QuotedReads(t, i, key);
    SkipStops(t, i, i);
    var c := i + |Quoted(key)|;
    HoldsEach(t, c, ":");
    SkipStops(t, c, c);
  }

  lemma TextReads(t: string, i: nat, value: string, depth: nat)
    requires Holds(t, i, Quoted(value)) && depth <= MAXIMUM_DEPTH
    ensures ValueAt(t, i, depth) == Parsed(String(value), i + |Quoted(value)|)
  {
    hide Quoted, StringAt, Finite, NumberEnd;
    QuotedReads(t, i, value);
    SkipStops(t, i, i);
  }

  /** A printed member is read back, up to the character behind it. */
  lemma MemberReads(t: string, i: nat, key: string, value: string, depth: nat)
    requires Holds(t, i, Member(key, value)) && depth <= MAXIMUM_DEPTH
    ensures var name := KeyAt(t, i);
      name == Parsed(key, i + |Quoted(key)| + 1) &&
        ValueAt(t, name.end, depth) == Parsed(String(value), i + |Member(key, value)|)
    ensures i < |t| && t[i] == '"'
  {
    hide Quoted, Holds, KeyAt, ValueAt;
    HoldsParts(t, i, Quoted(key) + ":", Quoted(value));
    NameReads(t, i, key);
    TextReads(t, i + |Quoted(key)| + 1, value, depth);
  }

  lemma MemberAppends(t: string, at: nat, depth: nat, key: string, value: string, ks: seq<string>, vs: seq<Json>)
    requires Holds(t, at, Member(key, value)) && depth < MAXIMUM_DEPTH && at + |Member(key, value)| < |t|
    ensures var f, keys, values := at + |Member(key, value)|, ks + [key], vs + [String(value)];
      MembersAt(t, at, depth, ks, vs) ==
        if t[f] == ',' then MembersAt(t, f + 1, depth, keys, values)
        else if t[f] == '}' then Parsed(Object(keys, values), f + 1)
        else MembersAt(t, at, depth, ks, vs)
    ensures t[at] == '"'
  {
    hide Member, KeyAt, ValueAt, Skip, Holds;
    MemberReads(t, at, key, value, depth + 1);
    var f := at + |Member(key, value)|;
    if t[f] == ',' || t[f] == '}' { SkipStops(t, f, f); }
  }

  lemma FrontGrows(keys: seq<string>, values: seq<string>, m: nat)
    requires m < |keys| == |values|
    ensures keys[..m] + [keys[m]] == keys[..m + 1]
    ensures Strings(values[..m]) + [String(values[m])] == Strings(values[..m + 1])
  {
  }

  lemma MembersGrow(keys: seq<string>, values: seq<string>, n: nat)
    requires 0 < n <= |keys| == |values|
    ensures Members(keys, values, n) ==
      Members(keys, values, n - 1) + (if n > 1 then "," else "") + Member(keys[n - 1], values[n - 1])
    ensures n == 1 ==> Members(keys, values, n - 1) == "" && keys[..n - 1] == [] && Strings(values[..n - 1]) == []
  {
    hide Member;
  }

  /** After the first members, the object is read on from behind the last of them. */
  lemma {:induction false} MembersRead(t: string, i: nat, depth: nat, keys: seq<string>, values: seq<string>, n: nat)
    requires 0 < n <= |keys| == |values| && Holds(t, i, Members(keys, values, n)) && depth < MAXIMUM_DEPTH
    requires i + |Members(keys, values, n)| < |t|
    ensures var f, ks, vs := i + |Members(keys, values, n)|, keys[..n], Strings(values[..n]);
      MembersAt(t, i, depth, [], []) ==
        if t[f] == ',' then MembersAt(t, f + 1, depth, ks, vs)
        else if t[f] == '}' then Parsed(Object(ks, vs), f + 1)
        else MembersAt(t, i, depth, [], [])
    ensures t[i] == '"'
    decreases n
  {
    hide Member, Members, MembersAt, Holds, Strings;
    var m := n - 1;
    MembersGrow(keys, values, n);
    var lead, member := Members(keys, values, m) + (if n > 1 then "," else ""), Member(keys[m], values[m]);
    HoldsParts(t, i, lead, member);
    MemberAppends(t, i + |lead|, depth, keys[m], values[m], keys[..m], Strings(values[..m]));
    FrontGrows(keys, values, m);
    if n > 1 {
      HoldsParts(t, i, Members(keys, values, m), ",");
      HoldsFits(t, i, lead);
      HoldsEach(t, i + |lead| - 1, ",");
      MembersRead(t, i, depth, keys, values, m);
    }
  }

  lemma HoldsFits(t: string, i: nat, piece: string)
    requires Holds(t, i, piece)
    ensures i + |piece| <= |t|
  {
  }

  lemma RowReads(t: string, i: nat, d: Known, depth: nat)
    requires Holds(t, i, Row(d)) && depth < MAXIMUM_DEPTH
    ensures ValueAt(t, i, depth) == Parsed(Tree(d), i + |Row(d)|)
    ensures i < |t| && t[i] == '{'
  {
    var n, f := Names(), d.Fields();
    hide MembersAt, ElementsAt, ScalarAt, Names, Known.Fields, Members;
    var members := Members(n, f, |n|);
    HoldsParts(t, i, "{" + members, "}");
    HoldsParts(t, i, "{", members);
    HoldsEach(t, i, "{");
    HoldsEach(t, i + 1 + |members|, "}");
    SkipStops(t, i, i);
    MembersRead(t, i + 1, depth, n, f, |n|);
    SkipStops(t, i + 1, i + 1);
    assert n[..|n|] == n && f[..|n|] == f;
  }

  lemma RowAppends(t: string, at: nat, d: Known, depth: nat, trees: seq<Json>)
    requires Holds(t, at, Row(d)) && depth + 1 < MAXIMUM_DEPTH && at + |Row(d)| < |t|
    ensures var f, more := at + |Row(d)|, trees + [Tree(d)];
      ElementsAt(t, at, depth, trees) ==
        if t[f] == ',' then ElementsAt(t, f + 1, depth, more)
        else if t[f] == ']' then Parsed(Array(more), f + 1)
        else ElementsAt(t, at, depth, trees)
    ensures t[at] == '{'
  {
    hide Row, ValueAt, Skip, Holds, Tree;
    RowReads(t, at, d, depth + 1);
    var f := at + |Row(d)|;
    if t[f] == ',' || t[f] == ']' { SkipStops(t, f, f); }
  }

  /** After the first rows, the array is read on from behind the last of them. */
  lemma {:induction false} RowsRead(t: string, i: nat, known: seq<Known>, depth: nat)
    requires known != [] && Holds(t, i, Rows(known)) && depth + 1 < MAXIMUM_DEPTH
    requires i + |Rows(known)| < |t|
    ensures var f, trees := i + |Rows(known)|, Trees(known);
      ElementsAt(t, i, depth, []) ==
        if t[f] == ',' then ElementsAt(t, f + 1, depth, trees)
        else if t[f] == ']' then Parsed(Array(trees), f + 1)
        else ElementsAt(t, i, depth, [])
    ensures t[i] == '{'
    decreases |known|
  {
    hide Row, Holds, Tree, ElementsAt;
    var front, d := known[..|known| - 1], known[|known| - 1];
    var lead := Rows(front) + if |known| > 1 then "," else "";
    assert Rows(known) == lead + Row(d);
    HoldsParts(t, i, lead, Row(d));
    RowAppends(t, i + |lead|, d, depth, Trees(front));
    if |known| > 1 {
      HoldsParts(t, i, Rows(front), ",");
      HoldsFits(t, i, lead);
      HoldsEach(t, i + |lead| - 1, ",");
      RowsRead(t, i, front, depth);
    } else {
      assert lead == "" && Trees(front) == [];
    }
  }

  lemma ArrayReads(t: string, i: nat, depth: nat)
    requires i + 1 < |t| && t[i] == '[' && depth <= MAXIMUM_DEPTH && (t[i + 1] == ']' || t[i + 1] == '{')
    ensures ValueAt(t, i, depth) == if t[i + 1] == ']' then Parsed(Array([]), i + 2)
      else ElementsAt(t, i + 1, depth, [])
  {
  }

  lemma RowsParse(t: string, known: seq<Known>)
    requires t == Encoded(known)
    ensures ValueAt(t, 0, 0) == Parsed(Array(Trees(known)), |t|)
  {
    var i, rows := 0, Rows(known);
    hide Rows, ElementsAt, ValueAt, Holds, Trees;
    assert t[i] == '[' && t[|t| - 1] == ']';
    if known == [] {
      NoRows();
    } else {
      RowsInside(t, rows);
      RowsRead(t, i + 1, known, i);
    }
    ArrayReads(t, i, i);
  }

  lemma RowsInside(t: string, rows: string)
    requires t == "[" + rows + "]"
    ensures Holds(t, 1, rows)
  {
  }

  lemma EncodedParses(known: seq<Known>)
    ensures ParseJson(Encoded(known)) == Some(Array(Trees(known)))
  {
    hide ValueAt, Encoded;
    var t := Encoded(known);
    RowsParse(t, known);
    SkipStops(t, |t|, |t|);
  }

  lemma NoRows()
    ensures Rows([]) == "" && Trees([]) == []
  {
  }

  /** Saving and loading keeps every device that has a MAC address or a UDN, in order, on all saved fields. */
  lemma SavedIsRestored(known: seq<Known>)
    ensures Restored(Encoded(known)) == Keepable(known)
    ensures (forall d <- known :: d.Kept()) ==> Restored(Encoded(known)) == known
  {
    hide Encoded, ParseJson, FromRow, Tree;
    EncodedParses(known);
    forall k | 0 <= k < |known| ensures FromRow(Tree(known[k])) == known[k] { TreeIsRow(known[k]); }
    assert FromRows(Trees(known)) == known;
  }

  /** What was loaded from any file is saved and loaded again unchanged. */
  lemma LoadedIsStable(text: string)
    ensures Restored(Encoded(Restored(text))) == Restored(text)
  {
    hide Encoded, ParseJson, FromRow;
    SavedIsRestored(Restored(text));
  }
}
