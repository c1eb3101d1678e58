/** The file of remembered devices, character by character. */
module SavedDevices {
  import opened JsonGrammar
  import opened JsonReader
  import opened JsonWriter
  import opened KnownDevices
  import opened JsonTexts

  /** How a byte is printed: short escapes where JSON has them for controls, \u00xx for the others, or as it is. */
  lemma QuotedCharIs(c: char)
    ensures c as int in {34, 92} ==> QuotedChar(c) == ['\\', c]
    ensures c as int == 10 ==> QuotedChar(c) == "\\n"
    ensures c as int == 13 ==> QuotedChar(c) == "\\r"
    ensures c as int == 9 ==> QuotedChar(c) == "\\t"
    ensures c as int < 32 && c as int !in {9, 10, 13} ==>
      QuotedChar(c) == "\\u00" + [LOWER_DIGITS[c as int / 16], LOWER_DIGITS[c as int % 16]]
    ensures c as int >= 32 && c as int !in {34, 92} ==> QuotedChar(c) == [c]
  {
  }

  /** A string is its characters, each printed, between two quotation marks. */
  lemma QuotedIs(s: string, c: char)
    ensures Quoted("") == "\"\"" && Quoted([c]) == "\"" + QuotedChar(c) + "\""
    ensures Quoted(s + [c]) == "\"" + QuotedChars(s) + QuotedChar(c) + "\""
  {
    hide QuotedChar;
    assert [c][..0] == "";
    assert (s + [c])[..|s|] == s;
  }

  /** The seven fields under their names. */
  lemma RowText(d: Known)
    ensures Row(d) == "{\"name\":" + Quoted(d.name) + ",\"model\":" + Quoted(d.model) + ",\"mac\":" + Quoted(d.mac) +
      ",\"udn\":" + Quoted(d.udn) + ",\"hotspot_bssid\":" + Quoted(d.hotspotBssid) + ",\"ssid\":" + Quoted(d.ssid) +
      ",\"ip\":" + Quoted(d.ip) + "}"
  {
    hide Quoted, KnownDevices.Members, Lead, Names;
    var values := d.Fields();
    NoMembers(Names(), values);
    LeadsSpelled();
    var row := "{";
    MemberSpelled(values, 0, row);
    row := row + "\"name\":" + Quoted(d.name);
    MemberSpelled(values, 1, row);
    row := row + ",\"model\":" + Quoted(d.model);
    MemberSpelled(values, 2, row);
    row := row + ",\"mac\":" + Quoted(d.mac);
    MemberSpelled(values, 3, row);
    row := row + ",\"udn\":" + Quoted(d.udn);
    MemberSpelled(values, 4, row);
    row := row + ",\"hotspot_bssid\":" + Quoted(d.hotspotBssid);
    MemberSpelled(values, 5, row);
    row := row + ",\"ssid\":" + Quoted(d.ssid);
    MemberSpelled(values, 6, row);
  }

  /** The rows in order, with commas between them. */
  lemma ListText(known: seq<Known>, d: Known)
    ensures Encoded([]) == "[]" && Encoded([d]) == "[" + Row(d) + "]"
    ensures known != [] ==> Encoded(known + [d]) == Encoded(known)[..|Encoded(known)| - 1] + "," + Row(d) + "]"
  {
    hide Row;
    assert [d][..0] == [];
    assert Rows([d]) == Row(d);
    var both := known + [d];
    assert both[..|both| - 1] == known;
  }

  /** The text under a name: that of the first member so named if it is a string, and nothing otherwise. */
  lemma TextIs(keys: seq<string>, values: seq<Json>, name: string, k: nat)
    requires |keys| == |values|
    ensures k < |keys| && keys[k] == name && name !in keys[..k] ==>
      TextAt(Object(keys, values), name) == if values[k].String? then values[k].text else ""
    ensures name !in keys ==> TextAt(Object(keys, values), name) == ""
  {
  }
}
