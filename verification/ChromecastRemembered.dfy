/** The devices a session remembers from one search to the next. */
module Remembered {
  import opened Letters
  import opened Devices
  import opened KnownDevices

  /** The entry tells a network that is not the hotspot's own. */
  predicate AtHome(d: Info, hotspotAddress: nat, addressOf: string -> nat) {
    d.ssid != "" && d.ip != "" && addressOf(d.ip) / 256 != hotspotAddress / 256
  }

  /** What is kept of a device that was remembered before: a hotspot reports no home network. */
  function Kept(before: Info, info: Info, hotspotAddress: nat, addressOf: string -> nat): Info {
    var kept := info.(publicKey := "");
    if AtHome(kept, hotspotAddress, addressOf) then kept else kept.(ssid := before.ssid, ip := before.ip)
  }

  predicate Storable(d: Info) {
    (d.mac != "" || d.udn != "") && d.publicKey == ""
  }

  ghost predicate AllStorable(known: seq<Info>) {
    forall k :: 0 <= k < |known| ==> Storable(known[k])
  }

  function FirstKnown(known: seq<Info>, info: Info, from: nat): (i: nat)
    requires from <= |known|
    ensures from <= i <= |known| && (i < |known| ==> SameDevice(known[i], info))
    ensures forall k :: from <= k < i ==> !SameDevice(known[k], info)
    decreases |known| - from
  {
    if from == |known| || SameDevice(known[from], info) then from else FirstKnown(known, info, from + 1)
  }

  /** The list with one more device: the first entry of the same hardware gives way, otherwise there is a new one. */
  function Remembering(known: seq<Info>, info: Info, hotspotAddress: nat, addressOf: string -> nat): seq<Info> {
    if info.mac == "" && info.udn == "" then known
    else
      var i := FirstKnown(known, info, 0);
      if i == |known| then known + [info.(publicKey := "")]
      else known[i := Kept(known[i], info, hotspotAddress, addressOf)]
  }

  function AllRemembered(known: seq<Info>, infos: seq<Info>, hotspotAddress: nat, addressOf: string -> nat): seq<Info> {
    if infos == [] then known
    else
      var n := |infos| - 1;
      Remembering(AllRemembered(known, infos[..n], hotspotAddress, addressOf), infos[n], hotspotAddress, addressOf)
  }

  /** Devices are remembered one after the other. */
  lemma {:induction false} RememberedInTurn(known: seq<Info>, some: seq<Info>, more: seq<Info>, d: Info,
      hotspotAddress: nat, addressOf: string -> nat)
    ensures AllRemembered(known, some + more, hotspotAddress, addressOf) ==
      AllRemembered(AllRemembered(known, some, hotspotAddress, addressOf), more, hotspotAddress, addressOf)
    ensures AllRemembered(known, [d], hotspotAddress, addressOf) == Remembering(known, d, hotspotAddress, addressOf)
    decreases |more|
  {
    hide Remembering;
    assert [d][..0] == [] && AllRemembered(known, [], hotspotAddress, addressOf) == known;
    if more == [] {
      assert some + more == some;
    } else {
      var n := |more| - 1;
      assert (some + more)[..|some| + n] == some + more[..n];
      RememberedInTurn(known, some, more[..n], d, hotspotAddress, addressOf);
    }
  }

  method Remember(known: seq<Info>, info: Info, hotspotAddress: nat, addressOf: string -> nat)
      returns (longer: seq<Info>)
    ensures longer == Remembering(known, info, hotspotAddress, addressOf)
  {
    hide SameDevice;
    if info.mac == "" && info.udn == "" {
      return known;
    }
    for i := 0 to |known|
      invariant FirstKnown(known, info, i) == FirstKnown(known, info, 0)
    {
      if SameDevice(known[i], info) {
        return known[i := Kept(known[i], info, hotspotAddress, addressOf)];
      }
    }
    return known + [info.(publicKey := "")];
  }

  // What a list keeps.

  /** No entry goes, and a home network once known stays known, and is never the hotspot's. */
  ghost predicate Retains(known: seq<Info>, after: seq<Info>, hotspotAddress: nat, addressOf: string -> nat) {
    && |known| <= |after|
    && forall k :: 0 <= k < |known| && AtHome(known[k], hotspotAddress, addressOf) ==>
      AtHome(after[k], hotspotAddress, addressOf)
  }

  /** Every entry stays in its place as it is, or gives way to what the same hardware says now. */
  lemma RememberingRetains(known: seq<Info>, info: Info, hotspotAddress: nat, addressOf: string -> nat)
    requires AllStorable(known)
    ensures var after := Remembering(known, info, hotspotAddress, addressOf);
      && AllStorable(after) && Retains(known, after, hotspotAddress, addressOf)
      && forall k :: 0 <= k < |known| && after[k] != known[k] ==>
        SameDevice(known[k], info) && SameDevice(after[k], known[k])
  {
    hide SameDevice;
    var i := FirstKnown(known, info, 0);
    if i < |known| {
      KeptIsSame(known[i], known[i], info, hotspotAddress, addressOf);
      SameEitherWay(known[i], Kept(known[i], info, hotspotAddress, addressOf));
    }
  }

  /** Field by field: everything is taken from the answer, but the home network of a device on its hotspot is kept. */
  lemma RememberingUpdates(known: seq<Info>, info: Info, hotspotAddress: nat, addressOf: string -> nat, i: nat)
    requires i < |known| && SameDevice(known[i], info) && forall k :: 0 <= k < i ==> !SameDevice(known[k], info)
    requires info.mac != "" || info.udn != ""
    ensures var home := info.ssid != "" && info.ip != "" && addressOf(info.ip) / 256 != hotspotAddress / 256;
      Remembering(known, info, hotspotAddress, addressOf) == known[..i] +
        [Info(info.name, info.model, info.mac, info.udn, "", info.hotspotBssid,
          if home then info.ssid else known[i].ssid,
          if home then info.ip else known[i].ip, info.state, info.keepsHotspot)] + known[i + 1..]
  {
    hide SameDevice;
    assert FirstKnown(known, info, 0) == i;
  }

  /** Without such an entry, it is added; what has neither a MAC address nor a UDN is not remembered. */
  lemma RememberingAdds(known: seq<Info>, info: Info, hotspotAddress: nat, addressOf: string -> nat)
    requires (info.mac == "" && info.udn == "") || forall d <- known :: !SameDevice(d, info)
    ensures Remembering(known, info, hotspotAddress, addressOf) ==
      if info.mac == "" && info.udn == "" then known else known + [info.(publicKey := "")]
  {
    hide SameDevice;
  }

  lemma {:induction false} RememberedRetains(known: seq<Info>, infos: seq<Info>, hotspotAddress: nat,
      addressOf: string -> nat)
    requires AllStorable(known)
    ensures var after := AllRemembered(known, infos, hotspotAddress, addressOf);
      AllStorable(after) && Retains(known, after, hotspotAddress, addressOf)
    decreases |infos|
  {
    hide Remembering, AllStorable, AtHome;
    if infos != [] {
      var n := |infos| - 1;
      RememberedRetains(known, infos[..n], hotspotAddress, addressOf);
      RememberingRetains(AllRemembered(known, infos[..n], hotspotAddress, addressOf), infos[n], hotspotAddress,
        addressOf);
    }
  }

  lemma SameItself(d: Info, hotspotAddress: nat, addressOf: string -> nat)
    requires d.mac != "" || d.udn != ""
    ensures SameDevice(d, d) && SameDevice(d.(publicKey := ""), d)
    ensures forall before :: SameDevice(Kept(before, d, hotspotAddress, addressOf), d)
  {
  }

  /** A device that tells a MAC address or a UDN is remembered. */
  lemma IsRemembered(known: seq<Info>, info: Info, hotspotAddress: nat, addressOf: string -> nat)
    requires info.mac != "" || info.udn != ""
    ensures exists d <- Remembering(known, info, hotspotAddress, addressOf) :: SameDevice(d, info)
  {
    hide SameDevice, Kept;
    SameItself(info, hotspotAddress, addressOf);
    var i, after := FirstKnown(known, info, 0), Remembering(known, info, hotspotAddress, addressOf);
    assert SameDevice(after[i], info);
  }

  // When a device is listed once.

  ghost predicate ListedOnce(known: seq<Info>) {
    forall i, j :: 0 <= i < j < |known| ==> !SameDevice(known[i], known[j])
  }

  /** No two entries are the same hardware as the device. */
  ghost predicate Unambiguous(known: seq<Info>, info: Info) {
    forall i, j :: 0 <= i < j < |known| ==> !(SameDevice(known[i], info) && SameDevice(known[j], info))
  }

  lemma SameEitherWay(a: Info, b: Info)
    ensures SameDevice(a, b) <==> SameDevice(b, a)
  {
  }

  /** An entry takes the identity of the device it remembers. */
  lemma KeptIsSame(d: Info, before: Info, info: Info, hotspotAddress: nat, addressOf: string -> nat)
    requires Storable(d)
    ensures SameDevice(d, info) <==> SameDevice(d, info.(publicKey := ""))
    ensures SameDevice(d, info) <==> SameDevice(d, Kept(before, info, hotspotAddress, addressOf))
  {
  }

  /** A list without repetition stays one exactly if no two of its entries are the device that is remembered. */
  lemma OnceExactly(known: seq<Info>, info: Info, hotspotAddress: nat, addressOf: string -> nat)
    requires AllStorable(known) && ListedOnce(known) && (info.mac != "" || info.udn != "")
    ensures ListedOnce(Remembering(known, info, hotspotAddress, addressOf)) <==> Unambiguous(known, info)
  {
    hide SameDevice, Kept, Storable;
    var i, after := FirstKnown(known, info, 0), Remembering(known, info, hotspotAddress, addressOf);
    forall k | 0 <= k < |known| && k != i ensures
      SameDevice(known[k], info) <==> SameDevice(known[k], after[i])
    {
      KeptIsSame(known[k], if i < |known| then known[i] else info, info, hotspotAddress, addressOf);
      SameEitherWay(known[k], after[i]);
    }
    forall k | 0 <= k < |known| && k != i ensures SameDevice(known[k], after[i]) <==> SameDevice(after[i], known[k]) {
      SameEitherWay(known[k], after[i]);
    }
    if Unambiguous(known, info) {
      forall x, y | 0 <= x < y < |after| ensures !SameDevice(after[x], after[y]) {
        assert x != i && y != i ==> after[x] == known[x] && after[y] == known[y];
      }
    } else {
      var x, y :| 0 <= x < y < |known| && SameDevice(known[x], info) && SameDevice(known[y], info);
      assert i < y && after[y] == known[y];
      assert SameDevice(after[i], after[y]);
    }
  }

  /** A MAC address alone, a UDN alone, then a device with both: the list tells it twice. */
  lemma ListedTwice(hotspotAddress: nat, addressOf: string -> nat) returns (infos: seq<Info>)
    ensures !ListedOnce(AllRemembered([], infos, hotspotAddress, addressOf))
  {
    var a := Info("", "", "m", "", "", "", "", "", 0, false);
    var b := Info("", "", "", "u", "", "", "", "", 0, false);
    var c := Info("", "", "m", "u", "", "", "", "", 0, false);
    infos := [a, b, c];
    assert infos[..2] == [a, b] && [a, b][..1] == [a] && [a][..0] == [];
    assert AllRemembered([], [], hotspotAddress, addressOf) == [];
    assert AllRemembered([], [a], hotspotAddress, addressOf) == [a];
    var two := AllRemembered([], [a, b], hotspotAddress, addressOf);
    assert two == [a, b];
    SameItself(a, hotspotAddress, addressOf);
    SameItself(b, hotspotAddress, addressOf);
    assert SameDevice(a, c) && SameDevice(b, c) && !SameDevice(a, b);
    assert !Unambiguous(two, c) by { assert SameDevice(two[0], c) && SameDevice(two[1], c); }
    OnceExactly(two, c, hotspotAddress, addressOf);
  }

  /** Where every device tells its MAC address, none is ever listed twice, and every place keeps its address. */
  lemma {:induction false} AddressesSuffice(known: seq<Info>, infos: seq<Info>, hotspotAddress: nat,
      addressOf: string -> nat)
    requires AllStorable(known) && ListedOnce(known)
    requires (forall k :: 0 <= k < |known| ==> known[k].mac != "") && forall k :: 0 <= k < |infos| ==>
      infos[k].mac != ""
    ensures var after := AllRemembered(known, infos, hotspotAddress, addressOf);
      && ListedOnce(after) && (forall k :: 0 <= k < |after| ==> after[k].mac != "")
      && |known| <= |after| && forall k :: 0 <= k < |known| ==> SameText(after[k].mac, known[k].mac)
    decreases |infos|
  {
    hide ListedOnce, Unambiguous, SameDevice, AtHome;
    if infos != [] {
      var n := |infos| - 1;
      var before := AllRemembered(known, infos[..n], hotspotAddress, addressOf);
      AddressesSuffice(known, infos[..n], hotspotAddress, addressOf);
      RememberedRetains(known, infos[..n], hotspotAddress, addressOf);
      AddressIsOne(before, infos[n]);
      OnceExactly(before, infos[n], hotspotAddress, addressOf);
      AddressStays(before, infos[n], hotspotAddress, addressOf);
    }
  }

  lemma AddressStays(known: seq<Info>, info: Info, hotspotAddress: nat, addressOf: string -> nat)
    requires AllStorable(known) && info.mac != "" && forall k :: 0 <= k < |known| ==> known[k].mac != ""
    ensures var after := Remembering(known, info, hotspotAddress, addressOf);
      |known| <= |after| && forall k :: 0 <= k < |known| ==> after[k].mac != "" && SameText(after[k].mac, known[k].mac)
  {
    hide AtHome;
    RememberingRetains(known, info, hotspotAddress, addressOf);
  }

  lemma AddressIsOne(known: seq<Info>, info: Info)
    requires ListedOnce(known) && info.mac != "" && forall k :: 0 <= k < |known| ==> known[k].mac != ""
    ensures Unambiguous(known, info)
  {
  }

  // The file the list is kept in.

  function Row(d: Info): Known {
    Known(d.name, d.model, d.mac, d.udn, d.hotspotBssid, d.ssid, d.ip)
  }

  function Rows(known: seq<Info>): (r: seq<Known>)
    ensures |r| == |known| && forall k :: 0 <= k < |r| ==> r[k] == Row(known[k])
  {
    seq(|known|, k requires 0 <= k < |known| => Row(known[k]))
  }

  /** Whatever a session has remembered, the file gives back. */
  lemma MemorySurvives(known: seq<Info>)
    requires AllStorable(known)
    ensures Restored(Encoded(Rows(known))) == Rows(known)
  {
    hide Restored, Encoded;
    SavedIsRestored(Rows(known));
  }
}
