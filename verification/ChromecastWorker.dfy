/** The worker's commands against a device, a network and an Android that may answer anything. */
module Worker {
  import opened Basics
  import opened Letters
  import opened Devices
  import opened Remembered

  /** Where a reachable device answered decides whether it counts as reached through its hotspot. */
  predicate Placed(d: Device, hotspotAddress: nat) {
    d.reachable ==> d.hotspot == OnHotspot(d.endpoint.network, hotspotAddress)
  }

  function NoEndpoint(): Endpoint { Endpoint(PhoneNetwork(0, 0, 24), 0, 0, true) }

  function NoDevice(): Device { Device(NoInfo(), NoEndpoint(), false, false) }

  function NoSnapshot(): Snapshot {
    Snapshot(Searching, [], NoDevice(), [], "", false, false, false, Failed)
  }

  function Requests(hotspot: int, target: int): set<int> {
    (if hotspot >= 0 then {hotspot} else {}) + if target >= 0 then {target} else {}
  }

  ghost predicate AllPlaced(devices: seq<Device>, hotspotAddress: nat) {
    forall i :: 0 <= i < |devices| ==> Placed(devices[i], hotspotAddress)
  }

  /** The entry at i is the first for this hardware. */
  ghost predicate FirstSame(list: seq<Device>, i: nat, info: Info) {
    i < |list| && SameDevice(list[i].info, info) && forall k :: 0 <= k < i ==> !SameDevice(list[k].info, info)
  }

  lemma FirstSameExists(list: seq<Device>, info: Info)
    ensures (forall k :: 0 <= k < |list| ==> !SameDevice(list[k].info, info)) ||
      exists i :: 0 <= i < |list| && FirstSame(list, i, info)
  {
    hide SameDevice;
    var i := 0;
    while i < |list| && !SameDevice(list[i].info, info)
      invariant i <= |list| && forall k :: 0 <= k < i ==> !SameDevice(list[k].info, info)
    {
      i := i + 1;
    }
    assert i < |list| ==> FirstSame(list, i, info);
  }

  /** A list with one more device: the first entry of the same hardware stays, unless it is reached less well. */
  ghost function Added(list: seq<Device>, device: Device): (r: seq<Device>)
    ensures (forall k :: 0 <= k < |list| ==> !SameDevice(list[k].info, device.info)) ==> r == list + [device]
    ensures forall i :: 0 <= i < |list| && FirstSame(list, i, device.info) ==>
      r == if list[i].hotspot && !device.hotspot then list[i := device] else list
  {
    if i :| 0 <= i < |list| && FirstSame(list, i, device.info) then
      if list[i].hotspot && !device.hotspot then list[i := device] else list
    else FirstSameExists(list, device.info); list + [device]
  }

  ghost function AllAdded(list: seq<Device>, more: seq<Device>): seq<Device> {
    if more == [] then list else Added(AllAdded(list, more[..|more| - 1]), more[|more| - 1])
  }

  /** The devices that answered from a moment on, in order. */
  ghost function Gathered(t: seq<Event>, from: nat, hotspotAddress: nat): seq<Device> {
    if |t| <= from then []
    else
      var before, e := Gathered(t[..|t| - 1], from, hotspotAddress), t[|t| - 1];
      if e.Saw? then Added(before, Device(e.info, e.endpoint, true, OnHotspot(e.endpoint.network, hotspotAddress)))
      else before
  }

  lemma GatheredGrows(t: seq<Event>, e: Event, from: nat, hotspotAddress: nat)
    requires from <= |t|
    ensures Gathered(t + [e], from, hotspotAddress) ==
      if e.Saw? then Added(Gathered(t, from, hotspotAddress),
        Device(e.info, e.endpoint, true, OnHotspot(e.endpoint.network, hotspotAddress)))
      else Gathered(t, from, hotspotAddress)
  {
    hide Added;
    assert (t + [e])[..|t|] == t;
  }

  /** Each of these addresses was asked on this network, and answered or not. */
  ghost predicate Answers(t: seq<Event>, from: nat, network: PhoneNetwork, addresses: seq<nat>) {
    && |t| == from + |addresses|
    && forall i :: 0 <= i < |addresses| ==> IsAnswer(t[from + i], network, addresses[i])
  }

  predicate IsAnswer(e: Event, network: PhoneNetwork, address: nat) {
    (e.Saw? || e.Silent?) && e.endpoint.network == network && e.endpoint.address == address
  }

  /** One network was searched: its candidates, on a hotspot only the one address, were all asked. */
  ghost predicate NetworkAsked(t: seq<Event>, from: nat, n: PhoneNetwork, hotspotAddress: nat) {
    && from < |t| && t[from].Tried? && t[from].network == n && Answers(t, from + 1, n, t[from].addresses)
    && (OnHotspot(n, hotspotAddress) ==> t[from].addresses == [hotspotAddress])
  }

  /** The first so many networks, but for hotspots, were searched, and no device that was looked for answered. */
  ghost predicate LookedThrough(t: seq<Event>, from: nat, networks: seq<PhoneNetwork>, n: nat, wanted: Info -> bool,
      hotspotAddress: nat)
    requires n <= |networks|
    decreases n
  {
    if n == 0 then |t| == from
    else if OnHotspot(networks[n - 1], hotspotAddress) then
      LookedThrough(t, from, networks, n - 1, wanted, hotspotAddress)
    else
      exists mid: nat :: LookedOn(t, mid, networks[n - 1], wanted, hotspotAddress) &&
        LookedThrough(t[..mid], from, networks, n - 1, wanted, hotspotAddress)
  }

  ghost predicate LookedOn(t: seq<Event>, mid: nat, n: PhoneNetwork, wanted: Info -> bool, hotspotAddress: nat) {
    && NetworkAsked(t, mid, n, hotspotAddress)
    && forall d <- Gathered(t, mid, hotspotAddress) :: !wanted(d.info)
  }

  /** The first so many networks were searched, and this is what was gathered on them. */
  ghost predicate Collected(t: seq<Event>, from: nat, networks: seq<PhoneNetwork>, n: nat, found: seq<Device>,
      hotspotAddress: nat)
    requires n <= |networks|
    decreases n
  {
    if n == 0 then |t| == from && found == []
    else
      exists mid: nat, before: seq<Device> :: CollectedLast(t, mid, networks, n, before, found, hotspotAddress) &&
        Collected(t[..mid], from, networks, n - 1, before, hotspotAddress)
  }

  ghost predicate CollectedLast(t: seq<Event>, mid: nat, networks: seq<PhoneNetwork>, n: nat, before: seq<Device>,
      found: seq<Device>, hotspotAddress: nat)
    requires 0 < n <= |networks|
  {
    && NetworkAsked(t, mid, networks[n - 1], hotspotAddress)
    && found == AllAdded(before, Gathered(t, mid, hotspotAddress))
  }

  lemma CollectOneMore(before: seq<Event>, after: seq<Event>, from: nat, networks: seq<PhoneNetwork>, i: nat,
      all: seq<Device>, hotspotAddress: nat)
    requires i < |networks| && Collected(before, from, networks, i, all, hotspotAddress)
    requires before <= after && NetworkAsked(after, |before|, networks[i], hotspotAddress)
    ensures Collected(after, from, networks, i + 1, AllAdded(all, Gathered(after, |before|, hotspotAddress)),
      hotspotAddress)
  {
    hide NetworkAsked, AllAdded, Gathered;
    var n, found := i + 1, AllAdded(all, Gathered(after, |before|, hotspotAddress));
    assert after[..|before|] == before;
    assert CollectedLast(after, |before|, networks, n, all, found, hotspotAddress);
  }

  lemma LookOneMore(before: seq<Event>, after: seq<Event>, from: nat, networks: seq<PhoneNetwork>, i: nat,
      wanted: Info -> bool, hotspotAddress: nat)
    requires i < |networks| && LookedThrough(before, from, networks, i, wanted, hotspotAddress)
    requires before <= after
    requires if OnHotspot(networks[i], hotspotAddress) then after == before
      else LookedOn(after, |before|, networks[i], wanted, hotspotAddress)
    ensures LookedThrough(after, from, networks, i + 1, wanted, hotspotAddress)
  {
    hide LookedOn, OnHotspot;
    assert after[..|before|] == before;
  }

  lemma LookNothing(t: seq<Event>, networks: seq<PhoneNetwork>, wanted: Info -> bool, hotspotAddress: nat)
    ensures LookedThrough(t, |t|, networks, 0, wanted, hotspotAddress)
    ensures Collected(t, |t|, networks, 0, [], hotspotAddress)
  {
  }

  /** All networks but hotspots were looked through in this much of the history. */
  ghost predicate Absent(before: seq<Event>, after: seq<Event>, wanted: Info -> bool, hotspotAddress: nat) {
    && before < after && after[|before|].Attached?
    && var networks := after[|before|].networks;
      LookedThrough(after, |before| + 1, networks, |networks|, wanted, hotspotAddress)
  }

  function Hotspots(networks: seq<PhoneNetwork>, hotspotAddress: nat): seq<PhoneNetwork> {
    if networks == [] then []
    else
      var front, n := networks[..|networks| - 1], networks[|networks| - 1];
      Hotspots(front, hotspotAddress) + if OnHotspot(n, hotspotAddress) then [n] else []
  }

  /** At the hotspot's address nobody answered, or somebody who is not the device. */
  predicate IsOther(e: Event, n: PhoneNetwork, device: Info, hotspotAddress: nat) {
    IsAnswer(e, n, hotspotAddress) && (e.Saw? ==> Identified(device) && !SameDevice(e.info, device))
  }

  ghost predicate Asked(t: seq<Event>, from: nat, hotspots: seq<PhoneNetwork>, device: Info, hotspotAddress: nat) {
    && |t| == from + |hotspots|
    && forall i :: 0 <= i < |hotspots| ==> IsOther(t[from + i], hotspots[i], device, hotspotAddress)
  }

  /** Each hotspot that the phone is on was asked, and the device did not answer. */
  ghost predicate HotspotsAsked(before: seq<Event>, after: seq<Event>, device: Info, hotspotAddress: nat) {
    && before < after && after[|before|].Attached?
    && Asked(after, |before| + 1, Hotspots(after[|before|].networks, hotspotAddress), device, hotspotAddress)
  }

  lemma NoneAsked(t: seq<Event>, networks: seq<PhoneNetwork>, device: Info, hotspotAddress: nat)
    ensures Asked(t, |t|, Hotspots(networks[..0], hotspotAddress), device, hotspotAddress)
  {
  }

  lemma AskedOneMore(before: seq<Event>, after: seq<Event>, from: nat, networks: seq<PhoneNetwork>, i: nat,
      device: Info, hotspotAddress: nat)
    requires i < |networks| && before <= after && from <= |before|
    requires Asked(before, from, Hotspots(networks[..i], hotspotAddress), device, hotspotAddress)
    requires if OnHotspot(networks[i], hotspotAddress)
      then |after| == |before| + 1 && IsOther(after[|before|], networks[i], device, hotspotAddress)
      else after == before
    ensures Asked(after, from, Hotspots(networks[..i + 1], hotspotAddress), device, hotspotAddress)
  {
    hide IsOther, OnHotspot;
    var some, more := Hotspots(networks[..i], hotspotAddress), Hotspots(networks[..i + 1], hotspotAddress);
    assert networks[..i + 1][..i] == networks[..i];
    forall k | 0 <= k < |more| ensures IsOther(after[from + k], more[k], device, hotspotAddress) {
      if k < |some| { assert after[from + k] == before[from + k] && more[k] == some[k]; }
    }
  }

  /** This much of the history looked on all networks, and gathered these devices. */
  ghost predicate Searched(before: seq<Event>, after: seq<Event>, found: seq<Device>, hotspotAddress: nat) {
    && before < after && after[|before|].Attached?
    && var networks := after[|before|].networks;
      Collected(after, |before| + 1, networks, |networks|, found, hotspotAddress)
  }

  function SameAs(device: Info): Info -> bool { (x: Info) => SameDevice(x, device) }

  /** Whoever says so, being that device, settles how its joining went. */
  function Settling(device: Info, ssid: string): Info -> bool {
    (x: Info) => SameDevice(x, device) && (OnTarget(x, ssid) || WentElsewhere(x, ssid))
  }

  lemma NothingGathered(t: seq<Event>, hotspotAddress: nat)
    ensures Gathered(t, |t|, hotspotAddress) == []
  {
  }

  lemma NothingAsked(t: seq<Event>, n: PhoneNetwork, addresses: seq<nat>)
    ensures Answers(t, |t|, n, addresses[..0])
  {
  }

  lemma OneMoreAsked(before: seq<Event>, after: seq<Event>, from: nat, n: PhoneNetwork, addresses: seq<nat>, i: nat)
    requires i < |addresses| && Answers(before, from, n, addresses[..i]) && before <= after && |after| == |before| + 1
    requires IsAnswer(after[|before|], n, addresses[i])
    ensures Answers(after, from, n, addresses[..i + 1])
  {
    hide IsAnswer;
    var asked := addresses[..i + 1];
    forall k | 0 <= k < |asked| ensures IsAnswer(after[from + k], n, asked[k]) {
      if k < i { assert after[from + k] == before[from + k] && addresses[..i][k] == asked[k]; }
    }
  }

  /** The devices on, or off, a hotspot in their order. */
  function Side(devices: seq<Device>, hotspot: bool): (r: seq<Device>)
    ensures forall d :: d in r <==> d in devices && d.hotspot == hotspot
  {
    if devices == [] then []
    else
      var front, d := devices[..|devices| - 1], devices[|devices| - 1];
      assert devices == front + [d];
      Side(front, hotspot) + if d.hotspot == hotspot then [d] else []
  }

  lemma SideGrows(devices: seq<Device>, i: nat, hotspot: bool)
    requires i < |devices|
    ensures Side(devices[..i + 1], hotspot) == Side(devices[..i], hotspot) + if devices[i].hotspot == hotspot
      then [devices[i]] else []
  {
    assert devices[..i + 1][..i] == devices[..i];
  }

  lemma SidePlaced(devices: seq<Device>, hotspotAddress: nat, hotspot: bool)
    requires AllPlaced(devices, hotspotAddress)
    ensures AllPlaced(Side(devices, hotspot), hotspotAddress)
  {
  }

  lemma SideLast(devices: seq<Device>, d: Device, hotspot: bool)
    ensures Side(devices + [d], hotspot) == Side(devices, hotspot) + if d.hotspot == hotspot then [d] else []
    ensures Side([d], hotspot) == if d.hotspot == hotspot then [d] else []
  {
    assert (devices + [d])[..|devices|] == devices && [d][..0] == [];
  }

  /** One after the other: a side of some devices and more is that of the first ones, then that of the others. */
  lemma {:induction false} SideInOrder(some: seq<Device>, more: seq<Device>, d: Device, hotspot: bool)
    ensures Side(some + more, hotspot) == Side(some, hotspot) + Side(more, hotspot)
    ensures Side([d], hotspot) == if d.hotspot == hotspot then [d] else []
    decreases |more|
  {
    hide Side;
    SideLast(some, d, hotspot);
    NoSides();
    if more == [] {
      assert some + more == some;
    } else {
      var front, last := more[..|more| - 1], more[|more| - 1];
      var tail := if last.hotspot == hotspot then [last] else [];
      SideInOrder(some, front, d, hotspot);
      SideLast(some + front, last, hotspot);
      SideLast(front, last, hotspot);
      Associate(some, front, [last]);
      Associate(Side(some, hotspot), Side(front, hotspot), tail);
      assert front + [last] == more;
    }
  }

  lemma Associate(a: seq<Device>, b: seq<Device>, c: seq<Device>)
    ensures a + b + c == a + (b + c)
  {
  }

  /** Devices reached off a hotspot first, otherwise in order. */
  method Partition(devices: seq<Device>, ghost hotspotAddress: nat) returns (sorted: seq<Device>)
    requires AllPlaced(devices, hotspotAddress)
    ensures sorted == Side(devices, false) + Side(devices, true)
    ensures AllPlaced(sorted, hotspotAddress)
  {
    hide Placed, Side;
    var first, second := [], [];
    NoSides();
    for i := 0 to |devices|
      invariant first == Side(devices[..i], false) && second == Side(devices[..i], true)
    {
      SideGrows(devices, i, false);
      SideGrows(devices, i, true);
      if devices[i].hotspot { second := second + [devices[i]]; } else { first := first + [devices[i]]; }
    }
    assert devices[..|devices|] == devices;
    SidePlaced(devices, hotspotAddress, false);
    SidePlaced(devices, hotspotAddress, true);
    return first + second;
  }

  lemma NoSides()
    ensures Side([], false) == [] && Side([], true) == []
  {
  }

  /** Remembered devices that did not answer. */
  function OutOfReach(known: seq<Info>): (r: seq<Device>)
    ensures |r| == |known| && forall i :: 0 <= i < |r| ==> r[i] == Device(known[i], NoEndpoint(), false, false)
  {
    seq(|known|, i requires 0 <= i < |known| => Device(known[i], NoEndpoint(), false, false))
  }

  function Infos(devices: seq<Device>): (r: seq<Info>)
    ensures |r| == |devices| && forall i :: 0 <= i < |r| ==> r[i] == devices[i].info
  {
    seq(|devices|, i requires 0 <= i < |devices| => devices[i].info)
  }

  lemma OneMoreRemembered(known: seq<Info>, devices: seq<Device>, i: nat, hotspotAddress: nat, addressOf: string -> nat)
    requires i < |devices|
    ensures AllRemembered(known, Infos(devices[..i + 1]), hotspotAddress, addressOf) ==
      Remembering(AllRemembered(known, Infos(devices[..i]), hotspotAddress, addressOf), devices[i].info,
        hotspotAddress, addressOf)
  {
    hide Remembering;
    assert Infos(devices[..i + 1])[..i] == Infos(devices[..i]);
  }

  lemma NothingRemembered(known: seq<Info>, hotspotAddress: nat, addressOf: string -> nat)
    ensures AllRemembered(known, Infos([]), hotspotAddress, addressOf) == known
  {
  }

  predicate IsFound(d: Info, found: seq<Device>) {
    exists f <- found :: SameDevice(f.info, d)
  }

  /** The remembered devices that are not among those found. */
  function Missing(known: seq<Info>, found: seq<Device>): seq<Info> {
    if known == [] then []
    else
      var front, d := known[..|known| - 1], known[|known| - 1];
      Missing(front, found) + if IsFound(d, found) then [] else [d]
  }

  lemma MissingGrows(known: seq<Info>, i: nat, found: seq<Device>)
    requires i < |known|
    ensures Missing(known[..i + 1], found) == Missing(known[..i], found) + if IsFound(known[i], found) then []
      else [known[i]]
  {
    assert known[..i + 1][..i] == known[..i];
  }

  /** One after the other, the remembered devices that were not found are left. */
  lemma {:induction false} MissingInOrder(some: seq<Info>, more: seq<Info>, d: Info, found: seq<Device>)
    ensures Missing(some + more, found) == Missing(some, found) + Missing(more, found)
    ensures Missing([d], found) == if exists f <- found :: SameDevice(f.info, d) then [] else [d]
    decreases |more|
  {
    hide SameDevice;
    assert [d][..0] == [];
    if more == [] {
      assert some + more == some;
    } else {
      var n := |more| - 1;
      assert (some + more)[..|some| + n] == some + more[..n];
      MissingInOrder(some, more[..n], d, found);
    }
  }

  method NotFound(known: seq<Info>, found: seq<Device>) returns (rest: seq<Info>)
    ensures rest == Missing(known, found)
  {
    hide IsFound;
    rest := [];
    for i := 0 to |known|
      invariant rest == Missing(known[..i], found)
    {
      MissingGrows(known, i, found);
      if !IsFound(known[i], found) { rest := rest + [known[i]]; }
    }
    assert known[..|known|] == known;
  }

  /** Nothing found or remembered is left out of the list that a search shows. */
  lemma ListIsComplete(known: seq<Info>, found: seq<Device>)
    requires AllStorable(known)
    ensures var list := Side(found, false) + Side(found, true) + OutOfReach(Missing(known, found));
      && (forall f <- found :: f in list)
      && (forall d <- known :: exists x <- list :: SameDevice(x.info, d))
  {
    hide SameDevice, Storable;
    var list := Side(found, false) + Side(found, true) + OutOfReach(Missing(known, found));
    forall f | f in found ensures f in list { SideHas(found, f); }
    forall d | d in known ensures exists x <- list :: SameDevice(x.info, d) {
      StorableIsSame(d);
      if IsFound(d, found) {
        var f :| f in found && SameDevice(f.info, d);
        assert f in list;
      } else {
        MissingHas(known, found, d);
        var k :| 0 <= k < |Missing(known, found)| && Missing(known, found)[k] == d;
        var x := OutOfReach(Missing(known, found))[k];
        assert x in list;
      }
    }
  }

  lemma StorableIsSame(d: Info)
    ensures Storable(d) ==> SameDevice(d, d)
  {
  }

  lemma {:induction false} SideHas(devices: seq<Device>, d: Device)
    requires d in devices
    ensures d in Side(devices, d.hotspot)
  {
    var front := devices[..|devices| - 1];
    assert devices == front + [devices[|devices| - 1]];
    if d in front { SideHas(front, d); }
  }

  lemma {:induction false} MissingHas(known: seq<Info>, found: seq<Device>, d: Info)
    requires d in known && !IsFound(d, found)
    ensures d in Missing(known, found)
  {
    hide IsFound;
    var front := known[..|known| - 1];
    assert known == front + [known[|known| - 1]];
    if d in front { MissingHas(front, found, d); }
  }

  /** Reachable devices, each of which answered over its endpoint since a moment of the history. */
  ghost predicate AllFound(found: seq<Device>, t: seq<Event>, from: nat, hotspotAddress: nat) {
    forall i :: 0 <= i < |found| ==>
      && found[i].reachable && found[i].hotspot == OnHotspot(found[i].endpoint.network, hotspotAddress)
      && SeenSince(t, from, found[i].info, found[i].endpoint)
  }

  lemma FoundStays(found: seq<Device>, before: seq<Event>, after: seq<Event>, from: nat, earlier: nat,
      hotspotAddress: nat)
    requires AllFound(found, before, from, hotspotAddress) && before <= after && earlier <= from
    ensures AllFound(found, after, earlier, hotspotAddress)
  {
  }

  lemma SeenLast(t: seq<Event>, from: nat, info: Info, endpoint: Endpoint)
    requires from < |t| && t[|t| - 1] == Saw(info, endpoint)
    ensures SeenSince(t, from, info, endpoint)
  {
  }

  /** A look at the results that shows no network, or none that can be read. */
  predicate NothingRead(e: Event) { e.ScanRead? && (e.found.None? || e.found.value == []) }

  /** A request for a device's information, and what came of it. */
  datatype Attempt = Attempt(endpoint: Endpoint, basic: bool, reply: Reply)

  /** What is tried after an attempt: the basic page behind a refusal, HTTP behind a connection that came to nothing. */
  predicate Follows(a: Attempt, b: Attempt, httpPort: nat) {
    match a.reply
    case Answer(status) => !a.basic && status in {400, 404} && b.endpoint == a.endpoint && b.basic
    case Lost(_, connected) =>
      connected && a.endpoint.tls && b.endpoint == a.endpoint.(tls := false, port := httpPort) && !b.basic
  }

  ghost predicate Final(a: Attempt, httpPort: nat) { forall b :: !Follows(a, b, httpPort) }

  /** The network was sent, and the client told that the device is joining it. */
  ghost predicate WentOut(t: seq<Event>, start: nat) {
    exists k :: start < k && k + 1 < |t| && t[k].Sent? && IsJoining(t[k + 1])
  }

  predicate IsJoining(e: Event) { e.Published? && e.snapshot.stage == Joining }

  /** The network was not sent, and the command ended in a failure of sending, with nothing held, for its reason. */
  ghost predicate Refused(t: seq<Event>, start: nat, join: Join) {
    && start + 1 < |t| && t[start].Started?
    && (forall k :: start < k < |t| ==> !t[k].Sent?)
    && var last := t[|t| - 1];
      && last.Published? && last.held == {} && last.snapshot.stage == Stage.Failed && last.snapshot.failed == Sending
      && Reason(t, start, join, last.snapshot.retry)
  }

  /** Why a network is not sent, and whether it may be tried again. */
  ghost predicate Reason(t: seq<Event>, start: nat, join: Join, retry: bool)
    requires start < |t| && t[start].Started?
  {
    if !Supported(join.network) then !retry
    else if NeedsPassword(join.network) && !ValidPassphrase(join.password) then retry
    else !retry && (NoAnswer(t, start) || EncryptionFailed(t, start) || PostRefused(t, start))
  }

  /** Nothing that the device could have answered was heard. */
  ghost predicate NoAnswer(t: seq<Event>, start: nat)
    requires start < |t| && t[start].Started?
  {
    forall k :: start < k < |t| ==>
      !t[k].Accepted? && (t[k].Saw? ==> Identified(t[start].device) && !SameDevice(t[k].info, t[start].device))
  }

  ghost predicate EncryptionFailed(t: seq<Event>, start: nat) {
    exists k :: start < k < |t| && t[k] == Encrypted(false)
  }

  /** The last attempt to send it was answered otherwise, or did not leave the phone. */
  ghost predicate PostRefused(t: seq<Event>, start: nat) {
    exists k :: start < k < |t| && IsRefusal(t[k]) && forall m :: k < m < |t| ==> !t[m].Posted?
  }

  predicate IsRefusal(e: Event) {
    e.Posted? && if e.reply.Answer? then e.reply.status != 200 else !e.reply.sent
  }

  /** What the setup API takes: open, WPA, WPA2 and transition networks; passwords as Wi-Fi has them. */
  lemma JoinableNetworks(n: WifiNetwork, password: string)
    ensures Supported(n) <==> n.auth in {1, 5, 7, 9} && n.cipher in {1, 3, 4, 5}
    ensures NeedsPassword(n) <==> n.auth != 1
    ensures ValidPassphrase(password) <==>
      (8 <= |password| <= 63 && forall i :: 0 <= i < |password| ==> 32 <= password[i] as int <= 126) ||
      (|password| == 64 && forall i :: 0 <= i < 64 ==> HexValue(password[i]).Some?)
  {
  }

  lemma WentOutAt(t: seq<Event>, start: nat, k: nat)
    requires start < k && k + 1 < |t| && t[k].Sent? && IsJoining(t[k + 1])
    ensures WentOut(t, start)
  {
  }

  /** A failure that follows what happened since the command began. */
  lemma FailureRefuses(t: seq<Event>, before: seq<Event>, start: nat, join: Join)
    requires before <= t && start < |before| < |t| && Tail(t, |before|) && before[start].Started?
    requires forall k :: start < k < |before| ==> !before[k].Sent?
    requires var last := t[|t| - 1];
      last.Published? && last.held == {} && last.snapshot.stage == Stage.Failed && last.snapshot.failed == Sending
    requires Reason(before, start, join, t[|t| - 1].snapshot.retry)
    ensures Refused(t, start, join)
  {
    hide Supported, NeedsPassword, ValidPassphrase, Identified, SameDevice;
    forall k | start < k < |t| ensures !t[k].Sent? { if k < |before| { assert t[k] == before[k]; } }
    if NoAnswer(before, start) {
      forall k | start < k < |t| && (t[k].Saw? || t[k].Accepted?) ensures k < |before| && t[k] == before[k] { }
      assert NoAnswer(t, start);
    }
    if EncryptionFailed(before, start) {
      var k :| start < k < |before| && before[k] == Encrypted(false);
      assert t[k] == Encrypted(false);
    }
    if PostRefused(before, start) {
      var k :| start < k < |before| && IsRefusal(before[k]) && forall m :: k < m < |before| ==> !before[m].Posted?;
      assert t[k] == before[k] && forall m :: k < m < |before| ==> t[m] == before[m];
    }
  }

  lemma StayedFails(t: seq<Event>, start: nat)
    requires !LeftSeen(t, start, |t|)
    ensures JoinFailed(t, start, |t|, true)
  {
  }

  lemma SameCommand(before: seq<Event>, after: seq<Event>, a: nat, b: nat)
    requires Observed(before, after) && CommandOf(before, a, |before|) && CommandOf(after, b, |after|)
    ensures a == b
  {
    assert after[a] == before[a];
  }

  /** Before the network was sent nothing says that the device left. */
  lemma NotLeftYet(t: seq<Event>, start: nat)
    requires CommandOf(t, start, |t|) && !InHand(t).sent
    ensures !LeftSeen(t, start, |t|) && forall k :: start < k < |t| ==> !t[k].Sent?
  {
    assert t[..|t|] == t;
    forall k | start < k < |t| ensures !t[k].Sent? { if t[k].Sent? { SentInHand(t, start, k, |t|); } }
  }

  class Session {
    const hotspotAddress: nat
    const httpPort: nat
    const httpsPort: nat
    // Reads the text of an address; zero when it is none.
    const addressOf: string -> nat
    var known: seq<Info>
    var work: Snapshot
    var hotspotRequest: int
    var targetRequest: int
    var nextRequest: nat
    // What Android still holds for the app, and everything observed and published.
    ghost var held: set<int>
    ghost var trace: seq<Event>
    ghost var start: nat
    // How often a command noticed that another one waits.
    ghost var stops: nat

    /** The requests held are exactly the ones remembered, and there is at most one. */
    ghost predicate Ledger()
      reads `held, `hotspotRequest, `targetRequest, `nextRequest, `trace
    {
      && held == Requests(hotspotRequest, targetRequest) == Outstanding(trace) &&
        !(hotspotRequest >= 0 && targetRequest >= 0)
      && forall k :: k in held ==> k < nextRequest
    }

    ghost predicate Idle()
      reads `held, `hotspotRequest, `targetRequest, `nextRequest, `trace, `known, `work
    {
      && Ledger() && Honest(trace, hotspotAddress) && AllStorable(known)
      && (forall i :: 0 <= i < |work.devices| ==> Placed(work.devices[i], hotspotAddress)) &&
        Placed(work.device, hotspotAddress)
      && (work.networks != [] ==> work.device.hotspot == OnHotspot(work.device.endpoint.network, hotspotAddress))
      && (work.joined ==> JoinedBy(trace, |trace|))
    }

    /** During a command: a join that claims success has the device's word for it. */
    ghost predicate Busy()
      reads `held, `hotspotRequest, `targetRequest, `nextRequest, `trace, `known, `work, `start
    {
      && Idle() && CommandOf(trace, start, |trace|)
      && (trace[start].join.Some? ==> work.target == trace[start].join.value.network.ssid)
      && (trace[start].join.Some? && work.joined ==> JoinSeen(trace, start, |trace|, work.target))
    }

    constructor (hotspotAddress: nat, httpPort: nat, httpsPort: nat, addressOf: string -> nat, known: seq<Info>)
      requires AllStorable(known)
      ensures Idle() && held == {} && trace == [] && this.hotspotAddress == hotspotAddress && this.known == known
    {
      this.hotspotAddress, this.httpPort, this.httpsPort, this.addressOf :=
        hotspotAddress, httpPort, httpsPort, addressOf;
      this.known := known;
      work := NoSnapshot();
      hotspotRequest, targetRequest, nextRequest := -1, -1, 0;
      held, trace, start, stops := {}, [], 0, 0;
    }

    /** A command begins, with a device in hand. */
    ghost method Begin(join: Option<Join>, device: Info)
      requires Idle() && (join.Some? ==> work.target == join.value.network.ssid && !work.joined)
      modifies this`trace, this`start
      ensures Busy() && trace == old(trace) + [Started(join, device)] && start == |old(trace)|
      ensures InHand(trace) == Hand(device, None, false, join)
    {
      hide Honest, JoinedBy, InHand;
      HonestGrows(trace, Started(join, device), hotspotAddress);
      OutstandingAfter(trace, Started(join, device));
      HandGrows(trace, Started(join, device));
      if work.joined { JoinedStays(trace, trace + [Started(join, device)], |trace|, |trace| + 1); }
      start := |trace|;
      trace := trace + [Started(join, device)];
    }

    /** Something was observed or done. */
    ghost method Note(e: Event)
      requires Busy() && !e.Started? && !e.Published? && !e.Requested? && !e.Released?
      requires HonestAt(trace + [e], |trace|, hotspotAddress)
      modifies this`trace
      ensures Busy() && trace == old(trace) + [e] && InHand(trace) == HandAfter(old(InHand(trace)), e)
    {
      hide Honest, HonestAt, JoinSeen, SaveSeen, JoinedBy, InHand;
      HandGrows(trace, e);
      HonestGrows(trace, e, hotspotAddress);
      EvidenceStays(trace, trace + [e], start, work.target);
      OutstandingAfter(trace, e);
      trace := trace + [e];
    }

    /** Shows a snapshot to the client. */
    method Publish()
      requires Busy()
      requires work.stage in {DeviceList, Stage.Done, Stage.Failed} ==> held == {}
      requires work.stage == Stage.Done ==>
        && trace[start].join.Some? && work.joined
        && SaveSeen(trace, start, |trace|, work.target)
        && ReachedOff(trace, start, |trace|, work.target, work.device.endpoint, hotspotAddress)
      requires work.stage in {Sending, Joining, Stage.Done} ==> work.device.info == InHand(trace).info
      requires work.stage == Joining ==> trace[|trace| - 1].Sent?
      requires work.stage == Finding ==> LeftSeen(trace, start, |trace|)
      requires work.stage == Networks ==>
        trace[|trace| - 1].ScanRead? && trace[|trace| - 1].found == Some(work.networks)
      requires work.stage == Stage.Failed ==> Justified(work.failed, work.retry)
      modifies this`trace
      ensures Busy() && trace == old(trace) + [Published(work, held, start)] && InHand(trace) == old(InHand(trace))
    {
      hide HonestAt, Honest, JoinSeen, SaveSeen, ReachedOff, JoinedBy, InHand, LeftSeen, Reasoned;
      HandGrows(trace, Published(work, held, start));
      ghost var e := Published(work, held, start);
      PublishHonest(trace, e, work, held, start, hotspotAddress);
      EvidenceStays(trace, trace + [e], start, work.target);
      HonestGrows(trace, e, hotspotAddress);
      OutstandingAfter(trace, e);
      trace := trace + [e];
    }

    /** A failure at this stage has its reason in the history. */
    ghost predicate Justified(stage: Stage, retry: bool)
      reads `trace, `start, `work
    {
      Reasoned(trace, start, |trace|, stage, retry, work.target, hotspotAddress)
    }

    method ReleaseRequests()
      requires Idle()
      modifies this`held, this`hotspotRequest, this`targetRequest, this`work, this`trace
      ensures Idle() && held == {} && hotspotRequest == -1 && targetRequest == -1
      ensures work == old(work).(prompt := false)
      ensures Unmoved(old(trace), trace) && Aside(old(trace), trace) && Tail(trace, |old(trace)|)
      ensures InHand(trace) == old(InHand(trace)) && (old(Busy()) ==> Busy())
    {
      hide HonestAt, Honest, JoinSeen, OnHotspot, SaveSeen, JoinedBy, InHand;
      if hotspotRequest >= 0 { ReleaseNetwork(hotspotRequest); }
      if targetRequest >= 0 { ReleaseNetwork(targetRequest); }
      hotspotRequest, targetRequest := -1, -1;
      work := work.(prompt := false);
      EvidenceStays(old(trace), trace, start, work.target);
      HandStays(old(trace), trace);
    }

    /** Android drops a request. */
    method ReleaseNetwork(id: int)
      requires Honest(trace, hotspotAddress) && id in held && held == Outstanding(trace)
      modifies this`held, this`trace
      ensures Honest(trace, hotspotAddress) && held == old(held) - {id} == Outstanding(trace)
      ensures trace == old(trace) + [Released(id)]
    {
      hide Honest;
      assert (trace + [Released(id)])[..|trace|] == trace;
      HonestGrows(trace, Released(id), hotspotAddress);
      OutstandingAfter(trace, Released(id));
      held := held - {id};
      trace := trace + [Released(id)];
    }

    /** Android accepts a request under a new identifier, or refuses with -1. */
    method RequestNetwork() returns (id: int)
      requires Honest(trace, hotspotAddress) && held == Outstanding(trace) == {}
      modifies this`held, this`nextRequest, this`trace
      ensures Honest(trace, hotspotAddress) && held == Outstanding(trace)
      ensures nextRequest >= old(nextRequest)
      ensures id >= 0 ==>
        held == {id} && id < nextRequest && id >= old(nextRequest) && trace == old(trace) + [Requested(id)]
      ensures id < 0 ==> id == -1 && held == {} && trace == old(trace) + [Denied]
    {
      hide Honest;
      var refused: bool := *;
      if refused {
        HonestGrows(trace, Denied, hotspotAddress);
        OutstandingAfter(trace, Denied);
        trace := trace + [Denied];
        return -1;
      }
      id := nextRequest;
      assert (trace + [Requested(id)])[..|trace|] == trace;
      HonestGrows(trace, Requested(id), hotspotAddress);
      OutstandingAfter(trace, Requested(id));
      nextRequest := nextRequest + 1;
      held := held + {id};
      trace := trace + [Requested(id)];
    }

    // The surroundings may answer anything.

    method Interrupted() returns (yes: bool)
      modifies this`stops
      ensures stops == old(stops) + if yes then 1 else 0
    {
      yes := *;
      if yes { stops := stops + 1; }
    }

    /** False when a new command arrived during the wait. */
    method Pause() returns (idle: bool)
      modifies this`stops
      ensures stops == old(stops) + if idle then 0 else 1
    {
      var stop := Interrupted();
      idle := !stop;
    }

    /** How often a polling loop goes round before its deadline. */
    method Rounds() returns (n: nat) { n := *; }

    /** The networks that the phone is on. */
    method ListNetworks() returns (networks: seq<PhoneNetwork>)
      requires Busy()
      modifies this`trace
      ensures Busy() && trace == old(trace) + [Attached(networks)] && InHand(trace) == old(InHand(trace))
    {
      hide Honest, JoinSeen, CommandOf, OnHotspot, InHand, JoinedBy;
      networks := *;
      Note(Attached(networks));
    }

    method Request() returns (reply: Reply) { reply := *; }

    method ParseInfo() returns (info: Option<Info>) { info := *; }

    /** What came of asking for a device's information. */
    ghost method Noticed(info: Option<Info>, endpoint: Endpoint)
      requires Busy()
      modifies this`trace
      ensures Busy() && trace == old(trace) + [if info.Some? then Saw(info.value, endpoint) else Silent(endpoint)]
      ensures InHand(trace) == old(InHand(trace)) && (info.Some? ==> WasSeen(trace, |trace|, info.value, endpoint))
    {
      hide Honest, JoinSeen, CommandOf, OnHotspot, InHand, JoinedBy;
      if info.Some? {
        Note(Saw(info.value, endpoint));
        assert trace[|trace| - 1] == Saw(info.value, endpoint);
      } else {
        Note(Silent(endpoint));
      }
    }

    /** Device information over HTTPS, falling back to plain HTTP; the endpoint keeps what answered. */
    method ReadInfo(from: Endpoint) returns (info: Option<Info>, e: Endpoint)
      requires Busy()
      modifies this`trace
      ensures Busy() && trace == old(trace) + [if info.Some? then Saw(info.value, e) else Silent(e)]
      ensures e == from || (from.tls && e == from.(tls := false, port := httpPort))
      ensures InHand(trace) == old(InHand(trace)) && (info.Some? ==> WasSeen(trace, |trace|, info.value, e))
    {
      hide Honest, JoinSeen, CommandOf, OnHotspot, InHand, JoinedBy;
      ghost var attempts;
      info, e, attempts := AskInfo(from);
      Noticed(info, e);
    }

    /** What is tried: HTTPS first, the basic page if there is no other, and HTTP if a connection came to nothing. */
    method AskInfo(from: Endpoint) returns (info: Option<Info>, e: Endpoint, ghost attempts: seq<Attempt>)
      ensures attempts != [] && attempts[0].endpoint == from && !attempts[0].basic
      ensures forall i :: 0 <= i < |attempts| - 1 ==> Follows(attempts[i], attempts[i + 1], httpPort)
      ensures Final(attempts[|attempts| - 1], httpPort) && attempts[|attempts| - 1].endpoint == e
      ensures info.Some? ==> attempts[|attempts| - 1].reply == Answer(200)
      ensures e == from || (from.tls && e == from.(tls := false, port := httpPort))
    {
      info, e, attempts := None, from, [];
      var attempt := 0;
      while attempt < 2
        invariant attempt < 2 && info.None? && (attempt == 0 <==> attempts == []) && (attempt == 0 ==> e == from)
        invariant attempt > 0 ==> from.tls && e == from.(tls := false, port := httpPort)
        invariant attempt > 0 ==> attempts[0].endpoint == from && !attempts[0].basic
        invariant attempt > 0 ==> Follows(attempts[|attempts| - 1], Attempt(e, false, Answer(0)), httpPort)
        invariant forall i :: 0 <= i < |attempts| - 1 ==> Follows(attempts[i], attempts[i + 1], httpPort)
      {
        var reply := Request();
        attempts := attempts + [Attempt(e, false, reply)];
        if reply.Answer? && (reply.status == 400 || reply.status == 404) {
          reply := Request();
          attempts := attempts + [Attempt(e, true, reply)];
        }
        if reply.Answer? {
          if reply.status == 200 { info := ParseInfo(); }
          return;
        }
        if !reply.connected || !e.tls { return; }
        e := e.(tls := false, port := httpPort);
        attempt := attempt + 1;
      }
    }

    /** Cast devices answering on one of the phone's networks. */
    method FindDevices(n: PhoneNetwork) returns (found: seq<Device>)
      requires Busy()
      modifies this`trace, this`stops
      ensures Busy() && Unmoved(old(trace), trace) && InHand(trace) == old(InHand(trace))
      ensures AllFound(found, trace, |old(trace)|, hotspotAddress)
      ensures found == Gathered(trace, |old(trace)|, hotspotAddress)
      ensures forall d <- found :: d.endpoint.network == n
      ensures stops >= old(stops) && (stops == old(stops) ==> NetworkAsked(trace, |old(trace)|, n, hotspotAddress))
    {
      hide Honest, JoinSeen, CommandOf, OnHotspot, WasSeen, Busy, Idle, InHand, SeenSince, Gathered, Answers;
      NothingGathered(trace, hotspotAddress);
      found := [];
      var candidates: seq<nat> := *;
      var hotspot := OnHotspot(n, hotspotAddress);
      if hotspot { candidates := [hotspotAddress]; }
      else {
        var stop := Interrupted();
        if stop { return; }
      }
      ghost var from := |trace|;
      NoteTried(n, candidates);
      GatheredGrows(old(trace), Tried(n, candidates), from, hotspotAddress);
      NothingAsked(trace, n, candidates);
      for i := 0 to |candidates|
        invariant stops == old(stops) && |trace| == from + 1 + i && trace[from] == Tried(n, candidates)
        invariant Busy() && Unmoved(old(trace), trace) && InHand(trace) == old(InHand(trace))
        invariant AllFound(found, trace, from, hotspotAddress) && found == Gathered(trace, from, hotspotAddress)
        invariant forall d <- found :: d.endpoint.network == n
        invariant Answers(trace, from + 1, n, candidates[..i])
      {
        var stop := Interrupted();
        if stop { return; }
        ghost var before := trace;
        found := AskOne(n, candidates[i], hotspot, found, from);
        OneMoreAsked(before, trace, from + 1, n, candidates, i);
      }
      assert candidates[..|candidates|] == candidates;
    }

    /** One candidate is asked. */
    method AskOne(n: PhoneNetwork, address: nat, hotspot: bool, list: seq<Device>, ghost from: nat)
        returns (found: seq<Device>)
      requires Busy() && from <= |trace| && hotspot == OnHotspot(n, hotspotAddress)
      requires AllFound(list, trace, from, hotspotAddress) && list == Gathered(trace, from, hotspotAddress)
      requires forall d <- list :: d.endpoint.network == n
      modifies this`trace
      ensures Busy() && InHand(trace) == old(InHand(trace))
      ensures |trace| == |old(trace)| + 1 && old(trace) <= trace && IsAnswer(trace[|old(trace)|], n, address)
      ensures AllFound(found, trace, from, hotspotAddress) && found == Gathered(trace, from, hotspotAddress)
      ensures forall d <- found :: d.endpoint.network == n
    {
      hide Honest, JoinSeen, CommandOf, OnHotspot, WasSeen, Busy, Idle, InHand, SeenSince, Gathered, Added;
      found := list;
      ghost var before := trace;
      var info, e := ReadInfo(Endpoint(n, address, httpsPort, true));
      FoundStays(found, before, trace, from, from, hotspotAddress);
      GatheredGrows(before, trace[|before|], from, hotspotAddress);
      if info.Some? {
        SeenLast(trace, from, info.value, e);
        FirstSameExists(found, info.value);
        found := AddDevice(found, Device(info.value, e, true, hotspot));
      }
    }

    ghost method NoteTried(n: PhoneNetwork, candidates: seq<nat>)
      requires Busy()
      modifies this`trace
      ensures Busy() && trace == old(trace) + [Tried(n, candidates)] && InHand(trace) == old(InHand(trace))
    {
      hide Honest, JoinSeen, CommandOf, OnHotspot, InHand, JoinedBy;
      Note(Tried(n, candidates));
    }

    /** Keeps one entry per device, preferring one reached off its hotspot. */
    method AddDevice(list: seq<Device>, device: Device) returns (longer: seq<Device>)
      ensures (forall k :: 0 <= k < |list| ==> !SameDevice(list[k].info, device.info)) ==> longer == list + [device]
      ensures forall i :: 0 <= i < |list| && FirstSame(list, i, device.info) ==>
        longer == if list[i].hotspot && !device.hotspot then list[i := device] else list
      ensures longer == Added(list, device)
    {
      hide SameDevice;
      FirstSameExists(list, device.info);
      for i := 0 to |list|
        invariant forall k :: 0 <= k < i ==> !SameDevice(list[k].info, device.info)
      {
        if SameDevice(list[i].info, device.info) {
          return if list[i].hotspot && !device.hotspot then list[i := device] else list;
        }
      }
      return list + [device];
    }

    /** A command fails: requests are dropped first, then the failure is shown. */
    method Fail(retry: bool)
      requires Busy() && Justified(work.stage, retry)
      modifies this`held, this`hotspotRequest, this`targetRequest, this`work, this`trace
      ensures Busy() && Unmoved(old(trace), trace) && InHand(trace) == old(InHand(trace))
      ensures work == old(work).(prompt := false, failed := old(work).stage, stage := Stage.Failed, retry := retry)
      ensures trace[|trace| - 1] == Published(work, {}, start) && Tail(trace, |old(trace)|) && Concluded()
    {
      hide Honest, JoinSeen, SaveSeen, ReachedOff, OnHotspot, JoinedBy, InHand, LeftSeen, Busy, Idle, Ledger, Reasoned,
        HonestAt, Outstanding, Aside;
      BusyIsIdle();
      ghost var before := trace;
      ReleaseRequests();
      ReasonTail(before, trace, start, work.stage, retry, work.target, hotspotAddress);
      BusySorted();
      Show(work.(failed := work.stage, stage := Stage.Failed, retry := retry));
      BusySorted();
      Publish();
    }

    /** Changes what will be shown, but neither the target nor the claim of success. */
    method Show(w: Snapshot)
      requires Busy() && w.target == work.target && w.joined == work.joined
      requires forall i :: 0 <= i < |w.devices| ==> Placed(w.devices[i], hotspotAddress)
      requires Placed(w.device, hotspotAddress)
      requires w.networks != [] ==> w.device.hotspot == OnHotspot(w.device.endpoint.network, hotspotAddress)
      modifies this`work
      ensures Busy() && work == w
    {
      hide Honest, JoinSeen, CommandOf, OnHotspot, JoinedBy, InHand;
      work := w;
    }

    /** Asks for the setup hotspot; no other request is held. */
    method AskHotspot() returns (ok: bool)
      requires Busy() && hotspotRequest < 0 && targetRequest < 0
      modifies this`held, this`hotspotRequest, this`nextRequest, this`trace
      ensures Busy() && Unmoved(old(trace), trace) && (ok <==> hotspotRequest >= 0)
      ensures trace == old(trace) + [if ok then Requested(hotspotRequest) else Denied]
      ensures InHand(trace) == old(InHand(trace))
    {
      hide Honest, JoinSeen, SaveSeen, OnHotspot, JoinedBy, InHand;
      hotspotRequest := RequestNetwork();
      ok := hotspotRequest >= 0;
      EvidenceStays(old(trace), trace, start, work.target);
      HandStays(old(trace), trace);
    }

    method AskTarget() returns (ok: bool)
      requires Busy() && hotspotRequest < 0 && targetRequest < 0
      modifies this`held, this`targetRequest, this`nextRequest, this`trace
      ensures Busy() && Unmoved(old(trace), trace) && (ok <==> targetRequest >= 0)
      ensures trace == old(trace) + [if ok then Requested(targetRequest) else Denied]
      ensures InHand(trace) == old(InHand(trace))
    {
      hide Honest, JoinSeen, SaveSeen, OnHotspot, JoinedBy, InHand;
      targetRequest := RequestNetwork();
      ok := targetRequest >= 0;
      EvidenceStays(old(trace), trace, start, work.target);
      HandStays(old(trace), trace);
    }

    method DropHotspot()
      requires Busy()
      modifies this`held, this`hotspotRequest, this`trace
      ensures Busy() && Unmoved(old(trace), trace) && hotspotRequest < 0
      ensures InHand(trace) == old(InHand(trace))
    {
      hide Honest, JoinSeen, SaveSeen, OnHotspot, JoinedBy, InHand;
      if hotspotRequest >= 0 { ReleaseNetwork(hotspotRequest); }
      hotspotRequest := -1;
      EvidenceStays(old(trace), trace, start, work.target);
      HandStays(old(trace), trace);
    }

    method DropTarget()
      requires Busy()
      modifies this`held, this`targetRequest, this`trace
      ensures Busy() && Unmoved(old(trace), trace) && targetRequest < 0
      ensures InHand(trace) == old(InHand(trace))
    {
      hide Honest, JoinSeen, SaveSeen, OnHotspot, JoinedBy, InHand;
      if targetRequest >= 0 { ReleaseNetwork(targetRequest); }
      targetRequest := -1;
      EvidenceStays(old(trace), trace, start, work.target);
      HandStays(old(trace), trace);
    }

    /** The last device to be remembered. */
    ghost predicate Kept(info: Info)
      reads `known
    {
      exists before: seq<Info> :: known == Remembering(before, info, hotspotAddress, addressOf)
    }

    /** The last thing was to show how the command ended. */
    ghost predicate Concluded()
      reads `trace, `start
    {
      && trace != [] && trace[|trace| - 1].Published? && trace[|trace| - 1].start == start
      && trace[|trace| - 1].snapshot.stage in {DeviceList, Networks, Stage.Done, Stage.Failed}
    }

    lemma BusyIsIdle()
      requires Busy()
      ensures Idle()
    {
    }

    /** What stays well placed for a later command. */
    ghost predicate Sorted()
      reads this`work
    {
      && (forall i :: 0 <= i < |work.devices| ==> Placed(work.devices[i], hotspotAddress)) &&
        Placed(work.device, hotspotAddress)
      && (work.networks != [] ==> work.device.hotspot == OnHotspot(work.device.endpoint.network, hotspotAddress))
    }

    lemma BusySorted()
      requires Busy()
      ensures Sorted() && CommandOf(trace, start, |trace|)
      ensures hotspotRequest < 0 && targetRequest < 0 <==> held == {}
      ensures hotspotRequest < 0 || targetRequest < 0
    {
    }

    /** The device is recognised as the one in hand, and becomes it; its key may be the one known before. */
    ghost method Accept(raw: Info, info: Info, previous: Info, endpoint: Endpoint)
      requires Busy() && WasSeen(trace, |trace|, raw, endpoint) &&
        (info == raw || info == raw.(publicKey := previous.publicKey))
      requires InHand(trace).info == previous
      requires SameDevice(info, previous) || (!Identified(previous) && !InHand(trace).sent)
      modifies this`trace
      ensures Busy() && trace == old(trace) + [Accepted(info, previous, endpoint)] && JustSeen(info, endpoint)
      ensures InHand(trace) == old(InHand(trace)).(info := info, endpoint := Some(endpoint))
    {
      hide Honest, JoinSeen, OnHotspot, SameDevice, Identified, JoinedBy, InHand, WasSeen;
      ghost var e := Accepted(info, previous, endpoint);
      assert (trace + [e])[..|trace|] == trace;
      AnswerStays(trace, trace + [e], |trace|, info, previous, endpoint);
      Note(e);
    }

    /** What is known of the device is what the history says of the one in hand. */
    ghost predicate Holding(d: Device)
      reads this`trace
    {
      InHand(trace).info == d.info
    }

    /** The last thing in this command was to recognise the device with this information over this endpoint. */
    ghost predicate JustSeen(info: Info, endpoint: Endpoint)
      reads this`trace, this`start
    {
      var last := |trace| - 1;
      start < last && trace[last].Accepted? && trace[last].info == info && trace[last].endpoint == endpoint
    }

    method AskOrFail() returns (ok: bool)
      requires Busy() && hotspotRequest < 0 && targetRequest < 0 && work.stage == Stage.Hotspot
      modifies this
      ensures Busy() && Unmoved(old(trace), trace) && start == old(start) && InHand(trace) == old(InHand(trace))
      ensures work.joined == old(work.joined) && (ok ==> work == old(work)) &&
        (ok ==> hotspotRequest >= 0 && targetRequest < 0)
      ensures stops == old(stops)
      ensures !ok ==> Concluded()
    {
      hide Honest, JoinSeen, SaveSeen, CommandOf, OnHotspot, Busy, Idle, Ledger, JoinedBy, InHand;
      ok := AskHotspot();
      if !ok { Fail(false); }
    }

    /** Reaches the device over its own hotspot, once Android has joined that. */
    method JoinHotspot(d0: Device) returns (ok: bool, d: Device)
      requires Busy() && held == {} && hotspotRequest < 0 && targetRequest < 0
      requires Holding(d0) && !InHand(trace).sent
      modifies this
      ensures Busy() && Observed(old(trace), trace) && start == old(start) && work.joined == old(work.joined)
      ensures ok ==>
        Holding(d) && d.reachable && d.hotspot && OnHotspot(d.endpoint.network, hotspotAddress) && targetRequest < 0
      ensures ok ==> InHand(trace).endpoint == Some(d.endpoint)
      ensures stops >= old(stops) && (!ok && stops == old(stops) ==> Concluded())
    {
      hide Honest, HonestAt, JoinSeen, SaveSeen, CommandOf, OnHotspot, WasSeen, SameDevice, Busy, Idle, Ledger,
        Outstanding, Placed, InHand, JoinedBy;
      d := d0;
      BusySorted();
      Show(work.(stage := Stage.Hotspot, prompt := true));
      Publish();
      var widened := d.info.hotspotBssid == "";
      ok := AskOrFail();
      if !ok { return false, d; }
      var rounds := Rounds();
      while rounds > 0
        invariant stops >= old(stops)
        invariant Busy() && Observed(old(trace), trace) && start == old(start) && targetRequest < 0
        invariant Holding(d) && !InHand(trace).sent && work.joined == old(work.joined) && work.stage == Stage.Hotspot
      {
        rounds := rounds - 1;
        var go;
        go, ok, widened, d := HotspotRound(d, widened);
        if !go { return ok, d; }
      }
      Fail(false);
      return false, d;
    }

    /** One look and, late enough, asking Android for any hotspot of that name. */
    method HotspotRound(d0: Device, wide: bool) returns (go: bool, ok: bool, widened: bool, d: Device)
      requires Busy() && work.stage == Stage.Hotspot && targetRequest < 0 && Holding(d0) && !InHand(trace).sent
      modifies this
      ensures Busy() && Observed(old(trace), trace) && start == old(start) && work.joined == old(work.joined)
      ensures ok ==>
        && !go && Holding(d) && d.reachable && d.hotspot && OnHotspot(d.endpoint.network, hotspotAddress)
        && targetRequest < 0 && InHand(trace).endpoint == Some(d.endpoint) && !InHand(trace).sent
      ensures go ==> Holding(d) && !InHand(trace).sent && work.stage == Stage.Hotspot && targetRequest < 0
      ensures stops >= old(stops) && (!go && !ok && stops == old(stops) ==> Concluded())
    {
      hide Honest, HonestAt, JoinSeen, SaveSeen, CommandOf, OnHotspot, WasSeen, SameDevice, Busy, Idle, Ledger,
        Outstanding, Placed, InHand, JoinedBy, HotspotsAsked, Identified;
      go, widened := true, wide;
      var stop;
      ok, stop, d := ProbeHotspot(d0);
      if ok || stop { return false, ok, widened, d; }
      var late: bool := *;
      if !widened && late {
        widened := true;
        DropHotspot();
        go := AskOrFail();
        if !go { return; }
      }
      go := Pause();
    }

    /** One look for the device on its hotspot. */
    method ProbeHotspot(d0: Device) returns (done: bool, stop: bool, d: Device)
      requires Busy() && Holding(d0) && !InHand(trace).sent
      modifies this`trace, this`work, this`stops
      ensures Busy() && Observed(old(trace), trace) && Holding(d) && !InHand(trace).sent
      ensures work == if done then old(work).(prompt := false) else old(work)
      ensures done ==> d.reachable && d.hotspot && OnHotspot(d.endpoint.network, hotspotAddress)
      ensures done ==> InHand(trace).endpoint == Some(d.endpoint)
      ensures done ==> JustSeen(d.info, d.endpoint) && (SameDevice(d.info, d0.info) || !Identified(d0.info))
      ensures !done ==> d == d0
      ensures !done && !stop ==> HotspotsAsked(old(trace), trace, d0.info, hotspotAddress)
      ensures stops >= old(stops) && (stop <==> stops > old(stops))
    {
      hide Honest, JoinSeen, CommandOf, OnHotspot, WasSeen, SameDevice, Identified, InHand, JoinedBy, Busy,
        JustSeen, Asked;
      done, stop, d := false, false, d0;
      var networks := ListNetworks();
      ghost var from := |trace|;
      NoneAsked(trace, networks, d0.info, hotspotAddress);
      for i := 0 to |networks|
        invariant stops == old(stops) && !done && !stop
        invariant Busy() && Observed(old(trace), trace) && work == old(work) && d == d0 && Holding(d) &&
          !InHand(trace).sent
        invariant from == |old(trace)| + 1 <= |trace| && trace[from - 1] == Attached(networks)
        invariant Asked(trace, from, Hotspots(networks[..i], hotspotAddress), d0.info, hotspotAddress)
      {
        stop := Interrupted();
        if stop { return; }
        ghost var before := trace;
        if OnHotspot(networks[i], hotspotAddress) {
          done, d := ProbeOn(networks[i], d);
          if done { return; }
        }
        AskedOneMore(before, trace, from, networks, i, d0.info, hotspotAddress);
      }
      assert networks[..|networks|] == networks;
    }

    /** The device answers on one hotspot, or somebody else does, or nobody. */
    method ProbeOn(n: PhoneNetwork, d0: Device) returns (done: bool, d: Device)
      requires Busy() && Holding(d0) && !InHand(trace).sent && OnHotspot(n, hotspotAddress)
      modifies this`trace, this`work
      ensures Busy() && Observed(old(trace), trace) && Holding(d) && !InHand(trace).sent
      ensures work == if done then old(work).(prompt := false) else old(work)
      ensures done ==> d.reachable && d.hotspot && d.endpoint.network == n && InHand(trace).endpoint == Some(d.endpoint)
      ensures done ==> JustSeen(d.info, d.endpoint) && (SameDevice(d.info, d0.info) || !Identified(d0.info))
      ensures !done ==> d == d0
      ensures !done ==> |trace| == |old(trace)| + 1 && IsOther(trace[|old(trace)|], n, d0.info, hotspotAddress)
    {
      hide Honest, JoinSeen, CommandOf, OnHotspot, WasSeen, SameDevice, Identified, InHand, JoinedBy, Busy, Idle;
      done, d := false, d0;
      var info, e := ReadInfo(Endpoint(n, hotspotAddress, httpsPort, true));
      if info.Some? && (!Identified(d.info) || SameDevice(info.value, d.info)) {
        Accept(info.value, info.value, d.info, e);
        d := Device(info.value, e, true, true);
        BusySorted();
        Show(work.(prompt := false));
        done := true;
      }
    }

    /** Asks for the results, at most six times, until there are some. */
    method PollScan(endpoint: Endpoint) returns (idle: bool, last: Option<seq<WifiNetwork>>)
      requires Busy() && InHand(trace).endpoint == Some(endpoint)
      modifies this`trace, this`stops
      ensures Busy() && old(trace) <= trace && |trace| <= |old(trace)| + 6 && InHand(trace) == old(InHand(trace))
      ensures forall k :: |old(trace)| <= k < |trace| ==> trace[k].ScanRead? && trace[k].endpoint == endpoint
      ensures forall k :: |old(trace)| <= k < |trace| - 1 ==> NothingRead(trace[k])
      ensures stops >= old(stops) && (idle <==> stops == old(stops))
      ensures idle ==> |trace| > |old(trace)| && trace[|trace| - 1].found == last
      ensures idle && NothingRead(trace[|trace| - 1]) ==> |trace| == |old(trace)| + 6
    {
      hide Honest, JoinSeen, CommandOf, OnHotspot, Busy, Idle, Ledger, JoinedBy, InHand;
      idle, last := true, None;
      var attempt := 0;
      while attempt < 6 && (last.None? || last.value == [])
        invariant stops == old(stops) && idle && Busy() && InHand(trace) == old(InHand(trace))
        invariant attempt <= 6 && old(trace) <= trace && |trace| == |old(trace)| + attempt
        invariant forall k :: |old(trace)| <= k < |trace| ==> trace[k].ScanRead? && trace[k].endpoint == endpoint
        invariant forall k :: |old(trace)| <= k < |trace| - 1 ==> NothingRead(trace[k])
        invariant if attempt > 0 then trace[|trace| - 1].found == last else last.None?
        decreases 6 - attempt
      {
        idle := Pause();
        if !idle { return; }
        var results := Request();
        var list: Option<seq<WifiNetwork>> := *;
        last := if results == Answer(200) then list else None;
        NoteScan(ScanRead(endpoint, last));
        attempt := attempt + 1;
      }
    }

    ghost method NoteScan(e: Event)
      requires Busy() && IsScan(e) && InHand(trace).endpoint == Some(e.endpoint)
      modifies this`trace
      ensures Busy() && trace == old(trace) + [e] && InHand(trace) == old(InHand(trace))
    {
      hide Honest, JoinSeen, CommandOf, OnHotspot, JoinedBy, InHand;
      assert (trace + [e])[..|trace|] == trace;
      Note(e);
    }

    /** Reads the networks the device sees. */
    method Scan()
      requires InHand(trace).endpoint == Some(work.device.endpoint)
      requires Busy() && work.device.hotspot == OnHotspot(work.device.endpoint.network, hotspotAddress)
      modifies this
      ensures Busy() && Observed(old(trace), trace) && start == old(start) && work.joined == old(work.joined)
      ensures stops >= old(stops) && (stops == old(stops) ==> Concluded())
    {
      hide Honest, JoinSeen, CommandOf, OnHotspot, Busy, Idle, Ledger, JoinedBy, InHand, Reasoned;
      BusySorted();
      Show(work.(stage := Scanning, networks := []));
      Publish();
      var started := Request();
      NoteScan(ScanAsked(work.device.endpoint, started));
      if (started.Lost? && !started.sent) || (started.Answer? && (started.status < 200 || started.status >= 300)) {
        ScanIsBad();
        Fail(true);
        return;
      }
      ReadScan();
    }

    /** Shows the networks that the device found. */
    method ReadScan()
      requires Busy() && work.device.hotspot == OnHotspot(work.device.endpoint.network, hotspotAddress)
      requires work.stage == Scanning && InHand(trace).endpoint == Some(work.device.endpoint)
      modifies this
      ensures Busy() && Observed(old(trace), trace) && start == old(start) && work.joined == old(work.joined)
      ensures stops >= old(stops) && (stops == old(stops) ==> Concluded())
    {
      hide Honest, JoinSeen, CommandOf, OnHotspot, Busy, Idle, Ledger, JoinedBy, InHand, Reasoned;
      var idle, networks := PollScan(work.device.endpoint);
      if !idle { return; }
      if networks.None? {
        ScanIsBad();
        Fail(true);
        return;
      }
      BusySorted();
      Show(work.(networks := networks.value, stage := Networks));
      Publish();
    }

    lemma ScanIsBad()
      requires trace != [] && BadScan(trace[|trace| - 1])
      ensures Reasoned(trace, start, |trace|, Scanning, true, work.target, hotspotAddress)
    {
      hide BadScan, IsScan;
      assert ScanFailed(trace, |trace|);
    }

    /** Lists the networks a device sees, joining its hotspot when it is out of reach. */
    method Open(d0: Device)
      requires Holding(d0) && !InHand(trace).sent
      requires Busy() && Placed(d0, hotspotAddress) && trace[start].join.None?
      modifies this
      ensures Busy() && Observed(old(trace), trace) && start == old(start) && work.joined == old(work.joined)
      ensures stops >= old(stops) && (stops == old(stops) ==> Concluded())
    {
      hide Honest, JoinSeen, CommandOf, OnHotspot, WasSeen, SameDevice, Identified, JoinedBy, InHand;
      var d := d0;
      work := work.(device := d, networks := [], target := "", retry := false, stage := Scanning);
      Publish();
      OpenDevice(d);
    }

    /** Whether a device listed as reachable still answers as itself. */
    method Greet(d0: Device) returns (reachable: bool, d: Device)
      requires Busy() && Placed(d0, hotspotAddress) && Holding(d0) && !InHand(trace).sent
      modifies this`trace
      ensures Busy() && Observed(old(trace), trace) && Holding(d) && !InHand(trace).sent
      ensures reachable ==> InHand(trace).endpoint == Some(d.endpoint)
      ensures d0.reachable ==>
        && |trace| > |old(trace)| && IsAnswer(trace[|old(trace)|], d0.endpoint.network, d0.endpoint.address)
        && (reachable <==> trace[|old(trace)|].Saw? && SameDevice(trace[|old(trace)|].info, d0.info))
      ensures if reachable then d0.reachable && SameDevice(d.info, d0.info) && JustSeen(d.info, d.endpoint)
        else d == d0
      ensures Placed(d, hotspotAddress) && d == d0.(info := d.info, endpoint := d.endpoint)
    {
      hide Honest, JoinSeen, CommandOf, OnHotspot, WasSeen, SameDevice, Identified, Busy, Idle, Ledger, JoinedBy,
        InHand;
      reachable, d := false, d0;
      if d.reachable {
        var info, e := ReadInfo(d.endpoint);
        if info.Some? && SameDevice(info.value, d.info) {
          Accept(info.value, info.value, d.info, e);
          d := d.(info := info.value, endpoint := e);
          reachable := true;
        }
      }
    }

    /** The rest of opening a device, once the client was told. */
    method OpenDevice(d0: Device)
      requires Holding(d0) && !InHand(trace).sent
      requires Busy() && Placed(d0, hotspotAddress)
      modifies this
      ensures Busy() && Observed(old(trace), trace) && start == old(start) && work.joined == old(work.joined)
      ensures stops >= old(stops) && (stops == old(stops) ==> Concluded())
    {
      hide Honest, JoinSeen, CommandOf, OnHotspot, WasSeen, SameDevice, Identified, Busy, Idle, Ledger, JoinedBy,
        InHand;
      var reachable, d := Greet(d0);
      var stop := Interrupted();
      if stop { return; }
      DropTarget();
      if !reachable {
        BusyIsIdle();
        ReleaseRequests();
        d := d.(reachable := false, hotspot := false);
        var ok;
        ok, d := JoinHotspot(d);
        if !ok { return; }
      } else if !d.hotspot && hotspotRequest >= 0 {
        DropHotspot();
      }
      BusySorted();
      Show(work.(device := d));
      Scan();
    }

    /** Starts over with nothing open. */
    method Reset(w: Snapshot)
      requires Idle() && AllPlaced(w.devices, hotspotAddress) && Placed(w.device, hotspotAddress) &&
        w.networks == [] && !w.joined
      modifies this`work
      ensures Idle() && work == w
    {
      hide Honest, JoinSeen, CommandOf, OnHotspot;
      work := w;
    }

    /** Finds devices on every network, after dropping any request. */
    method RunSearch() returns (ghost found: seq<Device>, ghost begun: seq<Event>, ghost searched: seq<Event>)
      requires Idle()
      modifies this
      ensures Idle() && old(trace) <= trace
      ensures AllFound(found, trace, |old(trace)|, hotspotAddress)
      ensures known == AllRemembered(old(known), Infos(found), hotspotAddress, addressOf)
      ensures old(trace) <= begun <= searched <= trace
      ensures stops == old(stops) ==> Searched(begun, searched, found, hotspotAddress)
      ensures work.stage == DeviceList ==>
        work.devices == Side(found, false) + Side(found, true) + OutOfReach(Missing(known, found))
      ensures stops >= old(stops) && (stops == old(stops) ==> work.stage == DeviceList && Concluded())
    {
      hide Honest, JoinSeen, CommandOf, OnHotspot, WasSeen, SameDevice, Ledger, Idle, Busy, AllStorable,
        AllRemembered, Missing, Infos, Side, InHand, JoinedBy, SeenSince;
      NothingRemembered(known, hotspotAddress, addressOf);
      found, begun, searched := [], trace, trace;
      ReleaseRequests();
      Reset(NoSnapshot().(devices := OutOfReach(known)));
      Begin(None, NoInfo());
      BusyIsIdle();
      BusySorted();
      Publish();
      begun := trace;
      var go, all := SearchAll();
      searched := trace;
      if !go { BusyIsIdle(); return; }
      found := all;
      ListFound(all);
      FoundStays(all, searched, trace, |begun|, |old(trace)|, hotspotAddress);
      BusyIsIdle();
    }

    /** Looks for devices on each of the phone's networks. */
    method SearchAll() returns (go: bool, all: seq<Device>)
      requires Busy()
      modifies this`trace, this`stops
      ensures Busy() && old(trace) <= trace && AllPlaced(all, hotspotAddress)
      ensures AllFound(all, trace, |old(trace)|, hotspotAddress)
      ensures stops >= old(stops) && (!go ==> stops > old(stops))
      ensures stops == old(stops) ==> Searched(old(trace), trace, all, hotspotAddress)
    {
      hide Honest, JoinSeen, CommandOf, OnHotspot, WasSeen, SameDevice, Idle, Busy, InHand, JoinedBy, SeenSince,
        Gathered, NetworkAsked, AllAdded, Collected;
      ghost var begun := trace;
      go, all := true, [];
      var networks := ListNetworks();
      LookNothing(trace, networks, SameAs(NoInfo()), hotspotAddress);
      for i := 0 to |networks|
        invariant stops >= old(stops) && begun + [Attached(networks)] <= trace
        invariant Busy() && AllFound(all, trace, |begun|, hotspotAddress) && AllPlaced(all, hotspotAddress)
        invariant stops == old(stops) ==> Collected(trace, |begun| + 1, networks, i, all, hotspotAddress)
      {
        var stop := Interrupted();
        if stop { return false, all; }
        ghost var before, some := trace, all;
        var more := FindDevices(networks[i]);
        FoundStays(all, before, trace, |begun|, |begun|, hotspotAddress);
        FoundStays(more, trace, trace, |before|, |begun|, hotspotAddress);
        all := Merge(all, more, hotspotAddress, trace, |begun|);
        if stops == old(stops) {
          CollectOneMore(before, trace, |begun| + 1, networks, i, some, hotspotAddress);
        }
      }
      var stop := Interrupted();
      go := !stop;
    }

    /** Remembers what answered and lists it before the remembered devices that did not. */
    method ListFound(found: seq<Device>)
      requires Busy() && AllPlaced(found, hotspotAddress) && held == {}
      modifies this`known, this`work, this`trace
      ensures Busy() && old(trace) <= trace && known ==
        AllRemembered(old(known), Infos(found), hotspotAddress, addressOf)
      ensures work.devices == Side(found, false) + Side(found, true) + OutOfReach(Missing(known, found))
      ensures Concluded() && work.stage == DeviceList
    {
      hide Honest, JoinSeen, CommandOf, OnHotspot, WasSeen, SameDevice, Ledger, Idle, Busy, AllStorable,
        AllRemembered, Missing, Infos, Side, InHand, JoinedBy;
      RememberAll(found);
      var listed := Partition(found, hotspotAddress);
      var rest := NotFound(known, found);
      BusySorted();
      Show(work.(devices := listed + OutOfReach(rest), stage := DeviceList));
      BusySorted();
      Publish();
    }

    /** Remembers every device of a list, in order. */
    method RememberAll(devices: seq<Device>)
      requires Busy()
      modifies this`known
      ensures Busy() && known == AllRemembered(old(known), Infos(devices), hotspotAddress, addressOf)
    {
      hide Honest, JoinSeen, CommandOf, OnHotspot, AllStorable, AllRemembered, Remembering, InHand, JoinedBy;
      NothingRemembered(known, hotspotAddress, addressOf);
      assert Infos(devices[..0]) == [];
      for i := 0 to |devices|
        invariant Busy() && known == AllRemembered(old(known), Infos(devices[..i]), hotspotAddress, addressOf)
      {
        OneMoreRemembered(old(known), devices, i, hotspotAddress, addressOf);
        Keep(devices[i].info);
      }
      assert devices[..|devices|] == devices;
    }

    /** Remembers a device. */
    method Keep(info: Info)
      requires Busy()
      modifies this`known
      ensures Busy() && known == Remembering(old(known), info, hotspotAddress, addressOf)
    {
      hide Honest, JoinSeen, CommandOf, OnHotspot, AllStorable, Remembering, InHand, JoinedBy;
      RememberingRetains(known, info, hotspotAddress, addressOf);
      known := Remember(known, info, hotspotAddress, addressOf);
    }

    /** Adds the devices of one network to those of the others. */
    method Merge(found: seq<Device>, some: seq<Device>, h: nat, ghost t: seq<Event>, ghost from: nat)
        returns (all: seq<Device>)
      ensures all == AllAdded(found, some)
      requires AllPlaced(found, h) && AllFound(found, t, from, h) && AllFound(some, t, from, h)
      ensures AllPlaced(all, h) && AllFound(all, t, from, h)
    {
      hide OnHotspot, SeenSince, Added;
      all := found;
      assert AllAdded(found, some[..0]) == found;
      for i := 0 to |some|
        invariant all == AllAdded(found, some[..i])
        invariant AllPlaced(all, h) && AllFound(all, t, from, h)
      {
        FirstSameExists(all, some[i].info);
        all := AddDevice(all, some[i]);
        assert some[..i + 1][..i] == some[..i];
      }
      assert some[..|some|] == some;
    }

    /** Joins the target network from the phone, dropping the hotspot first. */
    method RequestTarget(ghost p: nat) returns (ok: bool)
      requires Busy() && work.stage in {Finding, Saving} && (work.stage == Finding ==> LeftSeen(trace, start, |trace|))
      requires ShownAt(trace, start, p, work.stage) && (work.stage == Finding ==> NoneSince(trace, p))
      modifies this
      ensures Busy() && Unmoved(old(trace), trace) && start == old(start) && InHand(trace) == old(InHand(trace))
      ensures ok ==> targetRequest >= 0 && (work == old(work) || work == old(work).(prompt := true))
      ensures stops == old(stops)
      ensures !ok ==> Concluded() && work.stage == Stage.Failed
    {
      hide Honest, JoinSeen, CommandOf, OnHotspot, Busy, Idle, Ledger, InHand, JoinedBy, LeftSeen, Reasoned;
      if targetRequest >= 0 { return true; }
      ghost var before := trace;
      DropHotspot();
      ok := AskTarget();
      if !ok {
        DeniedReason(trace, start, p, work.stage, work.target, hotspotAddress);
        Fail(false);
        return;
      }
      if work.stage == Finding { LeftStays(before, trace, start); }
      BusySorted();
      Show(work.(prompt := true));
      BusySorted();
      Publish();
    }

    /** Looks for the device on the phone's networks that are not its hotspot. */
    method FindOnLan(device: Device) returns (found: bool, d: Device)
      requires Busy() && Holding(device)
      modifies this`trace, this`stops
      ensures Busy() && Observed(old(trace), trace) && Holding(d)
      ensures found ==> !d.hotspot && !OnHotspot(d.endpoint.network, hotspotAddress) && SameDevice(d.info, device.info)
      ensures found ==>
        JustSeen(d.info, d.endpoint) && InHand(trace).endpoint == Some(d.endpoint) && |trace| > |old(trace)|
      ensures !found ==> d == device && Unmoved(old(trace), trace)
      ensures !found && stops == old(stops) ==> Absent(old(trace), trace, SameAs(device.info), hotspotAddress)
      ensures found ==> Unmoved(old(trace), trace[..|trace| - 1])
      ensures stops >= old(stops)
    {
      hide Honest, JoinSeen, CommandOf, OnHotspot, WasSeen, SameDevice, Identified, Busy, Idle, Ledger, InHand,
        JoinedBy, SeenSince, Gathered, NetworkAsked, SameAs, LookedThrough;
      found, d := false, device;
      ghost var begun := trace;
      var networks := ListNetworks();
      LookNothing(trace, networks, SameAs(device.info), hotspotAddress);
      for i := 0 to |networks|
        invariant stops >= old(stops) && begun + [Attached(networks)] <= trace
        invariant Busy() && Unmoved(old(trace), trace) && d == device && Holding(d)
        invariant stops == old(stops) ==>
          LookedThrough(trace, |begun| + 1, networks, i, SameAs(device.info), hotspotAddress)
      {
        var stop := Interrupted();
        if stop { return; }
        ghost var before := trace;
        if !OnHotspot(networks[i], hotspotAddress) {
          var devices := FindDevices(networks[i]);
          var k := Among(devices, device.info);
          if k < |devices| {
            SeenIsFresh(before, trace, devices[k].info, devices[k].endpoint);
            ghost var seen := trace;
            Accept(devices[k].info, devices[k].info, device.info, devices[k].endpoint);
            assert trace[..|trace| - 1] == seen;
            return true, devices[k];
          }
        }
        if stops == old(stops) {
          LookOneMore(before, trace, |begun| + 1, networks, i, SameAs(device.info), hotspotAddress);
        }
      }
    }

    /** The first of the devices that is the same hardware. */
    method Among(devices: seq<Device>, info: Info) returns (k: nat)
      ensures k <= |devices| && (k < |devices| ==> SameDevice(devices[k].info, info))
      ensures forall d <- devices[..k] :: !SameAs(info)(d.info)
    {
      hide SameDevice;
      k := 0;
      while k < |devices| && !SameDevice(devices[k].info, info)
        invariant k <= |devices| && forall d <- devices[..k] :: !SameAs(info)(d.info)
      {
        k := k + 1;
      }
    }

    /** Whether the device confirms having saved the network. */
    method NetworkSaved(d: Device, ssid: string) returns (saved: bool)
      requires Joined(ssid) && Holding(d) && InHand(trace).endpoint == Some(d.endpoint)
      requires d.info.state == SAVED ==> SaveSeen(trace, start, |trace|, ssid)
      modifies this`trace
      ensures Joined(ssid) && InHand(trace) == old(InHand(trace))
      ensures trace == old(trace) || (|trace| == |old(trace)| + 1 && old(trace) <= trace && trace[|old(trace)|].Listed?)
      ensures saved <==> d.info.state == SAVED || (trace != old(trace) && Confirms(trace[|old(trace)|], ssid))
      ensures saved ==> SaveSeen(trace, start, |trace|, ssid)
      ensures SaveSeen(old(trace), start, |old(trace)|, ssid) ==> SaveSeen(trace, start, |trace|, ssid)
    {
      hide Honest, JoinSeen, CommandOf, OnHotspot, Busy, Idle, Ledger, Joined, InHand, JoinedBy;
      if d.info.state == SAVED { return true; }
      if d.info.state == NOT_SAVED { return false; }
      var reply := Request();
      if reply.Lost? || reply.status != 200 { return false; }
      var ssids: seq<string> := *;
      NoteConfirmation(Listed(d.endpoint, ssids), ssid);
      return ssid in ssids;
    }

    /** The device's word about saving, heard after its word about joining. */
    ghost method NoteConfirmation(e: Event, ssid: string)
      requires Joined(ssid) && (e.Listed? || e.SaveReply?) && InHand(trace).endpoint == Some(e.endpoint)
      requires e.Listed? ==> InHand(trace).info.state != NOT_SAVED && InHand(trace).info.state != SAVED
      requires e.SaveReply? ==> CONNECTED <= e.state <= 64 && trace[|trace| - 1] == SaveAsked(e.endpoint, Answer(200))
      modifies this`trace
      ensures Joined(ssid) && trace == old(trace) + [e] && InHand(trace) == HandAfter(old(InHand(trace)), e)
      ensures Confirms(e, ssid) || SaveSeen(old(trace), start, |old(trace)|, ssid) ==>
        SaveSeen(trace, start, |trace|, ssid)
    {
      hide Honest, JoinSeen, OnHotspot, SaveSeen, InHand, JoinedBy;
      ghost var before := trace;
      assert (trace + [e])[..|trace|] == trace;
      Note(e);
      JoinStays(before, trace, start, |before|, |before|, ssid);
      EvidenceStays(before, trace, start, ssid);
      if Confirms(e, ssid) { ReportSaves(|before|, ssid); }
    }

    lemma ReportSaves(k: nat, ssid: string)
      requires start < k < |trace| && Confirms(trace[k], ssid) && JoinSeen(trace, start, k, ssid)
      ensures SaveSeen(trace, start, |trace|, ssid)
    {
      assert SaveReport(trace, start, k, ssid);
    }

    /** This command is a join of the network, and the device's word for it has been heard. */
    ghost predicate Joined(ssid: string)
      reads `held, `hotspotRequest, `targetRequest, `nextRequest, `trace, `known, `work, `start
    {
      Busy() && Joins(trace[start], ssid) && JoinSeen(trace, start, |trace|, ssid)
    }

    /** The device is on its hotspot exactly if that is where it answers. */
    predicate Located(d: Device) { d.hotspot == OnHotspot(d.endpoint.network, hotspotAddress) }

    lemma JoinedIsBusy(ssid: string)
      requires Joined(ssid)
      ensures Busy() && Idle() && Joins(trace[start], ssid) && work.target == ssid
    {
    }

    /** Growth of the history keeps what was established. */
    lemma StillJoined(before: seq<Event>, ssid: string)
      requires Busy() && Observed(before, trace)
      requires start < |before| && Joins(before[start], ssid) && JoinSeen(before, start, |before|, ssid)
      ensures Joined(ssid)
    {
      hide Honest, JoinSeen, SaveSeen, OnHotspot, JoinedBy;
      EvidenceStays(before, trace, start, ssid);
    }

    lemma JoinedStart(ssid: string)
      requires Joined(ssid)
      ensures start < |trace| && Joins(trace[start], ssid) && JoinSeen(trace, start, |trace|, ssid)
    {
    }

    /** After the join, what the device says when it is recognised again is evidence. */
    lemma SeenAgain(d: Device, ssid: string)
      requires JustSeen(d.info, d.endpoint) && JoinSeen(trace, start, |trace| - 1, ssid)
      ensures d.info.state == SAVED ==> SaveSeen(trace, start, |trace|, ssid)
      ensures OnTarget(d.info, ssid) ==> LastReport(trace, start, |trace|, ssid, d.endpoint)
    {
      hide OnTarget;
      var last := |trace| - 1;
      var j :| 0 <= j < last && JoinReport(trace, start, j, ssid);
      var s :| start < s < j <= |trace| && trace[s].Sent?;
      assert LastContact(trace, last, |trace|);
      if OnTarget(d.info, ssid) { assert JoinReport(trace, start, last, ssid); }
      if d.info.state == SAVED { ReportSaves(last, ssid); }
    }

    /** Finds the device again, at its endpoint or elsewhere. */
    method Relocate(d0: Device, ssid: string) returns (found: bool, d: Device)
      requires Joined(ssid) && Located(d0) && Holding(d0)
      modifies this`trace, this`stops
      ensures Joined(ssid) && Located(d) && Observed(old(trace), trace) && Holding(d)
      ensures found ==>
        SameDevice(d.info, d0.info) && JustSeen(d.info, d.endpoint) && InHand(trace).endpoint == Some(d.endpoint)
      ensures found ==> d.info.state == SAVED ==> SaveSeen(trace, start, |trace|, ssid)
      ensures found && OnTarget(d.info, ssid) ==> LastReport(trace, start, |trace|, ssid, d.endpoint)
      ensures !found ==> d == d0 && Unmoved(old(trace), trace)
      ensures found ==> Unmoved(old(trace), trace[..|trace| - 1]) && |trace| > |old(trace)|
      ensures stops >= old(stops)
    {
      hide Honest, JoinSeen, CommandOf, WasSeen, SameDevice, Identified, Busy, Idle, Ledger, SaveSeen, LastReport,
        OnTarget, OnHotspot, InHand, JoinedBy, Unmoved;
      ghost var before := trace;
      JoinedIsBusy(ssid);
      JoinedStart(ssid);
      d := d0;
      var info, e := ReadInfo(d.endpoint);
      ghost var heard := trace;
      UnmovedByAnswer(before, heard[|before|], Denied);
      found := info.Some? && SameDevice(info.value, d.info);
      if found {
        Accept(info.value, info.value, d.info, e);
        d := d.(info := info.value, endpoint := e);
        assert trace[..|trace| - 1] == heard;
      } else {
        found, d := FindOnLan(d);
        UnmovedOn(before, heard, if found then trace[..|trace| - 1] else trace);
      }
      if found { Recognised(before, d, ssid); }
      StillJoined(before, ssid);
    }

    lemma Recognised(before: seq<Event>, d: Device, ssid: string)
      requires JustSeen(d.info, d.endpoint) && before <= trace && |before| < |trace|
      requires JoinSeen(before, start, |before|, ssid)
      ensures d.info.state == SAVED ==> SaveSeen(trace, start, |trace|, ssid)
      ensures OnTarget(d.info, ssid) ==> LastReport(trace, start, |trace|, ssid, d.endpoint)
    {
      hide JoinSeen, OnTarget, SaveSeen, LastReport;
      JoinStays(before, trace, start, |before|, |trace| - 1, ssid);
      SeenAgain(d, ssid);
    }

    /** One round of confirming that the network is saved. */
    method ConfirmSaved(d0: Device, ssid: string, ghost p: nat) returns (go: bool, saved: bool, d: Device)
      requires Joined(ssid) && Located(d0) && Holding(d0) && work.stage == Saving && work.joined
      requires Pending(trace, start, p, ssid, false)
      modifies this
      ensures Busy() && start == old(start) && Observed(old(trace), trace)
      ensures go ==> Joined(ssid) && Located(d) && Holding(d) && work.stage == Saving && work.joined
      ensures go && saved ==>
        && OnTarget(d.info, ssid) && SaveSeen(trace, start, |trace|, ssid)
        && LastReport(trace, start, |trace|, ssid, d.endpoint)
      ensures go ==> Pending(trace, start, p, ssid, saved)
      ensures stops >= old(stops) && (!go && stops == old(stops) ==> Concluded())
      ensures work.stage == Saving || work.stage == Stage.Failed
    {
      hide Honest, JoinSeen, CommandOf, WasSeen, SameDevice, OnTarget, Busy, Idle, Ledger, SaveSeen, Joined,
        LastReport, OnHotspot, InHand, JoinedBy;
      saved := false;
      var found;
      ghost var begun := trace;
      found, d := Relocate(d0, ssid);
      ghost var before := trace;
      JoinedStart(ssid);
      JoinedIsBusy(ssid);
      if !found {
        PendingStays(begun, before, start, p, ssid, false);
        go := RequestTarget(p);
        if go {
          StillJoined(before, ssid);
          PendingStays(before, trace, start, p, ssid, false);
        }
        return;
      }
      PendingStays(begun, before[..|before| - 1], start, p, ssid, false);
      go, saved, d := ConfirmHere(d, ssid, p);
    }

    /** The device, just recognised, is asked whether it saved, and to save if it did not. */
    method ConfirmHere(d0: Device, ssid: string, ghost p: nat) returns (go: bool, saved: bool, d: Device)
      requires Joined(ssid) && Located(d0) && Holding(d0) && work.stage == Saving && work.joined
      requires JustSeen(d0.info, d0.endpoint) && InHand(trace).endpoint == Some(d0.endpoint)
      requires Pending(trace[..|trace| - 1], start, p, ssid, false)
      requires d0.info.state == SAVED ==> SaveSeen(trace, start, |trace|, ssid)
      requires OnTarget(d0.info, ssid) ==> LastReport(trace, start, |trace|, ssid, d0.endpoint)
      modifies this
      ensures Busy() && start == old(start) && Observed(old(trace), trace)
      ensures go ==> Joined(ssid) && Located(d) && Holding(d) && work.stage == Saving && work.joined
      ensures go && saved ==>
        && OnTarget(d.info, ssid) && SaveSeen(trace, start, |trace|, ssid)
        && LastReport(trace, start, |trace|, ssid, d.endpoint)
      ensures go ==> Pending(trace, start, p, ssid, saved)
      ensures stops >= old(stops) && (!go && stops == old(stops) ==> Concluded())
      ensures work.stage == Saving || work.stage == Stage.Failed
    {
      hide Honest, JoinSeen, CommandOf, WasSeen, SameDevice, OnTarget, Busy, Idle, Ledger, SaveSeen, Joined,
        LastReport, OnHotspot, InHand, JoinedBy, Reasoned, Unconfirmed, EachAsked;
      d, go, saved := d0, false, false;
      ghost var before := trace;
      JoinedIsBusy(ssid);
      if !OnTarget(d.info, ssid) {
        AwayNow(d.info, p, ssid);
        GiveUpClaim();
        Fail(true);
        return false, false, d;
      }
      saved := NetworkSaved(d, ssid);
      go := true;
      if saved {
        PendingSaved(trace, start, p, ssid, if d.info.state == SAVED then |before| - 1 else |before|);
      } else {
        saved, d := SaveWifi(d, ssid);
        PendingAsked(before, trace, start, p, ssid);
      }
      ReportStays(before, trace, start, ssid, d.endpoint);
      JoinedIsBusy(ssid);
    }

    /** The device, just recognised, is not on the network. */
    lemma AwayNow(info: Info, p: nat, ssid: string)
      requires trace != [] && trace[|trace| - 1].Accepted? && trace[|trace| - 1].info == info && !OnTarget(info, ssid)
      requires ShownAt(trace, start, p, Saving)
      ensures LastAway(trace, |trace|, ssid) && Reasoned(trace, start, |trace|, Saving, true, ssid, hotspotAddress)
    {
      hide OnTarget;
      assert LastContact(trace, |trace| - 1, |trace|);
      AwayReason(trace, start, p, ssid, hotspotAddress);
    }

    method GiveUpClaim()
      requires Busy()
      modifies this`work
      ensures Busy() && work == old(work).(joined := false)
    {
      hide Honest, JoinSeen, CommandOf, OnHotspot, JoinedBy;
      work := work.(joined := false);
    }

    /** Asks the device to save; its answer may update the state it is known by. */
    method SaveWifi(d0: Device, ssid: string) returns (saved: bool, d: Device)
      requires Joined(ssid) && Holding(d0) && InHand(trace).endpoint == Some(d0.endpoint)
      requires d0.info.state != SAVED
      modifies this`trace
      ensures Joined(ssid) && Unseen(old(trace), trace) && Holding(d)
      ensures |trace| > |old(trace)| && trace[|old(trace)|].SaveAsked?
      ensures saved <==> exists k :: |old(trace)| <= k < |trace| && Confirms(trace[k], ssid)
      ensures d == d0.(info := d0.info.(state := d.info.state)) && (OnTarget(d0.info, ssid) ==> OnTarget(d.info, ssid))
      ensures saved ==> SaveSeen(trace, start, |trace|, ssid)
    {
      hide Honest, JoinSeen, CommandOf, OnHotspot, WasSeen, SameDevice, OnTarget, Busy, Idle, Ledger, SaveSeen,
        Joined, InHand, JoinedBy;
      saved, d := false, d0;
      ghost var before := trace;
      var response := Request();
      NoteAsked(d.endpoint, response, ssid);
      ghost var asked := trace;
      if response == Answer(200) {
        d := ReadReply(d, ssid);
        ghost var replied := trace;
        saved := NetworkSaved(d, ssid);
        assert forall k :: |before| <= k < |replied| ==> trace[k] == replied[k];
        if saved {
          ghost var k := if d.info.state == SAVED then |asked| else |replied|;
          assert Confirms(trace[k], ssid);
        }
      }
    }

    /** What the device answers to having been asked to save. */
    method ReadReply(d0: Device, ssid: string) returns (d: Device)
      requires Joined(ssid) && Holding(d0) && InHand(trace).endpoint == Some(d0.endpoint) && d0.info.state != SAVED
      requires trace[|trace| - 1] == SaveAsked(d0.endpoint, Answer(200))
      modifies this`trace
      ensures Joined(ssid) && Holding(d) && InHand(trace).endpoint == Some(d.endpoint)
      ensures d == d0.(info := d0.info.(state := d.info.state)) && (OnTarget(d0.info, ssid) ==> OnTarget(d.info, ssid))
      ensures trace == old(trace) + (if trace == old(trace) then [] else [SaveReply(d.endpoint, d.info.state)])
      ensures d.info.state == SAVED ==> trace != old(trace) && SaveSeen(trace, start, |trace|, ssid)
    {
      hide Honest, JoinSeen, CommandOf, OnHotspot, Busy, Idle, Ledger, SaveSeen, Joined, InHand, JoinedBy;
      d := d0;
      var state := ParseInfo();
      if state.Some? && CONNECTED <= state.value.state <= 64 {
        NoteConfirmation(SaveReply(d.endpoint, state.value.state), ssid);
        d := d.(info := d.info.(state := state.value.state));
      }
    }

    ghost method NoteAsked(endpoint: Endpoint, reply: Reply, ssid: string)
      requires Joined(ssid) && InHand(trace).endpoint == Some(endpoint)
      modifies this`trace
      ensures Joined(ssid) && trace == old(trace) + [SaveAsked(endpoint, reply)] && InHand(trace) == old(InHand(trace))
      ensures SaveSeen(old(trace), start, |old(trace)|, ssid) ==> SaveSeen(trace, start, |trace|, ssid)
    {
      hide Honest, JoinSeen, OnHotspot, SaveSeen, InHand, JoinedBy;
      ghost var before, e := trace, SaveAsked(endpoint, reply);
      assert (trace + [e])[..|trace|] == trace;
      Note(e);
      EvidenceStays(before, trace, start, ssid);
    }

    /** The device joined: confirm that it saved the network and can be reached there. */
    method Finish(d0: Device, ssid: string)
      requires Joined(ssid) && Located(d0) && Holding(d0)
      modifies this
      ensures Busy() && Observed(old(trace), trace)
      ensures stops >= old(stops) && (stops == old(stops) ==> Concluded())
      ensures work.stage == Stage.Done ==> Kept(work.device.info)
    {
      hide Honest, JoinSeen, CommandOf, WasSeen, SameDevice, OnTarget, SaveSeen, OnHotspot, InHand, JoinedBy;
      ghost var before := trace;
      JoinedStart(ssid);
      JoinIsBy(trace, start, ssid);
      work := work.(joined := true, prompt := false, stage := Saving, device := d0);
      Publish();
      StillJoined(before, ssid);
      FinishSaving(d0, ssid, |trace| - 1);
    }

    method FinishSaving(d0: Device, ssid: string, ghost p: nat)
      requires Joined(ssid) && Located(d0) && Holding(d0) && work.stage == Saving && work.joined
      requires p == |trace| - 1 && ShownAt(trace, start, p, Saving)
      modifies this
      ensures Busy() && Observed(old(trace), trace)
      ensures stops >= old(stops) && (stops == old(stops) ==> Concluded())
      ensures work.stage == Stage.Done ==> Kept(work.device.info)
    {
      hide Honest, JoinSeen, CommandOf, WasSeen, SameDevice, OnTarget, Busy, Idle, Ledger, SaveSeen, Joined,
        LastReport, OnHotspot, InHand, JoinedBy;
      var d, saved, go := d0, false, true;
      var attempt := 0;
      JoinedIsBusy(ssid);
      while attempt < 4 && !saved
        invariant stops >= old(stops)
        invariant Joined(ssid) && Located(d) && Holding(d) && work.stage == Saving && work.joined
        invariant Observed(old(trace), trace)
        invariant saved ==> SaveSeen(trace, start, |trace|, ssid) && LastReport(trace, start, |trace|, ssid, d.endpoint)
        invariant Pending(trace, start, p, ssid, saved) && (saved ==> OnTarget(d.info, ssid))
        decreases 4 - attempt
      {
        JoinedIsBusy(ssid);
        var stop := Interrupted();
        var idle := Pause();
        if stop || (attempt > 0 && !idle) { return; }
        go, saved, d := ConfirmSaved(d, ssid, p);
        if !go { return; }
        attempt := attempt + 1;
      }
      JoinedIsBusy(ssid);
      var stop := Interrupted();
      if stop { return; }
      KeepJoined(d.info, ssid);
      if !saved {
        UnconfirmedReason(trace, start, p, ssid, hotspotAddress);
        Fail(true);
        return;
      }
      FinishOnLan(d, ssid, p);
    }

    method KeepJoined(info: Info, ssid: string)
      requires Joined(ssid)
      modifies this`known
      ensures Joined(ssid) && Busy() && known == Remembering(old(known), info, hotspotAddress, addressOf) && Kept(info)
    {
      hide Honest, JoinSeen, CommandOf, OnHotspot, AllStorable, Remembering, Idle, InHand, JoinedBy;
      JoinedIsBusy(ssid);
      Keep(info);
    }

    /** The last step: the device must answer on the target network, away from its hotspot. */
    method FinishOnLan(d0: Device, ssid: string, ghost p: nat)
      requires Joined(ssid) && Located(d0) && Holding(d0) && work.stage == Saving && work.joined
      requires Pending(trace, start, p, ssid, true) && OnTarget(d0.info, ssid)
      requires SaveSeen(trace, start, |trace|, ssid) && LastReport(trace, start, |trace|, ssid, d0.endpoint)
      modifies this
      ensures Busy() && Observed(old(trace), trace)
      ensures stops >= old(stops) && (stops == old(stops) ==> Concluded())
      ensures work.stage == Stage.Done ==> Kept(work.device.info)
    {
      hide Honest, JoinSeen, CommandOf, WasSeen, SameDevice, OnTarget, Busy, Idle, Ledger, SaveSeen, Joined,
        LastReport, OnHotspot, InHand, JoinedBy, LastAway, Pending;
      var d := d0;
      var rounds := Rounds();
      while d.hotspot && rounds > 0
        invariant stops >= old(stops)
        invariant Joined(ssid) && work.stage == Saving && work.joined && Observed(old(trace), trace)
        invariant SaveSeen(trace, start, |trace|, ssid) && Located(d) && Holding(d)
        invariant OnTarget(d.info, ssid) ==> LastReport(trace, start, |trace|, ssid, d.endpoint)
        invariant Pending(trace, start, p, ssid, true) && (OnTarget(d.info, ssid) || LastAway(trace, |trace|, ssid))
        decreases rounds
      {
        rounds := rounds - 1;
        var go, found;
        go, found, d := LookOnLan(d, ssid, p);
        if !go { return; }
        if found { break; }
      }
      FinishThere(d, ssid, p);
    }

    /** The device answers on the network, or it could not be verified there. */
    method FinishThere(d: Device, ssid: string, ghost p: nat)
      requires Joined(ssid) && Located(d) && Holding(d) && work.stage == Saving && work.joined
      requires SaveSeen(trace, start, |trace|, ssid) && Pending(trace, start, p, ssid, true)
      requires if OnTarget(d.info, ssid) then LastReport(trace, start, |trace|, ssid, d.endpoint)
        else LastAway(trace, |trace|, ssid)
      modifies this
      ensures Busy() && Observed(old(trace), trace)
      ensures stops >= old(stops) && (stops == old(stops) ==> Concluded())
      ensures work.stage == Stage.Done ==> Kept(work.device.info)
    {
      hide Honest, JoinSeen, CommandOf, WasSeen, SameDevice, OnTarget, Busy, Idle, Ledger, SaveSeen, Joined,
        LastReport, OnHotspot, InHand, JoinedBy, LastAway, Reasoned, Unconfirmed, EachAsked;
      JoinedIsBusy(ssid);
      var stop := Interrupted();
      if stop { return; }
      if d.hotspot || !OnTarget(d.info, ssid) {
        if OnTarget(d.info, ssid) {
          HotspotReason(trace, start, p, ssid, d.endpoint, hotspotAddress);
        } else {
          AwayReason(trace, start, p, ssid, hotspotAddress);
        }
        Fail(false);
        return;
      }
      KeepJoined(d.info, ssid);
      Announce(d, ssid);
    }

    /** One look for the device on the phone's other networks, asking for the target network when it is not there. */
    method LookOnLan(d0: Device, ssid: string, ghost p: nat) returns (go: bool, found: bool, d: Device)
      requires Pending(trace, start, p, ssid, true) && (OnTarget(d0.info, ssid) || LastAway(trace, |trace|, ssid))
      requires Joined(ssid) && work.stage == Saving && work.joined && SaveSeen(trace, start, |trace|, ssid)
      requires Located(d0) && Holding(d0) && (OnTarget(d0.info, ssid) ==>
        LastReport(trace, start, |trace|, ssid, d0.endpoint))
      modifies this
      ensures Busy() && Observed(old(trace), trace)
      ensures go ==> Joined(ssid) && work.stage == Saving && work.joined && SaveSeen(trace, start, |trace|, ssid)
      ensures go ==>
        Located(d) && Holding(d) && (OnTarget(d.info, ssid) ==> LastReport(trace, start, |trace|, ssid, d.endpoint))
      ensures found ==> !d.hotspot && SameDevice(d.info, d0.info)
      ensures go ==> Pending(trace, start, p, ssid, true) && (OnTarget(d.info, ssid) || LastAway(trace, |trace|, ssid))
      ensures stops >= old(stops) && (!go && stops == old(stops) ==> Concluded())
      ensures work.stage == Saving || work.stage == Stage.Failed
    {
      hide Honest, JoinSeen, CommandOf, WasSeen, SameDevice, OnTarget, Busy, Idle, Ledger, SaveSeen, Joined,
        LastReport, OnHotspot, InHand, JoinedBy;
      go, found, d := false, false, d0;
      JoinedIsBusy(ssid);
      JoinedStart(ssid);
      var stop := Interrupted();
      if stop { return; }
      ghost var before := trace;
      found, d := FindOnLan(d);
      if found {
        StillJoined(before, ssid);
        EvidenceStays(before, trace, start, ssid);
        JoinStays(before, trace, start, |before|, |trace| - 1, ssid);
        SeenAgain(d, ssid);
        ConfirmationStays(before, trace, p, ssid);
        if !OnTarget(d.info, ssid) { AwayNow(d.info, p, ssid); }
        return true, true, d;
      }
      AwayStays(before, trace, ssid);
      PendingStays(before, trace, start, p, ssid, true);
      ghost var looked := trace;
      go := RequestTarget(p);
      if !go { return; }
      PendingStays(looked, trace, start, p, ssid, true);
      AwayStays(looked, trace, ssid);
      StillJoined(before, ssid);
      EvidenceStays(before, trace, start, ssid);
      if OnTarget(d.info, ssid) { ReportStays(before, trace, start, ssid, d.endpoint); }
      go := Pause();
    }

    lemma ConfirmationStays(before: seq<Event>, after: seq<Event>, p: nat, ssid: string)
      requires before <= after && Pending(before, start, p, ssid, true)
      ensures Pending(after, start, p, ssid, true)
    {
      hide Confirms;
    }

    lemma AwayStays(before: seq<Event>, after: seq<Event>, ssid: string)
      requires Unmoved(before, after)
      ensures LastAway(before, |before|, ssid) ==> LastAway(after, |after|, ssid)
    {
      hide OnTarget;
      if LastAway(before, |before|, ssid) {
        var k :| 0 <= k && LastContact(before, k, |before|) && !OnTarget(before[k].info, ssid);
        assert LastContact(after, k, |after|);
      }
    }

    /** Success is told, with nothing held. */
    method Announce(d: Device, ssid: string)
      requires Joined(ssid) && work.joined && !d.hotspot && Located(d) && Holding(d)
      requires SaveSeen(trace, start, |trace|, ssid) && LastReport(trace, start, |trace|, ssid, d.endpoint)
      modifies this
      ensures Busy() && Observed(old(trace), trace)
      ensures work == old(work).(prompt := false, device := d, stage := Stage.Done)
      ensures trace[|trace| - 1] == Published(work, {}, start)
      ensures stops == old(stops)
      ensures Concluded()
      ensures known == old(known)
    {
      hide Honest, JoinSeen, SaveSeen, LastReport, OnHotspot, InHand, JoinedBy;
      ghost var before := trace;
      BusyIsIdle();
      ReleaseRequests();
      EvidenceStays(before, trace, start, ssid);
      ReportStays(before, trace, start, ssid, d.endpoint);
      work := work.(device := d, stage := Stage.Done);
      Publish();
    }

    /** Moves the open device to one of the networks it sees. */
    method RunJoin(index: int, password: string)
      requires Idle()
      modifies this
      ensures Idle() && old(trace) <= trace
      ensures !(0 <= index < |old(work).networks|) ==> trace == old(trace) && work == old(work)
      ensures 0 <= index < |old(work).networks| ==>
        var join := Join(old(work).networks[index], password);
        && |trace| > |old(trace)| && trace[|old(trace)|] == Started(Some(join), old(work).device.info)
        && (WentOut(trace, |old(trace)|) || Refused(trace, |old(trace)|, join))
      ensures stops >= old(stops) && (0 <= index < |old(work).networks| && stops == old(stops) ==> Concluded())
    {
      hide Honest, JoinSeen, CommandOf, OnHotspot, InHand, JoinedBy, WentOut, Refused, Supported, NeedsPassword,
        ValidPassphrase, Busy, Idle, Ledger, Trying, LeftSeen;
      if index < 0 || index >= |work.networks| { return; }
      var target, d := work.networks[index], work.device;
      ghost var join := Join(target, password);
      BeginJoin(target, join);
      TryingIsBusy(target.ssid);
      ghost var begun := trace[..start + 1];
      BusyIsIdle();
      if !Supported(target) {
        Fail(false);
        FailureRefuses(trace, begun, start, join);
        BusyIsIdle();
        return;
      }
      if NeedsPassword(target) && !ValidPassphrase(password) {
        Fail(true);
        FailureRefuses(trace, begun, start, join);
        BusyIsIdle();
        return;
      }
      SendNetwork(d, target.ssid, join);
      BusyIsIdle();
    }

    /** A join begins: the device shown is the one to be sent the network. */
    method BeginJoin(target: WifiNetwork, ghost join: Join)
      requires Idle() && join.network == target && work.networks != []
      modifies this
      ensures Trying(target.ssid) && old(trace) <= trace && start == |old(trace)| &&
        JustBegun(join, old(work).device.info)
      ensures InHand(trace) == Hand(old(work).device.info, None, false, Some(join)) && Located(old(work).device)
      ensures work == old(work).(target := target.ssid, retry := false, joined := false, stage := Sending)
      ensures stops == old(stops)
    {
      hide Honest, JoinSeen, CommandOf, OnHotspot, InHand, JoinedBy, LeftSeen, JoinFailed;
      var d := work.device;
      work := work.(target := target.ssid, retry := false, joined := false, stage := Sending);
      Begin(Some(join), d.info);
      Publish();
    }

    /** A join of this network is under way. */
    ghost predicate Trying(ssid: string)
      reads `held, `hotspotRequest, `targetRequest, `nextRequest, `trace, `known, `work, `start
    {
      Busy() && Joins(trace[start], ssid) && !work.joined
    }

    /** The network has been sent to the device. */
    ghost predicate Awaiting(ssid: string)
      reads `held, `hotspotRequest, `targetRequest, `nextRequest, `trace, `known, `work, `start
    {
      Trying(ssid) && SentBefore(trace, start, |trace|)
    }

    lemma TryingIsBusy(ssid: string)
      requires Trying(ssid)
      ensures Busy() && Idle() && start < |trace| && Joins(trace[start], ssid) && work.target == ssid && !work.joined
    {
    }

    lemma AwaitingIsBusy(ssid: string)
      requires Awaiting(ssid)
      ensures Busy() && Idle() && start < |trace| && Joins(trace[start], ssid) && work.target == ssid && !work.joined
      ensures SentBefore(trace, start, |trace|)
    {
    }

    lemma StillAwaiting(before: seq<Event>, ssid: string)
      requires Busy() && Observed(before, trace) && start < |before| && Joins(before[start], ssid) && !work.joined
      requires SentBefore(before, start, |before|)
      ensures Awaiting(ssid)
    {
      hide Honest, JoinSeen, SaveSeen, OnHotspot, JoinedBy;
      var s :| start < s < |before| && before[s].Sent?;
      assert trace[s].Sent?;
    }

    /** The device, just recognised, says it is on the network that it was sent. */
    lemma ReportJoins(before: seq<Event>, d: Device, ssid: string)
      requires Busy() && Observed(before, trace) && |before| < |trace| && start < |before| && Joins(before[start], ssid)
      requires SentBefore(before, start, |before|) && JustSeen(d.info, d.endpoint) && OnTarget(d.info, ssid)
      ensures Joined(ssid)
    {
      hide Honest, OnHotspot, OnTarget, JoinedBy;
      var s :| start < s < |before| && before[s].Sent?;
      var last := |trace| - 1;
      assert trace[s].Sent?;
      assert JoinReport(trace, start, last, ssid);
    }

    ghost predicate FailedSending(retry: bool)
      reads `held, `hotspotRequest, `targetRequest, `nextRequest, `trace, `known, `work, `start
    {
      && |trace| > 0 && trace[|trace| - 1] == Published(work, {}, start)
      && work.stage == Stage.Failed && work.failed == Sending && work.retry == retry
    }

    /** Nothing but a stranger's answer, if any, was heard, and the command failed. */
    ghost predicate SentNothing(before: seq<Event>, device: Info)
      reads `held, `hotspotRequest, `targetRequest, `nextRequest, `trace, `known, `work, `start
    {
      var n := |before|;
      && n + 1 < |trace| && before <= trace && Tail(trace, n + 1) && FailedSending(false)
      && !trace[n].Sent? && !trace[n].Accepted? &&
        (trace[n].Saw? ==> Identified(device) && !SameDevice(trace[n].info, device))
    }

    /** Reads the device in hand once more. */
    method ReadAgain(d0: Device, ssid: string) returns (ok: bool, d: Device)
      requires Trying(ssid) && Located(d0) && Holding(d0) && !InHand(trace).sent && work.stage == Sending
      modifies this
      ensures Busy() && Observed(old(trace), trace) && start == old(start)
      ensures InHand(trace).join == old(InHand(trace)).join && !InHand(trace).sent
      ensures ok ==>
        Trying(ssid) && Located(d) && Holding(d) && trace[|trace| - 1] == Accepted(d.info, d0.info, d.endpoint)
      ensures ok ==> SameDevice(d.info, d0.info) || !Identified(d0.info)
      ensures ok ==> work.stage == Sending && InHand(trace).endpoint == Some(d.endpoint)
      ensures ok ==> trace == old(trace) + [Saw(d.info, d.endpoint), Accepted(d.info, d0.info, d.endpoint)]
      ensures !ok ==> SentNothing(old(trace), d0.info)
      ensures stops == old(stops)
      ensures !ok ==> Concluded()
    {
      hide Honest, JoinSeen, CommandOf, OnHotspot, SameDevice, Identified, WasSeen, SaveSeen, Busy, Idle, Ledger,
        OnTarget, InHand, JoinedBy;
      TryingIsBusy(ssid);
      d := d0;
      var info, e := ReadInfo(d.endpoint);
      if info.None? || (Identified(d.info) && !SameDevice(info.value, d.info)) {
        ghost var before := trace;
        Fail(false);
        return false, d;
      }
      Accept(info.value, info.value, d.info, e);
      return true, d.(info := info.value, endpoint := e);
    }

    lemma StillTrying(before: seq<Event>, ssid: string)
      requires Busy() && Observed(before, trace) && start < |before| && Joins(before[start], ssid) && !work.joined
      ensures Trying(ssid)
    {
    }

    /** The command has just begun: its first snapshot is all there is of it. */
    ghost predicate JustBegun(join: Join, device: Info)
      reads this`trace, this`start
    {
      |trace| == start + 2 && trace[start] == Started(Some(join), device) && trace[start + 1].Published?
    }

    /** Reads the device once more and sends it the network. */
    method SendNetwork(d0: Device, ssid: string, ghost join: Join)
      requires Trying(ssid) && Located(d0) && Holding(d0) && !InHand(trace).sent && work.stage == Sending
      requires InHand(trace).join == Some(join) && Sendable(Some(join)) && JustBegun(join, d0.info)
      modifies this
      ensures Busy() && Observed(old(trace), trace) && start == old(start)
      ensures WentOut(trace, start) || Refused(trace, start, join)
      ensures stops >= old(stops) && (stops == old(stops) ==> Concluded())
    {
      hide Honest, JoinSeen, CommandOf, OnHotspot, SameDevice, Identified, WasSeen, SaveSeen, Busy, Idle, Ledger,
        OnTarget,
        Trying, InHand, JoinedBy, Supported, NeedsPassword, ValidPassphrase, WentOut, Refused, LeftSeen;
      ghost var begun := trace;
      TryingIsBusy(ssid);
      var ok, d := ReadAgain(d0, ssid);
      if !ok {
        FailureRefuses(trace, trace[..start + 3], start, join);
        return;
      }
      var encrypted := Encrypt(d, ssid);
      if !encrypted {
        FailureRefuses(trace, trace[..start + 5], start, join);
        return;
      }
      SendEncrypted(d, ssid, join);
    }

    /** Encrypts the password for the device. */
    method Encrypt(d: Device, ssid: string) returns (ok: bool)
      requires Trying(ssid) && work.stage == Sending
      modifies this
      ensures Busy() && Observed(old(trace), trace) && start == old(start) && InHand(trace) == old(InHand(trace))
      ensures |trace| > |old(trace)| && trace[|old(trace)|] == Encrypted(ok)
      ensures ok ==> Trying(ssid) && work == old(work) && trace == old(trace) + [Encrypted(true)]
      ensures !ok ==> FailedSending(false) && Tail(trace, |old(trace)| + 1)
      ensures stops == old(stops)
      ensures !ok ==> Concluded()
    {
      hide Honest, JoinSeen, CommandOf, OnHotspot, SaveSeen, Busy, Idle, Ledger, Trying, InHand, JoinedBy, LeftSeen;
      TryingIsBusy(ssid);
      ghost var before := trace;
      ok := *;
      Note(Encrypted(ok));
      StillTrying(before, ssid);
      if !ok { Fail(false); }
    }

    /** Posts the network; one that the device would not take while keeping its hotspot is posted again without that. */
    method SendEncrypted(d: Device, ssid: string, ghost join: Join)
      requires Trying(ssid) && Located(d) && Holding(d) && !InHand(trace).sent && work.stage == Sending
      requires InHand(trace).endpoint == Some(d.endpoint) && InHand(trace).join == Some(join) && Sendable(Some(join))
      requires !trace[|trace| - 1].Posted?
      modifies this
      ensures Busy() && Observed(old(trace), trace) && start == old(start)
      ensures WentOut(trace, start) || Refused(trace, start, join)
      ensures stops >= old(stops) && (stops == old(stops) ==> Concluded())
    {
      hide Honest, JoinSeen, CommandOf, OnHotspot, SameDevice, Identified, WasSeen, SaveSeen, Busy, Idle, Ledger,
        OnTarget,
        Trying, InHand, JoinedBy, Supported, NeedsPassword, ValidPassphrase, WentOut, Refused, LeftSeen;
      TryingIsBusy(ssid);
      BusySorted();
      NotLeftYet(trace, start);
      var reply := PostTwice(d, ssid);
      ghost var posted := trace;
      TryingIsBusy(ssid);
      if (reply.Answer? && reply.status != 200) || (reply.Lost? && !reply.sent) {
        Fail(false);
        FailureRefuses(trace, posted, start, join);
        return;
      }
      BusySorted();
      NotLeftYet(trace, start);
      NoteSent(d.endpoint, ssid, reply.Lost?);
      ghost var sent := trace;
      AwaitingIsBusy(ssid);
      BusySorted();
      AwaitJoin(d, ssid, reply.Lost?);
      BusySorted();
      SameCommand(sent, trace, old(start), start);
      WentOutAt(trace, start, |posted|);
    }

    method PostTwice(d: Device, ssid: string) returns (reply: Reply)
      requires Trying(ssid) && Located(d) && Holding(d) && !InHand(trace).sent
      requires InHand(trace).endpoint == Some(d.endpoint) && Sendable(InHand(trace).join) && !trace[|trace| - 1].Posted?
      modifies this`trace
      ensures Trying(ssid) && Unmoved(old(trace), trace) && InHand(trace) == old(InHand(trace))
      ensures |trace| > |old(trace)| && trace[|trace| - 1].Posted? && trace[|trace| - 1].endpoint == d.endpoint
      ensures trace[|trace| - 1].reply == reply
    {
      hide Honest, JoinSeen, CommandOf, OnHotspot, SaveSeen, Busy, Idle, Ledger, Trying, InHand, JoinedBy, Sendable;
      TryingIsBusy(ssid);
      ghost var before := trace;
      var keep := d.hotspot && d.info.keepsHotspot;
      reply := Request();
      NotePosted(d.endpoint, keep, reply);
      if reply == Answer(400) && keep {
        reply := Request();
        NotePosted(d.endpoint, false, reply);
      }
      StillTrying(before, ssid);
    }

    /** The network was posted, keeping the hotspot up if it is the device's own and it can. */
    ghost method NotePosted(endpoint: Endpoint, keep: bool, reply: Reply)
      requires Busy() && InHand(trace).endpoint == Some(endpoint) && !InHand(trace).sent && Sendable(InHand(trace).join)
      requires if trace[|trace| - 1].Posted? then !keep && trace[|trace| - 1].keep &&
        trace[|trace| - 1].reply == Answer(400)
        else keep <==> OnHotspot(endpoint.network, hotspotAddress) && InHand(trace).info.keepsHotspot
      modifies this`trace
      ensures Busy() && trace == old(trace) + [Posted(endpoint, keep, reply)] && InHand(trace) == old(InHand(trace))
    {
      hide Honest, JoinSeen, SaveSeen, OnHotspot, JoinedBy, InHand, Sendable;
      assert (trace + [Posted(endpoint, keep, reply)])[..|trace|] == trace;
      Note(Posted(endpoint, keep, reply));
    }

    /** The network went out to the device in hand. */
    ghost method NoteSent(endpoint: Endpoint, ssid: string, lost: bool)
      requires Trying(ssid) && InHand(trace).endpoint == Some(endpoint) && Sendable(InHand(trace).join)
      requires !LeftSeen(trace, start, |trace|)
      requires trace[|trace| - 1].Posted? && trace[|trace| - 1].endpoint == endpoint &&
        Delivers(trace[|trace| - 1].reply, lost)
      modifies this`trace
      ensures Awaiting(ssid) && trace == old(trace) + [Sent(endpoint, lost)] &&
        InHand(trace).info == old(InHand(trace).info)
      ensures LeftSeen(trace, start, |trace|) <==> lost
    {
      hide Honest, JoinSeen, SaveSeen, OnHotspot, InHand, JoinedBy, Sendable, LeftSeen;
      ghost var before, e := trace, Sent(endpoint, lost);
      assert (trace + [e])[..|trace|] == trace;
      Note(e);
      assert trace[|trace| - 1].Sent?;
      LeftGrows(before, e, start);
    }

    /** Watches the device join; a dropped connection only means it must be looked for elsewhere. */
    method AwaitJoin(d0: Device, ssid: string, sentLost: bool)
      requires Awaiting(ssid) && Located(d0) && Holding(d0) && trace[|trace| - 1].Sent?
      requires LeftSeen(trace, start, |trace|) <==> sentLost
      modifies this
      ensures Busy() && Observed(old(trace), trace)
      ensures |trace| > |old(trace)| && IsJoining(trace[|old(trace)|])
      ensures stops >= old(stops) && (stops == old(stops) ==> Concluded())
    {
      hide Honest, JoinSeen, CommandOf, OnHotspot, SameDevice, WasSeen, SaveSeen, OnTarget, Busy, Idle, Ledger,
        Awaiting,
        FailedState, InHand, JoinedBy, LeftSeen, JoinFailed;
      var d, left, misses := d0, sentLost, 0;
      AwaitingIsBusy(ssid);
      BusySorted();
      ghost var before := trace;
      TellJoining(d, ssid);
      var rounds := Rounds();
      while rounds > 0
        invariant stops >= old(stops)
        invariant Awaiting(ssid) && Located(d) && Holding(d) && Observed(old(trace), trace) && work.stage == Joining
        invariant |trace| > |before| && IsJoining(trace[|before|])
        invariant left <==> LeftSeen(trace, start, |trace|)
      {
        rounds := rounds - 1;
        AwaitingIsBusy(ssid);
        var idle := Pause();
        if !idle { return; }
        var answered, same, ended;
        answered, same, ended, d := WatchJoin(d, ssid);
        if ended { return; }
        if !answered {
          left, misses := true, misses + 1;
          if misses >= 3 { break; }
        } else {
          misses := 0;
          if same && 20 <= d.info.state < CONNECTED { left := true; }
        }
      }
      AwaitingIsBusy(ssid);
      if !left {
        assert JoinFailed(trace, start, |trace|, true) by { StayedFails(trace, start); }
        Fail(true);
        return;
      }
      FindJoined(d, ssid);
    }

    method TellJoining(d: Device, ssid: string)
      requires Awaiting(ssid) && Located(d) && Holding(d) && trace[|trace| - 1].Sent?
      modifies this`work, this`trace
      ensures Awaiting(ssid) && Holding(d) && work.stage == Joining && InHand(trace) == old(InHand(trace))
      ensures LeftSeen(trace, start, |trace|) <==> old(LeftSeen(trace, start, |trace|))
      ensures |trace| == |old(trace)| + 1 && old(trace) <= trace && IsJoining(trace[|old(trace)|])
    {
      hide Honest, JoinSeen, CommandOf, OnHotspot, SaveSeen, Busy, Idle, Ledger, Awaiting, InHand, JoinedBy,
        LeftSeen, JoinFailed;
      AwaitingIsBusy(ssid);
      BusySorted();
      ghost var before := trace;
      Show(work.(stage := Joining, device := d));
      BusySorted();
      Publish();
      StillAwaiting(before, ssid);
      LeftAside(before, trace, start);
    }

    /** What says that the device left, when the network has been sent. */
    lemma SignsAre(before: seq<Event>)
      requires Busy() && |trace| == |before| + 1 && before <= trace && start < |before| &&
        SentBefore(before, start, |before|)
      ensures !trace[|before|].Sent? ==> (SaysLeft(trace, start, |before|) <==>
        trace[|before|].Silent? || (trace[|before|].Accepted? && 20 <= trace[|before|].info.state < CONNECTED))
    {
      hide Honest, JoinSeen, SaveSeen, OnHotspot, JoinedBy;
      var s :| start < s < |before| && before[s].Sent?;
      assert trace[s].Sent?;
    }

    /** The device, just recognised, says that it failed. */
    lemma FailureNow(retry: bool)
      requires Busy() && SentBefore(trace, start, |trace| - 1) && trace[|trace| - 1].Accepted? && start < |trace| - 1
      requires FailedState(trace[|trace| - 1].info.state)
      requires retry <==>
        trace[|trace| - 1].info.state == WRONG_PASSWORD || trace[|trace| - 1].info.state == WRONG_PASSWORD + 1
      ensures JoinFailed(trace, start, |trace|, retry)
    {
      hide Honest, JoinSeen, SaveSeen, OnHotspot, JoinedBy, FailedState, LeftSeen;
      assert LastContact(trace, |trace| - 1, |trace|) && ReportsFailure(trace, start, |trace| - 1, retry);
    }

    /** One look at the device while it joins; ended when its own report settled the command. */
    method WatchJoin(d0: Device, ssid: string) returns (answered: bool, same: bool, ended: bool, d: Device)
      requires Awaiting(ssid) && Located(d0) && Holding(d0) && work.stage == Joining
      modifies this
      ensures Busy() && Observed(old(trace), trace)
      ensures !ended ==> Awaiting(ssid) && Located(d) && Holding(d) && work == old(work)
      ensures !ended ==> (LeftSeen(trace, start, |trace|) <==>
        LeftSeen(old(trace), old(start), |old(trace)|) || !answered || (same && 20 <= d.info.state < CONNECTED))
      ensures ended <==> answered && same && (FailedState(d.info.state) || OnTarget(d.info, ssid))
      ensures same ==> SameDevice(d.info, d0.info)
      ensures !answered || !same ==> d == d0
      ensures stops >= old(stops) && (ended && stops == old(stops) ==> Concluded())
    {
      hide Honest, JoinSeen, CommandOf, OnHotspot, SameDevice, WasSeen, SaveSeen, OnTarget, Busy, Idle, Ledger,
        Awaiting,
        FailedState, InHand, JoinedBy, LeftSeen, JoinFailed;
      d, same, ended := d0, false, false;
      AwaitingIsBusy(ssid);
      ghost var before := trace;
      var info, e := ReadInfo(d.endpoint);
      answered := info.Some?;
      LeftGrows(before, trace[|before|], start);
      SignsAre(before);
      StillAwaiting(before, ssid);
      if answered && SameDevice(info.value, d.info) {
        same := true;
        ended, d := Heard(d, info.value, e, ssid);
      }
    }

    /** What the device itself says while it joins. */
    method Heard(d0: Device, info: Info, e: Endpoint, ssid: string) returns (ended: bool, d: Device)
      requires Awaiting(ssid) && Located(d0) && Holding(d0) && work.stage == Joining && SameDevice(info, d0.info)
      requires WasSeen(trace, |trace|, info, e) &&
        OnHotspot(e.network, hotspotAddress) == OnHotspot(d0.endpoint.network, hotspotAddress)
      modifies this
      ensures Busy() && Observed(old(trace), trace) && d == d0.(info := info, endpoint := e)
      ensures !ended ==> Awaiting(ssid) && Located(d) && Holding(d) && work == old(work)
      ensures !ended ==> (LeftSeen(trace, start, |trace|) <==>
        LeftSeen(old(trace), old(start), |old(trace)|) || 20 <= info.state < CONNECTED)
      ensures ended <==> FailedState(info.state) || OnTarget(info, ssid)
      ensures stops >= old(stops) && (ended && stops == old(stops) ==> Concluded())
    {
      hide Honest, JoinSeen, CommandOf, OnHotspot, SameDevice, WasSeen, SaveSeen, OnTarget, Busy, Idle, Ledger,
        Awaiting,
        FailedState, InHand, JoinedBy, LeftSeen, JoinFailed;
      AwaitingIsBusy(ssid);
      ghost var before := trace;
      Accept(info, info, d0.info, e);
      LeftGrows(before, trace[|before|], start);
      SignsAre(before);
      d, ended := d0.(info := info, endpoint := e), false;
      if FailedState(info.state) {
        FailureNow(info.state == WRONG_PASSWORD || info.state == WRONG_PASSWORD + 1);
        Fail(info.state == WRONG_PASSWORD || info.state == WRONG_PASSWORD + 1);
        ended := true;
        return;
      }
      if OnTarget(info, ssid) {
        ReportJoins(before, d, ssid);
        Finish(d, ssid);
        ended := true;
        return;
      }
      StillAwaiting(before, ssid);
    }

    /** The device left its hotspot; looks for it on the phone's other networks. */
    method FindJoined(d0: Device, ssid: string)
      requires Awaiting(ssid) && Holding(d0) && LeftSeen(trace, start, |trace|)
      modifies this
      ensures Busy() && Observed(old(trace), trace)
      ensures stops >= old(stops) && (stops == old(stops) ==> Concluded())
    {
      hide Honest, JoinSeen, CommandOf, OnHotspot, SameDevice, WasSeen, SaveSeen, OnTarget, Busy, Idle, Ledger,
        Awaiting, InHand, JoinedBy, LeftSeen;
      AwaitingIsBusy(ssid);
      ghost var before := trace;
      TellFinding(ssid);
      ghost var p: nat := |trace| - 1;
      var rounds := Rounds();
      while rounds > 0
        invariant stops >= old(stops) && Observed(old(trace), trace)
        invariant Awaiting(ssid) && Holding(d0) && work.stage == Finding && LeftSeen(trace, start, |trace|)
        invariant ShownAt(trace, start, p, Finding) && NoneSince(trace, p)
      {
        rounds := rounds - 1;
        var go := FindRound(d0, ssid, p);
        if !go { return; }
      }
      AwaitingIsBusy(ssid);
      NotFoundReason(trace, start, p, ssid, hotspotAddress);
      Fail(false);
    }

    /** One look and, late enough, asking for the target network. */
    method FindRound(d: Device, ssid: string, ghost p: nat) returns (go: bool)
      requires Awaiting(ssid) && Holding(d) && work.stage == Finding && LeftSeen(trace, start, |trace|)
      requires ShownAt(trace, start, p, Finding) && NoneSince(trace, p)
      modifies this
      ensures Busy() && Observed(old(trace), trace)
      ensures go ==> Awaiting(ssid) && Holding(d) && work.stage == Finding && LeftSeen(trace, start, |trace|)
      ensures go ==> ShownAt(trace, start, p, Finding) && NoneSince(trace, p)
      ensures stops >= old(stops) && (!go && stops == old(stops) ==> Concluded())
    {
      hide Honest, JoinSeen, CommandOf, OnHotspot, SameDevice, WasSeen, SaveSeen, OnTarget, Busy, Idle, Ledger,
        Awaiting,
        InHand, JoinedBy, LeftSeen;
      ghost var here := trace;
      var ended := LookForJoined(d, ssid, p);
      if ended { return false; }
      AwaitingIsBusy(ssid);
      LeftStays(here, trace, start);
      ghost var before := trace;
      go := true;
      var late: bool := *;
      if targetRequest < 0 && late {
        go := RequestTarget(p);
        if !go { return; }
      }
      StillAwaiting(before, ssid);
      LeftStays(before, trace, start);
      go := Pause();
    }

    method TellFinding(ssid: string)
      requires Awaiting(ssid) && LeftSeen(trace, start, |trace|)
      modifies this`held, this`hotspotRequest, this`work, this`trace
      ensures Awaiting(ssid) && work.stage == Finding && LeftSeen(trace, start, |trace|)
      ensures trace != [] && ShownAt(trace, start, |trace| - 1, Finding)
      ensures Unmoved(old(trace), trace) && InHand(trace) == old(InHand(trace))
    {
      hide Honest, JoinSeen, CommandOf, OnHotspot, SaveSeen, Busy, Idle, Ledger, Awaiting, InHand, JoinedBy,
        LeftSeen, JoinFailed;
      AwaitingIsBusy(ssid);
      ghost var before := trace;
      DropHotspot();
      LeftStays(before, trace, start);
      BusySorted();
      Show(work.(stage := Finding));
      BusySorted();
      Publish();
      StillAwaiting(before, ssid);
      LeftStays(before, trace, start);
    }

    /** One look for the device on every network but its hotspot; true when that settled the command. */
    method LookForJoined(d: Device, ssid: string, ghost p: nat) returns (ended: bool)
      requires Awaiting(ssid) && work.stage == Finding && Holding(d)
      requires ShownAt(trace, start, p, Finding) && NoneSince(trace, p)
      modifies this
      ensures Busy() && Observed(old(trace), trace)
      ensures !ended ==> Awaiting(ssid) && work.stage == Finding && Holding(d) && start == old(start)
      ensures !ended ==> Unmoved(old(trace), trace)
      ensures !ended && stops == old(stops) ==> Absent(old(trace), trace, Settling(d.info, ssid), hotspotAddress)
      ensures stops >= old(stops) && (ended && stops == old(stops) ==> Concluded())
    {
      hide Honest, JoinSeen, CommandOf, OnHotspot, SameDevice, WasSeen, SaveSeen, OnTarget, Busy, Idle, Ledger,
        Awaiting, InHand, JoinedBy, Settling, LookedThrough, LookedOn;
      AwaitingIsBusy(ssid);
      ghost var begun := trace;
      var networks := ListNetworks();
      StillAwaiting(begun, ssid);
      LookNothing(trace, networks, Settling(d.info, ssid), hotspotAddress);
      for i := 0 to |networks|
        invariant stops >= old(stops) && begun + [Attached(networks)] <= trace
        invariant Awaiting(ssid) && Holding(d) && work.stage == Finding
        invariant Unmoved(old(trace), trace) && start == old(start)
        invariant stops == old(stops) ==>
          LookedThrough(trace, |begun| + 1, networks, i, Settling(d.info, ssid), hotspotAddress)
      {
        AwaitingIsBusy(ssid);
        var stop := Interrupted();
        if stop { return true; }
        ghost var before := trace;
        if !OnHotspot(networks[i], hotspotAddress) {
          ended := LookOn(networks[i], d, ssid, p);
          if ended { return; }
        }
        if stops == old(stops) {
          LookOneMore(before, trace, |begun| + 1, networks, i, Settling(d.info, ssid), hotspotAddress);
        }
      }
      AwaitingIsBusy(ssid);
      return false;
    }

    /** The device's own report, answered since a moment, that it joined, failed or went elsewhere. */
    static ghost predicate Settles(t: seq<Event>, from: nat, k: nat, previous: Info, ssid: string) {
      && from < k < |t| && t[k].Accepted? && t[k].previous == previous
      && (exists j :: from <= j < k && KeptFrom(t[k], t[j]))
      && (OnTarget(t[k].info, ssid) || FailedState(t[k].info.state) ||
        (t[k].info.ssid != "" && t[k].info.state >= CONNECTED))
    }

    /** One look on one network; only the device's own report ends it. */
    method LookOn(n: PhoneNetwork, d: Device, ssid: string, ghost p: nat) returns (ended: bool)
      requires Awaiting(ssid) && work.stage == Finding && Holding(d)
      requires ShownAt(trace, start, p, Finding) && NoneSince(trace, p)
      modifies this
      ensures Busy() && Observed(old(trace), trace)
      ensures !ended ==> Awaiting(ssid) && work.stage == Finding && Holding(d) && start == old(start)
      ensures !ended ==> Unmoved(old(trace), trace)
      ensures ended ==> exists k: nat :: Settles(trace, |old(trace)|, k, d.info, ssid)
      ensures !ended && stops == old(stops) ==>
        LookedOn(trace, |old(trace)|, n, Settling(d.info, ssid), hotspotAddress)
      ensures stops >= old(stops) && (ended && stops == old(stops) ==> Concluded())
    {
      hide Honest, JoinSeen, CommandOf, OnHotspot, SameDevice, WasSeen, SaveSeen, OnTarget, Busy, Idle, Ledger,
        Awaiting, FailedState, InHand, JoinedBy, SeenSince, Gathered, NetworkAsked, WentElsewhere;
      AwaitingIsBusy(ssid);
      ghost var before := trace;
      var devices := FindDevices(n);
      ghost var looked, count := trace, stops;
      StillAwaiting(before, ssid);
      FoundStays(devices, trace, trace, |before|, |before|, hotspotAddress);
      for k := 0 to |devices|
        invariant stops >= count
        invariant Awaiting(ssid) && work.stage == Finding && Holding(d) && start == old(start)
        invariant Unmoved(before, trace) && AllFound(devices, trace, |before|, hotspotAddress)
        invariant trace == looked && forall x <- devices[..k] :: !Settling(d.info, ssid)(x.info)
      {
        if SameDevice(devices[k].info, d.info) {
          ended := Settle(devices[k], d, ssid, before, p);
          if ended { return; }
        }
      }
      assert devices[..|devices|] == devices;
      AwaitingIsBusy(ssid);
      return false;
    }

    static lemma ElsewhereIs(info: Info, ssid: string)
      ensures WentElsewhere(info, ssid) <==>
        !OnTarget(info, ssid) && (FailedState(info.state) || (info.ssid != "" && info.state >= CONNECTED))
    {
    }

    /** What the device that was found says, if that ends the search. */
    method Settle(found: Device, d: Device, ssid: string, ghost before: seq<Event>, ghost p: nat) returns (ended: bool)
      requires Awaiting(ssid) && work.stage == Finding && Holding(d) && Unmoved(before, trace) &&
        SameDevice(found.info, d.info)
      requires ShownAt(trace, start, p, Finding)
      requires AllFound([found], trace, |before|, hotspotAddress)
      modifies this
      ensures Busy() && Observed(old(trace), trace)
      ensures !ended ==> trace == old(trace) && work == old(work) && start == old(start)
      ensures ended <==> OnTarget(found.info, ssid) || WentElsewhere(found.info, ssid)
      ensures !ended ==> Awaiting(ssid) && Holding(d)
      ensures ended ==> exists k: nat :: Settles(trace, |before|, k, d.info, ssid)
      ensures stops >= old(stops) && (ended && stops == old(stops) ==> Concluded())
    {
      hide Honest, JoinSeen, CommandOf, OnHotspot, SameDevice, WasSeen, SaveSeen, OnTarget, Busy, Idle, Ledger,
        Awaiting, FailedState, InHand, JoinedBy, SeenSince, WentElsewhere, Reasoned;
      AwaitingIsBusy(ssid);
      ghost var here := trace;
      assert AllFound([found], trace, |before|, hotspotAddress) && [found][0] == found;
      SeenIsFresh(before, trace, found.info, found.endpoint);
      if OnTarget(found.info, ssid) {
        var kept := found.(info := found.info.(publicKey := d.info.publicKey));
        KeyKept(found.info, d.info, ssid);
        Accept(found.info, kept.info, d.info, kept.endpoint);
        SettledNow(here, |before|, found.info, d.info, ssid);
        ReportJoins(here, kept, ssid);
        ghost var settled := trace;
        Finish(kept, ssid);
        SettledStays(settled, trace, |before|, |here|, d.info, ssid);
        return true;
      }
      ElsewhereIs(found.info, ssid);
      if FailedState(found.info.state) || (found.info.ssid != "" && found.info.state >= CONNECTED) {
        Accept(found.info, found.info, d.info, found.endpoint);
        SettledNow(here, |before|, found.info, d.info, ssid);
        ghost var settled := trace;
        ElsewhereReason(trace, start, p, ssid, hotspotAddress);
        Fail(true);
        SettledStays(settled, trace, |before|, |here|, d.info, ssid);
        return true;
      }
      return false;
    }

    lemma SettledNow(before: seq<Event>, from: nat, raw: Info, previous: Info, ssid: string)
      requires |trace| == |before| + 1 && before <= trace && trace[|before|].Accepted? &&
        trace[|before|].previous == previous
      requires SeenSince(before, from, raw, trace[|before|].endpoint)
      requires KeptFrom(trace[|before|], Saw(raw, trace[|before|].endpoint))
      requires OnTarget(raw, ssid) || FailedState(raw.state) || (raw.ssid != "" && raw.state >= CONNECTED)
      ensures Settles(trace, from, |before|, previous, ssid)
    {
    }

    static lemma SettledStays(t: seq<Event>, longer: seq<Event>, from: nat, k: nat, previous: Info, ssid: string)
      requires t <= longer && Settles(t, from, k, previous, ssid)
      ensures Settles(longer, from, k, previous, ssid)
    {
      hide OnTarget, FailedState;
      var j :| from <= j < k && KeptFrom(t[k], t[j]);
      assert longer[j] == t[j] && longer[k] == t[k];
    }

    /** The key known before changes neither what the device is nor what it says. */
    static lemma KeyKept(info: Info, previous: Info, ssid: string)
      requires SameDevice(info, previous)
      ensures var kept := info.(publicKey := previous.publicKey);
        SameDevice(kept, previous) && (OnTarget(info, ssid) ==> OnTarget(kept, ssid))
    {
    }

    /** Opens a listed device, or one never seen. */
    method RunOpen(index: int)
      requires Idle()
      modifies this
      ensures Idle() && old(trace) <= trace
      ensures stops >= old(stops) && (stops == old(stops) ==> Concluded())
    {
      hide Honest, JoinSeen, CommandOf, OnHotspot, Ledger, InHand, JoinedBy;
      var d := if 0 <= index < |work.devices| then work.devices[index] else NoDevice();
      Begin(None, d.info);
      Open(d);
    }

    /** Scans again from the open device. */
    method RunRescan()
      requires Idle()
      modifies this
      ensures Idle() && old(trace) <= trace
      ensures stops >= old(stops) && (stops == old(stops) ==> Concluded())
    {
      hide Honest, JoinSeen, CommandOf, OnHotspot, Ledger, InHand, JoinedBy;
      Begin(None, work.device.info);
      Open(work.device);
    }

    /** The worker: any commands in any order until it is told to stop, then nothing is held. */
    method Run()
      requires Idle()
      modifies this
      ensures Honest(trace, hotspotAddress) && old(trace) <= trace && held == Outstanding(trace) == {}
      ensures forall i :: 0 <= i <= |trace| ==> |Outstanding(trace[..i])| <= 1
    {
      hide Honest, OnHotspot, Outstanding;
      var commands := Rounds();
      while commands > 0
        invariant Idle() && old(trace) <= trace
      {
        commands := commands - 1;
        var command: Command := *;
        match command
        case SearchCommand => ghost var _, _, _ := RunSearch();
        case OpenCommand(index) => RunOpen(index);
        case RescanCommand => RunRescan();
        case JoinCommand(network, password) => RunJoin(network, password);
      }
      ReleaseRequests();
      forall i | 0 <= i <= |trace| ensures |Outstanding(trace[..i])| <= 1 {
        AtMostOneRequest(trace, i, hotspotAddress);
      }
    }
  }

  datatype Command =
    | SearchCommand
    | OpenCommand(index: int)
    | RescanCommand
    | JoinCommand(network: int, password: string)

  /** Behind every recognition after the network was sent is an answer given after that. */
  lemma RecognisedByAnswer(t: seq<Event>, sent: nat, k: nat, hotspotAddress: nat) returns (seen: nat)
    requires Honest(t, hotspotAddress) && sent < k < |t| && t[sent].Sent? && t[k].Accepted?
    ensures sent < seen < k && KeptFrom(t[k], t[seen])
  {
    hide InHand, SameDevice, Identified;
    assert HonestAt(t, k, hotspotAddress);
    var raw: Info :| WasSeen(t, k, raw, t[k].endpoint) &&
      (t[k].info == raw || t[k].info == raw.(publicKey := t[k].previous.publicKey));
    seen :| 0 <= seen < k && t[seen] == Saw(raw, t[k].endpoint) && forall m :: seen < m < k ==>
      !t[m].Started? && !t[m].Sent?;
  }

  /**
   * Behind every success is the last contact: sent the network, the device answered that it is on it, away from its
   * hotspot; and the device shown is the one that answered.
   */
  lemma DoneWasReported(t: seq<Event>, i: nat, hotspotAddress: nat) returns (sent: nat, seen: nat, contact: nat)
    requires Honest(t, hotspotAddress) && i < |t| && t[i].Published? && t[i].snapshot.stage == Stage.Done
    ensures t[i].start < sent < seen < contact < i && CommandOf(t, t[i].start, i) && t[sent].Sent? &&
      LastContact(t, contact, i)
    ensures t[contact].info.ssid == t[i].snapshot.target && 60 <= t[contact].info.state <= 64
    ensures t[contact].endpoint == t[i].snapshot.device.endpoint
    ensures t[contact].endpoint.network.address / 256 != hotspotAddress / 256
    ensures KeptFrom(t[contact], t[seen]) && t[i].snapshot.device.info == InHand(t[..i]).info
  {
    hide InHand, JoinedBy;
    var s, start := t[i].snapshot, t[i].start;
    assert HonestAt(t, i, hotspotAddress);
    contact :| LastContact(t, contact, i) && t[contact].endpoint == s.device.endpoint &&
      JoinReport(t, start, contact, s.target);
    sent :| start < sent < contact && t[sent].Sent?;
    seen := RecognisedByAnswer(t, sent, contact, hotspotAddress);
  }

  /**
   * And before it the device confirmed saving, after it had reported the join: in an answer of its own, or over the
   * endpoint of the last contact at that time.
   */
  lemma DoneWasSaved(t: seq<Event>, i: nat, hotspotAddress: nat)
      returns (sent: nat, joined: nat, contact: nat, saved: nat)
    requires Honest(t, hotspotAddress) && i < |t| && t[i].Published? && t[i].snapshot.stage == Stage.Done
    ensures t[i].start < sent < joined < saved < i && t[sent].Sent?
    ensures t[joined].Accepted? && t[joined].info.ssid == t[i].snapshot.target && 60 <= t[joined].info.state <= 64
    ensures match t[saved] {
        case Accepted(info, _, _) => info.state == 62
        case SaveReply(_, state) => state == 62
        case Listed(_, ssids) => t[i].snapshot.target in ssids && InHand(t[..saved]).info.state != 61
        case _ => false
      }
    ensures t[i].start < contact <= saved && t[contact].Accepted? && t[contact].endpoint == t[saved].endpoint
    ensures t[saved].Accepted? || LastContact(t, contact, saved)
  {
    hide OnHotspot, InHand, JoinedBy;
    var start, ssid := t[i].start, t[i].snapshot.target;
    assert HonestAt(t, i, hotspotAddress);
    saved :| saved < i && SaveReport(t, start, saved, ssid);
    joined :| joined < saved && JoinReport(t, start, joined, ssid);
    sent :| start < sent < joined && t[sent].Sent?;
    assert HonestAt(t, saved, hotspotAddress);
    if t[saved].Accepted? { contact := saved; } else {
      contact := HandContact(t, start, saved, t[saved].endpoint);
    }
  }

  /** Once the network was sent, only the device in hand is recognised. */
  lemma OnlyTheDevice(t: seq<Event>, start: nat, sent: nat, k: nat, hotspotAddress: nat)
    requires Honest(t, hotspotAddress) && CommandOf(t, start, k) && start < sent < k < |t| && t[sent].Sent? &&
      t[k].Accepted?
    ensures t[k].previous == InHand(t[..k]).info && SameDevice(t[k].info, t[k].previous)
  {
    hide SameDevice, Identified, InHand;
    assert HonestAt(t, k, hotspotAddress);
    SentInHand(t, start, sent, k);
  }

  lemma {:induction false} JoinInHand(t: seq<Event>, start: nat, k: nat)
    requires CommandOf(t, start, k)
    ensures InHand(t[..k]).join == t[start].join
    decreases k
  {
    var n := k - 1;
    assert t[..k][..n] == t[..n] && t[..k][n] == t[n];
    if n > start { JoinInHand(t, start, n); }
  }

  /** A network goes out only in a join of it, if the device can join it and the password is one. */
  lemma SentIsJoinable(t: seq<Event>, start: nat, k: nat, hotspotAddress: nat)
    requires Honest(t, hotspotAddress) && CommandOf(t, start, k) && k < |t| && t[k].Sent?
    ensures t[start].join.Some?
    ensures var n, password := t[start].join.value.network, t[start].join.value.password;
      && n.auth in {1, 5, 7, 9} && n.cipher in {1, 3, 4, 5}
      && (n.auth == 1 ||
          (8 <= |password| <= 63 && forall i :: 0 <= i < |password| ==> 32 <= password[i] as int <= 126) ||
          (|password| == 64 && forall i :: 0 <= i < 64 ==> HexValue(password[i]).Some?))
    ensures k > start && t[k - 1].Posted? && t[k - 1].endpoint == t[k].endpoint &&
      if t[k].lost then t[k - 1].reply.Lost? && t[k - 1].reply.sent else t[k - 1].reply == Answer(200)
  {
    hide InHand, Supported, NeedsPassword, ValidPassphrase;
    assert HonestAt(t, k, hotspotAddress);
    JoinInHand(t, start, k);
    JoinableNetworks(t[start].join.value.network, t[start].join.value.password);
  }

  /** The answer to the network was lost, or the device did not answer, or was connecting. */
  predicate MayHaveLeft(e: Event) {
    (e.Sent? && e.lost) || e.Silent? || (e.Accepted? && 20 <= e.info.state < 60)
  }

  /** What the stages of a join tell: it is joining when the network went out, and looked for when it may have left. */
  lemma StagesOfJoining(t: seq<Event>, i: nat, hotspotAddress: nat)
    requires Honest(t, hotspotAddress) && i < |t| && t[i].Published?
    ensures t[i].snapshot.stage == Joining ==> i > 0 && t[i - 1].Sent?
    ensures t[i].snapshot.stage == Finding ==> exists k :: t[i].start < k < i && MayHaveLeft(t[k])
    ensures t[i].snapshot.stage == Stage.Failed && t[i].snapshot.failed == Joining && !t[i].snapshot.retry ==>
      exists k :: t[i].start < k < i && t[k].Accepted? && t[k].info.state in {21, 41, 51, 53, 54}
  {
    hide InHand, JoinedBy, JoinSeen, SaveSeen, ReachedOff;
    assert HonestAt(t, i, hotspotAddress);
    var s := t[i].snapshot;
    if s.stage == Finding {
      var k :| 0 <= k < i && SaysLeft(t, t[i].start, k);
    }
    if s.stage == Stage.Failed && s.failed == Joining && !s.retry {
      var k :| 0 <= k && LastContact(t, k, i) && ReportsFailure(t, t[i].start, k, s.retry);
    }
  }

  lemma {:induction false} SentInHand(t: seq<Event>, start: nat, sent: nat, k: nat)
    requires CommandOf(t, start, k) && start < sent < k && t[sent].Sent?
    ensures InHand(t[..k]).sent
    decreases k
  {
    var n := k - 1;
    assert t[..k][..n] == t[..n] && t[..k][n] == t[n];
    if sent < n { SentInHand(t, start, sent, n); }
  }

  /** Where every answer of a command tells a MAC address, the command is about one device throughout. */
  lemma {:induction false} OneDevice(t: seq<Event>, start: nat, k: nat, hotspotAddress: nat)
    requires Honest(t, hotspotAddress) && CommandOf(t, start, k) && t[start].device.mac != ""
    requires forall m :: start < m < k && t[m].Accepted? ==> t[m].info.mac != ""
    ensures InHand(t[..k]).info.mac != "" && SameText(InHand(t[..k]).info.mac, t[start].device.mac)
    decreases k
  {
    var n := k - 1;
    assert t[..k][..n] == t[..n] && t[..k][n] == t[n];
    if n > start {
      OneDevice(t, start, n, hotspotAddress);
      assert HonestAt(t, n, hotspotAddress);
    }
  }

  /** Otherwise it may drift: each answer is the same hardware as the one before, the last not as the first. */
  lemma SamenessDrifts() returns (first: Info, second: Info, third: Info)
    ensures SameDevice(second, first) && SameDevice(third, second) && !SameDevice(third, first)
  {
    first := NoInfo().(mac := "a", udn := "u");
    second := NoInfo().(udn := "u");
    third := NoInfo().(mac := "b", udn := "u");
    assert Lower(third.mac[0]) != Lower(first.mac[0]);
  }

  /** The device of which success is told is the one that was shown when sending began. */
  lemma DoneIsTheDevice(t: seq<Event>, p: nat, i: nat, hotspotAddress: nat)
    requires Honest(t, hotspotAddress) && p <= i < |t| && t[p].Published? && t[i].Published? && t[p].start == t[i].start
    requires t[p].snapshot.stage == Sending && t[i].snapshot.stage == Stage.Done
    requires t[i].start < |t| && t[t[i].start].Started? && t[t[i].start].device.mac != ""
    requires forall m :: t[i].start < m < i && t[m].Accepted? ==> t[m].info.mac != ""
    ensures SameText(t[i].snapshot.device.info.mac, t[p].snapshot.device.info.mac)
  {
    hide InHand, JoinedBy, JoinSeen, SaveSeen, ReachedOff, OnTarget;
    assert HonestAt(t, p, hotspotAddress) && HonestAt(t, i, hotspotAddress);
    OneDevice(t, t[i].start, p, hotspotAddress);
    OneDevice(t, t[i].start, i, hotspotAddress);
  }

  /** A join in which the device, since it was sent the network, never answers that it is on it is never claimed. */
  lemma SilenceClaimsNothing(t: seq<Event>, i: nat, hotspotAddress: nat)
    requires Honest(t, hotspotAddress) && i < |t| && t[i].Published?
    requires t[i].start < |t| && t[t[i].start].Started? && t[t[i].start].join.Some?
    requires forall s, j :: t[i].start < s < j < i && t[s].Sent? && t[j].Saw? ==>
      !OnTarget(t[j].info, t[t[i].start].join.value.network.ssid)
    ensures !t[i].snapshot.joined && t[i].snapshot.stage != Stage.Done
  {
    hide OnHotspot, InHand, JoinedBy;
    var start, ssid := t[i].start, t[t[i].start].join.value.network.ssid;
    assert HonestAt(t, i, hotspotAddress);
    if JoinSeen(t, start, i, ssid) {
      var k :| 0 <= k < i <= |t| && JoinReport(t, start, k, ssid);
      var s :| start < s < k && t[s].Sent?;
      var seen := RecognisedByAnswer(t, s, k, hotspotAddress);
    }
  }

  /** A snapshot that says joined is about the latest join, and a stale one exactly if this is an earlier command. */
  lemma JoinedIsOfTheLastJoin(t: seq<Event>, i: nat, hotspotAddress: nat) returns (c: nat, report: nat)
    requires Honest(t, hotspotAddress) && i < |t| && t[i].Published? && t[i].snapshot.joined
    ensures c <= t[i].start < |t| && t[c].Started? && t[c].join.Some? && t[t[i].start].Started?
    ensures forall k :: c < k < i && t[k].Started? ==> t[k].join.None?
    ensures c < report < i && JoinReport(t, c, report, t[c].join.value.network.ssid) &&
      forall k :: c < k < report ==> !t[k].Started?
    ensures c < t[i].start <==> t[t[i].start].join.None?
  {
    hide InHand, SaveSeen, ReachedOff, JoinReport;
    assert HonestAt(t, i, hotspotAddress);
    var e: nat;
    c, e :| JoinedIn(t, c, e, i);
    report :| 0 <= report < e <= |t| && JoinReport(t, c, report, t[c].join.value.network.ssid);
    assert c < report by { ReportIsLater(t, c, report); }
  }

  lemma ReportIsLater(t: seq<Event>, c: nat, report: nat)
    requires c < |t| && t[c].Started? && t[c].join.Some? && JoinReport(t, c, report, t[c].join.value.network.ssid)
    ensures c < report
  {
  }

  lemma PublishHonest(t: seq<Event>, e: Event, s: Snapshot, held: set<int>, start: nat, hotspotAddress: nat)
    requires e == Published(s, held, start) && CommandOf(t, start, |t|) && held == Outstanding(t)
    requires s.stage in {DeviceList, Stage.Done, Stage.Failed} ==> held == {}
    requires t[start].join.Some? ==>
      s.target == t[start].join.value.network.ssid && (s.joined ==> JoinSeen(t, start, |t|, s.target))
    requires s.joined ==> JoinedBy(t, |t|)
    requires s.stage in {Sending, Joining, Stage.Done} ==> s.device.info == InHand(t).info
    requires s.stage == Joining ==> t[|t| - 1].Sent?
    requires s.stage == Finding ==> LeftSeen(t, start, |t|)
    requires s.stage == Networks ==> t[|t| - 1].ScanRead? && t[|t| - 1].found == Some(s.networks)
    requires s.stage == Stage.Failed ==> Reasoned(t, start, |t|, s.failed, s.retry, s.target, hotspotAddress)
    requires s.stage == Stage.Done ==>
      && t[start].join.Some? && s.joined && SaveSeen(t, start, |t|, s.target)
      && ReachedOff(t, start, |t|, s.target, s.device.endpoint, hotspotAddress)
    ensures HonestAt(t + [e], |t|, hotspotAddress)
  {
    hide JoinSeen, SaveSeen, ReachedOff, JoinedBy, InHand, LeftSeen, Reasoned;
    assert (t + [e])[..|t|] == t;
    LeftSame(t, t + [e], start, |t|);
    if s.stage == Stage.Failed { ReasonSame(t, t + [e], start, |t|, s.failed, s.retry, s.target, hotspotAddress); }
    if s.joined { JoinedStays(t, t + [e], |t|, |t|); }
    if t[start].join.Some? && s.joined { JoinStays(t, t + [e], start, |t|, |t|, s.target); }
    if s.stage == Stage.Done {
      SaveStays(t, t + [e], start, |t|, |t|, s.target);
      ReachedStays(t, t + [e], start, |t|, s.target, s.device.endpoint, hotspotAddress);
    }
  }
}
