/** Devices, networks and the history that a session's claims are checked against. */
module Devices {
  import opened Basics
  import opened Letters

  const CONNECTED := 60
  const NOT_SAVED := 61
  const SAVED := 62
  const WRONG_PASSWORD := 31

  datatype Info = Info(
    name: string, model: string, mac: string, udn: string, publicKey: string, hotspotBssid: string, ssid: string,
    ip: string, state: int, keepsHotspot: bool)

  datatype PhoneNetwork = PhoneNetwork(handle: nat, address: nat, prefix: int)

  datatype Endpoint = Endpoint(network: PhoneNetwork, address: nat, port: nat, tls: bool)

  datatype Device = Device(info: Info, endpoint: Endpoint, reachable: bool, hotspot: bool)

  datatype WifiNetwork = WifiNetwork(ssid: string, auth: int, cipher: int)

  datatype Stage =
    | Searching | DeviceList | Hotspot | Scanning | Networks | Sending | Joining | Finding | Saving | Done | Failed

  datatype Snapshot = Snapshot(
    stage: Stage, devices: seq<Device>, device: Device, networks: seq<WifiNetwork>, target: string,
    prompt: bool, joined: bool, retry: bool, failed: Stage)

  /** Same hardware: MAC address, then UDN, then public key. */
  predicate SameDevice(a: Info, b: Info) {
    if a.mac != "" && b.mac != "" then SameText(a.mac, b.mac)
    else if a.udn != "" && b.udn != "" then SameText(a.udn, b.udn)
    else a.publicKey != "" && a.publicKey == b.publicKey
  }

  predicate Identified(d: Info) {
    d.mac != "" || d.udn != "" || d.publicKey != ""
  }

  predicate FailedState(state: int) {
    state == 21 || state == 31 || state == 32 || state == 41 || state == 51 || state == 53 || state == 54
  }

  /** MAC addresses decide where both are known, then UDNs, then the keys. */
  lemma SameDeviceMeans(a: Info, b: Info)
    ensures a.mac != "" && b.mac != "" ==> (SameDevice(a, b) <==> SameText(a.mac, b.mac))
    ensures (a.mac == "" || b.mac == "") && a.udn != "" && b.udn != "" ==>
      (SameDevice(a, b) <==> SameText(a.udn, b.udn))
    ensures (a.mac == "" || b.mac == "") && (a.udn == "" || b.udn == "") ==>
      (SameDevice(a, b) <==> a.publicKey == b.publicKey != "")
  {
  }

  lemma FailedStates(state: int)
    ensures FailedState(state) <==> state in {21, 31, 32, 41, 51, 53, 54}
  {
  }

  predicate Supported(n: WifiNetwork) {
    (n.auth == 1 || n.auth == 5 || n.auth == 7 || n.auth == 9) &&
      (n.cipher == 1 || n.cipher == 3 || n.cipher == 4 || n.cipher == 5)
  }

  predicate NeedsPassword(n: WifiNetwork) { n.auth != 1 }

  predicate ValidPassphrase(p: string) {
    if |p| == 64 then forall i :: 0 <= i < 64 ==> '0' <= p[i] <= '9' || 'a' <= p[i] <= 'f' || 'A' <= p[i] <= 'F'
    else 8 <= |p| <= 63 && forall i :: 0 <= i < |p| ==> ' ' <= p[i] < 127 as char
  }

  /** The device itself says it is on the network. */
  predicate OnTarget(info: Info, ssid: string) {
    info.ssid == ssid && CONNECTED <= info.state <= 64
  }

  function NoInfo(): Info { Info("", "", "", "", "", "", "", "", -1, false) }

  datatype Reply = Lost(sent: bool, connected: bool) | Answer(status: int)

  /** The network a device is to join, with what was entered as its password. */
  datatype Join = Join(network: WifiNetwork, password: string)

  /** Everything a session observes, asks for or tells, in order. */
  datatype Event =
    | Started(join: Option<Join>, device: Info)
    | Saw(info: Info, endpoint: Endpoint)
    | Silent(endpoint: Endpoint)
    | Accepted(info: Info, previous: Info, endpoint: Endpoint)
    | Attached(networks: seq<PhoneNetwork>)
    | Tried(network: PhoneNetwork, addresses: seq<nat>)
    | ScanAsked(endpoint: Endpoint, reply: Reply)
    | ScanRead(endpoint: Endpoint, found: Option<seq<WifiNetwork>>)
    | Encrypted(ok: bool)
    | Posted(endpoint: Endpoint, keep: bool, reply: Reply)
    | Sent(endpoint: Endpoint, lost: bool)
    | SaveAsked(endpoint: Endpoint, reply: Reply)
    | Listed(endpoint: Endpoint, ssids: seq<string>)
    | SaveReply(endpoint: Endpoint, state: int)
    | Requested(id: int)
    | Denied
    | Released(id: int)
    | Published(snapshot: Snapshot, held: set<int>, start: nat)

  predicate Joins(e: Event, ssid: string) { e.Started? && e.join.Some? && e.join.value.network.ssid == ssid }

  /** The requests that Android holds after a history. */
  ghost function Outstanding(t: seq<Event>): set<int> {
    if t == [] then {}
    else
      var before, e := Outstanding(t[..|t| - 1]), t[|t| - 1];
      if e.Requested? then before + {e.id} else if e.Released? then before - {e.id} else before
  }

  lemma OutstandingAfter(t: seq<Event>, e: Event)
    ensures Outstanding(t + [e]) ==
      if e.Requested? then Outstanding(t) + {e.id} else if e.Released? then Outstanding(t) - {e.id} else Outstanding(t)
  {
    assert (t + [e])[..|t|] == t;
  }

  /** The device of a command: what is known of it, where it last answered, and whether it was sent the network. */
  datatype Hand = Hand(info: Info, endpoint: Option<Endpoint>, sent: bool, join: Option<Join>)

  ghost function HandAfter(h: Hand, e: Event): Hand {
    match e
    case Started(join, device) => Hand(device, None, false, join)
    case Accepted(info, _, endpoint) => h.(info := info, endpoint := Some(endpoint))
    case Sent(_, _) => h.(sent := true)
    case SaveReply(_, state) => h.(info := h.info.(state := state))
    case _ => h
  }

  ghost function InHand(t: seq<Event>): Hand {
    if t == [] then Hand(NoInfo(), None, false, None) else HandAfter(InHand(t[..|t| - 1]), t[|t| - 1])
  }

  lemma HandGrows(t: seq<Event>, e: Event)
    ensures InHand(t + [e]) == HandAfter(InHand(t), e)
  {
    assert (t + [e])[..|t|] == t;
  }

  /** An answer since a moment of the history. */
  ghost predicate SeenSince(t: seq<Event>, from: nat, info: Info, endpoint: Endpoint) {
    exists j :: from <= j < |t| && t[j] == Saw(info, endpoint)
  }

  /** The device answered so over this endpoint, in this command and, if it was sent the network, after that. */
  ghost predicate WasSeen(t: seq<Event>, upTo: nat, info: Info, endpoint: Endpoint) {
    exists j :: 0 <= j < upTo <= |t| && t[j] == Saw(info, endpoint) && forall k :: j < k < upTo ==>
      !t[k].Started? && !t[k].Sent?
  }

  /** What is kept of an answer; the public key may be the one known before. */
  ghost predicate Answered(t: seq<Event>, upTo: nat, info: Info, previous: Info, endpoint: Endpoint) {
    exists raw: Info :: WasSeen(t, upTo, raw, endpoint) &&
      (info == raw || info == raw.(publicKey := previous.publicKey))
  }

  /** The command sent the network before this event. */
  ghost predicate SentBefore(t: seq<Event>, start: nat, j: nat) {
    exists s :: start < s < j <= |t| && t[s].Sent?
  }

  /** The network can be joined, and its password is one. */
  predicate Sendable(join: Option<Join>) {
    && join.Some? && Supported(join.value.network)
    && (NeedsPassword(join.value.network) ==> ValidPassphrase(join.value.password))
  }

  /** The device took what was posted, or may have. */
  predicate Delivers(reply: Reply, lost: bool) {
    if lost then reply.Lost? && reply.sent else reply == Answer(200)
  }

  /** A sign that the device, once the network was sent, left for it. */
  ghost predicate SaysLeft(t: seq<Event>, start: nat, k: nat) {
    && start < k < |t|
    && ((t[k].Sent? && t[k].lost) ||
        (SentBefore(t, start, k) && (t[k].Silent? || (t[k].Accepted? && 20 <= t[k].info.state < CONNECTED))))
  }

  ghost predicate LeftSeen(t: seq<Event>, start: nat, upTo: nat) {
    exists k :: 0 <= k < upTo <= |t| && SaysLeft(t, start, k)
  }

  /** While joining, the device says that it failed, or there is no sign that it left. */
  ghost predicate JoinFailed(t: seq<Event>, start: nat, upTo: nat, retry: bool) {
    FailureSeen(t, start, upTo, retry) || (retry && !LeftSeen(t, start, upTo))
  }

  ghost predicate FailureSeen(t: seq<Event>, start: nat, upTo: nat, retry: bool) {
    exists k :: 0 <= k && LastContact(t, k, upTo) && ReportsFailure(t, start, k, retry)
  }

  ghost predicate ReportsFailure(t: seq<Event>, start: nat, k: nat, retry: bool) {
    && start < k < |t| && t[k].Accepted? && SentBefore(t, start, k) && FailedState(t[k].info.state)
    && (retry <==> t[k].info.state == WRONG_PASSWORD || t[k].info.state == WRONG_PASSWORD + 1)
  }

  /** The device, once the network was sent, reported that it is on it. */
  ghost predicate JoinReport(t: seq<Event>, start: nat, j: nat, ssid: string) {
    start < j < |t| && t[j].Accepted? && OnTarget(t[j].info, ssid) && SentBefore(t, start, j)
  }

  ghost predicate JoinSeen(t: seq<Event>, start: nat, upTo: nat, ssid: string) {
    exists j :: 0 <= j < upTo <= |t| && JoinReport(t, start, j, ssid)
  }

  /** The device confirmed saving the network. */
  predicate Confirms(e: Event, ssid: string) {
    match e
    case Accepted(info, _, _) => info.state == SAVED
    case SaveReply(_, state) => state == SAVED
    case Listed(_, ssids) => ssid in ssids
    case _ => false
  }

  /** It did so after it had reported that it is on the network. */
  ghost predicate SaveReport(t: seq<Event>, start: nat, k: nat, ssid: string) {
    start < k < |t| && Confirms(t[k], ssid) && JoinSeen(t, start, k, ssid)
  }

  ghost predicate SaveSeen(t: seq<Event>, start: nat, upTo: nat, ssid: string) {
    exists k :: 0 <= k < upTo <= |t| && SaveReport(t, start, k, ssid)
  }

  /** The client was shown, in this command, that it is at this stage. */
  predicate ShownAt(t: seq<Event>, start: nat, p: nat, stage: Stage) {
    start < p < |t| && t[p].Published? && t[p].snapshot.stage == stage
  }

  /** From here on requests were released and snapshots published, nothing else. */
  ghost predicate Tail(t: seq<Event>, from: nat) {
    forall k :: from <= k < |t| ==> t[k].Released? || t[k].Published?
  }

  /** Why a join that the device reported does not end well. */
  ghost predicate SavingFailed(t: seq<Event>, start: nat, upTo: nat, retry: bool, ssid: string, hotspotAddress: nat) {
    exists p :: 0 <= p < upTo <= |t| && ShownAt(t, start, p, Saving) &&
      SavingEnds(t, p, upTo, retry, ssid, hotspotAddress)
  }

  /** Worth another try: it went elsewhere or did not confirm saving. Not so: Android refused, or it stayed away. */
  ghost predicate SavingEnds(t: seq<Event>, p: nat, upTo: nat, retry: bool, ssid: string, hotspotAddress: nat)
    requires p < upTo <= |t|
  {
    if retry then LastAway(t, upTo, ssid) || (Unconfirmed(t, p, upTo, ssid) && EachAsked(t, p, upTo))
    else
      || DeniedIn(t, p, upTo)
      || (!Unconfirmed(t, p, upTo, ssid) && (LastAway(t, upTo, ssid) || LastOnHotspot(t, upTo, hotspotAddress)))
  }

  ghost predicate LastAway(t: seq<Event>, upTo: nat, ssid: string) {
    exists k :: 0 <= k && LastContact(t, k, upTo) && !OnTarget(t[k].info, ssid)
  }

  ghost predicate LastOnHotspot(t: seq<Event>, upTo: nat, hotspotAddress: nat) {
    exists k :: 0 <= k && LastContact(t, k, upTo) && OnHotspot(t[k].endpoint.network, hotspotAddress)
  }

  ghost predicate Unconfirmed(t: seq<Event>, p: nat, upTo: nat, ssid: string)
    requires upTo <= |t|
  {
    forall k :: p < k < upTo ==> !Confirms(t[k], ssid)
  }

  /** Every time the device was recognised, it was then asked to save. */
  ghost predicate EachAsked(t: seq<Event>, p: nat, upTo: nat)
    requires upTo <= |t|
  {
    forall k :: p < k < upTo && t[k].Accepted? ==> AskedNext(t, k, upTo)
  }

  ghost predicate AskedNext(t: seq<Event>, k: nat, upTo: nat)
    requires upTo <= |t|
  {
    exists m :: k < m < upTo && t[m].SaveAsked? && forall l :: k < l < m ==> !t[l].Accepted?
  }

  /** Android would not join the network. */
  ghost predicate DeniedIn(t: seq<Event>, p: nat, upTo: nat)
    requires upTo <= |t|
  {
    exists k :: p < k < upTo && t[k].Denied?
  }

  /** Why the device is no longer looked for: it says that it failed or went elsewhere, or it did not turn up. */
  ghost predicate FindingFailed(t: seq<Event>, start: nat, upTo: nat, retry: bool, ssid: string) {
    exists p :: 0 <= p < upTo <= |t| && ShownAt(t, start, p, Finding) && FindingEnds(t, p, upTo, retry, ssid)
  }

  ghost predicate FindingEnds(t: seq<Event>, p: nat, upTo: nat, retry: bool, ssid: string)
    requires p < upTo <= |t|
  {
    if retry then exists k :: p < k && LastContact(t, k, upTo) && WentElsewhere(t[k].info, ssid)
    else forall k :: p < k < upTo ==> !t[k].Accepted?
  }

  predicate WentElsewhere(info: Info, ssid: string) {
    !OnTarget(info, ssid) && (FailedState(info.state) || (info.ssid != "" && info.state >= CONNECTED))
  }

  /** A failure at this stage has its reason in the history. */
  ghost predicate Reasoned(t: seq<Event>, start: nat, upTo: nat, stage: Stage, retry: bool, ssid: string,
      hotspotAddress: nat) {
    match stage
    case Joining => JoinFailed(t, start, upTo, retry)
    case Saving => SavingFailed(t, start, upTo, retry, ssid, hotspotAddress)
    case Finding => FindingFailed(t, start, upTo, retry, ssid)
    case Hotspot => !retry
    case Scanning => retry && ScanFailed(t, upTo)
    case _ => true
  }

  /** Android's refusal, while the device is looked for or known to be joined, is the reason. */
  lemma DeniedReason(t: seq<Event>, start: nat, p: nat, stage: Stage, ssid: string, hotspotAddress: nat)
    requires ShownAt(t, start, p, stage) && (stage == Saving || stage == Finding)
    requires p < |t| - 1 && t[|t| - 1].Denied? && (stage == Finding ==> NoneSince(t, p))
    ensures Reasoned(t, start, |t|, stage, false, ssid, hotspotAddress)
  {
    hide OnTarget, OnHotspot, LastContact, AskedNext, Confirms;
    if stage == Saving {
      assert SavingEnds(t, p, |t|, false, ssid, hotspotAddress);
    } else {
      assert FindingEnds(t, p, |t|, false, ssid);
    }
  }

  /** The device was not recognised since. */
  ghost predicate NoneSince(t: seq<Event>, p: nat) { forall k :: p < k < |t| ==> !t[k].Accepted? }

  lemma NotFoundReason(t: seq<Event>, start: nat, p: nat, ssid: string, hotspotAddress: nat)
    requires ShownAt(t, start, p, Finding) && NoneSince(t, p)
    ensures Reasoned(t, start, |t|, Finding, false, ssid, hotspotAddress)
  {
    assert FindingEnds(t, p, |t|, false, ssid);
  }

  lemma ElsewhereReason(t: seq<Event>, start: nat, p: nat, ssid: string, hotspotAddress: nat)
    requires ShownAt(t, start, p, Finding) && p < |t| - 1 && t[|t| - 1].Accepted? &&
      WentElsewhere(t[|t| - 1].info, ssid)
    ensures Reasoned(t, start, |t|, Finding, true, ssid, hotspotAddress)
  {
    hide WentElsewhere;
    assert LastContact(t, |t| - 1, |t|);
    assert FindingEnds(t, p, |t|, true, ssid);
  }

  lemma AwayReason(t: seq<Event>, start: nat, p: nat, ssid: string, hotspotAddress: nat)
    requires ShownAt(t, start, p, Saving) && LastAway(t, |t|, ssid)
    ensures Reasoned(t, start, |t|, Saving, true, ssid, hotspotAddress)
    ensures !Unconfirmed(t, p, |t|, ssid) ==> Reasoned(t, start, |t|, Saving, false, ssid, hotspotAddress)
  {
    hide LastAway, LastOnHotspot, Confirms, EachAsked;
    assert SavingEnds(t, p, |t|, true, ssid, hotspotAddress);
    assert !Unconfirmed(t, p, |t|, ssid) ==> SavingEnds(t, p, |t|, false, ssid, hotspotAddress);
  }

  lemma UnconfirmedReason(t: seq<Event>, start: nat, p: nat, ssid: string, hotspotAddress: nat)
    requires ShownAt(t, start, p, Saving) && Unconfirmed(t, p, |t|, ssid) && EachAsked(t, p, |t|)
    ensures Reasoned(t, start, |t|, Saving, true, ssid, hotspotAddress)
  {
    hide Confirms, LastAway, AskedNext;
    assert SavingEnds(t, p, |t|, true, ssid, hotspotAddress);
  }

  lemma HotspotReason(t: seq<Event>, start: nat, p: nat, ssid: string, endpoint: Endpoint, hotspotAddress: nat)
    requires ShownAt(t, start, p, Saving) && !Unconfirmed(t, p, |t|, ssid)
    requires LastReport(t, start, |t|, ssid, endpoint) && OnHotspot(endpoint.network, hotspotAddress)
    ensures Reasoned(t, start, |t|, Saving, false, ssid, hotspotAddress)
  {
    hide Confirms, JoinReport, OnHotspot;
    var j :| 0 <= j && LastContact(t, j, |t|) && t[j].endpoint == endpoint && JoinReport(t, start, j, ssid);
    assert LastOnHotspot(t, |t|, hotspotAddress);
    assert SavingEnds(t, p, |t|, false, ssid, hotspotAddress);
  }

  /** Where saving stands. */
  ghost predicate Pending(t: seq<Event>, start: nat, p: nat, ssid: string, saved: bool) {
    && ShownAt(t, start, p, Saving) && (saved <==> !Unconfirmed(t, p, |t|, ssid))
    && (!saved ==> EachAsked(t, p, |t|))
  }

  lemma PendingStays(before: seq<Event>, after: seq<Event>, start: nat, p: nat, ssid: string, saved: bool)
    requires Unmoved(before, after) && Pending(before, start, p, ssid, saved)
    ensures Pending(after, start, p, ssid, saved)
  {
    hide AskedNext;
    forall k: nat | p < k < |before| && AskedNext(before, k, |before|) ensures AskedNext(after, k, |after|) {
      AskedSame(before, after, k, |before|);
      AskedLater(after, k, |before|, |after|);
    }
    forall k: nat | |before| <= k < |after| ensures !Confirms(after[k], ssid) { }
  }

  /** Recognised, asked to save, and what it answered to that. */
  lemma PendingAsked(before: seq<Event>, after: seq<Event>, start: nat, p: nat, ssid: string)
    requires before <= after && |before| > 0 && Pending(before[..|before| - 1], start, p, ssid, false)
    requires before[|before| - 1].Accepted? && !Confirms(before[|before| - 1], ssid)
    requires exists m :: |before| <= m < |after| && after[m].SaveAsked?
    requires forall k :: |before| <= k < |after| ==> !after[k].Accepted?
    ensures Pending(after, start, p, ssid, exists k :: |before| <= k < |after| && Confirms(after[k], ssid))
  {
    hide AskedNext, Confirms;
    var front := before[..|before| - 1];
    forall k: nat | p < k < |front| && AskedNext(front, k, |front|) ensures AskedNext(after, k, |after|) {
      AskedSame(front, after, k, |front|);
      AskedLater(after, k, |front|, |after|);
    }
    var m :| |before| <= m < |after| && after[m].SaveAsked?;
    AskedNow(after, |front|, m);
  }

  lemma PendingSaved(t: seq<Event>, start: nat, p: nat, ssid: string, k: nat)
    requires ShownAt(t, start, p, Saving) && p < k < |t| && Confirms(t[k], ssid)
    ensures Pending(t, start, p, ssid, true)
  {
  }

  lemma AskedNow(t: seq<Event>, k: nat, m: nat)
    requires k < m < |t| && t[m].SaveAsked? && forall l :: k < l < m ==> !t[l].Accepted?
    ensures AskedNext(t, k, |t|)
  {
  }

  predicate IsScan(e: Event) { e.ScanAsked? || e.ScanRead? }

  /** A scan that was not accepted, unless the answer got lost, or whose results could not be had. */
  predicate BadScan(e: Event) {
    match e
    case ScanAsked(_, reply) => if reply.Answer? then !(200 <= reply.status <= 299) else !reply.sent
    case ScanRead(_, found) => found.None?
    case _ => false
  }

  ghost predicate ScanFailed(t: seq<Event>, upTo: nat) {
    exists k :: 0 <= k < upTo <= |t| && BadScan(t[k]) && forall m :: k < m < upTo ==> !IsScan(t[m])
  }

  lemma ScanTail(before: seq<Event>, after: seq<Event>, upTo: nat)
    requires before <= after && |before| <= upTo <= |after| && ScanFailed(before, |before|)
    requires forall m :: |before| <= m < upTo ==> !IsScan(after[m])
    ensures ScanFailed(after, upTo)
  {
    hide BadScan, IsScan;
    var k :| 0 <= k < |before| && BadScan(before[k]) && forall m :: k < m < |before| ==> !IsScan(before[m]);
    assert after[k] == before[k];
    forall m | k < m < upTo ensures !IsScan(after[m]) { assert m < |before| ==> after[m] == before[m]; }
  }

  lemma ScanSame(t: seq<Event>, longer: seq<Event>, upTo: nat)
    requires t <= longer && upTo <= |t| && ScanFailed(t, upTo)
    ensures ScanFailed(longer, upTo)
  {
    hide BadScan, IsScan;
    var k :| 0 <= k < upTo && BadScan(t[k]) && forall m :: k < m < upTo ==> !IsScan(t[m]);
    assert longer[k] == t[k] && forall m :: k < m < upTo ==> longer[m] == t[m];
  }

  lemma ReasonSame(t: seq<Event>, longer: seq<Event>, start: nat, upTo: nat, stage: Stage, retry: bool, ssid: string,
      hotspotAddress: nat)
    requires t <= longer && upTo <= |t| && Reasoned(t, start, upTo, stage, retry, ssid, hotspotAddress)
    ensures Reasoned(longer, start, upTo, stage, retry, ssid, hotspotAddress)
  {
    hide LeftSeen, FailureSeen, SavingFailed, FindingFailed, ScanFailed;
    match stage
    case Scanning => ScanSame(t, longer, upTo);
    case Joining =>
      LeftSame(t, longer, start, upTo);
      FailureSame(t, longer, start, upTo, retry);
    case Saving => SavingSame(t, longer, start, upTo, retry, ssid, hotspotAddress);
    case Finding => FindingSame(t, longer, start, upTo, retry, ssid);
    case _ =>
  }

  lemma ReasonTail(before: seq<Event>, after: seq<Event>, start: nat, stage: Stage, retry: bool, ssid: string,
      hotspotAddress: nat)
    requires before <= after && Tail(after, |before|)
    requires Reasoned(before, start, |before|, stage, retry, ssid, hotspotAddress)
    ensures Reasoned(after, start, |after|, stage, retry, ssid, hotspotAddress)
  {
    hide JoinFailed, SavingFailed, FindingFailed, ScanFailed;
    match stage
    case Scanning => ScanTail(before, after, |after|);
    case Joining => FailureAside(before, after, start, retry);
    case Saving => SavingTail(before, after, start, retry, ssid, hotspotAddress);
    case Finding => FindingTail(before, after, start, retry, ssid);
    case _ =>
  }

  lemma SavingSame(t: seq<Event>, longer: seq<Event>, start: nat, upTo: nat, retry: bool, ssid: string,
      hotspotAddress: nat)
    requires t <= longer && upTo <= |t| && SavingFailed(t, start, upTo, retry, ssid, hotspotAddress)
    ensures SavingFailed(longer, start, upTo, retry, ssid, hotspotAddress)
  {
    hide OnTarget, OnHotspot, Confirms;
    var p :| 0 <= p < upTo <= |t| && ShownAt(t, start, p, Saving) &&
      SavingEnds(t, p, upTo, retry, ssid, hotspotAddress);
    assert longer[..upTo] == t[..upTo];
    EndsSame(t, longer, p, upTo, retry, ssid, hotspotAddress);
    assert ShownAt(longer, start, p, Saving);
  }

  lemma EndsSame(t: seq<Event>, longer: seq<Event>, p: nat, upTo: nat, retry: bool, ssid: string, hotspotAddress: nat)
    requires t <= longer && p < upTo <= |t| && SavingEnds(t, p, upTo, retry, ssid, hotspotAddress)
    ensures SavingEnds(longer, p, upTo, retry, ssid, hotspotAddress)
  {
    hide OnTarget, OnHotspot, Confirms, LastContact, AskedNext;
    forall k: nat ensures LastContact(t, k, upTo) <==> LastContact(longer, k, upTo) { ContactSame(t, longer, k, upTo); }
    forall k: nat | p < k < upTo ensures longer[k] == t[k] && (AskedNext(t, k, upTo) ==> AskedNext(longer, k, upTo)) {
      if AskedNext(t, k, upTo) { AskedSame(t, longer, k, upTo); }
    }
    forall k: nat | LastContact(t, k, upTo) ensures k < upTo && longer[k] == t[k] { ContactIn(t, k, upTo); }
  }

  /** Nothing that is only told or released changes why. */
  lemma SavingTail(before: seq<Event>, after: seq<Event>, start: nat, retry: bool, ssid: string, hotspotAddress: nat)
    requires before <= after && Tail(after, |before|)
    requires SavingFailed(before, start, |before|, retry, ssid, hotspotAddress)
    ensures SavingFailed(after, start, |after|, retry, ssid, hotspotAddress)
  {
    hide OnTarget, OnHotspot, AskedNext, SavingEnds;
    SavingSame(before, after, start, |before|, retry, ssid, hotspotAddress);
    var p :| 0 <= p < |before| <= |after| && ShownAt(after, start, p, Saving) &&
      SavingEnds(after, p, |before|, retry, ssid, hotspotAddress);
    EndsTail(after, p, |before|, retry, ssid, hotspotAddress);
  }

  lemma EndsTail(t: seq<Event>, p: nat, upTo: nat, retry: bool, ssid: string, hotspotAddress: nat)
    requires p < upTo <= |t| && Tail(t, upTo) && SavingEnds(t, p, upTo, retry, ssid, hotspotAddress)
    ensures SavingEnds(t, p, |t|, retry, ssid, hotspotAddress)
  {
    hide OnTarget, OnHotspot, LastContact, AskedNext;
    forall k: nat | LastContact(t, k, upTo) ensures LastContact(t, k, |t|) { ContactTail(t, k, upTo); }
    forall k: nat | p < k < upTo && AskedNext(t, k, upTo) ensures AskedNext(t, k, |t|) { AskedLater(t, k, upTo, |t|); }
  }

  lemma ContactTail(t: seq<Event>, k: nat, upTo: nat)
    requires upTo <= |t| && Tail(t, upTo) && LastContact(t, k, upTo)
    ensures LastContact(t, k, |t|)
  {
  }

  lemma AskedLater(t: seq<Event>, k: nat, i: nat, upTo: nat)
    requires i <= upTo <= |t| && AskedNext(t, k, i)
    ensures AskedNext(t, k, upTo)
  {
  }

  lemma FindingTail(before: seq<Event>, after: seq<Event>, start: nat, retry: bool, ssid: string)
    requires before <= after && Tail(after, |before|) && FindingFailed(before, start, |before|, retry, ssid)
    ensures FindingFailed(after, start, |after|, retry, ssid)
  {
    hide WentElsewhere;
    FindingSame(before, after, start, |before|, retry, ssid);
    var p :| 0 <= p < |before| <= |after| && ShownAt(after, start, p, Finding) &&
      FindingEnds(after, p, |before|, retry, ssid);
    if retry {
      var k :| p < k && LastContact(after, k, |before|) && WentElsewhere(after[k].info, ssid);
      ContactTail(after, k, |before|);
    }
    assert FindingEnds(after, p, |after|, retry, ssid);
  }

  lemma ContactIn(t: seq<Event>, k: nat, upTo: nat)
    requires LastContact(t, k, upTo)
    ensures k < upTo <= |t|
  {
  }

  lemma ContactSame(t: seq<Event>, longer: seq<Event>, k: nat, upTo: nat)
    requires t <= longer && upTo <= |t|
    ensures LastContact(t, k, upTo) <==> LastContact(longer, k, upTo)
  {
  }

  lemma AskedSame(t: seq<Event>, longer: seq<Event>, k: nat, upTo: nat)
    requires t <= longer && upTo <= |t| && AskedNext(t, k, upTo)
    ensures AskedNext(longer, k, upTo)
  {
    var m :| k < m < upTo && t[m].SaveAsked? && forall l :: k < l < m ==> !t[l].Accepted?;
    assert longer[m] == t[m];
  }

  lemma FindingSame(t: seq<Event>, longer: seq<Event>, start: nat, upTo: nat, retry: bool, ssid: string)
    requires t <= longer && upTo <= |t| && FindingFailed(t, start, upTo, retry, ssid)
    ensures FindingFailed(longer, start, upTo, retry, ssid)
  {
    hide OnTarget, FailedState;
    var p :| 0 <= p < upTo <= |t| && ShownAt(t, start, p, Finding) && FindingEnds(t, p, upTo, retry, ssid);
    if retry {
      var k :| p < k && LastContact(t, k, upTo) && WentElsewhere(t[k].info, ssid);
      ContactSame(t, longer, k, upTo);
    }
    assert ShownAt(longer, start, p, Finding);
    assert FindingEnds(longer, p, upTo, retry, ssid);
  }

  /** The last time the device was recognised. */
  ghost predicate LastContact(t: seq<Event>, j: nat, upTo: nat) {
    j < upTo <= |t| && t[j].Accepted? && forall k :: j < k < upTo ==> !t[k].Accepted?
  }

  /** When last recognised, the device said it is on the network, over this endpoint, which is not its hotspot. */
  ghost predicate ReachedOff(t: seq<Event>, start: nat, upTo: nat, ssid: string, endpoint: Endpoint,
      hotspotAddress: nat) {
    !OnHotspot(endpoint.network, hotspotAddress) && LastReport(t, start, upTo, ssid, endpoint)
  }

  ghost predicate LastReport(t: seq<Event>, start: nat, upTo: nat, ssid: string, endpoint: Endpoint) {
    exists j :: 0 <= j && LastContact(t, j, upTo) && t[j].endpoint == endpoint && JoinReport(t, start, j, ssid)
  }

  predicate OnHotspot(n: PhoneNetwork, hotspotAddress: nat) {
    n.address / 256 == hotspotAddress / 256
  }

  /** The command an event belongs to. */
  ghost predicate CommandOf(t: seq<Event>, start: nat, i: nat) {
    start < i <= |t| && t[start].Started? && forall k :: start < k < i ==> !t[k].Started?
  }

  /** The latest join before this moment had the device's word for it. */
  ghost predicate JoinedBy(t: seq<Event>, upTo: nat) {
    exists c: nat, e: nat :: JoinedIn(t, c, e, upTo)
  }

  ghost predicate JoinedIn(t: seq<Event>, c: nat, e: nat, upTo: nat) {
    && e <= upTo <= |t| && CommandOf(t, c, e) && t[c].join.Some? && JoinSeen(t, c, e, t[c].join.value.network.ssid)
    && forall k :: c < k < upTo && t[k].Started? ==> t[k].join.None?
  }

  /** What an event may claim, or ask for, from what came before it. */
  ghost predicate HonestAt(t: seq<Event>, i: nat, hotspotAddress: nat)
    requires i < |t|
  {
    match t[i]
    case Published(s, held, start) =>
      && CommandOf(t, start, i)
      && held == Outstanding(t[..i])
      && (s.stage in {DeviceList, Stage.Done, Stage.Failed} ==> held == {})
      && (s.joined ==> JoinedBy(t, i))
      && (t[start].join.Some? && s.joined ==> JoinSeen(t, start, i, t[start].join.value.network.ssid))
      && (s.stage in {Sending, Joining, Stage.Done} ==> s.device.info == InHand(t[..i]).info)
      && (s.stage == Joining ==> i > 0 && t[i - 1].Sent?)
      && (s.stage == Finding ==> LeftSeen(t, start, i))
      && (s.stage == Networks ==> i > 0 && t[i - 1].ScanRead? && t[i - 1].found == Some(s.networks))
      && (s.stage == Failed ==> Reasoned(t, start, i, s.failed, s.retry, s.target, hotspotAddress))
      && (s.stage == Stage.Done ==>
            && s.joined && Joins(t[start], s.target)
            && SaveSeen(t, start, i, s.target)
            && ReachedOff(t, start, i, s.target, s.device.endpoint, hotspotAddress))
    case Accepted(info, previous, endpoint) =>
      && previous == InHand(t[..i]).info && Answered(t, i, info, previous, endpoint)
      && (SameDevice(info, previous) || (!Identified(previous) && !InHand(t[..i]).sent))
    case Posted(endpoint, keep, reply) =>
      && InHand(t[..i]).endpoint == Some(endpoint) && !InHand(t[..i]).sent && Sendable(InHand(t[..i]).join) && i > 0
      && if t[i - 1].Posted? then !keep && t[i - 1].keep && t[i - 1].reply == Answer(400)
         else keep <==> OnHotspot(endpoint.network, hotspotAddress) && InHand(t[..i]).info.keepsHotspot
    case Sent(endpoint, lost) =>
      && InHand(t[..i]).endpoint == Some(endpoint) && Sendable(InHand(t[..i]).join)
      && i > 0 && t[i - 1].Posted? && t[i - 1].endpoint == endpoint && Delivers(t[i - 1].reply, lost)
    case Listed(endpoint, _) =>
      InHand(t[..i]).endpoint == Some(endpoint) && InHand(t[..i]).info.state != NOT_SAVED &&
        InHand(t[..i]).info.state != SAVED
    case ScanAsked(endpoint, _) => InHand(t[..i]).endpoint == Some(endpoint)
    case ScanRead(endpoint, _) => InHand(t[..i]).endpoint == Some(endpoint)
    case SaveAsked(endpoint, _) => InHand(t[..i]).endpoint == Some(endpoint)
    case SaveReply(endpoint, state) =>
      && InHand(t[..i]).endpoint == Some(endpoint) && CONNECTED <= state <= 64
      && i > 0 && t[i - 1] == SaveAsked(endpoint, Answer(200))
    case Requested(id) => Outstanding(t[..i]) == {}
    case Released(id) => id in Outstanding(t[..i])
    case _ => true
  }

  ghost predicate Honest(t: seq<Event>, hotspotAddress: nat) {
    forall i :: 0 <= i < |t| ==> HonestAt(t, i, hotspotAddress)
  }

  /** Events of a command in progress. */
  ghost predicate Observed(before: seq<Event>, after: seq<Event>) {
    before <= after && forall k :: |before| <= k < |after| ==> !after[k].Started?
  }

  /** Events among which the device was not recognised. */
  ghost predicate Unseen(before: seq<Event>, after: seq<Event>) {
    Observed(before, after) && forall k :: |before| <= k < |after| ==> !after[k].Accepted?
  }

  /** Events that leave the device in hand, and what is known of its saving, as they were. */
  ghost predicate Unmoved(before: seq<Event>, after: seq<Event>) {
    && Unseen(before, after)
    && forall k :: |before| <= k < |after| ==>
      !after[k].Sent? && !after[k].SaveReply? && !after[k].SaveAsked? && !after[k].Listed?
  }

  lemma UnmovedOn(a: seq<Event>, b: seq<Event>, c: seq<Event>)
    requires Unmoved(a, b) && Unmoved(b, c)
    ensures Unmoved(a, c)
  {
    forall k | |a| <= k < |b| ensures c[k] == b[k] { }
  }

  lemma UnmovedByAnswer(t: seq<Event>, e: Event, last: Event)
    requires e.Saw? || e.Silent?
    ensures Unmoved(t, t + [e]) && (t + [e, last])[..|t| + 1] == t + [e]
  {
  }

  lemma {:induction false} HandStays(before: seq<Event>, after: seq<Event>)
    requires Unmoved(before, after)
    ensures InHand(after) == InHand(before)
    decreases |after|
  {
    if |after| > |before| {
      var n := |after| - 1;
      HandStays(before, after[..n]);
    } else {
      assert after == before;
    }
  }

  /** An answer since the device was last left as it was is a fresh one. */
  lemma SeenIsFresh(before: seq<Event>, after: seq<Event>, info: Info, endpoint: Endpoint)
    requires Unmoved(before, after) && SeenSince(after, |before|, info, endpoint)
    ensures WasSeen(after, |after|, info, endpoint)
  {
  }

  /** What was recognised is what was kept of the answer. */
  predicate KeptFrom(e: Event, answer: Event) {
    && e.Accepted? && answer.Saw? && answer.endpoint == e.endpoint
    && (e.info == answer.info || e.info == answer.info.(publicKey := e.previous.publicKey))
  }

  lemma AnswerStays(t: seq<Event>, longer: seq<Event>, upTo: nat, info: Info, previous: Info, endpoint: Endpoint)
    requires t <= longer && Answered(t, upTo, info, previous, endpoint)
    ensures Answered(longer, upTo, info, previous, endpoint)
  {
    var raw: Info :| WasSeen(t, upTo, raw, endpoint) && (info == raw || info == raw.(publicKey := previous.publicKey));
    var j :| 0 <= j < upTo <= |t| && t[j] == Saw(raw, endpoint) && forall k :: j < k < upTo ==>
      !t[k].Started? && !t[k].Sent?;
    assert longer[j] == t[j];
    assert WasSeen(longer, upTo, raw, endpoint);
  }

  /** The endpoint in hand is that of the last contact in the command. */
  lemma {:induction false} HandContact(t: seq<Event>, start: nat, upTo: nat, endpoint: Endpoint) returns (c: nat)
    requires CommandOf(t, start, upTo) && InHand(t[..upTo]).endpoint == Some(endpoint)
    ensures start < c && LastContact(t, c, upTo) && t[c].endpoint == endpoint
    decreases upTo
  {
    var n := upTo - 1;
    assert t[..upTo][..n] == t[..n] && t[..upTo][n] == t[n];
    if t[n].Accepted? { c := n; } else { c := HandContact(t, start, n, endpoint); }
  }

  lemma JoinedStays(t: seq<Event>, longer: seq<Event>, upTo: nat, upTo': nat)
    requires t <= longer && upTo <= upTo' <= |longer| && JoinedBy(t, upTo)
    requires forall k :: upTo <= k < upTo' && longer[k].Started? ==> longer[k].join.None?
    ensures JoinedBy(longer, upTo')
  {
    hide JoinSeen;
    var c: nat, e: nat :| JoinedIn(t, c, e, upTo);
    JoinStays(t, longer, c, e, e, t[c].join.value.network.ssid);
    assert JoinedIn(longer, c, e, upTo');
  }

  lemma JoinIsBy(t: seq<Event>, start: nat, ssid: string)
    requires CommandOf(t, start, |t|) && Joins(t[start], ssid) && JoinSeen(t, start, |t|, ssid)
    ensures JoinedBy(t, |t|)
  {
    assert JoinedIn(t, start, |t|, |t|);
  }

  /** At no moment are there two requests. */
  lemma {:induction false} AtMostOneRequest(t: seq<Event>, i: nat, hotspotAddress: nat)
    requires Honest(t, hotspotAddress) && i <= |t|
    ensures |Outstanding(t[..i])| <= 1
    decreases i
  {
    hide SameDevice, OnHotspot, JoinSeen, SaveSeen, ReachedOff, WasSeen, InHand, JoinedBy, Answered;
    if i > 0 {
      AtMostOneRequest(t, i - 1, hotspotAddress);
      assert HonestAt(t, i - 1, hotspotAddress);
      assert t[..i] == t[..i - 1] + [t[i - 1]];
      OutstandingAfter(t[..i - 1], t[i - 1]);
      var before, e := Outstanding(t[..i - 1]), t[i - 1];
      assert e.Released? ==> before - {e.id} <= before;
    }
  }

  /** The same prefix gives the same evidence. */
  lemma JoinReportStays(t: seq<Event>, longer: seq<Event>, start: nat, j: nat, ssid: string)
    requires t <= longer && JoinReport(t, start, j, ssid)
    ensures JoinReport(longer, start, j, ssid)
  {
    var s :| start < s < j <= |t| && t[s].Sent?;
    assert longer[s] == t[s] && longer[j] == t[j];
  }

  lemma JoinStays(t: seq<Event>, longer: seq<Event>, start: nat, i: nat, upTo: nat, ssid: string)
    requires t <= longer && i <= upTo <= |longer| && JoinSeen(t, start, i, ssid)
    ensures JoinSeen(longer, start, upTo, ssid)
  {
    hide JoinReport;
    var j :| 0 <= j < i <= |t| && JoinReport(t, start, j, ssid);
    JoinReportStays(t, longer, start, j, ssid);
  }

  lemma SaysLeftSame(t: seq<Event>, longer: seq<Event>, start: nat, k: nat)
    requires t <= longer && k < |t|
    ensures SaysLeft(t, start, k) <==> SaysLeft(longer, start, k)
  {
    assert longer[k] == t[k];
    if SentBefore(t, start, k) { var s :| start < s < k && t[s].Sent?; assert longer[s].Sent?; }
    if SentBefore(longer, start, k) { var s :| start < s < k && longer[s].Sent?; assert t[s].Sent?; }
  }

  lemma LeftSame(t: seq<Event>, longer: seq<Event>, start: nat, upTo: nat)
    requires t <= longer && upTo <= |t|
    ensures LeftSeen(t, start, upTo) <==> LeftSeen(longer, start, upTo)
  {
    hide SaysLeft;
    forall k: nat | k < upTo { SaysLeftSame(t, longer, start, k); }
    if LeftSeen(t, start, upTo) { var k :| 0 <= k < upTo && SaysLeft(t, start, k); assert SaysLeft(longer, start, k); }
    if LeftSeen(longer, start, upTo) { var k :| 0 <= k < upTo &&
      SaysLeft(longer, start, k); assert SaysLeft(t, start, k); }
  }

  /** Signs that the device left are counted event by event. */
  lemma LeftGrows(t: seq<Event>, e: Event, start: nat)
    ensures LeftSeen(t + [e], start, |t| + 1) <==> LeftSeen(t, start, |t|) || SaysLeft(t + [e], start, |t|)
  {
    hide SaysLeft;
    LeftSame(t, t + [e], start, |t|);
    if LeftSeen(t + [e], start, |t| + 1) {
      var k :| 0 <= k < |t| + 1 && SaysLeft(t + [e], start, k);
      if k < |t| { assert LeftSeen(t + [e], start, |t|); }
    }
  }

  lemma FailureSame(t: seq<Event>, longer: seq<Event>, start: nat, upTo: nat, retry: bool)
    requires t <= longer && upTo <= |t|
    ensures FailureSeen(t, start, upTo, retry) ==> FailureSeen(longer, start, upTo, retry)
  {
    hide FailedState;
    if FailureSeen(t, start, upTo, retry) {
      var k :| 0 <= k && LastContact(t, k, upTo) && ReportsFailure(t, start, k, retry);
      var s :| start < s < k && t[s].Sent?;
      assert longer[s] == t[s] && longer[k] == t[k];
      assert LastContact(longer, k, upTo) && ReportsFailure(longer, start, k, retry);
    }
  }

  /** Events that are no sign of leaving and no contact. */
  ghost predicate Aside(before: seq<Event>, after: seq<Event>) {
    before <= after && forall k :: |before| <= k < |after| ==>
      !after[k].Accepted? && !after[k].Sent? && !after[k].Silent?
  }

  lemma {:induction false} LeftAside(before: seq<Event>, after: seq<Event>, start: nat)
    requires Aside(before, after)
    ensures LeftSeen(after, start, |after|) <==> LeftSeen(before, start, |before|)
    decreases |after|
  {
    hide LeftSeen;
    if |after| > |before| {
      var n := |after| - 1;
      LeftAside(before, after[..n], start);
      LeftGrows(after[..n], after[n], start);
      assert after[..n] + [after[n]] == after;
    } else {
      assert after == before;
    }
  }

  lemma FailureAside(before: seq<Event>, after: seq<Event>, start: nat, retry: bool)
    requires Aside(before, after) && JoinFailed(before, start, |before|, retry)
    ensures JoinFailed(after, start, |after|, retry)
  {
    hide LeftSeen, ReportsFailure;
    LeftAside(before, after, start);
    if FailureSeen(before, start, |before|, retry) {
      FailureSame(before, after, start, |before|, retry);
      var k :| 0 <= k && LastContact(after, k, |before|) && ReportsFailure(after, start, k, retry);
      assert LastContact(after, k, |after|);
    }
  }

  lemma LeftStays(before: seq<Event>, after: seq<Event>, start: nat)
    requires before <= after && LeftSeen(before, start, |before|)
    ensures LeftSeen(after, start, |after|)
  {
    hide SaysLeft;
    LeftSame(before, after, start, |before|);
    var k :| 0 <= k < |before| && SaysLeft(after, start, k);
  }

  lemma SaveStays(t: seq<Event>, longer: seq<Event>, start: nat, i: nat, upTo: nat, ssid: string)
    requires t <= longer && i <= upTo <= |longer| && SaveSeen(t, start, i, ssid)
    ensures SaveSeen(longer, start, upTo, ssid)
  {
    hide JoinSeen;
    var k :| 0 <= k < i <= |t| && SaveReport(t, start, k, ssid);
    JoinStays(t, longer, start, k, k, ssid);
    assert SaveReport(longer, start, k, ssid);
  }

  /** The last report stays the last one while the device is not recognised again. */
  lemma ReportStays(t: seq<Event>, longer: seq<Event>, start: nat, ssid: string, endpoint: Endpoint)
    requires Unseen(t, longer) && LastReport(t, start, |t|, ssid, endpoint)
    ensures LastReport(longer, start, |longer|, ssid, endpoint)
  {
    hide JoinReport;
    var j :| 0 <= j && LastContact(t, j, |t|) && t[j].endpoint == endpoint && JoinReport(t, start, j, ssid);
    JoinReportStays(t, longer, start, j, ssid);
    assert LastContact(longer, j, |longer|);
  }

  /** Evidence is never lost as the history grows. */
  lemma EvidenceStays(before: seq<Event>, after: seq<Event>, start: nat, ssid: string)
    requires Observed(before, after)
    ensures JoinedBy(before, |before|) ==> JoinedBy(after, |after|)
    ensures JoinSeen(before, start, |before|, ssid) ==> JoinSeen(after, start, |after|, ssid)
    ensures SaveSeen(before, start, |before|, ssid) ==> SaveSeen(after, start, |after|, ssid)
  {
    hide JoinSeen, SaveSeen, JoinedBy;
    if JoinedBy(before, |before|) { JoinedStays(before, after, |before|, |after|); }
    if JoinSeen(before, start, |before|, ssid) { JoinStays(before, after, start, |before|, |after|, ssid); }
    if SaveSeen(before, start, |before|, ssid) { SaveStays(before, after, start, |before|, |after|, ssid); }
  }

  lemma HonestGrows(t: seq<Event>, e: Event, hotspotAddress: nat)
    requires Honest(t, hotspotAddress) && HonestAt(t + [e], |t|, hotspotAddress)
    ensures Honest(t + [e], hotspotAddress)
  {
    hide HonestAt;
    forall i | 0 <= i < |t| ensures HonestAt(t + [e], i, hotspotAddress) {
      HonestStays(t, t + [e], i, hotspotAddress);
    }
  }

  lemma HonestStays(t: seq<Event>, longer: seq<Event>, i: nat, hotspotAddress: nat)
    requires t <= longer && i < |t| && HonestAt(t, i, hotspotAddress)
    ensures HonestAt(longer, i, hotspotAddress)
  {
    hide OnTarget, SameDevice, OnHotspot, JoinSeen, SaveSeen, ReachedOff, InHand, JoinedBy, Answered, Identified,
      LeftSeen, Sendable,
      Reasoned;
    assert longer[..i] == t[..i];
    if i > 0 { assert longer[i - 1] == t[i - 1]; }
    match t[i]
    case Published(s, held, start) =>
      LeftSame(t, longer, start, i);
      if s.stage == Failed { ReasonSame(t, longer, start, i, s.failed, s.retry, s.target, hotspotAddress); }
      if s.joined { JoinedStays(t, longer, i, i); }
      if t[start].join.Some? && s.joined { JoinStays(t, longer, start, i, i, t[start].join.value.network.ssid); }
      if s.stage == Stage.Done {
        SaveStays(t, longer, start, i, i, s.target);
        ReachedStays(t, longer, start, i, s.target, s.device.endpoint, hotspotAddress);
      }
    case Accepted(info, previous, endpoint) => AnswerStays(t, longer, i, info, previous, endpoint);
    case _ =>
  }

  lemma ReachedStays(t: seq<Event>, longer: seq<Event>, start: nat, i: nat, ssid: string, endpoint: Endpoint,
      hotspotAddress: nat)
    requires t <= longer && i <= |t| && ReachedOff(t, start, i, ssid, endpoint, hotspotAddress)
    ensures ReachedOff(longer, start, i, ssid, endpoint, hotspotAddress)
  {
    hide JoinReport;
    var j :| 0 <= j && LastContact(t, j, i) && t[j].endpoint == endpoint && JoinReport(t, start, j, ssid);
    JoinReportStays(t, longer, start, j, ssid);
    assert LastContact(longer, j, i);
  }
}
