/** What `get_by_name` returns after `set`: the peers that were set, each with the allowed IPs that no later peer took
    over, however the messages and the dump were split. */
module SetThenGet {
  import opened Applying
  import opened Coalesce
  import opened Device
  import opened Effects
  import opened Flags
  import opened Fragments
  import opened Keys
  import opened Meaning
  import opened Netlink
  import opened Outcomes
  import opened Owners
  import opened Parsed
  import opened PeerParsed
  import opened PeerRoundTrip
  import opened Reassembly
  import opened RetryKept
  import opened Sequences
  import opened Turns
  import opened Wrappers

  function RouteOf(ip: IpConfig): Route {
    Route(ip.ipAddr, ip.prefixLength)
  }

  function RoutesIn(ips: seq<IpConfig>): seq<Route> {
    Map(RouteOf, ips)
  }

  function IpsIn(p: PeerConfig): seq<IpConfig> {
    if p.allowedIps.Some? then p.allowedIps.value else []
  }

  /** The allowed IPs of a peer, without their flags. */
  function RoutesOf(p: PeerConfig): seq<Route> {
    RoutesIn(IpsIn(p))
  }

  /* What the device holds */

  /** The entry of the peer adds: it neither removes its peer nor allowed IPs, and does not depend on whether the peer
      is there. */
  ghost predicate Adds(p: PeerConfig) {
    && !(REMOVE_ME <= FlagBits(p)) && !(UPDATE_ONLY <= FlagBits(p))
    && forall i :: 0 <= i < |IpsIn(p)| ==>
         !(IpsIn(p)[i].flags.Some? && REMOVE_IP <= IpBits(IpsIn(p)[i].flags.value))
  }

  ghost predicate AllAdd(peers: seq<PeerConfig>) {
    forall i :: 0 <= i < |peers| ==> Adds(peers[i])
  }

  lemma SoundPrefixes(p: PeerConfig)
    requires PeerFault(p).None?
    ensures forall i :: 0 <= i < |IpsIn(p)| ==> ValidPrefix(IpsIn(p)[i])
  {
    hide DecodeKey;
  }

  lemma AddsItsRoutes(p: PeerConfig, r: Route)
    requires PeerFault(p).None? && Adds(p)
    ensures (Gives(BuiltIps(p), r) <==> r in RoutesOf(p)) && !Takes(BuiltIps(p), r)
  {
    hide BuildIp, GivesIp, TakesIp, PeerFault, ValidPrefix;
    SoundPrefixes(p);
    var ips, built := IpsIn(p), BuiltIps(p);
    assert |built| == |ips|;
    forall i | 0 <= i < |ips|
      ensures (GivesIp(built[i], r) <==> RoutesOf(p)[i] == r) && !TakesIp(built[i], r)
    {
      BuiltIpGives(ips[i], r);
      assert RoutesOf(p)[i] == RouteOf(ips[i]);
    }
  }

  lemma AddingActs(d: Device, p: PeerConfig)
    requires PeerFault(p).None? && Adds(p)
    ensures Effective(d, p) == WholeFieldsOf(p) && Acts(d, Effective(d, p))
    ensures WholeFieldsOf(p).key == Some(PeerKey(p)) && WholeFieldsOf(p).ips == BuiltIps(p)
  {
    hide PeerFault, PeerKey, WholeFieldsOf, BuiltIps, Chunks, StateOf, FlagBits;
    WholeFieldsAre(p);
  }

  /** On a device without peers, every peer is there afterwards with its properties, and no other one. */
  lemma PeersAreSet(d: Device, peers: seq<PeerConfig>, key: Key)
    requires AllSound(peers) && DistinctKeys(peers) && AllAdd(peers) && d.peers == map[]
    ensures forall i :: 0 <= i < |peers| && PeerKey(peers[i]) == key ==>
              PeerAt(Applied(d, peers), key) == Some(StateOf(peers[i]))
    ensures key in Applied(d, peers).peers <==> exists i :: 0 <= i < |peers| && PeerKey(peers[i]) == key
  {
    hide PeerFault, PeerKey, WholeFieldsOf, BuiltIps, StateOf, FlagBits, ApplyAll, Effective, Adds, DistinctKeys,
         Update;
    var fs := Effectives(d, peers);
    EffectivesAreOneEach(d, peers);
    forall i | 0 <= i < |peers|
      ensures fs[i].key == Some(PeerKey(peers[i]))
      ensures PeerKey(peers[i]) == key ==> PeerAt(ApplyAll(d, fs), key) == Some(StateOf(peers[i]))
    {
      EffectiveKey(d, peers[i]);
      if PeerKey(peers[i]) == key {
        PeerAfterAll(d, fs, i);
        AddingSets(d, peers[i]);
      }
    }
    if forall i :: 0 <= i < |peers| ==> PeerKey(peers[i]) != key {
      OthersKeepPeer(d, fs, key);
    }
  }

  lemma AddingSets(d: Device, p: PeerConfig)
    requires PeerFault(p).None? && Adds(p)
    ensures StateAfter(Effective(d, p), None) == Some(StateOf(p))
  {
    hide PeerFault, PeerKey, WholeFieldsOf, BuiltIps, StateOf, FlagBits, Update, Lost;
    AddingActs(d, p);
    WholeFieldsAre(p);
    NothingUpdates(StateOf(p));
  }

  /** The last peer that names an allowed IP owns it. */
  lemma RoutesAreSet(d: Device, peers: seq<PeerConfig>, i: nat, r: Route)
    requires AllSound(peers) && DistinctKeys(peers) && AllAdd(peers) && i < |peers|
    requires d.peers == map[] && d.routes == map[]
    ensures Owner(Applied(d, peers), r) == Some(PeerKey(peers[i]))
            <==> r in RoutesOf(peers[i]) && forall j :: i < j < |peers| ==> r !in RoutesOf(peers[j])
  {
    hide PeerFault, PeerKey, ApplyAll, Effective, Adds, DistinctKeys, GivesIn, RoutesOf, Keeps;
    var fs := Effectives(d, peers);
    EffectivesAreOneEach(d, peers);
    forall j | 0 <= j < |peers|
      ensures fs[j].key == Some(PeerKey(peers[j]))
      ensures GivesIn(KeysOn(d), fs, j, r) <==> r in RoutesOf(peers[j])
      ensures r in RoutesOf(peers[j]) ==> Keeps(fs, j, r)
    {
      AddedRoute(d, peers, j, r);
    }
    if k :| 0 <= k < |peers| && r in RoutesOf(peers[k]) {
      assert GivesIn(KeysOn(d), fs, k, r);
      SomeGivesLast(KeysOn(d), fs, r, k);
      var last :| k <= last && LastGives(KeysOn(d), fs, last, r);
      LastGiverDecides(d, fs, last, r);
    } else {
      OwnerWithoutGivers(d, fs, 0, |fs|, r);
      AfterNone(d, fs);
    }
  }

  lemma AddedRoute(d: Device, peers: seq<PeerConfig>, j: nat, r: Route)
    requires AllSound(peers) && DistinctKeys(peers) && AllAdd(peers) && j < |peers|
    ensures var fs := Effectives(d, peers);
            && fs[j].key == Some(PeerKey(peers[j]))
            && (GivesIn(KeysOn(d), fs, j, r) <==> r in RoutesOf(peers[j]))
            && (r in RoutesOf(peers[j]) ==> Keeps(fs, j, r))
  {
    hide PeerFault, PeerKey, WholeFieldsOf, BuiltIps, StateOf, Effective, DistinctKeys, Gives, Takes, RoutesOf, Drops,
         FlagBits, AllAdd;
    var fs, p := Effectives(d, peers), peers[j];
    EffectivesAreOneEach(d, peers);
    assert Adds(p) by { AddsEach(peers, j); }
    AddingActs(d, p);
    WholeFieldsAre(p);
    AddsItsRoutes(p, r);
    if r in RoutesOf(p) { GivenForGood(None, PeerKey(p), BuiltIps(p), r); }
  }

  lemma AddsEach(peers: seq<PeerConfig>, j: nat)
    requires AllAdd(peers) && j < |peers|
    ensures Adds(peers[j])
  {}

  /* A dump of everything */

  /** The preshared key that is shown; a key of zeros is none. */
  function ShownSecret(key: Option<Key>): Option<string> {
    if key.Some? && key.value != ZeroKey() then Some(KeyText(key.value)) else None
  }

  /** What is read of an entry is what a device would see in it. Handshakes are left out. */
  ghost predicate ReadAsSeen(f: Fields, p: PeerConfig) {
    && p.publicKey == (if f.key.Some? then Some(KeyText(f.key.value)) else None)
    && p.endpoint == f.state.endpoint
    && p.presharedKey == ShownSecret(f.state.presharedKey)
    && p.persistentKeepalive == f.state.keepalive
    && p.rxBytes == f.state.rx && p.txBytes == f.state.tx
    && p.protocolVersion == f.state.version
    && IpsIn(p) == ReadIps(f.ips)
  }

  lemma AttrIsReadAsSeen(f: Fields, p: PeerConfig, a: PeerAttr)
    requires ReadAsSeen(f, p)
    ensures ReadAsSeen(SetField(f, a), ReadPeerAttr(p, a))
  {
    hide KeyText, ReadIps, PeerFlagList, ReadTime, IsZeroKey, ZeroKey;
    if a.PresharedKey? { OneZeroKey(a.key); }
  }

  lemma {:induction false} EntryIsReadAsSeen(f: Fields, p: PeerConfig, attrs: seq<PeerAttr>)
    requires ReadAsSeen(f, p)
    ensures ReadAsSeen(Fold(SetField, f, attrs), Fold(ReadPeerAttr, p, attrs))
    decreases |attrs|
  {
    hide ReadAsSeen, SetField, ReadPeerAttr;
    if attrs != [] {
      AttrIsReadAsSeen(f, p, attrs[0]);
      EntryIsReadAsSeen(SetField(f, attrs[0]), ReadPeerAttr(p, attrs[0]), attrs[1..]);
    }
  }

  lemma NothingIsSeen()
    ensures ReadAsSeen(NO_FIELDS, NO_PEER)
  {
    assert Map(ReadValidIp, []) == [];
  }

  /** The entry shows the peer: its properties and all its allowed IPs, each of them once. */
  ghost predicate ShowsPeer(d: Device, key: Key, e: Peer) {
    var f := FieldsOf(e);
    && key in d.peers && f.key == Some(key)
    && f.state.endpoint == d.peers[key].endpoint
    && ShownSecret(f.state.presharedKey) == ShownSecret(d.peers[key].presharedKey)
    && f.state.keepalive == d.peers[key].keepalive
    && forall r: Route :: multiset(RoutesIn(ReadIps(f.ips)))[r] == if Owner(d, r) == Some(key) then 1 else 0
  }

  /** A complete dump of the device: there is an entry for every peer, entries may be cut, and may be spread in any way
      over the messages. */
  ghost predicate IsFullDump(messages: seq<Message>, d: Device, keys: seq<Key>, ts: seq<Transmission>) {
    && |keys| == |ts|
    && Distinct(keys)
    && (forall key :: key in d.peers <==> key in keys)
    && (forall i :: 0 <= i < |ts| ==> ts[i].Valid() && ShowsPeer(d, keys[i], ts[i].Whole()))
    && Entries(AllAttrs(messages)) == Flatten(AllParts(ts))
  }

  ghost function AllParts(ts: seq<Transmission>): seq<seq<Peer>>
    requires forall i :: 0 <= i < |ts| ==> ts[i].Valid()
  {
    seq(|ts|, i requires 0 <= i < |ts| && ts[i].Valid() => ts[i].Parts())
  }

  ghost function AllWholes(ts: seq<Transmission>): seq<Peer>
    requires forall i :: 0 <= i < |ts| ==> ts[i].Valid()
  {
    seq(|ts|, i requires 0 <= i < |ts| && ts[i].Valid() => ts[i].Whole())
  }

  /** A peer of the device as it is read. */
  ghost predicate IsReadOf(d: Device, key: Key, p: PeerConfig) {
    && key in d.peers
    && p.publicKey == Some(KeyText(key))
    && p.endpoint == d.peers[key].endpoint
    && p.presharedKey == ShownSecret(d.peers[key].presharedKey)
    && p.persistentKeepalive == d.peers[key].keepalive
    && forall r: Route :: multiset(RoutesOf(p))[r] == if Owner(d, r) == Some(key) then 1 else 0
  }

  lemma ShownIsRead(d: Device, key: Key, e: Peer)
    requires ShowsPeer(d, key, e)
    ensures IsReadOf(d, key, ReadPeer(e))
  {
    hide KeyText, ReadIps, Owner, RoutesIn;
    NothingIsSeen();
    EntryIsReadAsSeen(NO_FIELDS, NO_PEER, e.attrs);
  }

  lemma WholesAreRead(messages: seq<Message>, ts: seq<Transmission>)
    requires forall i :: 0 <= i < |ts| ==> ts[i].Valid()
    requires Entries(AllAttrs(messages)) == Flatten(AllParts(ts))
    ensures PeersOf(ReadMessages(messages)) == Coalesced(Map(ReadPeer, AllWholes(ts)))
  {
    hide ReadPeer, PushPeer, Pieces, Piece;
    var wholes, parts := AllWholes(ts), AllParts(ts);
    PeersRead(AllAttrs(messages));
    if exists a <- AllAttrs(messages) :: a.Peers? {
      var meant := [Message(GetDevice, [Peers(wholes)])];
      assert AllAttrs(meant) == [Peers(wholes)] && Entries([Peers(wholes)]) == wholes by {
        AllAttrsSnoc([], meant[0]);
        assert [] + meant == meant && AllAttrs([]) == [];
        EntriesSnoc([], Peers(wholes));
        assert [] + [Peers(wholes)] == [Peers(wholes)] && Entries([]) == [];
      }
      assert AllAttrs(meant)[0].Peers?;
      FragmentationIndependence(ts, wholes, parts, messages, meant);
      PeersRead(AllAttrs(meant));
    } else {
      NoEntries(AllAttrs(messages));
      if ts != [] {
        assert Flatten(parts) == parts[0] + Flatten(parts[1..]);
        PartsAreSome(ts[0]);
      }
      assert Map(ReadPeer, wholes) == [];
    }
  }

  lemma PartsAreSome(t: Transmission)
    requires t.Valid()
    ensures t.Parts() != []
  {}

  /** A complete dump reads as one peer for every peer of the device. */
  lemma FullDumpIsRead(messages: seq<Message>, d: Device, keys: seq<Key>, ts: seq<Transmission>)
    requires IsFullDump(messages, d, keys, ts)
    ensures var got := PeersOf(ReadMessages(messages));
            |got| == |keys| && forall i :: 0 <= i < |keys| ==> IsReadOf(d, keys[i], got[i])
  {
    hide ReadPeer, PushPeer, KeyText, ReadMessages, Owner, ShowsPeer, RoutesOf, Entries, AllAttrs;
    var read := Map(ReadPeer, AllWholes(ts));
    WholesAreRead(messages, ts);
    forall i | 0 <= i < |keys|
      ensures IsReadOf(d, keys[i], read[i])
    {
      ShownIsRead(d, keys[i], ts[i].Whole());
    }
    forall i, j | 0 <= i < j < |read| && j == i + 1
      ensures !SamePeer(read[i], read[j])
    {
      KeyTextRoundTrip(keys[i]);
      KeyTextRoundTrip(keys[j]);
    }
    CoalescedIsIdentity(read);
  }

  lemma {:induction false} Enumerate<T>(all: set<T>) returns (xs: seq<T>)
    ensures Distinct(xs) && forall x :: x in xs <==> x in all
    decreases |all|
  {
    if all == {} {
      xs := [];
    } else {
      var x :| x in all;
      var rest := Enumerate(all - {x});
      xs := [x] + rest;
    }
  }

  function PlainIp(r: Route): IpConfig {
    IpConfig(r.prefix, r.addr, None)
  }

  lemma PeerCanBeShown(d: Device, key: Key) returns (e: Peer)
    requires key in d.peers
    ensures ShowsPeer(d, key, e)
  {
    hide KeyText, DecodeKey, KeyOf, BuildPeer, FieldsOf, BuildIp, ReadIps, NormalIp, StateAttrs;
    var state := d.peers[key];
    var routes := Enumerate(set r | r in d.routes && d.routes[r] == key);
    var ips := Map(PlainIp, routes);
    var secret := if state.presharedKey.Some? then Some(KeyText(state.presharedKey.value)) else None;
    var p := NO_PEER.(endpoint := state.endpoint, publicKey := Some(KeyText(key)), presharedKey := secret,
                      persistentKeepalive := state.keepalive, allowedIps := Some(ips));
    e := BuildPeer(p);
    KeyTextRoundTrip(key);
    if state.presharedKey.Some? { KeyTextRoundTrip(state.presharedKey.value); }
    WholeFields(p);
    ReadBuiltIps(ips);
    assert RoutesIn(Map(NormalIp, ips)) == routes by { PlainRoutes(routes); }
    forall r: Route
      ensures multiset(routes)[r] == if Owner(d, r) == Some(key) then 1 else 0
    {
      DistinctAreOnce(routes, r);
    }
  }

  lemma PlainRoutes(routes: seq<Route>)
    ensures RoutesIn(Map(NormalIp, Map(PlainIp, routes))) == routes
  {
    forall i | 0 <= i < |routes|
      ensures RoutesIn(Map(NormalIp, Map(PlainIp, routes)))[i] == routes[i]
    {
      assert RouteOf(NormalIp(PlainIp(routes[i]))) == routes[i];
    }
  }

  lemma {:induction false} PeersCanBeShown(d: Device, keys: seq<Key>) returns (ts: seq<Transmission>)
    requires forall key <- keys :: key in d.peers
    ensures |ts| == |keys|
    ensures forall i :: 0 <= i < |ts| ==> ts[i].Uncut? && ShowsPeer(d, keys[i], ts[i].entry)
    decreases |keys|
  {
    hide ShowsPeer;
    if keys == [] {
      ts := [];
    } else {
      var e := PeerCanBeShown(d, keys[0]);
      var rest := PeersCanBeShown(d, keys[1..]);
      ts := [Uncut(e)] + rest;
    }
  }

  /** Every device has a complete dump. */
  lemma EveryDeviceHasFullDump(d: Device) returns (messages: seq<Message>, keys: seq<Key>, ts: seq<Transmission>)
    ensures IsFullDump(messages, d, keys, ts)
  {
    hide ShowsPeer;
    keys := Enumerate(d.peers.Keys);
    ts := PeersCanBeShown(d, keys);
    var entries := AllWholes(ts);
    messages := [Message(GetDevice, [Peers(entries)])];
    AllAttrsSnoc([], messages[0]);
    assert [] + messages == messages && AllAttrs([]) == [];
    EntriesSnoc([], Peers(entries));
    assert [] + [Peers(entries)] == [Peers(entries)] && Entries([]) == [];
    OneEntryEach(ts);
  }

  lemma {:induction false} OneEntryEach(ts: seq<Transmission>)
    requires forall i :: 0 <= i < |ts| ==> ts[i].Valid() && ts[i].Uncut?
    ensures Flatten(AllParts(ts)) == AllWholes(ts)
    decreases |ts|
  {
    if ts != [] {
      OneEntryEach(ts[1..]);
      assert AllParts(ts) == [[ts[0].entry]] + AllParts(ts[1..]);
      assert AllWholes(ts) == [ts[0].entry] + AllWholes(ts[1..]);
    }
  }

  /* Whatever is set on an empty device */

  /** What the first `n` entries make of a peer that is missing. */
  function StateLeft(fs: seq<Fields>, n: nat, key: Key): Option<PeerState>
    requires n <= |fs|
  {
    if n == 0 then None
    else if fs[n - 1].key == Some(key) then StateAfter(fs[n - 1], StateLeft(fs, n - 1, key))
    else StateLeft(fs, n - 1, key)
  }

  /** The last entry that gives `r` and acts is one of the peer, which keeps it. */
  ghost predicate RouteLeft(fs: seq<Fields>, key: Key, r: Route) {
    exists i :: 0 <= i < |fs| && LastGives(iset{}, fs, i, r) && fs[i].key == Some(key) && Keeps(fs, i, r)
  }

  lemma {:induction false} EmptyThenState(d: Device, fs: seq<Fields>, n: nat, key: Key)
    requires d.peers == map[] && n <= |fs|
    ensures PeerAt(After(d, fs, n), key) == StateLeft(fs, n, key)
    ensures key in After(d, fs, n).peers <==> PresentAt(false, fs, n, key)
    decreases n
  {
    hide ApplyFields, StateAfter;
    PresenceInTurn(d, fs, n, key);
    if n == 0 {
      AfterNone(d, fs);
    } else {
      EmptyThenState(d, fs, n - 1, key);
      AfterNext(d, fs, n - 1);
      EntryPeer(After(d, fs, n - 1), fs[n - 1], key);
    }
  }

  lemma EmptyThenRoute(d: Device, fs: seq<Fields>, key: Key, r: Route)
    requires d.peers == map[] && d.routes == map[]
    ensures Owner(ApplyAll(d, fs), r) == Some(key) <==> RouteLeft(fs, key, r)
  {
    hide ApplyAll, GivesIn, Keeps;
    assert KeysOn(d) == iset{};
    if k :| 0 <= k < |fs| && GivesIn(KeysOn(d), fs, k, r) {
      SomeGivesLast(KeysOn(d), fs, r, k);
      var i :| k <= i && LastGives(KeysOn(d), fs, i, r);
      LastGiverDecides(d, fs, i, r);
      assert forall j :: LastGives(KeysOn(d), fs, j, r) ==> j == i;
    } else {
      OwnerWithoutGivers(d, fs, 0, |fs|, r);
      AfterNone(d, fs);
    }
  }

  /** What is read of a peer that the entries leave on a device without peers. */
  ghost predicate ReadsAs(fs: seq<Fields>, key: Key, p: PeerConfig) {
    var state := StateLeft(fs, |fs|, key);
    && state.Some?
    && p.publicKey == Some(KeyText(key))
    && p.endpoint == state.value.endpoint
    && p.presharedKey == ShownSecret(state.value.presharedKey)
    && p.persistentKeepalive == state.value.keepalive
    && forall r: Route :: multiset(RoutesOf(p))[r] == if RouteLeft(fs, key, r) then 1 else 0
  }

  /** For every configuration that replaces all peers, whatever its keys and flags: a complete dump after it, cut in any
      way, reads as one peer for each that its entries leave there, with the properties and the allowed IPs they leave
      it. */
  lemma EntriesComeBack(d: Device, c: Config, messages: seq<Message>, keys: seq<Key>, ts: seq<Transmission>)
    requires MessagesOf(c, SetDevice).Ok? && Addresses(c, d) && REPLACE_PEERS <= DeviceFlagBitsOf(c)
    requires IsFullDump(messages, ApplyMessages(d, MessagesOf(c, SetDevice).value), keys, ts)
    ensures var fs, got := SeenOf(c), PeersOf(ReadMessages(messages));
            && |got| == |keys| && Distinct(keys)
            && (forall key: Key :: key in keys <==> PresentAt(false, fs, |fs|, key))
            && forall i :: 0 <= i < |got| ==> ReadsAs(fs, keys[i], got[i])
  {
    hide MessagesOf, ReadMessages, DeviceFlagBitsOf, SettingsOf, ApplyMessages, Entries, AllAttrs, Addresses, Configure,
         ShowsPeer, SeenOf, ApplyAll, KeyText, RoutesOf, RouteLeft, Owner;
    var fs, d0, got := SeenOf(c), Prepared(d, c), PeersOf(ReadMessages(messages));
    RunIsApplyAll(d, c, SetDevice);
    AfterNone(d0, fs);
    var d1 := ApplyAll(d0, fs);
    FullDumpIsRead(messages, d1, keys, ts);
    forall key: Key
      ensures key in d1.peers <==> PresentAt(false, fs, |fs|, key)
    {
      EmptyThenState(d0, fs, |fs|, key);
    }
    forall i | 0 <= i < |got|
      ensures ReadsAs(fs, keys[i], got[i])
    {
      EmptyThenState(d0, fs, |fs|, keys[i]);
      assert IsReadOf(d1, keys[i], got[i]);
      forall r: Route
        ensures Owner(d1, r) == Some(keys[i]) <==> RouteLeft(fs, keys[i], r)
      {
        EmptyThenRoute(d0, fs, keys[i], r);
      }
    }
  }

  /* What was set comes back */

  /** What is read of the peer `peers[i]` after the peers were set: its allowed IPs are those that no later peer names,
      each of them once. */
  ghost predicate ComesBack(peers: seq<PeerConfig>, i: nat, p: PeerConfig)
    requires i < |peers|
  {
    && p.publicKey == peers[i].publicKey
    && p.endpoint == peers[i].endpoint
    && p.presharedKey == NormalSecret(peers[i].presharedKey)
    && p.persistentKeepalive == peers[i].persistentKeepalive
    && forall r: Route :: multiset(RoutesOf(p))[r] == if NamedLast(peers, i, r) then 1 else 0
  }

  /** The peer names `r`, and no later peer does. */
  ghost predicate NamedLast(peers: seq<PeerConfig>, i: nat, r: Route)
    requires i < |peers|
  {
    r in RoutesOf(peers[i]) && forall j :: i < j < |peers| ==> r !in RoutesOf(peers[j])
  }

  lemma SetPeerIsRead(d: Device, peers: seq<PeerConfig>, i: nat, p: PeerConfig)
    requires AllSound(peers) && DistinctKeys(peers) && AllAdd(peers) && i < |peers|
    requires d.peers == map[] && d.routes == map[]
    requires IsReadOf(Applied(d, peers), PeerKey(peers[i]), p)
    ensures ComesBack(peers, i, p)
  {
    hide Applied, AllAdd, DistinctKeys, RoutesOf, KeyText, DecodeKey, AllSound, Owner;
    var key := PeerKey(peers[i]);
    PeersAreSet(d, peers, key);
    assert PeerAt(Applied(d, peers), key) == Some(StateOf(peers[i]));
    KeysComeBack(peers, i);
    forall r: Route
      ensures multiset(RoutesOf(p))[r] == if NamedLast(peers, i, r) then 1 else 0
    {
      RoutesAreSet(d, peers, i, r);
    }
  }

  lemma KeysComeBack(peers: seq<PeerConfig>, i: nat)
    requires AllSound(peers) && i < |peers|
    ensures peers[i].publicKey == Some(KeyText(PeerKey(peers[i])))
    ensures ShownSecret(StateOf(peers[i]).presharedKey) == NormalSecret(peers[i].presharedKey)
  {
    hide KeyText, DecodeKey, IsZeroKey;
    var p := peers[i];
    KeyTextIsCanonical(p.publicKey.value);
    if p.presharedKey.Some? { KeyTextIsCanonical(p.presharedKey.value); }
  }

  ghost predicate Distinct<T>(xs: seq<T>) {
    forall i, j | 0 <= i < j < |xs| :: xs[i] != xs[j]
  }

  lemma {:induction false} DistinctAreAll<T>(xs: seq<T>)
    requires Distinct(xs)
    ensures |set x | x in xs| == |xs|
    decreases |xs|
  {
    if xs != [] {
      var x, rest := xs[0], xs[1..];
      DistinctAreAll(rest);
      assert xs == [x] + rest && x !in rest;
      assert (set y | y in xs) == {x} + (set y | y in rest);
    }
  }

  lemma {:induction false} DistinctAreOnce<T>(xs: seq<T>, x: T)
    requires Distinct(xs)
    ensures multiset(xs)[x] == if x in xs then 1 else 0
    decreases |xs|
  {
    if xs != [] {
      DistinctAreOnce(xs[1..], x);
      assert xs == [xs[0]] + xs[1..];
    }
  }

  function KeysOf(peers: seq<PeerConfig>): seq<Key> {
    Map(PeerKey, peers)
  }

  lemma SameNumber<T>(xs: seq<T>, ys: seq<T>)
    requires Distinct(xs) && Distinct(ys)
    requires forall x :: x in xs <==> x in ys
    ensures |xs| == |ys|
  {
    DistinctAreAll(xs);
    DistinctAreAll(ys);
    assert (set x | x in xs) == (set x | x in ys);
  }

  lemma KeysAreSet(d: Device, peers: seq<PeerConfig>, key: Key)
    requires AllSound(peers) && DistinctKeys(peers) && AllAdd(peers) && d.peers == map[]
    ensures key in Applied(d, peers).peers <==> key in KeysOf(peers)
  {
    hide Applied, AllAdd, DistinctKeys, PeerKey, PeerFault, StateOf;
    PeersAreSet(d, peers, key);
    if i :| 0 <= i < |peers| && PeerKey(peers[i]) == key { assert KeysOf(peers)[i] == key; }
    if key in KeysOf(peers) {
      var i :| 0 <= i < |KeysOf(peers)| && KeysOf(peers)[i] == key;
      assert PeerKey(peers[i]) == key;
    }
  }

  /** One of the peers `got` is what comes back of `peers[i]`. */
  ghost predicate IsAmong(peers: seq<PeerConfig>, i: nat, got: seq<PeerConfig>)
    requires i < |peers|
  {
    exists j :: 0 <= j < |got| && ComesBack(peers, i, got[j])
  }

  /** The peer is what comes back of one of the peers. */
  ghost predicate WasSet(peers: seq<PeerConfig>, p: PeerConfig) {
    exists i :: 0 <= i < |peers| && ComesBack(peers, i, p)
  }

  lemma ReadPeersWereSet(d: Device, peers: seq<PeerConfig>, keys: seq<Key>, got: seq<PeerConfig>)
    requires AllSound(peers) && DistinctKeys(peers) && AllAdd(peers) && d.peers == map[] && d.routes == map[]
    requires Distinct(keys)
    requires forall key :: key in Applied(d, peers).peers <==> key in keys
    requires |got| == |keys| && forall i :: 0 <= i < |keys| ==> IsReadOf(Applied(d, peers), keys[i], got[i])
    ensures |got| == |peers|
    ensures forall i :: 0 <= i < |peers| ==> IsAmong(peers, i, got)
    ensures forall j :: 0 <= j < |got| ==> WasSet(peers, got[j])
  {
    hide Applied, AllAdd, ComesBack, PeerFault, PeerKey, IsReadOf;
    forall key: Key
      ensures key in KeysOf(peers) <==> key in keys
    {
      KeysAreSet(d, peers, key);
    }
    SameNumber(KeysOf(peers), keys);
    forall i | 0 <= i < |peers|
      ensures IsAmong(peers, i, got)
    {
      assert KeysOf(peers)[i] in keys;
      var j :| 0 <= j < |keys| && keys[j] == KeysOf(peers)[i];
      SetPeerIsRead(d, peers, i, got[j]);
    }
    forall j | 0 <= j < |got|
      ensures WasSet(peers, got[j])
    {
      assert keys[j] in KeysOf(peers);
      var i :| 0 <= i < |peers| && KeysOf(peers)[i] == keys[j];
      SetPeerIsRead(d, peers, i, got[j]);
    }
  }

  /** A device whose peers are all replaced by distinct peers: every complete dump of it, however it is cut, reads as
      one peer for each of them, and none else, with what was set. */
  lemma SetPeersComeBack(d: Device, c: Config, messages: seq<Message>, keys: seq<Key>, ts: seq<Transmission>)
    requires MessagesOf(c, SetDevice).Ok? && Addresses(c, d) && REPLACE_PEERS <= DeviceFlagBitsOf(c)
    requires DistinctKeys(PeersOf(c)) && AllAdd(PeersOf(c))
    requires IsFullDump(messages, ApplyMessages(d, MessagesOf(c, SetDevice).value), keys, ts)
    ensures var peers, got := PeersOf(c), PeersOf(ReadMessages(messages));
            && |got| == |peers|
            && (forall i :: 0 <= i < |peers| ==> IsAmong(peers, i, got))
            && forall j :: 0 <= j < |got| ==> WasSet(peers, got[j])
  {
    hide MessagesOf, Applied, AllAdd, ReadMessages, DeviceFlagBitsOf, SettingsOf, ApplyMessages, PeerFault, PeerKey,
         Entries, AllAttrs, IsReadOf, Addresses, Configure, IsAmong, WasSet, DistinctKeys, ShowsPeer;
    var peers, d0 := PeersOf(c), Prepared(d, c);
    AcceptedIffSound(c, SetDevice);
    RunIsApplied(d, c, SetDevice);
    FullDumpIsRead(messages, Applied(d0, peers), keys, ts);
    ReadPeersWereSet(d0, peers, keys, PeersOf(ReadMessages(messages)));
  }

  /** One peer with any number of different allowed IPs comes back as one peer with all of them. */
  lemma OnePeerComesBack(d: Device, c: Config, messages: seq<Message>, keys: seq<Key>, ts: seq<Transmission>,
                         p: PeerConfig)
    requires MessagesOf(c, SetDevice).Ok? && Addresses(c, d) && REPLACE_PEERS <= DeviceFlagBitsOf(c)
    requires PeersOf(c) == [p] && Adds(p)
    requires Distinct(RoutesOf(p))
    requires IsFullDump(messages, ApplyMessages(d, MessagesOf(c, SetDevice).value), keys, ts)
    ensures var got := PeersOf(ReadMessages(messages));
            && |got| == 1 && got[0].publicKey == p.publicKey
            && |IpsIn(got[0])| == |IpsIn(p)| && multiset(RoutesOf(got[0])) == multiset(RoutesOf(p))
  {
    hide MessagesOf, Adds, ReadMessages, DeviceFlagBitsOf, IsFullDump, Addresses, ApplyMessages, RoutesOf, IpsIn;
    SetPeersComeBack(d, c, messages, keys, ts);
    var q := PeersOf(ReadMessages(messages))[0];
    assert IsAmong([p], 0, [q]) by { assert PeersOf(ReadMessages(messages)) == [q]; }
    forall r: Route
      ensures multiset(RoutesOf(q))[r] == multiset(RoutesOf(p))[r]
    {
      assert NamedLast([p], 0, r) <==> r in RoutesOf(p);
      DistinctAreOnce(RoutesOf(p), r);
    }
    assert multiset(RoutesOf(q)) == multiset(RoutesOf(p));
    SameSize(RoutesOf(q), RoutesOf(p));
    RoutesOfAll(p);
    RoutesOfAll(q);
  }

  lemma SameSize<T>(xs: seq<T>, ys: seq<T>)
    requires multiset(xs) == multiset(ys)
    ensures |xs| == |ys|
  {
    assert |multiset(xs)| == |xs| && |multiset(ys)| == |ys|;
  }

  lemma RoutesOfAll(p: PeerConfig)
    ensures |RoutesOf(p)| == |IpsIn(p)|
  {}
}
