/** Where the promises of the library end: inputs for which they do not hold. */
module Limits {
  import opened Applying
  import opened Base64
  import opened Device
  import opened Effects
  import opened Flags
  import opened Keys
  import opened Lengths
  import opened Meaning
  import opened Netlink
  import opened Owners
  import opened Parsed
  import opened PeerParsed
  import opened PeerRoundTrip
  import opened Reruns
  import opened Retry
  import opened Sequences
  import opened Turns
  import opened Wrappers

  /** A peer that must only be updated, with more allowed IPs than one entry holds. */
  function LongUpdate(key: Key): PeerConfig {
    NO_PEER.(publicKey := Some(KeyText(key)), flags := Some([UpdateOnly]),
             allowedIps := Some(seq(20_000, i => IpConfig(32, V4(0), None))))
  }

  lemma {:induction false} TotalIsLong(ips: seq<AllowedIp>)
    ensures Total(AllowedIpLen, ips) >= HEADER * |ips|
    decreases |ips|
  {
    hide AllowedIpLen;
    if ips != [] {
      IpHasHeader(ips[0]);
      TotalIsLong(ips[1..]);
    }
  }

  lemma IpHasHeader(ip: AllowedIp)
    ensures AllowedIpLen(ip) >= HEADER
  {}

  lemma OnlyUpdates()
    ensures PeerBits([UpdateOnly]) == UPDATE_ONLY
  {
    MapOne(PeerFlagBits, UpdateOnly);
    assert [UPDATE_ONLY][1..] == [] && UPDATE_ONLY + Union([]) == UPDATE_ONLY;
  }

  /** On every device that does not hold the peer, the whole entry changes nothing, but the split entries create the
      peer. */
  lemma UpdateOnlyPeerIsCreated(d: Device, key: Key)
    requires key !in d.peers
    ensures PeerFault(LongUpdate(key)).None?
    ensures ApplyEntry(d, BuildPeer(LongUpdate(key))) == d
    ensures key in ApplyEntries(d, Chunks(LongUpdate(key))).peers
    ensures Lost(d, LongUpdate(key)) && PeerKey(LongUpdate(key)) == key
  {
    hide DecodeKey, KeyText, StateAttrs, HeadAttrs, Chunks, BuildPeer, AllowedIpLen;
    var p := LongUpdate(key);
    KeyTextRoundTrip(key);
    assert PeerFault(p).None?;
    OnlyUpdates();
    WholeIsPiece(p);
    PieceLen(StateAttrs(p), |HeadAttrs(p)|, BuiltIps(p));
    TotalIsLong(BuiltIps(p));
    SplitIffTooLong(p);
    LostShows(d, p);
  }

  function LongUpdateOf(ifaceName: seq<Byte>, key: Key): Config {
    NO_CONFIG.(ifaceName := Some(ifaceName), peers := Some([LongUpdate(key)]))
  }

  /** So `set` accepts a configuration whose messages do not mean what the unsplit message means. */
  lemma SplittingShows(d: Device, key: Key)
    requires key !in d.peers && IfaceFault(LongUpdateOf(d.name, key)).None?
    ensures var c := LongUpdateOf(d.name, key);
            && MessagesOf(c, SetDevice).Ok?
            && ApplyMessages(d, MessagesOf(c, SetDevice).value) != ApplyMessage(d, UnsplitMessage(c, SetDevice))
  {
    hide MessagesOf, DecodeKey, LongUpdate, Chunks, UnsplitMessage, ApplyMessage, PeerKey, PeerFault, Prepare;
    var c := LongUpdateOf(d.name, key);
    UpdateOnlyPeerIsCreated(d, key);
    AcceptedIffSound(c, SetDevice);
    NothingPrepared(d, c);
    assert LongUpdate(key) in PeersOf(c);
    SplittingPreservesMeaningIff(d, c, SetDevice);
  }

  /** The lost peer is removed by a later entry. */
  function UpdateThenRemove(ifaceName: seq<Byte>, key: Key): Config {
    NO_CONFIG.(ifaceName := Some(ifaceName), peers := Some([LongUpdate(key), Remove(KeyText(key))]))
  }

  const LONG_ROUTE := Route(V4(0), 32)

  lemma OnlyOneRoute(key: Key, r: Route)
    ensures Gives(Rest(LongUpdate(key)).ips, r) ==> r == LONG_ROUTE
  {
    hide DecodeKey, KeyText, KeyOf, Batches, BuildIp, Gives, Takes, WellFormed;
    var p := LongUpdate(key);
    var ip := IpConfig(32, V4(0), None);
    FirstAndRest(p, r);
    BuiltIpIsSeen(ip);
    if Gives(BuiltIps(p), r) { GivenByOne(BuiltIps(p), BuildIp(ip), r); }
  }

  lemma GivenByOne(ips: seq<AllowedIp>, ip: AllowedIp, r: Route)
    requires Gives(ips, r) && forall i :: 0 <= i < |ips| ==> ips[i] == ip
    ensures GivesIp(ip, r)
  {
    hide WellFormed, TakesAway;
  }

  /** A later entry of the same peer can make up for a lost one, so that in the end splitting does not show. */
  lemma LaterEntryMakesUp(d: Device, key: Key)
    requires d.Valid() && key !in d.peers && LONG_ROUTE !in d.routes
    requires IfaceFault(UpdateThenRemove(d.name, key)).None?
    ensures var c := UpdateThenRemove(d.name, key);
            && Lost(Prepared(d, c), PeersOf(c)[0])
            && MessagesOf(c, SetDevice).Ok?
            && ApplyMessages(d, MessagesOf(c, SetDevice).value) == ApplyMessage(d, UnsplitMessage(c, SetDevice)) == d
  {
    hide MessagesOf, DecodeKey, LongUpdate, Chunks, UnsplitMessage, ApplyMessage, PeerKey, PeerFault, Prepare,
         BuildPeer, StateAttrs, KeyText, KeyOf;
    var c, p, q := UpdateThenRemove(d.name, key), LongUpdate(key), Remove(KeyText(key));
    UpdateOnlyPeerIsCreated(d, key);
    RemovalFields(key);
    AcceptedIffSound(c, SetDevice);
    NothingPrepared(d, c);
    ApplySplit(d, c, SetDevice);
    ApplyUnsplit(d, c, SetDevice);
    TwoPeers(d, p, q);
    ChunksAct(d, p);
    ApplyOneEntry(ApplyFields(d, Rest(p)), BuildPeer(q));
    CreateThenRemove(d, key);
  }

  lemma TwoPeers(d: Device, p: PeerConfig, q: PeerConfig)
    ensures ApplyEntries(d, AllChunks([p, q])) == ApplyEntries(ApplyEntries(d, Chunks(p)), Chunks(q))
    ensures ApplyWhole(d, [p, q]) == ApplyEntry(ApplyEntry(d, BuildPeer(p)), BuildPeer(q))
  {
    hide Chunks, AllChunks, BuildPeer, ApplyEntry;
    var peers := [p, q];
    NoChunks();
    assert peers[..0] == [] && peers[..1] == [p] && peers[..2] == peers;
    SplitSnoc(d, peers, 0);
    SplitSnoc(d, peers, 1);
    WholeSnoc(d, peers, 0);
    WholeSnoc(d, peers, 1);
  }

  lemma RemovalFields(key: Key)
    ensures var q := Remove(KeyText(key));
            && PeerFault(q).None? && Chunks(q) == [BuildPeer(q)]
            && FieldsOf(BuildPeer(q)) == NO_FIELDS.(key := Some(key), flags := REMOVE_ME)
  {
    hide DecodeKey, KeyText, KeyOf, StateAttrs;
    var q := Remove(KeyText(key));
    KeyTextRoundTrip(key);
    OneFlag();
    WholeFields(q);
    WholeIsPiece(q);
  }

  lemma CreateThenRemove(d: Device, key: Key)
    requires d.Valid() && key !in d.peers && LONG_ROUTE !in d.routes
    ensures var removal := NO_FIELDS.(key := Some(key), flags := REMOVE_ME);
            ApplyFields(d, removal) == d && ApplyFields(ApplyFields(d, Rest(LongUpdate(key))), removal) == d
  {
    hide LongUpdate, ApplyFields, Batches, Gives, Takes, OwnerAfter, KeyOf;
    var removal := NO_FIELDS.(key := Some(key), flags := REMOVE_ME);
    var rest := Rest(LongUpdate(key));
    assert PeerKey(LongUpdate(key)) == key by { UpdateOnlyPeerIsCreated(d, key); }
    var e := ApplyFields(d, rest);
    EntryPeers(d, rest);
    EntryPeers(d, removal);
    EntryPeers(e, removal);
    forall k: Key
      ensures PeerAt(ApplyFields(d, removal), k) == PeerAt(d, k) == PeerAt(ApplyFields(e, removal), k)
    {
      EntryPeer(d, rest, k);
      EntryPeer(d, removal, k);
      EntryPeer(e, removal, k);
    }
    forall r: Route
      ensures Owner(ApplyFields(d, removal), r) == Owner(d, r) == Owner(ApplyFields(e, removal), r)
    {
      EntryOwner(d, rest, r);
      EntryOwner(d, removal, r);
      EntryOwner(e, removal, r);
      NothingGiven(r);
      OnlyOneRoute(key, r);
      GivenOrKept(None, None, key, rest.ips, r);
      assert Owner(d, r) != Some(key);
    }
    SameDevice(d, ApplyFields(d, removal));
    SameDevice(d, ApplyFields(e, removal));
  }

  /** Two entries of one peer: the first one sets its keepalive if the peer is known, the second one creates it. */
  function UpdateThenCreate(ifaceName: seq<Byte>, key: Key): Config {
    var create := NO_PEER.(publicKey := Some(KeyText(key)));
    NO_CONFIG.(ifaceName := Some(ifaceName),
               peers := Some([create.(persistentKeepalive := Some(25), flags := Some([UpdateOnly])), create]))
  }

  /** An entry that is update-only is skipped the first time and acts the second time, because a later entry creates its
      peer. What it sets is not set again, so that applying the configuration twice leaves another device. */
  lemma RetryMayDiffer(d: Device, key: Key)
    requires key !in d.peers && IfaceFault(UpdateThenCreate(d.name, key)).None?
    ensures var messages := MessagesOf(UpdateThenCreate(d.name, key), SetDevice);
            && messages.Ok?
            && ApplyMessages(ApplyMessages(d, messages.value), messages.value) != ApplyMessages(d, messages.value)
  {
    hide DecodeKey, KeyText, StateAttrs, HeadAttrs, MessagesOf, BuildPeer, Prepare, ApplyMessage;
    var c := UpdateThenCreate(d.name, key);
    KeyTextRoundTrip(key);
    OnlyUpdates();
    AcceptedIffSound(c, SetDevice);
    var peers := PeersOf(c);
    var p, q := peers[0], peers[1];
    assert PeerFault(p).None? && PeerFault(q).None?;
    NothingPrepared(d, c);
    TwoEntries(d, p, q);
    ApplySplit(d, c, SetDevice);
    var d1 := ApplyMessages(d, MessagesOf(c, SetDevice).value);
    WholeFields(p);
    WholeFields(q);
    assert ApplyEntry(d, Peer(StateAttrs(p))) == d;
    assert d1.peers[key] == NO_STATE;
    NothingPrepared(d1, c);
    TwoEntries(d1, p, q);
    ApplySplit(d1, c, SetDevice);
    assert ApplyEntry(d1, Peer(StateAttrs(p))).peers[key].keepalive == Some(25);
  }

  lemma NothingPrepared(d: Device, c: Config)
    requires SettingsOf(c) == NO_SETTINGS && DeviceFlagBitsOf(c) == {}
    ensures Prepared(d, c) == d
  {}

  lemma TwoEntries(d: Device, p: PeerConfig, q: PeerConfig)
    requires p.allowedIps.None? && q.allowedIps.None?
    ensures ApplyEntries(d, AllChunks([p, q])) == ApplyEntry(ApplyEntry(d, Peer(StateAttrs(p))), Peer(StateAttrs(q)))
  {
    hide StateAttrs, ApplyEntry, AllChunks;
    TwoPeers(d, p, q);
    ApplyOneEntry(d, Peer(StateAttrs(p)));
    ApplyOneEntry(ApplyEntry(d, Peer(StateAttrs(p))), Peer(StateAttrs(q)));
  }

  /** Allowed IPs are given to a peer as an update, and the peer is removed. */
  function UpdateAndRemoval(key: Key, ips: seq<AllowedIp>): seq<Fields> {
    [NO_FIELDS.(key := Some(key), flags := UPDATE_ONLY, ips := ips), NO_FIELDS.(key := Some(key), flags := REMOVE_ME)]
  }

  /** Then a run can be harmless after every number of whole entries, and still a run in which the update took effect
      without its allowed IPs is not healed: the former owner keeps an allowed IP that the first run takes from it. */
  lemma PartialUpdateShows(d: Device, key: Key, ip: AllowedIp, r: Route)
    requires d.Valid() && key in d.peers && Owner(d, r).Some? && Owner(d, r) != Some(key) && GivesIp(ip, r)
    ensures var fs, parts := UpdateAndRemoval(key, [ip]), UpdateAndRemoval(key, []);
            && (forall n | 0 <= n <= |fs| :: RetryHarmless(d, fs, n))
            && (forall i :: 0 <= i < |fs| ==> PartOfFields(parts[i], fs[i]))
            && ApplyAll(ApplyAll(d, parts), fs) != ApplyAll(d, fs)
  {
    hide ApplyFields, ReadIp, Keeps, NobodyOwns, GivesIp, TakesIp;
    var fs, parts := UpdateAndRemoval(key, [ip]), UpdateAndRemoval(key, []);
    forall n | 0 <= n <= |fs|
      ensures RetryHarmless(d, fs, n)
    {
      UpdateThenRemovalIsHarmless(d, key, ip, n);
    }
    var e := ApplyAll(d, parts);
    TwoFields(d, fs);
    TwoFields(d, parts);
    TwoFields(e, fs);
    GivenOne(ip, r);
    NothingGiven(r);
    UpdateThenRemoval(d, key, [ip], r);
    UpdateThenRemoval(d, key, [], r);
    UpdateThenRemoval(e, key, [ip], r);
  }

  lemma TwoFields(d: Device, fs: seq<Fields>)
    requires |fs| == 2
    ensures ApplyAll(d, fs) == ApplyFields(ApplyFields(d, fs[0]), fs[1])
  {
    hide ApplyFields;
    AfterNone(d, fs);
    AfterNext(d, fs, 0);
    AfterNext(d, fs, 1);
  }

  lemma GivenOne(ip: AllowedIp, r: Route)
    requires GivesIp(ip, r)
    ensures Gives([ip], r) && !Takes([ip], r)
  {
    hide GivesIp, TakesIp;
    GivesOrTakes(ip, r);
    assert [ip][0] == ip;
  }

  lemma UpdateThenRemoval(d: Device, key: Key, ips: seq<AllowedIp>, r: Route)
    requires d.Valid() && !Takes(ips, r)
    ensures var fs := UpdateAndRemoval(key, ips);
            var e := ApplyFields(ApplyFields(d, fs[0]), fs[1]);
            && e.Valid() && key !in e.peers
            && (Owner(d, r) != Some(key) ==>
                  Owner(e, r) == if key in d.peers && Gives(ips, r) then None else Owner(d, r))
  {
    hide ApplyFields, Gives, Takes, OwnerAfter;
    var fs := UpdateAndRemoval(key, ips);
    var b := ApplyFields(d, fs[0]);
    EntryPeers(d, fs[0]);
    EntryPeers(b, fs[1]);
    EntryPeer(b, fs[1], key);
    EntryOwner(d, fs[0], r);
    EntryOwner(b, fs[1], r);
    GivenOrKept(None, None, key, ips, r);
  }

  lemma UpdateThenRemovalIsHarmless(d: Device, key: Key, ip: AllowedIp, n: nat)
    requires key in d.peers && n <= 2
    ensures RetryHarmless(d, UpdateAndRemoval(key, [ip]), n)
  {
    hide Gives, Keeps, NobodyOwns, SetAgain;
    var fs := UpdateAndRemoval(key, [ip]);
    var there := KeysAfter(d, fs, n);
    assert PresentAt(true, fs, 0, key) && PresentAt(true, fs, 1, key) && !PresentAt(true, fs, 2, key);
    assert !ActsIn(there, fs, 1) && ActsIn(KeysOn(d), fs, 0) && !ActsIn(KeysOn(d), fs, 1);
  }
}
