/** Splitting a configuration preserves its meaning: the messages leave the device as one unsplit message would. */
module Meaning {
  import opened Device
  import opened Flags
  import opened Fragments
  import opened Keys
  import opened Lengths
  import opened Netlink
  import opened Parsed
  import opened PeerParsed
  import opened PeerRoundTrip
  import opened Sequences
  import opened Wrappers

  /* One entry and its pieces */

  lemma {:induction false} FieldsSkipIps(acc: Fields, ips: seq<AllowedIp>, attrs: seq<PeerAttr>)
    requires NoIps(attrs)
    ensures Fold(SetField, acc.(ips := ips), attrs) == Fold(SetField, acc, attrs).(ips := ips)
    decreases |attrs|
  {
    if attrs != [] {
      assert !attrs[0].AllowedIps?;
      assert SetField(acc.(ips := ips), attrs[0]) == SetField(acc, attrs[0]).(ips := ips);
      FieldsSkipIps(SetField(acc, attrs[0]), ips, attrs[1..]);
    }
  }

  lemma FieldsOfPiece(state: seq<PeerAttr>, at: nat, ips: seq<AllowedIp>)
    requires at <= |state| && NoIps(state)
    ensures FieldsOf(Piece(state, at, ips)) == FieldsOf(Peer(state)).(ips := ips)
  {
    var front := Fold(SetField, NO_FIELDS, state[..at]);
    FoldSnoc(SetField, NO_FIELDS, state[..at], AllowedIps(ips));
    FoldConcat(SetField, NO_FIELDS, state[..at] + [AllowedIps(ips)], state[at..]);
    FieldsSkipIps(front, ips, state[at..]);
    FoldConcat(SetField, NO_FIELDS, state[..at], state[at..]);
    assert state[..at] + state[at..] == state;
  }

  lemma FieldsOfContinuation(key: Key, ips: seq<AllowedIp>)
    ensures FieldsOf(Continuation(key, ips)) == NO_FIELDS.(key := Some(key), ips := ips)
  {
    FoldSnoc(SetField, NO_FIELDS, [PublicKey(key)], AllowedIps(ips));
    FoldSnoc(SetField, NO_FIELDS, [], PublicKey(key));
    assert [] + [PublicKey(key)] == [PublicKey(key)];
    assert [PublicKey(key)] + [AllowedIps(ips)] == [PublicKey(key), AllowedIps(ips)];
  }

  lemma {:induction false} FieldsKey(attrs: seq<PeerAttr>)
    ensures Fold(SetField, NO_FIELDS, attrs).key == PublicKeyIn(attrs)
    decreases |attrs|
  {
    if attrs != [] {
      var n := |attrs| - 1;
      FieldsKey(attrs[..n]);
      assert attrs == attrs[..n] + [attrs[n]];
      FoldSnoc(SetField, NO_FIELDS, attrs[..n], attrs[n]);
    }
  }

  /** The entry changes its peer, or creates it if it is allowed to. */
  predicate Acts(d: Device, f: Fields) {
    f.key.Some? && !(REMOVE_ME <= f.flags) && (f.key.value in d.peers || !(UPDATE_ONLY <= f.flags))
  }

  /** Once an entry has acted, a continuation adds to what it did. */
  lemma ContinuationAdds(d: Device, f: Fields, ips: seq<AllowedIp>, more: seq<AllowedIp>)
    requires Acts(d, f)
    ensures ApplyFields(ApplyFields(d, f.(ips := ips)), NO_FIELDS.(key := f.key, ips := more))
            == ApplyFields(d, f.(ips := ips + more))
  {
    var key := f.key.value;
    var known := key in d.peers;
    var state := Update(if known then d.peers[key] else NO_STATE, f.state);
    var kept := if known && REPLACE_ALLOWED_IPS <= f.flags then WithoutRoutes(d, key) else d;
    var base := kept.(peers := d.peers[key := state]);
    var d1 := ApplyIps(base, key, ips);
    IpsKeepPeers(base, key, ips);
    assert ApplyFields(d, f.(ips := ips)) == d1;
    assert Update(d1.peers[key], NO_STATE) == d1.peers[key];
    assert d1.(peers := d1.peers[key := d1.peers[key]]) == d1;
    ApplyIpsConcat(base, key, ips, more);
  }

  /** The receiver cannot tell an entry it acts on from its pieces. */
  lemma {:induction false} PiecesMean(d: Device, state: seq<PeerAttr>, at: nat, at': nat, key: Key,
                                      slices: seq<seq<AllowedIp>>)
    requires at <= |state| && at' <= |state| && slices != []
    requires NoIps(state) && PublicKeyIn(state) == Some(key)
    requires |slices| == 1 || Acts(d, FieldsOf(Peer(state)))
    ensures ApplyEntries(d, Pieces(state, at, key, slices)) == ApplyEntry(d, Piece(state, at', Flatten(slices)))
    decreases |slices|
  {
    hide ApplyFields, Update;
    var n := |slices| - 1;
    var f := FieldsOf(Peer(state));
    FieldsKey(state);
    FieldsOfPiece(state, at', Flatten(slices));
    if n == 0 {
      assert Flatten(slices) == slices[0] + Flatten(slices[1..]) == slices[0];
      FieldsOfPiece(state, at, slices[0]);
      assert Pieces(state, at, key, slices) == [Piece(state, at, slices[0])];
      ApplyOneEntry(d, Piece(state, at, slices[0]));
    } else {
      var init, last := slices[..n], slices[n];
      assert slices == init + [last];
      FlattenSnoc(init, last);
      PiecesMean(d, state, at, at', key, init);
      assert Pieces(state, at, key, slices) == Pieces(state, at, key, init) + [Continuation(key, last)];
      FoldSnoc(ApplyEntry, d, Pieces(state, at, key, init), Continuation(key, last));
      FieldsOfPiece(state, at', Flatten(init));
      FieldsOfContinuation(key, last);
      ContinuationAdds(d, f, Flatten(init), last);
    }
  }

  lemma ApplyOneEntry(d: Device, e: Peer)
    ensures ApplyEntries(d, [e]) == ApplyEntry(d, e)
  {
    FoldSnoc(ApplyEntry, d, [], e);
    assert [] + [e] == [e];
  }

  /* One peer */

  function FlagBits(p: PeerConfig): Word {
    if p.flags.Some? then PeerBits(p.flags.value) else {}
  }

  lemma {:induction false} PlainKeepsFlags(acc: Fields, attrs: seq<PeerAttr>)
    requires Plain(attrs)
    ensures Fold(SetField, acc, attrs).flags == acc.flags
    decreases |attrs|
  {
    if attrs != [] {
      assert !attrs[0].PeerFlags?;
      PlainKeepsFlags(SetField(acc, attrs[0]), attrs[1..]);
    }
  }

  lemma StateFields(p: PeerConfig)
    requires p.publicKey.Some?
    ensures var f := FieldsOf(Peer(StateAttrs(p))); f.key == Some(PeerKey(p)) && f.flags == FlagBits(p)
  {
    hide DecodeKey;
    StateHasKey(p);
    FieldsKey(StateAttrs(p));
    HeadIsPlain(p);
    OneMorePlain(HeadAttrs(p), VersionAttr(p));
    var init := HeadAttrs(p) + Maybe(VersionAttr(p));
    PlainKeepsFlags(NO_FIELDS, init);
    FoldMaybe(SetField, NO_FIELDS, init, FlagsAttr(p));
  }

  /** The one case in which splitting shows: a peer that must only be updated is missing, and its continuations, which
      carry no flags, create it. */
  predicate Lost(d: Device, p: PeerConfig) {
    && UPDATE_ONLY <= FlagBits(p)
    && !Removes(p)
    && |Chunks(p)| > 1
    && PeerKey(p) !in d.peers
  }

  lemma ChunksMean(d: Device, p: PeerConfig)
    requires PeerFault(p).None? && !Lost(d, p)
    ensures ApplyEntries(d, Chunks(p)) == ApplyEntry(d, BuildPeer(p))
  {
    hide DecodeKey, StateAttrs, HeadAttrs, ApplyIps, BuildPeer;
    var state := StateAttrs(p);
    StateHasKey(p);
    StateFields(p);
    WholeIsPiece(p);
    if p.allowedIps.None? {
      ApplyOneEntry(d, Peer(state));
    } else if Removes(p) {
      ApplyOneEntry(d, Peer(state));
      FieldsOfPiece(state, |HeadAttrs(p)|, BuiltIps(p));
    } else {
      BatchesFlatten(p);
      PiecesMean(d, state, |state|, |HeadAttrs(p)|, PeerKey(p), Batches(p));
    }
  }

  lemma LostShows(d: Device, p: PeerConfig)
    requires PeerFault(p).None? && Lost(d, p)
    ensures ApplyEntry(d, BuildPeer(p)) == d
    ensures PeerKey(p) in ApplyEntries(d, Chunks(p)).peers
  {
    hide DecodeKey, StateAttrs, HeadAttrs, ApplyIps, BuildPeer, PeerKey, Update;
    var state, key, batches := StateAttrs(p), PeerKey(p), Batches(p);
    StateHasKey(p);
    StateFields(p);
    WholeIsPiece(p);
    FieldsOfPiece(state, |HeadAttrs(p)|, BuiltIps(p));
    var chunks := Chunks(p);
    var n := |chunks| - 1;
    assert chunks == chunks[..n] + [Continuation(key, batches[n])];
    FoldSnoc(ApplyEntry, d, chunks[..n], Continuation(key, batches[n]));
    FieldsOfContinuation(key, batches[n]);
    var before := ApplyEntries(d, chunks[..n]);
    ContinuationCreates(before, key, batches[n]);
  }

  lemma ContinuationCreates(d: Device, key: Key, ips: seq<AllowedIp>)
    ensures key in ApplyFields(d, NO_FIELDS.(key := Some(key), ips := ips)).peers
  {
    var state := Update(if key in d.peers then d.peers[key] else NO_STATE, NO_STATE);
    IpsKeepPeers(d.(peers := d.peers[key := state]), key, ips);
  }

  /** For one peer, splitting preserves the meaning exactly when it is not that case. */
  lemma PeerMeaning(d: Device, p: PeerConfig)
    requires PeerFault(p).None?
    ensures ApplyEntries(d, Chunks(p)) == ApplyEntry(d, BuildPeer(p)) <==> !Lost(d, p)
  {
    hide PeerFault, Chunks, ApplyFields, FieldsOf;
    if Lost(d, p) {
      LostShows(d, p);
    } else {
      ChunksMean(d, p);
    }
  }

  /* A whole configuration */

  /** The device after the whole entries of `peers`. */
  function ApplyWhole(d: Device, peers: seq<PeerConfig>): Device {
    ApplyEntries(d, Map(BuildPeer, peers))
  }

  /** No peer is lost when its turn comes. */
  ghost predicate NoneLost(d: Device, peers: seq<PeerConfig>) {
    forall i :: 0 <= i < |peers| ==> !Lost(ApplyWhole(d, peers[..i]), peers[i])
  }

  ghost predicate AllSound(peers: seq<PeerConfig>) {
    forall i :: 0 <= i < |peers| ==> PeerFault(peers[i]).None?
  }

  lemma WholeSnoc(d: Device, peers: seq<PeerConfig>, n: nat)
    requires n < |peers|
    ensures ApplyWhole(d, peers[..n + 1]) == ApplyEntry(ApplyWhole(d, peers[..n]), BuildPeer(peers[n]))
  {
    hide BuildPeer, ApplyEntry;
    assert Map(BuildPeer, peers[..n + 1]) == Map(BuildPeer, peers[..n]) + [BuildPeer(peers[n])];
    FoldSnoc(ApplyEntry, d, Map(BuildPeer, peers[..n]), BuildPeer(peers[n]));
  }

  lemma SplitSnoc(d: Device, peers: seq<PeerConfig>, n: nat)
    requires n < |peers|
    ensures ApplyEntries(d, AllChunks(peers[..n + 1]))
            == ApplyEntries(ApplyEntries(d, AllChunks(peers[..n])), Chunks(peers[n]))
  {
    hide Chunks, AllChunks, ApplyEntry;
    AllChunksSnoc(peers, n);
    FoldConcat(ApplyEntry, d, AllChunks(peers[..n]), Chunks(peers[n]));
  }

  lemma {:induction false} ChunksOfAllMean(d: Device, peers: seq<PeerConfig>)
    requires AllSound(peers) && NoneLost(d, peers)
    ensures ApplyEntries(d, AllChunks(peers)) == ApplyWhole(d, peers)
    decreases |peers|
  {
    hide PeerFault, Chunks, AllChunks, ApplyEntry, Lost, BuildPeer;
    if peers == [] {
      NoChunks();
    } else {
      var n := |peers| - 1;
      var init := peers[..n];
      assert forall i :: 0 <= i < n ==> init[..i] == peers[..i];
      assert NoneLost(d, init);
      ChunksOfAllMean(d, init);
      assert peers[..n + 1] == peers;
      WholeSnoc(d, peers, n);
      SplitSnoc(d, peers, n);
      ChunksMean(ApplyWhole(d, init), peers[n]);
    }
  }

  lemma NoChunks()
    ensures AllChunks([]) == [] && Map(BuildPeer, []) == []
  {}

  function SettingsOf(c: Config): Settings {
    Settings(
      if c.publicKey.Some? then Some(KeyOf(c.publicKey.value)) else None,
      if c.privateKey.Some? then Some(KeyOf(c.privateKey.value)) else None,
      c.listenPort,
      c.fwmark)
  }

  function DeviceFlagBitsOf(c: Config): Word {
    if c.flags.Some? then DeviceBits(c.flags.value) else {}
  }

  /** The configuration is meant for this device. */
  predicate Addresses(c: Config, d: Device) {
    if c.ifaceName.Some? then c.ifaceName.value == d.name else c.ifaceIndex == Some(d.index)
  }

  lemma DeviceRequest(c: Config)
    requires IfaceFault(c).None?
    ensures Fold(SetProperty, NO_REQUEST, DeviceAttrs(c))
            == Request(c.ifaceName, if c.ifaceName.Some? then None else c.ifaceIndex, DeviceFlagBitsOf(c),
                       SettingsOf(c), [])
  {
    hide DecodeKey, KeyOf, Fold;
    var a1 := [IfaceAttr(c)];
    var a2 := a1 + Maybe(PublicAttr(c));
    var a3 := a2 + Maybe(PrivateAttr(c));
    var a4 := a3 + Maybe(PortAttr(c));
    var a5 := a4 + Maybe(MarkAttr(c));
    var settings := SettingsOf(c);
    IfaceRequest(c);
    var r1 := Fold(SetProperty, NO_REQUEST, a1);
    FoldMaybe(SetProperty, NO_REQUEST, a1, PublicAttr(c));
    FoldMaybe(SetProperty, NO_REQUEST, a2, PrivateAttr(c));
    var r3 := r1.(settings := NO_SETTINGS.(publicKey := settings.publicKey, privateKey := settings.privateKey));
    assert Fold(SetProperty, NO_REQUEST, a3) == r3;
    FoldMaybe(SetProperty, NO_REQUEST, a3, PortAttr(c));
    FoldMaybe(SetProperty, NO_REQUEST, a4, MarkAttr(c));
    assert Fold(SetProperty, NO_REQUEST, a5) == r3.(settings := settings);
    FoldMaybe(SetProperty, NO_REQUEST, a5, DeviceFlagsAttr(c));
  }

  lemma IfaceRequest(c: Config)
    requires IfaceFault(c).None?
    ensures Fold(SetProperty, NO_REQUEST, [IfaceAttr(c)])
            == NO_REQUEST.(name := c.ifaceName, index := if c.ifaceName.Some? then None else c.ifaceIndex)
  {
    FoldSnoc(SetProperty, NO_REQUEST, [], IfaceAttr(c));
    assert [] + [IfaceAttr(c)] == [IfaceAttr(c)];
  }

  function Prepared(d: Device, c: Config): Device {
    Prepare(d, DeviceFlagBitsOf(c), SettingsOf(c))
  }

  /** What one message of a configuration does. */
  lemma ApplyOneMessage(d: Device, c: Config, cmd: Command, first: bool, entries: seq<Peer>)
    requires IfaceFault(c).None?
    ensures ApplyMessage(d, MessageOf(c, cmd, first, entries))
            == if !Addresses(c, d) then d
               else ApplyEntries(if first then Prepared(d, c) else d, if c.peers.Some? then entries else [])
  {
    hide DecodeKey, KeyOf, DeviceAttrs, ApplyEntry;
    var device := if first then DeviceAttrs(c) else [IfaceAttr(c)];
    DeviceRequest(c);
    IfaceRequest(c);
    if c.peers.Some? {
      FoldSnoc(SetProperty, NO_REQUEST, device, Peers(entries));
    } else {
      assert device + [] == device;
    }
    assert Prepare(d, {}, NO_SETTINGS) == d;
  }

  lemma {:induction false} ApplyRendered(d: Device, c: Config, cmd: Command, groups: seq<seq<Peer>>)
    requires IfaceFault(c).None? && groups != []
    ensures ApplyMessages(d, Render(c, cmd, groups))
            == if !Addresses(c, d) then d
               else ApplyEntries(Prepared(d, c), if c.peers.Some? then Flatten(groups) else [])
    decreases |groups|
  {
    hide DecodeKey, MessageOf, ApplyMessage, ApplyEntry, Prepared, IfaceFault;
    var n := |groups| - 1;
    var init, last := groups[..n], groups[n];
    var message := MessageOf(c, cmd, n == 0, last);
    RenderLast(c, cmd, groups);
    FoldSnoc(ApplyMessage, d, Render(c, cmd, init), message);
    var before := ApplyMessages(d, Render(c, cmd, init));
    ApplyOneMessage(before, c, cmd, n == 0, last);
    assert groups == init + [last];
    FlattenSnoc(init, last);
    if n == 0 {
      assert Render(c, cmd, init) == [] && Flatten(init) == [] && [] + last == last;
    } else {
      ApplyRendered(d, c, cmd, init);
      PreparedKeepsName(d, c);
      EntriesKeep(Prepared(d, c), if c.peers.Some? then Flatten(init) else []);
      FoldConcat(ApplyEntry, Prepared(d, c), Flatten(init), last);
    }
  }

  lemma PreparedKeepsName(d: Device, c: Config)
    ensures Prepared(d, c).name == d.name && Prepared(d, c).index == d.index
  {}

  /** The one message that would hold everything if messages were unbounded. */
  function UnsplitMessage(c: Config, cmd: Command): Message {
    MessageOf(c, cmd, true, Map(BuildPeer, PeersOf(c)))
  }

  lemma ApplyUnsplit(d: Device, c: Config, cmd: Command)
    requires IfaceFault(c).None?
    ensures ApplyMessage(d, UnsplitMessage(c, cmd))
            == if Addresses(c, d) then ApplyWhole(Prepared(d, c), PeersOf(c)) else d
  {
    hide BuildPeer, MessageOf, IfaceFault, Addresses, Prepared, ApplyEntry;
    ApplyOneMessage(d, c, cmd, true, Map(BuildPeer, PeersOf(c)));
    NoChunks();
  }

  lemma ApplySplit(d: Device, c: Config, cmd: Command)
    requires MessagesOf(c, cmd).Ok?
    ensures ApplyMessages(d, MessagesOf(c, cmd).value)
            == if Addresses(c, d) then ApplyEntries(Prepared(d, c), AllChunks(PeersOf(c))) else d
  {
    hide MessagesOf, AllChunks, MessageGroups, MessageOf, Addresses, Prepared, ApplyEntry, DecodeKey, PeerFault, Chunks;
    AcceptedIffSound(c, cmd);
    ApplyRendered(d, c, cmd, MessageGroups(c));
    MessageGroupsHoldAll(c);
    NoChunks();
  }

  /** After all messages, every setting that the configuration gives is set to it, and every other one is as it was. */
  lemma SettingsAreSet(d: Device, c: Config, cmd: Command)
    requires MessagesOf(c, cmd).Ok? && Addresses(c, d)
    ensures var was, now := d.settings, ApplyMessages(d, MessagesOf(c, cmd).value).settings;
            && now.publicKey == (if c.publicKey.Some? then Some(KeyOf(c.publicKey.value)) else was.publicKey)
            && now.privateKey == (if c.privateKey.Some? then Some(KeyOf(c.privateKey.value)) else was.privateKey)
            && now.listenPort == (if c.listenPort.Some? then c.listenPort else was.listenPort)
            && now.fwmark == (if c.fwmark.Some? then c.fwmark else was.fwmark)
  {
    hide MessagesOf, AllChunks, ApplyEntry, KeyOf, Addresses, DeviceFlagBitsOf;
    ApplySplit(d, c, cmd);
    EntriesKeep(Prepared(d, c), AllChunks(PeersOf(c)));
  }

  /** Splitting preserves meaning, whatever the device and the configuration: applying the messages in order leaves the
      device that the unsplit message leaves, unless a peer is lost on the way. */
  lemma SplittingPreservesMeaning(d: Device, c: Config, cmd: Command)
    requires MessagesOf(c, cmd).Ok?
    requires Addresses(c, d) ==> NoneLost(Prepared(d, c), PeersOf(c))
    ensures ApplyMessages(d, MessagesOf(c, cmd).value) == ApplyMessage(d, UnsplitMessage(c, cmd))
  {
    hide MessagesOf, AllChunks, MessageOf, Addresses, Prepared, ApplyEntry, DecodeKey, PeerFault, Chunks,
         UnsplitMessage;
    AcceptedIffSound(c, cmd);
    ApplySplit(d, c, cmd);
    ApplyUnsplit(d, c, cmd);
    if Addresses(c, d) {
      ChunksOfAllMean(Prepared(d, c), PeersOf(c));
    }
  }

  /** The configuration with the first `n` peers only. */
  function FirstPeers(c: Config, n: nat): Config
    requires n <= |PeersOf(c)|
  {
    c.(peers := Some(PeersOf(c)[..n]))
  }

  ghost predicate SplitMeansUnsplit(d: Device, c: Config, cmd: Command) {
    MessagesOf(c, cmd).Ok? && ApplyMessages(d, MessagesOf(c, cmd).value) == ApplyMessage(d, UnsplitMessage(c, cmd))
  }

  lemma SplitMeansWhole(d: Device, c: Config, cmd: Command, n: nat)
    requires MessagesOf(c, cmd).Ok? && Addresses(c, d) && n <= |PeersOf(c)|
    ensures SplitMeansUnsplit(d, FirstPeers(c, n), cmd) <==>
            var d0, first := Prepared(d, c), PeersOf(c)[..n];
            ApplyEntries(d0, AllChunks(first)) == ApplyWhole(d0, first)
  {
    hide MessagesOf, AllChunks, MessageOf, Prepare, ApplyEntry, DecodeKey, KeyOf, PeerFault, Chunks, UnsplitMessage,
         BuildPeer;
    var first := FirstPeers(c, n);
    AcceptedIffSound(c, cmd);
    AcceptedIffSound(first, cmd);
    assert DeviceFault(first) == DeviceFault(c);
    assert SettingsOf(first) == SettingsOf(c) && DeviceFlagBitsOf(first) == DeviceFlagBitsOf(c);
    ApplySplit(d, first, cmd);
    ApplyUnsplit(d, first, cmd);
  }

  /** For every configuration, whatever its keys: splitting it and all its beginnings preserves the meaning exactly when
      no peer is lost when its turn comes. */
  lemma SplittingPreservesMeaningThroughout(d: Device, c: Config, cmd: Command)
    requires MessagesOf(c, cmd).Ok? && Addresses(c, d)
    ensures (forall n :: 0 <= n <= |PeersOf(c)| ==> SplitMeansUnsplit(d, FirstPeers(c, n), cmd))
            <==> NoneLost(Prepared(d, c), PeersOf(c))
  {
    hide MessagesOf, AllChunks, Prepared, ApplyEntry, DecodeKey, PeerFault, Chunks, BuildPeer, SplitMeansUnsplit, Lost,
         FirstPeers;
    var d0, peers := Prepared(d, c), PeersOf(c);
    AcceptedIffSound(c, cmd);
    if NoneLost(d0, peers) {
      forall n | 0 <= n <= |peers|
        ensures SplitMeansUnsplit(d, FirstPeers(c, n), cmd)
      {
        var first := peers[..n];
        assert forall i :: 0 <= i < n ==> first[..i] == peers[..i];
        ChunksOfAllMean(d0, first);
        SplitMeansWhole(d, c, cmd, n);
      }
    } else {
      var i :| 0 <= i < |peers| && Lost(ApplyWhole(d0, peers[..i]), peers[i]);
      SplitMeansWhole(d, c, cmd, i);
      SplitMeansWhole(d, c, cmd, i + 1);
      WholeSnoc(d0, peers, i);
      SplitSnoc(d0, peers, i);
      PeerMeaning(ApplyWhole(d0, peers[..i]), peers[i]);
      assert !(SplitMeansUnsplit(d, FirstPeers(c, i), cmd) && SplitMeansUnsplit(d, FirstPeers(c, i + 1), cmd));
    }
  }

  ghost predicate DistinctKeys(peers: seq<PeerConfig>) {
    forall i, j | 0 <= i < j < |peers| :: PeerKey(peers[i]) != PeerKey(peers[j])
  }

  lemma WholeKey(p: PeerConfig)
    requires p.publicKey.Some?
    ensures FieldsOf(BuildPeer(p)).key == Some(PeerKey(p))
  {
    hide DecodeKey, StateAttrs, HeadAttrs;
    StateHasKey(p);
    StateFields(p);
    WholeIsPiece(p);
    if p.allowedIps.Some? { FieldsOfPiece(StateAttrs(p), |HeadAttrs(p)|, BuiltIps(p)); }
  }

  /** Entries of other peers leave the presence of a peer alone. */
  lemma {:induction false} OthersKeepPresence(d: Device, entries: seq<Peer>, key: Key, other: Key)
    requires key != other && forall i :: 0 <= i < |entries| ==> FieldsOf(entries[i]).key == Some(other)
    ensures key in ApplyEntries(d, entries).peers <==> key in d.peers
    decreases |entries|
  {
    hide ApplyFields, FieldsOf;
    if entries != [] {
      EntryPeers(d, FieldsOf(entries[0]));
      OthersKeepPresence(ApplyEntry(d, entries[0]), entries[1..], key, other);
    }
  }

  lemma ChunkKeys(p: PeerConfig)
    requires p.publicKey.Some?
    ensures forall i :: 0 <= i < |Chunks(p)| ==> FieldsOf(Chunks(p)[i]).key == Some(PeerKey(p))
  {
    hide DecodeKey, StateAttrs, PeerKey, Batches;
    StateHasKey(p);
    StateFields(p);
    if p.allowedIps.Some? && !Removes(p) {
      var batches := Batches(p);
      FieldsOfPiece(StateAttrs(p), |StateAttrs(p)|, batches[0]);
      forall i | 0 < i < |Chunks(p)|
        ensures FieldsOf(Chunks(p)[i]).key == Some(PeerKey(p))
      {
        assert Chunks(p)[i] == Continuation(PeerKey(p), batches[i]);
        FieldsOfContinuation(PeerKey(p), batches[i]);
      }
    }
  }

  /** With distinct keys, the presence of a peer is decided by its own entries, split or not. */
  lemma {:induction false} Presence(d: Device, peers: seq<PeerConfig>, n: nat, key: Key)
    requires AllSound(peers) && n <= |peers|
    requires forall i :: 0 <= i < n ==> PeerKey(peers[i]) != key
    ensures key in ApplyWhole(d, peers[..n]).peers <==> key in d.peers
    ensures key in ApplyEntries(d, AllChunks(peers[..n])).peers <==> key in d.peers
    decreases n
  {
    hide PeerFault, Chunks, AllChunks, ApplyEntry, BuildPeer, PeerKey, FieldsOf;
    if n == 0 {
      NoChunks();
      assert peers[..0] == [];
    } else {
      var p := peers[n - 1];
      Presence(d, peers, n - 1, key);
      WholeSnoc(d, peers, n - 1);
      SplitSnoc(d, peers, n - 1);
      SoundHasKey(p);
      WholeKey(p);
      ApplyOneEntry(ApplyWhole(d, peers[..n - 1]), BuildPeer(p));
      OthersKeepPresence(ApplyWhole(d, peers[..n - 1]), [BuildPeer(p)], key, PeerKey(p));
      ChunkKeys(p);
      OthersKeepPresence(ApplyEntries(d, AllChunks(peers[..n - 1])), Chunks(p), key, PeerKey(p));
    }
  }

  lemma SoundHasKey(p: PeerConfig)
    requires PeerFault(p).None?
    ensures p.publicKey.Some?
  {}

  /** After its own turn, a peer stays as present as it is. */
  lemma {:induction false} PresenceAfter(d: Device, peers: seq<PeerConfig>, n: nat, m: nat, key: Key)
    requires AllSound(peers) && n <= m <= |peers|
    requires forall i :: n <= i < m ==> PeerKey(peers[i]) != key
    ensures key in ApplyWhole(d, peers[..m]).peers <==> key in ApplyWhole(d, peers[..n]).peers
    ensures key in ApplyEntries(d, AllChunks(peers[..m])).peers <==> key in ApplyEntries(d, AllChunks(peers[..n])).peers
    decreases m - n
  {
    hide PeerFault, Chunks, AllChunks, ApplyEntry, BuildPeer, PeerKey, FieldsOf;
    if n < m {
      var p := peers[m - 1];
      PresenceAfter(d, peers, n, m - 1, key);
      WholeSnoc(d, peers, m - 1);
      SplitSnoc(d, peers, m - 1);
      SoundHasKey(p);
      WholeKey(p);
      ApplyOneEntry(ApplyWhole(d, peers[..m - 1]), BuildPeer(p));
      OthersKeepPresence(ApplyWhole(d, peers[..m - 1]), [BuildPeer(p)], key, PeerKey(p));
      ChunkKeys(p);
      OthersKeepPresence(ApplyEntries(d, AllChunks(peers[..m - 1])), Chunks(p), key, PeerKey(p));
    }
  }

  /** With distinct keys a lost peer is there after the messages and missing after the unsplit message. */
  lemma LostPeerShows(d: Device, peers: seq<PeerConfig>, n: nat)
    requires AllSound(peers) && DistinctKeys(peers) && n < |peers| && Lost(d, peers[n])
    ensures ApplyEntries(d, AllChunks(peers)) != ApplyWhole(d, peers)
  {
    hide PeerFault, Chunks, AllChunks, ApplyEntry, BuildPeer, PeerKey;
    var p, key := peers[n], PeerKey(peers[n]);
    Presence(d, peers, n, key);
    WholeSnoc(d, peers, n);
    SplitSnoc(d, peers, n);
    LostShows(ApplyWhole(d, peers[..n]), p);
    LostShows(ApplyEntries(d, AllChunks(peers[..n])), p);
    PresenceAfter(d, peers, n + 1, |peers|, key);
    assert peers[..|peers|] == peers;
  }

  /** For a configuration that names every peer once, splitting preserves the meaning exactly when no peer that needs
      several entries is to be updated only and missing on the device once its old peers are replaced or kept. */
  lemma SplittingPreservesMeaningIff(d: Device, c: Config, cmd: Command)
    requires MessagesOf(c, cmd).Ok? && DistinctKeys(PeersOf(c))
    ensures ApplyMessages(d, MessagesOf(c, cmd).value) == ApplyMessage(d, UnsplitMessage(c, cmd))
            <==> Addresses(c, d) ==> forall p <- PeersOf(c) :: !Lost(Prepared(d, c), p)
  {
    hide MessagesOf, AllChunks, MessageOf, Addresses, Prepared, ApplyEntry, DecodeKey, PeerFault, Chunks,
         UnsplitMessage, BuildPeer, PeerKey;
    AcceptedIffSound(c, cmd);
    var peers, d0 := PeersOf(c), Prepared(d, c);
    ApplySplit(d, c, cmd);
    ApplyUnsplit(d, c, cmd);
    if Addresses(c, d) {
      if i :| 0 <= i < |peers| && Lost(d0, peers[i]) {
        LostPeerShows(d0, peers, i);
      } else {
        forall i | 0 <= i < |peers|
          ensures !Lost(ApplyWhole(d0, peers[..i]), peers[i])
        {
          Presence(d0, peers, i, PeerKey(peers[i]));
        }
        ChunksOfAllMean(d0, peers);
      }
    }
  }
}
