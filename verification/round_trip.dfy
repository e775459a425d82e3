/** Building messages and reading them back, and reading a dump and building from it. */
module RoundTrip {
  import opened Coalesce
  import opened Flags
  import opened Fragments
  import opened Greedy
  import opened Keys
  import opened Netlink
  import opened Parsed
  import opened PeerParsed
  import opened PeerRoundTrip
  import opened Reassembly
  import opened Sequences
  import opened Wrappers

  function NormalDeviceFlags(flags: Option<seq<DeviceFlag>>): Option<seq<DeviceFlag>> {
    if flags.Some? then Some(DeviceFlagList(DeviceBits(flags.value))) else None
  }

  /** The device properties as they come back: the name makes the index redundant. */
  function NormalDevice(c: Config): Config {
    c.(ifaceIndex := if c.ifaceName.Some? then None else c.ifaceIndex, peers := None,
       flags := NormalDeviceFlags(c.flags))
  }

  /** The normal form of a configuration: its peers in normal form, neighbours with one key made one peer. */
  function NormalConfig(c: Config): Config {
    NormalDevice(c).(peers := if c.peers.Some? then Some(Coalesced(Map(NormalPeer, c.peers.value))) else None)
  }

  lemma ReadDevice(c: Config)
    requires DeviceFault(c).None?
    ensures Fold(ReadAttr, NO_CONFIG, DeviceAttrs(c)) == NormalDevice(c)
  {
    hide DecodeKey, Fold;
    FoldNone(ReadAttr, NO_CONFIG);
    var a1 := [IfaceAttr(c)];
    var a2 := a1 + Maybe(PublicAttr(c));
    var a3 := a2 + Maybe(PrivateAttr(c));
    var a4 := a3 + Maybe(PortAttr(c));
    var a5 := a4 + Maybe(MarkAttr(c));
    var normal := NormalDevice(c);
    FoldSnoc(ReadAttr, NO_CONFIG, [], IfaceAttr(c));
    assert [] + a1 == a1;
    var r1 := NO_CONFIG.(ifaceName := c.ifaceName, ifaceIndex := normal.ifaceIndex);
    assert Fold(ReadAttr, NO_CONFIG, a1) == r1;
    if c.publicKey.Some? { KeyTextIsCanonical(c.publicKey.value); }
    if c.privateKey.Some? { KeyTextIsCanonical(c.privateKey.value); }
    FoldMaybe(ReadAttr, NO_CONFIG, a1, PublicAttr(c));
    FoldMaybe(ReadAttr, NO_CONFIG, a2, PrivateAttr(c));
    var r3 := r1.(publicKey := c.publicKey, privateKey := c.privateKey);
    assert Fold(ReadAttr, NO_CONFIG, a3) == r3;
    FoldMaybe(ReadAttr, NO_CONFIG, a3, PortAttr(c));
    FoldMaybe(ReadAttr, NO_CONFIG, a4, MarkAttr(c));
    var r5 := r3.(listenPort := c.listenPort, fwmark := c.fwmark);
    assert Fold(ReadAttr, NO_CONFIG, a5) == r5;
    FoldMaybe(ReadAttr, NO_CONFIG, a5, DeviceFlagsAttr(c));
    if c.flags.Some? {
      var list := DeviceFlagList(DeviceBits(c.flags.value));
      assert FlagsOf(r5) + list == list;
    }
  }

  /** Reading one more message of a configuration only adds its peers. */
  lemma ReadOneMore(c: Config, cmd: Command, first: bool, peers: seq<Peer>, acc: Config)
    requires DeviceFault(c).None?
    requires if first then acc == NO_CONFIG else NormalDevice(c) == acc.(peers := None)
    ensures Fold(ReadAttr, acc, MessageOf(c, cmd, first, peers).attrs)
            == NormalDevice(c).(peers := if c.peers.Some? then Some(Fold(PushPeer, PeersOf(acc), Map(ReadPeer, peers)))
                                         else acc.peers)
  {
    hide DecodeKey, PushPeer, ReadPeer;
    var device := if first then DeviceAttrs(c) else [IfaceAttr(c)];
    if first {
      ReadDevice(c);
    } else {
      FoldSnoc(ReadAttr, acc, [], IfaceAttr(c));
      assert [] + [IfaceAttr(c)] == [IfaceAttr(c)];
    }
    assert Fold(ReadAttr, acc, device) == NormalDevice(c).(peers := acc.peers);
    if c.peers.Some? {
      FoldSnoc(ReadAttr, acc, device, Peers(peers));
    } else {
      assert device + [] == device;
    }
  }

  lemma {:induction false} ReadRendered(c: Config, cmd: Command, groups: seq<seq<Peer>>)
    requires DeviceFault(c).None? && groups != []
    ensures ReadMessages(Render(c, cmd, groups))
            == NormalDevice(c).(
                 peers := if c.peers.Some? then Some(Coalesced(Map(ReadPeer, Flatten(groups)))) else None)
    decreases |groups|
  {
    hide DecodeKey, PushPeer, ReadPeer, MessageOf, NormalDevice;
    var n := |groups| - 1;
    var init, last := groups[..n], groups[n];
    assert groups == init + [last];
    RenderLast(c, cmd, groups);
    var message := MessageOf(c, cmd, n == 0, last);
    ReadMessagesSnoc(Render(c, cmd, init), message);
    FlattenSnoc(init, last);
    MapConcat(ReadPeer, Flatten(init), last);
    FoldConcat(PushPeer, [], Map(ReadPeer, Flatten(init)), Map(ReadPeer, last));
    if n > 0 {
      ReadRendered(c, cmd, init);
    } else {
      assert Render(c, cmd, init) == [] && AllAttrs([]) == [];
    }
    NormalDeviceHasNoPeers(c);
    ReadOneMore(c, cmd, n == 0, last, ReadMessages(Render(c, cmd, init)));
  }

  lemma NormalDeviceHasNoPeers(c: Config)
    ensures NormalDevice(c).peers == None
  {}

  /** However a peer is split, its entries coalesce to its normal form. */
  lemma ReadChunks(p: PeerConfig)
    requires PeerFault(p).None?
    ensures Coalesced(Map(ReadPeer, Chunks(p))) == [NormalPeer(p)]
  {
    hide DecodeKey, ReadPeer, ReadPeerAttr;
    var state := StateAttrs(p);
    StateHasKey(p);
    ReadState(p);
    if p.allowedIps.None? || Removes(p) {
      assert Map(ReadPeer, Chunks(p)) == [ReadPeer(Peer(state))];
      CoalescedOne(ReadPeer(Peer(state)));
    } else {
      PiecesCoalesce(state, |state|, |state|, PeerKey(p), Batches(p));
      CutIsCut(BuiltIps(p), AllowedIpLen, FirstRoom(p), NextRoom(PeerKey(p)));
      assert Flatten(Batches(p)) == BuiltIps(p);
      ReadPiece(state, |state|, BuiltIps(p));
      ReadBuiltIps(p.allowedIps.value);
    }
  }

  lemma ReadAllChunks(peers: seq<PeerConfig>)
    requires forall i :: 0 <= i < |peers| ==> PeerFault(peers[i]).None?
    ensures Coalesced(Map(ReadPeer, AllChunks(peers))) == Coalesced(Map(NormalPeer, peers))
  {
    hide DecodeKey, ReadPeer, Chunks, NormalPeer, PeerFault;
    var blocks := seq(|peers|, i requires 0 <= i < |peers| => Map(ReadPeer, Chunks(peers[i])));
    forall i | 0 <= i < |blocks|
      ensures Coalesced(blocks[i]) == [Map(NormalPeer, peers)[i]]
    {
      ReadChunks(peers[i]);
    }
    CoalesceBlocks(blocks, Map(NormalPeer, peers));
    MapFlatten(ReadPeer, Map(Chunks, peers), blocks);
  }

  /** Build then read is the identity up to the normal form, however the configuration was split. */
  lemma BuildThenRead(c: Config, cmd: Command)
    requires MessagesOf(c, cmd).Ok?
    ensures ReadMessages(MessagesOf(c, cmd).value) == NormalConfig(c)
  {
    hide DecodeKey, ReadPeer, Chunks, AllChunks, NormalPeer, PeerFault, DeviceFault, PushPeer, MessagesOf,
         MessageGroups, Render;
    AcceptedIffSound(c, cmd);
    ReadRendered(c, cmd, MessageGroups(c));
    MessageGroupsHoldAll(c);
    ReadAllChunks(PeersOf(c));
  }

  /** No peer is lost or merged exactly when neighbours have different keys. */
  lemma NormalKeepsPeers(c: Config)
    requires c.peers.Some?
    ensures NormalConfig(c).peers == Some(Map(NormalPeer, c.peers.value)) <==> Separate(c.peers.value)
  {
    hide DecodeKey, NormalSecret, NormalFlags, NormalTime, Removes;
    var peers, normal := c.peers.value, Map(NormalPeer, c.peers.value);
    CoalescedIsIdentity(normal);
    assert forall i :: 0 <= i < |peers| ==> normal[i] == NormalPeer(peers[i]);
    assert forall i :: 0 <= i < |peers| ==> normal[i].publicKey == peers[i].publicKey;
    assert Separate(normal) <==> Separate(peers);
  }
}
