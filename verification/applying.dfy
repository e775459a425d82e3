/** Applying configurations: what the receiver sees of a peer, applying what was read, and removing a peer. */
module Applying {
  import opened Base64
  import opened Device
  import opened Flags
  import opened Keys
  import opened Lengths
  import opened Meaning
  import opened Netlink
  import opened Parsed
  import opened PeerParsed
  import opened PeerRoundTrip
  import opened Sequences
  import opened Wrappers

  /* The state of an entry */

  function StateOf(p: PeerConfig): PeerState {
    PeerState(
      p.endpoint,
      if p.presharedKey.Some? then Some(KeyOf(p.presharedKey.value)) else None,
      p.persistentKeepalive,
      if p.lastHandshake.Some? then Some(TimeSpec(AsI64(p.lastHandshake.value.secs), p.lastHandshake.value.nanos))
      else None,
      p.rxBytes,
      p.txBytes,
      p.protocolVersion)
  }

  lemma HeadFields(p: PeerConfig)
    requires p.publicKey.Some?
    ensures Fold(SetField, NO_FIELDS, HeadAttrs(p))
            == Fields(Some(PeerKey(p)), {}, StateOf(p).(version := None), [])
  {
    hide DecodeKey, KeyOf, Fold;
    FoldNone(SetField, NO_FIELDS);
    var h1 := Maybe(EndpointAttr(p));
    var h2 := h1 + Maybe(PublicKeyAttr(p));
    var h3 := h2 + Maybe(PresharedKeyAttr(p));
    var h4 := h3 + Maybe(KeepaliveAttr(p));
    var h5 := h4 + Maybe(HandshakeAttr(p));
    var h6 := h5 + Maybe(RxAttr(p));
    var state := StateOf(p);
    assert [] + h1 == h1;
    FoldMaybe(SetField, NO_FIELDS, [], EndpointAttr(p));
    FoldMaybe(SetField, NO_FIELDS, h1, PublicKeyAttr(p));
    FoldMaybe(SetField, NO_FIELDS, h2, PresharedKeyAttr(p));
    var f3 := Fields(Some(PeerKey(p)), {}, NO_STATE.(endpoint := p.endpoint, presharedKey := state.presharedKey), []);
    assert Fold(SetField, NO_FIELDS, h3) == f3;
    FoldMaybe(SetField, NO_FIELDS, h3, KeepaliveAttr(p));
    FoldMaybe(SetField, NO_FIELDS, h4, HandshakeAttr(p));
    var f5 := f3.(state := f3.state.(keepalive := p.persistentKeepalive, handshake := state.handshake));
    assert Fold(SetField, NO_FIELDS, h5) == f5;
    FoldMaybe(SetField, NO_FIELDS, h5, RxAttr(p));
    FoldMaybe(SetField, NO_FIELDS, h6, TxAttr(p));
  }

  /** The receiver sees all of a peer. */
  lemma WholeFields(p: PeerConfig)
    requires p.publicKey.Some?
    ensures FieldsOf(Peer(StateAttrs(p))) == Fields(Some(PeerKey(p)), FlagBits(p), StateOf(p), [])
    ensures FieldsOf(BuildPeer(p)) == Fields(Some(PeerKey(p)), FlagBits(p), StateOf(p), BuiltIps(p))
  {
    hide DecodeKey, KeyOf, PeerKey, HeadAttrs, Fold;
    HeadFields(p);
    FoldMaybe(SetField, NO_FIELDS, HeadAttrs(p), VersionAttr(p));
    FoldMaybe(SetField, NO_FIELDS, HeadAttrs(p) + Maybe(VersionAttr(p)), FlagsAttr(p));
    StateHasKey(p);
    WholeIsPiece(p);
    if p.allowedIps.Some? { FieldsOfPiece(StateAttrs(p), |HeadAttrs(p)|, BuiltIps(p)); }
  }

  /** The receiver sees all of a built allowed IP, and takes it for well formed exactly when the prefix length is valid:
      up to 32 for version 4, up to 128 for version 6. */
  lemma BuiltIpIsSeen(ip: IpConfig)
    ensures var built := BuildIp(ip);
            && AddrIn(built) == Some(ip.ipAddr)
            && CidrIn(built) == Some(ip.prefixLength)
            && FlagsIn(built) == (if ip.flags.Some? then Some(IpBits(ip.flags.value)) else None)
            && (WellFormed(built) <==> ip.prefixLength <= if ip.ipAddr.V4? then 32 else 128)
            && (WellFormed(built) <==> ValidPrefix(ip))
  {
    hide IpBits;
    var cidr, addr := Cidr(ip.prefixLength), Addr(ip.ipAddr);
    var family := Family(if ip.ipAddr.V4? then Ipv4 else Ipv6);
    var flags := if ip.flags.Some? then Some(IpFlags(IpBits(ip.flags.value))) else None;
    assert BuildIp(ip).attrs == [cidr, family, addr] + Maybe(flags);
    LastOfThree(FamilyOf, cidr, family, addr, flags);
    LastOfThree(AddrOf, cidr, family, addr, flags);
    LastOfThree(CidrOf, cidr, family, addr, flags);
    LastOfThree(FlagsOfIp, cidr, family, addr, flags);
  }

  /* Applying what was read */

  ghost predicate IpMatches(d: Device, key: Key, ip: IpConfig) {
    && !(ip.flags.Some? && REMOVE_IP <= IpBits(ip.flags.value))
    && Route(ip.ipAddr, ip.prefixLength) in d.routes
    && d.routes[Route(ip.ipAddr, ip.prefixLength)] == key
  }

  /** The device holds the peer and everything the entry says of it. */
  ghost predicate PeerMatches(d: Device, p: PeerConfig) {
    && !(REMOVE_ME <= FlagBits(p)) && !(REPLACE_ALLOWED_IPS <= FlagBits(p))
    && PeerKey(p) in d.peers
    && Update(d.peers[PeerKey(p)], StateOf(p)) == d.peers[PeerKey(p)]
    && (p.allowedIps.Some? ==> forall ip <- p.allowedIps.value :: IpMatches(d, PeerKey(p), ip))
  }

  /** The configuration says nothing of the device that is not so. */
  ghost predicate Describes(c: Config, d: Device) {
    && Addresses(c, d)
    && Configure(d.settings, SettingsOf(c)) == d.settings
    && !(REPLACE_PEERS <= DeviceFlagBitsOf(c))
    && forall p <- PeersOf(c) :: PeerMatches(d, p)
  }

  lemma {:induction false} MatchingIpsChangeNothing(d: Device, key: Key, ips: seq<IpConfig>)
    requires forall ip <- ips :: IpMatches(d, key, ip)
    ensures ApplyIps(d, key, Map(BuildIp, ips)) == d
    decreases |ips|
  {
    hide BuildIp;
    if ips != [] {
      var ip := ips[0];
      assert IpMatches(d, key, ip);
      BuiltIpIsSeen(ip);
      assert ApplyIp(d, key, BuildIp(ip)) == d;
      assert Map(BuildIp, ips)[1..] == Map(BuildIp, ips[1..]);
      MatchingIpsChangeNothing(d, key, ips[1..]);
    }
  }

  lemma NormalIpBits(ip: IpConfig)
    ensures NormalIp(ip).(flags := ip.flags) == ip
    ensures ip.flags.Some? <==> NormalIp(ip).flags.Some?
    ensures ip.flags.Some? ==> IpBits(NormalIp(ip).flags.value) == IpBits(ip.flags.value)
  {
    if ip.flags.Some? { ListsKeepBits(IpBits(ip.flags.value)); }
  }

  lemma MatchingPeerChangesNothing(d: Device, p: PeerConfig)
    requires p.publicKey.Some? && PeerMatches(d, p)
    ensures ApplyEntry(d, BuildPeer(p)) == d
  {
    hide DecodeKey, KeyOf, PeerKey, BuildPeer, FieldsOf, StateOf, Update, BuildIp;
    WholeFields(p);
    var key := PeerKey(p);
    assert d.peers[key := d.peers[key]] == d.peers;
    if p.allowedIps.Some? { MatchingIpsChangeNothing(d, key, p.allowedIps.value); }
  }

  lemma {:induction false} MatchingPeersChangeNothing(d: Device, peers: seq<PeerConfig>, n: nat)
    requires AllSound(peers) && n <= |peers| && forall p <- peers :: PeerMatches(d, p)
    ensures ApplyWhole(d, peers[..n]) == d
    decreases n
  {
    hide PeerFault, BuildPeer, ApplyEntry, PeerMatches;
    if n == 0 {
      NoChunks();
      assert peers[..0] == [];
    } else {
      MatchingPeersChangeNothing(d, peers, n - 1);
      WholeSnoc(d, peers, n - 1);
      SoundHasKey(peers[n - 1]);
      MatchingPeerChangesNothing(d, peers[n - 1]);
    }
  }

  /** Applying a configuration that describes the device, as one that was read from it does, changes nothing, however
      many messages it takes. */
  lemma ReapplyChangesNothing(d: Device, c: Config, cmd: Command)
    requires MessagesOf(c, cmd).Ok? && Describes(c, d)
    ensures ApplyMessages(d, MessagesOf(c, cmd).value) == d
  {
    hide MessagesOf, DecodeKey, PeerFault, Chunks, AllChunks, ApplyEntry, BuildPeer, SettingsOf, DeviceFlagBitsOf,
         StateOf, UnsplitMessage, ApplyMessage, FlagBits, PeerKey;
    AcceptedIffSound(c, cmd);
    var peers := PeersOf(c);
    assert Prepared(d, c) == d;
    forall i | 0 <= i < |peers|
      ensures !Lost(ApplyWhole(d, peers[..i]), peers[i])
    {
      MatchingPeersChangeNothing(d, peers, i);
      assert PeerMatches(d, peers[i]);
    }
    MatchingPeersChangeNothing(d, peers, |peers|);
    assert peers[..|peers|] == peers;
    SplittingPreservesMeaning(d, c, cmd);
    ApplyUnsplit(d, c, cmd);
  }

  /* Removing a peer */

  function RemovalOf(ifaceName: seq<Byte>, publicKey: string): Config {
    NO_CONFIG.(ifaceName := Some(ifaceName), peers := Some([Remove(publicKey)]))
  }

  /** `remove_peer` sends one message. It removes the peer with its allowed IPs and nothing else; if the device does not
      hold the peer, nothing changes. A bad key is reported before a bad name. */
  lemma RemovalMeaning(d: Device, ifaceName: seq<Byte>, publicKey: string)
    ensures var c := RemovalOf(ifaceName, publicKey);
            var messages := MessagesOf(c, SetDevice);
            if !IsKeyText(publicKey) then messages == Err(InvalidKey)
            else if IfaceFault(c).Some? then messages == Err(InvalidInput)
            else
              && messages.Ok? && |messages.value| == 1
              && ApplyMessages(d, messages.value)
                 == if ifaceName == d.name && KeyOf(publicKey) in d.peers then WithoutPeer(d, KeyOf(publicKey)) else d
  {
    hide DecodeKey, KeyOf, IsKeyText, DeviceAttrs, StateAttrs, BuildPeer;
    var p := Remove(publicKey);
    var c := RemovalOf(ifaceName, publicKey);
    assert [p][..1] == [p] && [p][..0] == [];
    AllChunksOne(p);
    NoChunks();
    if IsKeyText(publicKey) {
      assert PeerFault(p).None?;
      if IfaceFault(c).None? {
        RemovalIsAccepted(c, p);
        ApplySplit(d, c, SetDevice);
        assert PeerBits([RemoveMe]) == REMOVE_ME by { OneFlag(); }
        assert Chunks(p) == [Peer(StateAttrs(p))];
        ApplyOneEntry(Prepared(d, c), Peer(StateAttrs(p)));
        WholeFields(p);
        assert Prepared(d, c) == d;
      }
    }
  }

  lemma OneFlag()
    ensures PeerBits([RemoveMe]) == REMOVE_ME
  {
    MapOne(PeerFlagBits, RemoveMe);
    assert [REMOVE_ME][1..] == [] && REMOVE_ME + Union([]) == REMOVE_ME;
  }

  lemma RemovalIsAccepted(c: Config, p: PeerConfig)
    requires PeersOf(c) == [p] && PeerFault(p).None? && DeviceFault(c).None? && p.allowedIps.None?
    ensures MessagesOf(c, SetDevice).Ok? && |MessagesOf(c, SetDevice).value| == 1
  {
    hide MessagesOf, PeerFault, DeviceFault, DecodeKey, StateAttrs;
    AcceptedIffSound(c, SetDevice);
    AllChunksFit([p]);
    AllChunksOne(p);
    assert Groups([p]) == [[Peer(StateAttrs(p))]] by {
      assert [Peer(StateAttrs(p))][..0] == [];
    }
  }
}
