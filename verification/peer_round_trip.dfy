/** What a peer looks like after it was built and read back. */
module PeerRoundTrip {
  import opened Flags
  import opened Fragments
  import opened Keys
  import opened Netlink
  import opened PeerParsed
  import opened Sequences
  import opened Wrappers

  function NormalIp(ip: IpConfig): IpConfig {
    ip.(flags := if ip.flags.Some? then Some(IpFlagList(IpBits(ip.flags.value))) else None)
  }

  /** The zero time is read as "never", and seconds past the signed range are lost. */
  function NormalTime(d: Duration): Option<Duration> {
    if d == Duration(0, 0) || d.secs >= 0x8000_0000_0000_0000 then None else Some(d)
  }

  /** The entry asks the receiver to remove the peer, by name or by bit. */
  predicate Removes(p: PeerConfig) {
    p.flags.Some? && REMOVE_ME <= PeerBits(p.flags.value)
  }

  /** The normal form: an all-zero preshared key is none, a removed peer has no allowed IPs, flags are listed in order
      and once. */
  function NormalPeer(p: PeerConfig): PeerConfig {
    p.(presharedKey := NormalSecret(p.presharedKey),
       lastHandshake := if p.lastHandshake.Some? then NormalTime(p.lastHandshake.value) else None,
       allowedIps := if p.allowedIps.Some? && !Removes(p) then Some(Map(NormalIp, p.allowedIps.value)) else None,
       flags := NormalFlags(p.flags))
  }

  function NormalSecret(psk: Option<string>): Option<string> {
    if psk.Some? && KeyOf(psk.value) == ZeroKey() then None else psk
  }

  function NormalFlags(flags: Option<seq<PeerFlag>>): Option<seq<PeerFlag>> {
    if flags.Some? then Some(PeerFlagList(PeerBits(flags.value))) else None
  }

  lemma ReadBuiltIp(ip: IpConfig)
    ensures ReadIp(BuildIp(ip)) == Some(NormalIp(ip))
  {
    var none := IpFields(None, None, None);
    var attrs := BuildIp(ip).attrs;
    var family := Family(if ip.ipAddr.V4? then Ipv4 else Ipv6);
    var flags := if ip.flags.Some? then Some(IpFlags(IpBits(ip.flags.value))) else None;
    assert attrs == [] + Maybe(Some(Cidr(ip.prefixLength))) + Maybe(Some(family)) + Maybe(Some(Addr(ip.ipAddr)))
                    + Maybe(flags);
    FoldMaybe(ReadIpAttr, none, [], Some(Cidr(ip.prefixLength)));
    FoldMaybe(ReadIpAttr, none, [] + Maybe(Some(Cidr(ip.prefixLength))), Some(family));
    FoldMaybe(ReadIpAttr, none, [] + Maybe(Some(Cidr(ip.prefixLength))) + Maybe(Some(family)), Some(Addr(ip.ipAddr)));
    FoldMaybe(ReadIpAttr, none, [] + Maybe(Some(Cidr(ip.prefixLength))) + Maybe(Some(family))
                                + Maybe(Some(Addr(ip.ipAddr))), flags);
  }

  lemma {:induction false} ReadBuiltIps(ips: seq<IpConfig>)
    ensures ReadIps(Map(BuildIp, ips)) == Map(NormalIp, ips)
    decreases |ips|
  {
    if ips != [] {
      ReadBuiltIps(ips[1..]);
      ReadBuiltIp(ips[0]);
      ReadIpsOne(BuildIp(ips[0]));
      ReadIpsConcat([BuildIp(ips[0])], Map(BuildIp, ips[1..]));
      assert Map(BuildIp, ips) == [BuildIp(ips[0])] + Map(BuildIp, ips[1..]);
      assert Map(NormalIp, ips) == [NormalIp(ips[0])] + Map(NormalIp, ips[1..]);
    }
  }

  /** The attributes in front of the persistent keepalive. */
  function KeyAttrs(p: PeerConfig): seq<PeerAttr> {
    Maybe(EndpointAttr(p)) + Maybe(PublicKeyAttr(p)) + Maybe(PresharedKeyAttr(p))
  }

  lemma ReadKeys(p: PeerConfig)
    requires KeyFault(p).None?
    ensures Fold(ReadPeerAttr, NO_PEER, KeyAttrs(p))
            == NO_PEER.(endpoint := p.endpoint, publicKey := p.publicKey, presharedKey := NormalPeer(p).presharedKey)
  {
    hide Fold, DecodeKey;
    FoldNone(ReadPeerAttr, NO_PEER);
    var h1 := Maybe(EndpointAttr(p));
    assert [] + h1 == h1;
    FoldMaybe(ReadPeerAttr, NO_PEER, [], EndpointAttr(p));
    FoldMaybe(ReadPeerAttr, NO_PEER, h1, PublicKeyAttr(p));
    FoldMaybe(ReadPeerAttr, NO_PEER, h1 + Maybe(PublicKeyAttr(p)), PresharedKeyAttr(p));
    KeyTextIsCanonical(p.publicKey.value);
    if p.presharedKey.Some? {
      KeyTextIsCanonical(p.presharedKey.value);
      OneZeroKey(KeyOf(p.presharedKey.value));
    }
  }

  lemma ReadCounters(p: PeerConfig, keys: seq<PeerAttr>)
    requires var read := Fold(ReadPeerAttr, NO_PEER, keys);
             read.persistentKeepalive.None? && read.lastHandshake.None? && read.rxBytes.None? && read.txBytes.None?
    ensures Fold(ReadPeerAttr, NO_PEER,
                 keys + Maybe(KeepaliveAttr(p)) + Maybe(HandshakeAttr(p)) + Maybe(RxAttr(p)) + Maybe(TxAttr(p)))
            == Fold(ReadPeerAttr, NO_PEER, keys).(persistentKeepalive := p.persistentKeepalive,
                                                  lastHandshake := NormalPeer(p).lastHandshake,
                                                  rxBytes := p.rxBytes, txBytes := p.txBytes)
  {
    hide Fold, DecodeKey;
    var h4 := keys + Maybe(KeepaliveAttr(p));
    var h5 := h4 + Maybe(HandshakeAttr(p));
    var h6 := h5 + Maybe(RxAttr(p));
    FoldMaybe(ReadPeerAttr, NO_PEER, keys, KeepaliveAttr(p));
    FoldMaybe(ReadPeerAttr, NO_PEER, h4, HandshakeAttr(p));
    FoldMaybe(ReadPeerAttr, NO_PEER, h5, RxAttr(p));
    FoldMaybe(ReadPeerAttr, NO_PEER, h6, TxAttr(p));
  }

  lemma ReadHead(p: PeerConfig)
    requires KeyFault(p).None?
    ensures Fold(ReadPeerAttr, NO_PEER, HeadAttrs(p))
            == NormalPeer(p).(allowedIps := None, protocolVersion := None, flags := None)
  {
    ReadKeys(p);
    ReadCounters(p, KeyAttrs(p));
  }

  lemma ReadVersion(p: PeerConfig, attrs: seq<PeerAttr>)
    requires Fold(ReadPeerAttr, NO_PEER, attrs).protocolVersion.None?
    ensures Fold(ReadPeerAttr, NO_PEER, attrs + Maybe(VersionAttr(p)))
            == Fold(ReadPeerAttr, NO_PEER, attrs).(protocolVersion := p.protocolVersion)
  {
    FoldMaybe(ReadPeerAttr, NO_PEER, attrs, VersionAttr(p));
  }

  lemma ReadFlags(p: PeerConfig, attrs: seq<PeerAttr>)
    requires Fold(ReadPeerAttr, NO_PEER, attrs).flags.None?
    ensures Fold(ReadPeerAttr, NO_PEER, attrs + Maybe(FlagsAttr(p)))
            == Fold(ReadPeerAttr, NO_PEER, attrs).(flags := NormalFlags(p.flags))
  {
    FoldMaybe(ReadPeerAttr, NO_PEER, attrs, FlagsAttr(p));
  }

  lemma ReadState(p: PeerConfig)
    requires KeyFault(p).None?
    ensures ReadPeer(Peer(StateAttrs(p))) == NormalPeer(p).(allowedIps := None)
  {
    ReadHead(p);
    ReadVersion(p, HeadAttrs(p));
    ReadFlags(p, HeadAttrs(p) + Maybe(VersionAttr(p)));
  }

  ghost predicate Carries(attrs: seq<PeerAttr>, key: Key) {
    NoIps(attrs) && PublicKeyIn(attrs) == Some(key)
  }

  lemma OneMore(attrs: seq<PeerAttr>, more: Option<PeerAttr>, key: Key)
    requires Carries(attrs, key)
    requires more.Some? ==> !more.value.PublicKey? && !more.value.AllowedIps?
    ensures Carries(attrs + Maybe(more), key)
  {
    if more.Some? {
      assert (attrs + Maybe(more))[..|attrs|] == attrs;
    } else {
      assert attrs + Maybe(more) == attrs;
    }
  }

  /** The state attributes hold the peer's key and no allowed IPs. */
  lemma HeadHasKey(p: PeerConfig)
    requires p.publicKey.Some?
    ensures Carries(HeadAttrs(p), KeyOf(p.publicKey.value))
  {
    hide KeyOf, Carries;
    var key := KeyOf(p.publicKey.value);
    var h2 := Maybe(EndpointAttr(p)) + Maybe(PublicKeyAttr(p));
    var h3 := h2 + Maybe(PresharedKeyAttr(p));
    var h4 := h3 + Maybe(KeepaliveAttr(p));
    var h5 := h4 + Maybe(HandshakeAttr(p));
    var h6 := h5 + Maybe(RxAttr(p));
    KeyAfterEndpoint(EndpointAttr(p), key);
    OneMore(h2, PresharedKeyAttr(p), key);
    OneMore(h3, KeepaliveAttr(p), key);
    OneMore(h4, HandshakeAttr(p), key);
    OneMore(h5, RxAttr(p), key);
    OneMore(h6, TxAttr(p), key);
  }

  lemma KeyAfterEndpoint(endpoint: Option<PeerAttr>, key: Key)
    requires endpoint.Some? ==> endpoint.value.Endpoint?
    ensures Carries(Maybe(endpoint) + Maybe(Some(PublicKey(key))), key)
  {
    var attrs := Maybe(endpoint) + Maybe(Some(PublicKey(key)));
    assert attrs[|attrs| - 1] == PublicKey(key);
  }

  lemma StateHasKey(p: PeerConfig)
    requires p.publicKey.Some?
    ensures Carries(StateAttrs(p), KeyOf(p.publicKey.value))
  {
    hide KeyOf, Carries, HeadAttrs;
    HeadHasKey(p);
    OneMore(HeadAttrs(p), VersionAttr(p), KeyOf(p.publicKey.value));
    OneMore(HeadAttrs(p) + Maybe(VersionAttr(p)), FlagsAttr(p), KeyOf(p.publicKey.value));
  }

  /** The whole entry is one piece of its state. */
  lemma WholeIsPiece(p: PeerConfig)
    ensures |HeadAttrs(p)| <= |StateAttrs(p)|
    ensures BuildPeer(p) == if p.allowedIps.Some?
                            then Piece(StateAttrs(p), |HeadAttrs(p)|, Map(BuildIp, p.allowedIps.value))
                            else Peer(StateAttrs(p))
  {
    hide HeadAttrs, VersionAttr, FlagsAttr, BuildIp;
    var head, tail := HeadAttrs(p), Maybe(VersionAttr(p)) + Maybe(FlagsAttr(p));
    var state, n := StateAttrs(p), |head|;
    assert state == head + tail;
    assert state[..n] == head && state[n..] == tail;
    assert BuildPeer(p).attrs == head + Maybe(IpsAttr(p)) + tail;
    if p.allowedIps.None? { assert head + Maybe(IpsAttr(p)) == head; }
  }
}
