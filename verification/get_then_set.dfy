/** What `get_by_name` returns can be given to `set`: applying a dump of a device to the device changes nothing. */
module GetThenSet {
  import opened Applying
  import opened Coalesce
  import opened Device
  import opened Dump
  import opened Flags
  import opened Fragments
  import opened Keys
  import opened Meaning
  import opened Netlink
  import opened Parsed
  import opened PeerParsed
  import opened Reassembly
  import opened Sequences
  import opened Wrappers

  /** The attribute says of the peer what is so. Preshared keys of zeros and times that are not times say nothing, and
      neither do allowed IPs that are not valid. */
  ghost predicate AttrIsTrue(d: Device, key: Key, a: PeerAttr)
    requires key in d.peers
  {
    var state := d.peers[key];
    match a
    case Endpoint(v) => state.endpoint == Some(v)
    case PublicKey(k) => k == key
    case PresharedKey(k) => k == ZeroKey() || state.presharedKey == Some(k)
    case PersistentKeepalive(v) => state.keepalive == Some(v)
    case LastHandshake(t) => ReadTime(t).None? || state.handshake == Some(t)
    case RxBytes(v) => state.rx == Some(v)
    case TxBytes(v) => state.tx == Some(v)
    case AllowedIps(ips) => forall ip <- ips :: ReadIp(ip).Some? ==> IpMatches(d, key, ReadIp(ip).value)
    case ProtocolVersion(v) => state.version == Some(v)
    case PeerFlags(bits) => !(REMOVE_ME <= bits) && !(REPLACE_ALLOWED_IPS <= bits)
    case UnknownPeer(_) => true
  }

  ghost predicate EntryIsTrue(d: Device, e: Peer) {
    var key := PublicKeyIn(e.attrs);
    key.Some? && key.value in d.peers && forall a <- e.attrs :: AttrIsTrue(d, key.value, a)
  }

  ghost predicate PropertyIsTrue(d: Device, a: DeviceAttr) {
    match a
    case IfName(v) => v == d.name
    case IfIndex(v) => v == d.index
    case DevicePublicKey(k) => d.settings.publicKey == Some(k)
    case PrivateKey(k) => d.settings.privateKey == Some(k)
    case ListenPort(v) => d.settings.listenPort == Some(v)
    case Fwmark(v) => d.settings.fwmark == Some(v)
    case DeviceFlags(bits) => !(REPLACE_PEERS <= bits)
    case Peers(entries) => forall e <- entries :: EntryIsTrue(d, e)
    case UnknownDevice(_) => true
  }

  /** The messages are a dump of the device: all they say is so, and they name the device. Entries may be cut and spread
      in any way, and may leave things out. */
  ghost predicate IsDumpOf(messages: seq<Message>, d: Device) {
    && (forall a <- AllAttrs(messages) :: PropertyIsTrue(d, a))
    && (exists a <- AllAttrs(messages) :: a.IfName? || a.IfIndex?)
  }

  /* Reading true entries gives peers that match the device */

  /** What has been read of the peer so far matches the device. */
  ghost predicate PartMatches(d: Device, key: Key, p: PeerConfig)
    requires key in d.peers
  {
    && (p.publicKey.Some? ==> p.publicKey.value == KeyText(key))
    && !(REMOVE_ME <= FlagBits(p)) && !(REPLACE_ALLOWED_IPS <= FlagBits(p))
    && Update(d.peers[key], StateOf(p)) == d.peers[key]
    && (p.allowedIps.Some? ==> forall ip <- p.allowedIps.value :: IpMatches(d, key, ip))
  }

  lemma {:induction false} ReadIpsMatch(d: Device, key: Key, ips: seq<AllowedIp>)
    requires forall ip <- ips :: ReadIp(ip).Some? ==> IpMatches(d, key, ReadIp(ip).value)
    ensures forall ip <- ReadIps(ips) :: IpMatches(d, key, ip)
    decreases |ips|
  {
    hide ReadIp, IpMatches;
    if ips == [] {
      assert ReadIps(ips) == [];
    } else {
      ReadIpsConcat([ips[0]], ips[1..]);
      assert [ips[0]] + ips[1..] == ips;
      ReadIpsOne(ips[0]);
      ReadIpsMatch(d, key, ips[1..]);
    }
  }

  lemma ReadAttrMatches(d: Device, key: Key, acc: PeerConfig, a: PeerAttr)
    requires key in d.peers && PartMatches(d, key, acc) && AttrIsTrue(d, key, a)
    ensures PartMatches(d, key, ReadPeerAttr(acc, a))
  {
    hide DecodeKey, KeyText, KeyOf, IpMatches, ReadIp;
    match a {
      case PresharedKey(k) =>
        KeyTextRoundTrip(k);
        OneZeroKey(k);
      case AllowedIps(ips) => ReadIpsMatch(d, key, ips);
      case PeerFlags(bits) => ListsKeepBits(bits);
      case LastHandshake(t) => SecondsRoundTrip(t);
      case _ =>
    }
  }

  lemma SecondsRoundTrip(t: TimeSpec)
    ensures ReadTime(t).Some? ==> TimeSpec(AsI64(ReadTime(t).value.secs), ReadTime(t).value.nanos) == t
  {}

  lemma {:induction false} ReadAttrsMatch(d: Device, key: Key, acc: PeerConfig, attrs: seq<PeerAttr>)
    requires key in d.peers && PartMatches(d, key, acc) && forall a <- attrs :: AttrIsTrue(d, key, a)
    ensures PartMatches(d, key, Fold(ReadPeerAttr, acc, attrs))
    decreases |attrs|
  {
    hide PartMatches, ReadPeerAttr, AttrIsTrue;
    if attrs != [] {
      assert AttrIsTrue(d, key, attrs[0]);
      ReadAttrMatches(d, key, acc, attrs[0]);
      ReadAttrsMatch(d, key, ReadPeerAttr(acc, attrs[0]), attrs[1..]);
    }
  }

  /** A peer that was read matches the device. */
  ghost predicate Matches(d: Device, p: PeerConfig) {
    && p.publicKey.Some? && IsKeyText(p.publicKey.value)
    && PeerKey(p) in d.peers && PartMatches(d, PeerKey(p), p)
  }

  lemma ReadEntryMatches(d: Device, e: Peer)
    requires EntryIsTrue(d, e)
    ensures Matches(d, ReadPeer(e))
  {
    hide DecodeKey, KeyText, KeyOf, IpMatches, ReadPeerAttr, AttrIsTrue, StateOf, Update, FlagBits;
    var key := PublicKeyIn(e.attrs).value;
    NothingMatches(d, key);
    ReadAttrsMatch(d, key, NO_PEER, e.attrs);
    ReadPublicKey(e.attrs);
    ReadTextIsKey(key);
  }

  lemma NothingMatches(d: Device, key: Key)
    requires key in d.peers
    ensures PartMatches(d, key, NO_PEER)
  {}

  lemma MergeMatches(d: Device, key: Key, a: PeerConfig, b: PeerConfig)
    requires key in d.peers && PartMatches(d, key, a) && PartMatches(d, key, b)
    ensures PartMatches(d, key, Merge(a, b))
  {
    hide DecodeKey, KeyText, KeyOf, IpMatches;
    if a.flags.Some? && b.flags.Some? { JoinedFlags(a.flags.value, b.flags.value); }
  }

  lemma JoinedFlags(a: seq<PeerFlag>, b: seq<PeerFlag>)
    ensures PeerBits(a + b) == PeerBits(a) + PeerBits(b)
  {
    MapConcat(PeerFlagBits, a, b);
    UnionConcat(Map(PeerFlagBits, a), Map(PeerFlagBits, b));
  }

  lemma {:induction false} UnionConcat(xs: seq<Word>, ys: seq<Word>)
    ensures Union(xs + ys) == Union(xs) + Union(ys)
    decreases |xs|
  {
    if xs == [] {
      assert xs + ys == ys;
    } else {
      assert (xs + ys)[1..] == xs[1..] + ys;
      UnionConcat(xs[1..], ys);
    }
  }

  lemma {:induction false} PushMatches(d: Device, peers: seq<PeerConfig>, more: seq<PeerConfig>)
    requires (forall p <- peers :: Matches(d, p)) && forall p <- more :: Matches(d, p)
    ensures forall p <- Fold(PushPeer, peers, more) :: Matches(d, p)
    decreases |more|
  {
    hide PartMatches, DecodeKey, IsKeyText, KeyOf;
    if more != [] {
      var p := more[0];
      var n := |peers| - 1;
      assert Matches(d, p) && (n >= 0 ==> Matches(d, peers[n]));
      if n >= 0 && SamePeer(peers[n], p) { MergeMatches(d, PeerKey(p), peers[n], p); }
      forall q <- PushPeer(peers, p)
        ensures Matches(d, q)
      {
        assert q in peers || q == p || (n >= 0 && SamePeer(peers[n], p) && q == Merge(peers[n], p));
      }
      PushMatches(d, PushPeer(peers, p), more[1..]);
    }
  }

  lemma DumpedPeersMatch(messages: seq<Message>, d: Device)
    requires IsDumpOf(messages, d)
    ensures forall p <- PeersOf(ReadMessages(messages)) :: Matches(d, p)
  {
    hide Matches, EntryIsTrue, ReadPeer;
    var attrs := AllAttrs(messages);
    PeersRead(attrs);
    var read := Map(ReadPeer, Entries(attrs));
    forall i | 0 <= i < |read|
      ensures Matches(d, read[i])
    {
      EntryIsInAttr(attrs, Entries(attrs)[i]);
      ReadEntryMatches(d, Entries(attrs)[i]);
    }
    PushMatches(d, [], read);
  }

  lemma {:induction false} EntryIsInAttr(attrs: seq<DeviceAttr>, e: Peer)
    requires e in Entries(attrs)
    ensures exists a <- attrs :: a.Peers? && e in a.peers
    decreases |attrs|
  {
    if attrs != [] {
      var n := |attrs| - 1;
      assert attrs == attrs[..n] + [attrs[n]];
      EntriesSnoc(attrs[..n], attrs[n]);
      if e in Entries(attrs[..n]) { EntryIsInAttr(attrs[..n], e); }
    }
  }

  /* Reading true properties */

  ghost predicate SettingsMatch(d: Device, c: Config) {
    && (c.ifaceName.Some? ==> c.ifaceName.value == d.name)
    && (c.ifaceIndex.Some? ==> c.ifaceIndex.value == d.index)
    && Configure(d.settings, SettingsOf(c)) == d.settings
    && !(REPLACE_PEERS <= DeviceFlagBitsOf(c))
  }

  lemma ReadPropertyMatches(d: Device, acc: Config, a: DeviceAttr)
    requires SettingsMatch(d, acc) && PropertyIsTrue(d, a)
    ensures SettingsMatch(d, ReadAttr(acc, a))
  {
    hide DecodeKey, KeyText, KeyOf, EntryIsTrue, PushPeer, ReadPeer;
    match a {
      case PrivateKey(k) => KeyTextRoundTrip(k);
      case DevicePublicKey(k) => KeyTextRoundTrip(k);
      case DeviceFlags(bits) =>
        ListsKeepBits(bits);
        JoinedDeviceFlags(FlagsOf(acc), DeviceFlagList(bits));
        assert Union(Map(DeviceFlagBits, [])) == {};
      case _ =>
    }
  }

  lemma JoinedDeviceFlags(a: seq<DeviceFlag>, b: seq<DeviceFlag>)
    ensures DeviceBits(a + b) == DeviceBits(a) + DeviceBits(b)
  {
    MapConcat(DeviceFlagBits, a, b);
    UnionConcat(Map(DeviceFlagBits, a), Map(DeviceFlagBits, b));
  }

  lemma {:induction false} ReadPropertiesMatch(d: Device, acc: Config, attrs: seq<DeviceAttr>)
    requires SettingsMatch(d, acc) && forall a <- attrs :: PropertyIsTrue(d, a)
    ensures SettingsMatch(d, Fold(ReadAttr, acc, attrs))
    ensures var c := Fold(ReadAttr, acc, attrs);
            c.ifaceName.Some? || c.ifaceIndex.Some? <==>
            acc.ifaceName.Some? || acc.ifaceIndex.Some? || exists a <- attrs :: a.IfName? || a.IfIndex?
    decreases |attrs|
  {
    hide SettingsMatch, PropertyIsTrue, KeyText, PushPeer, ReadPeer;
    if attrs != [] {
      assert PropertyIsTrue(d, attrs[0]);
      ReadPropertyMatches(d, acc, attrs[0]);
      ReadPropertiesMatch(d, ReadAttr(acc, attrs[0]), attrs[1..]);
      assert attrs == [attrs[0]] + attrs[1..];
    }
  }

  /** The device has a name the kernel allows and only prefix lengths that are in range. */
  ghost predicate IsReal(d: Device) {
    && |d.name| < IFNAMSIZ && 0 !in d.name
    && forall r <- d.routes :: r.prefix <= if r.addr.V4? then 32 else 128
  }

  lemma DumpDescribes(messages: seq<Message>, d: Device)
    requires IsReal(d) && IsDumpOf(messages, d)
    ensures Describes(ReadMessages(messages), d) && Applicable(ReadMessages(messages))
  {
    hide DecodeKey, KeyOf, IsKeyText, ReadMessages, StateOf, Update, PropertyIsTrue;
    var c := ReadMessages(messages);
    DumpedPeersMatch(messages, d);
    DumpedSettingsMatch(messages, d);
    forall p <- PeersOf(c)
      ensures PeerMatches(d, p)
      ensures p.publicKey.Some? && (p.allowedIps.Some? ==> forall ip <- p.allowedIps.value :: ValidPrefix(ip))
    {
      assert Matches(d, p);
      if p.allowedIps.Some? {
        forall ip <- p.allowedIps.value
          ensures ValidPrefix(ip)
        {
          assert IpMatches(d, PeerKey(p), ip);
        }
      }
    }
  }

  lemma DumpedSettingsMatch(messages: seq<Message>, d: Device)
    requires IsDumpOf(messages, d)
    ensures var c := ReadMessages(messages);
            SettingsMatch(d, c) && (c.ifaceName.Some? || c.ifaceIndex.Some?)
  {
    hide PropertyIsTrue;
    ReadPropertiesMatch(d, NO_CONFIG, AllAttrs(messages));
  }

  /** For every device and every dump of it, however the dump was split: what is read from the dump is accepted for
      setting, and setting it changes nothing, however many messages that takes. */
  lemma GetThenSetChangesNothing(messages: seq<Message>, d: Device)
    requires IsReal(d) && IsDumpOf(messages, d)
    ensures var accepted := MessagesOf(ReadMessages(messages), SetDevice);
            accepted.Ok? && ApplyMessages(d, accepted.value) == d
  {
    hide ReadMessages, MessagesOf, Describes, Applicable, IsDumpOf, ApplyMessage;
    DumpDescribes(messages, d);
    DumpIsAccepted(messages, SetDevice);
    ReapplyChangesNothing(d, ReadMessages(messages), SetDevice);
  }
}
