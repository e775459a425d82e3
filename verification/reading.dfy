/** What is read of attributes, property by property and without the readers: the last attribute of a kind decides,
    whatever stands around it. */
module Reading {
  import opened Base64
  import opened Coalesce
  import opened Device
  import opened Flags
  import opened Keys
  import opened Netlink
  import opened Parsed
  import opened PeerParsed
  import opened Reassembly
  import opened Sequences
  import opened Wrappers

  /* Kinds of attributes */

  function NameOf(a: DeviceAttr): Option<seq<Byte>> {
    if a.IfName? then Some(a.name) else None
  }

  function IndexOf(a: DeviceAttr): Option<U32> {
    if a.IfIndex? then Some(a.index) else None
  }

  function DeviceKeyOf(a: DeviceAttr): Option<Key> {
    if a.DevicePublicKey? then Some(a.key) else None
  }

  function PrivateKeyOf(a: DeviceAttr): Option<Key> {
    if a.PrivateKey? then Some(a.key) else None
  }

  function PortOf(a: DeviceAttr): Option<U16> {
    if a.ListenPort? then Some(a.port) else None
  }

  function MarkOf(a: DeviceAttr): Option<U32> {
    if a.Fwmark? then Some(a.mark) else None
  }

  function DeviceWordOf(a: DeviceAttr): Option<Word> {
    if a.DeviceFlags? then Some(a.bits) else None
  }

  function PeersIn(a: DeviceAttr): Option<seq<Peer>> {
    if a.Peers? then Some(a.peers) else None
  }

  function Same<T>(t: T): Option<T> {
    Some(t)
  }

  /** The standard base64 text of a key. */
  function TextOf(k: Key): Option<string> {
    Some(Encode(k))
  }

  function TextOfLast(k: Option<Key>): Option<string> {
    if k.Some? then Some(Encode(k.value)) else None
  }

  /* Device properties */

  ghost predicate HoldsLast(c: Config, attrs: seq<DeviceAttr>) {
    && c.ifaceName == LastOf(NameOf, attrs)
    && c.ifaceIndex == LastOf(IndexOf, attrs)
    && c.publicKey == TextOfLast(LastOf(DeviceKeyOf, attrs))
    && c.privateKey == TextOfLast(LastOf(PrivateKeyOf, attrs))
    && c.listenPort == LastOf(PortOf, attrs)
    && c.fwmark == LastOf(MarkOf, attrs)
  }

  /** A reader in which every attribute decides its own property and leaves the others alone. */
  ghost predicate DecidesAlone(read: (Config, DeviceAttr) -> Config) {
    forall c, a ::
      && read(c, a).ifaceName == (if NameOf(a).Some? then NameOf(a) else c.ifaceName)
      && read(c, a).ifaceIndex == (if IndexOf(a).Some? then IndexOf(a) else c.ifaceIndex)
      && read(c, a).publicKey == (if DeviceKeyOf(a).Some? then TextOfLast(DeviceKeyOf(a)) else c.publicKey)
      && read(c, a).privateKey == (if PrivateKeyOf(a).Some? then TextOfLast(PrivateKeyOf(a)) else c.privateKey)
      && read(c, a).listenPort == (if PortOf(a).Some? then PortOf(a) else c.listenPort)
      && read(c, a).fwmark == (if MarkOf(a).Some? then MarkOf(a) else c.fwmark)
  }

  lemma AloneMeansLast(read: (Config, DeviceAttr) -> Config, attrs: seq<DeviceAttr>)
    requires DecidesAlone(read)
    ensures HoldsLast(Fold(read, NO_CONFIG, attrs), attrs)
  {
    hide Encode;
    FoldIsLast(read, (c: Config) => c.ifaceName, NameOf, Same, NO_CONFIG, attrs);
    FoldIsLast(read, (c: Config) => c.ifaceIndex, IndexOf, Same, NO_CONFIG, attrs);
    FoldIsLast(read, (c: Config) => c.publicKey, DeviceKeyOf, TextOf, NO_CONFIG, attrs);
    FoldIsLast(read, (c: Config) => c.privateKey, PrivateKeyOf, TextOf, NO_CONFIG, attrs);
    FoldIsLast(read, (c: Config) => c.listenPort, PortOf, Same, NO_CONFIG, attrs);
    FoldIsLast(read, (c: Config) => c.fwmark, MarkOf, Same, NO_CONFIG, attrs);
  }

  lemma BothDecideAlone()
    ensures DecidesAlone(ReadAttr) && DecidesAlone(ReadSingleAttr)
  {
    hide PushPeer, ReadPeer, DeviceFlagList, Encode;
  }

  /** Of several messages: every property is that of the last attribute of its kind, wherever it stands. */
  lemma PropertiesAreLast(messages: seq<Message>)
    ensures HoldsLast(ReadMessages(messages), AllAttrs(messages))
  {
    hide ReadAttr, AllAttrs, DecidesAlone, HoldsLast;
    BothDecideAlone();
    AloneMeansLast(ReadAttr, AllAttrs(messages));
  }

  function DeviceListOf(bits: Word): Option<seq<DeviceFlag>> {
    Some(DeviceFlagList(bits))
  }

  function ReadAll(entries: seq<Peer>): Option<seq<PeerConfig>> {
    Some(Map(ReadPeer, entries))
  }

  /** Of a single message: the same, and the last list of peers and the last flags count, too. */
  lemma SinglePropertiesAreLast(m: Message)
    ensures var c := ReadMessage(m);
            && HoldsLast(c, m.attrs)
            && c.flags == (match LastOf(DeviceWordOf, m.attrs)
                           case Some(bits) => Some(DeviceFlagList(bits)) case None => None)
            && c.peers == (match LastOf(PeersIn, m.attrs)
                           case Some(entries) => Some(Map(ReadPeer, entries)) case None => None)
  {
    hide ReadPeer, DeviceFlagList, KeyText, DecidesAlone, HoldsLast;
    BothDecideAlone();
    AloneMeansLast(ReadSingleAttr, m.attrs);
    FoldIsLast(ReadSingleAttr, (c: Config) => c.flags, DeviceWordOf, DeviceListOf, NO_CONFIG, m.attrs);
    FoldIsLast(ReadSingleAttr, (c: Config) => c.peers, PeersIn, ReadAll, NO_CONFIG, m.attrs);
  }

  function ListedIn(a: DeviceAttr): seq<DeviceFlag> {
    if a.DeviceFlags? then DeviceFlagList(a.bits) else []
  }

  /** Of several messages, the flags of all attributes are collected in order. */
  lemma {:induction false} FlagsAreCollected(attrs: seq<DeviceAttr>)
    ensures Fold(ReadAttr, NO_CONFIG, attrs).flags
            == if LastOf(DeviceWordOf, attrs).Some? then Some(Flatten(Map(ListedIn, attrs))) else None
    ensures LastOf(DeviceWordOf, attrs).None? ==> Flatten(Map(ListedIn, attrs)) == []
    decreases |attrs|
  {
    hide ReadAttr, ListedIn, LastOf, Flatten;
    if attrs == [] {
      assert Map(ListedIn, attrs) == [];
      NothingListed();
    } else {
      var n := |attrs| - 1;
      var init, a := attrs[..n], attrs[n];
      assert attrs == init + [a];
      FlagsAreCollected(init);
      FoldSnoc(ReadAttr, NO_CONFIG, init, a);
      assert Map(ListedIn, attrs) == Map(ListedIn, init) + [ListedIn(a)];
      FlattenSnoc(Map(ListedIn, init), ListedIn(a));
      LastSnoc(DeviceWordOf, init, a);
      CollectOne(Fold(ReadAttr, NO_CONFIG, init), a, Flatten(Map(ListedIn, init)));
    }
  }

  lemma NothingListed()
    ensures LastOf(DeviceWordOf, []).None? && Flatten<DeviceFlag>([]) == []
  {}

  lemma CollectOne(acc: Config, a: DeviceAttr, known: seq<DeviceFlag>)
    requires acc.flags.Some? ==> acc.flags.value == known
    requires acc.flags.None? ==> known == []
    ensures ReadAttr(acc, a).flags
            == if DeviceWordOf(a).Some? || acc.flags.Some? then Some(known + ListedIn(a)) else None
    ensures DeviceWordOf(a).None? ==> ListedIn(a) == []
  {
    hide PushPeer, ReadPeer, DeviceFlagList, KeyText;
    assert known + [] == known;
  }

  /* Peers */

  function EndpointOf(a: PeerAttr): Option<SocketAddr> {
    if a.Endpoint? then Some(a.endpoint) else None
  }

  function PeerKeyOf(a: PeerAttr): Option<Key> {
    if a.PublicKey? then Some(a.key) else None
  }

  function SecretOf(a: PeerAttr): Option<Key> {
    if a.PresharedKey? then Some(a.key) else None
  }

  function KeepaliveOf(a: PeerAttr): Option<U16> {
    if a.PersistentKeepalive? then Some(a.seconds) else None
  }

  /** Times that are not times do not count. */
  function TimeOf(a: PeerAttr): Option<TimeSpec> {
    if a.LastHandshake? && 0 <= a.time.seconds && 0 <= a.time.nanoSeconds < 1_000_000_000 then Some(a.time) else None
  }

  function RxOf(a: PeerAttr): Option<U64> {
    if a.RxBytes? then Some(a.count) else None
  }

  function TxOf(a: PeerAttr): Option<U64> {
    if a.TxBytes? then Some(a.count) else None
  }

  function IpsOfPeer(a: PeerAttr): Option<seq<AllowedIp>> {
    if a.AllowedIps? then Some(a.ips) else None
  }

  function VersionOf(a: PeerAttr): Option<U32> {
    if a.ProtocolVersion? then Some(a.version) else None
  }

  function PeerWordOf(a: PeerAttr): Option<Word> {
    if a.PeerFlags? then Some(a.bits) else None
  }

  /** The key of zeros is none. Every other key is shown. */
  function SecretText(k: Key): Option<string> {
    if k == seq(32, _ => 0) then None else Some(Encode(k))
  }

  /** The time of zeros is none. */
  function TimeShown(t: TimeSpec): Option<Duration>
  {
    if t.seconds == 0 && t.nanoSeconds == 0 then None
    else if 0 <= t.seconds && 0 <= t.nanoSeconds < 1_000_000_000 then Some(Duration(t.seconds, t.nanoSeconds))
    else None
  }

  function IpsShown(ips: seq<AllowedIp>): Option<seq<IpConfig>> {
    Some(ReadIps(ips))
  }

  function PeerListOf(bits: Word): Option<seq<PeerFlag>> {
    Some(PeerFlagList(bits))
  }

  lemma SecretIsShown(acc: PeerConfig, k: Key)
    ensures ReadPeerAttr(acc, PresharedKey(k)).presharedKey == SecretText(k)
  {
    hide Encode;
    OneZeroKey(k);
    assert ZeroKey() == seq(32, _ => 0);
  }

  /** Of a peer, too, every property is that of the last attribute of its kind, wherever it stands. */
  lemma PeerKeysAreLast(e: Peer)
    ensures var p := ReadPeer(e);
            && p.publicKey == TextOfLast(LastOf(PeerKeyOf, e.attrs))
            && p.presharedKey == (match LastOf(SecretOf, e.attrs) case Some(k) => SecretText(k) case None => None)
  {
    hide Encode, ReadIps, PeerFlagList, SecretText, IsZeroKey, ReadTime;
    forall acc: PeerConfig, k: Key
      ensures ReadPeerAttr(acc, PresharedKey(k)).presharedKey == SecretText(k)
    {
      SecretIsShown(acc, k);
    }
    FoldIsLast(ReadPeerAttr, (p: PeerConfig) => p.publicKey, PeerKeyOf, TextOf, NO_PEER, e.attrs);
    FoldIsLast(ReadPeerAttr, (p: PeerConfig) => p.presharedKey, SecretOf, SecretText, NO_PEER, e.attrs);
  }

  lemma PeerPropertiesAreLast(e: Peer)
    ensures var p := ReadPeer(e);
            && p.endpoint == LastOf(EndpointOf, e.attrs)
            && p.persistentKeepalive == LastOf(KeepaliveOf, e.attrs)
            && p.protocolVersion == LastOf(VersionOf, e.attrs)
  {
    hide KeyText, ReadIps, PeerFlagList, IsZeroKey, ReadTime;
    FoldIsLast(ReadPeerAttr, (p: PeerConfig) => p.endpoint, EndpointOf, Same, NO_PEER, e.attrs);
    FoldIsLast(ReadPeerAttr, (p: PeerConfig) => p.persistentKeepalive, KeepaliveOf, Same, NO_PEER, e.attrs);
    FoldIsLast(ReadPeerAttr, (p: PeerConfig) => p.protocolVersion, VersionOf, Same, NO_PEER, e.attrs);
  }

  lemma PeerCountersAreLast(e: Peer)
    ensures var p := ReadPeer(e);
            && p.lastHandshake == (match LastOf(TimeOf, e.attrs) case Some(t) => TimeShown(t) case None => None)
            && p.rxBytes == LastOf(RxOf, e.attrs)
            && p.txBytes == LastOf(TxOf, e.attrs)
  {
    hide KeyText, ReadIps, PeerFlagList, IsZeroKey;
    FoldIsLast(ReadPeerAttr, (p: PeerConfig) => p.lastHandshake, TimeOf, TimeShown, NO_PEER, e.attrs);
    FoldIsLast(ReadPeerAttr, (p: PeerConfig) => p.rxBytes, RxOf, Same, NO_PEER, e.attrs);
    FoldIsLast(ReadPeerAttr, (p: PeerConfig) => p.txBytes, TxOf, Same, NO_PEER, e.attrs);
  }

  lemma PeerListsAreLast(e: Peer)
    ensures var p := ReadPeer(e);
            && p.allowedIps == (match LastOf(IpsOfPeer, e.attrs) case Some(ips) => IpsShown(ips) case None => None)
            && p.flags == (match LastOf(PeerWordOf, e.attrs) case Some(bits) => PeerListOf(bits) case None => None)
  {
    hide KeyText, ReadIps, PeerFlagList, IsZeroKey, ReadTime;
    FoldIsLast(ReadPeerAttr, (p: PeerConfig) => p.allowedIps, IpsOfPeer, IpsShown, NO_PEER, e.attrs);
    FoldIsLast(ReadPeerAttr, (p: PeerConfig) => p.flags, PeerWordOf, PeerListOf, NO_PEER, e.attrs);
  }

  /* Allowed IPs */

  function IpListOf(bits: Word): Option<seq<IpFlag>> {
    Some(IpFlagList(bits))
  }

  /** An allowed IP is read exactly when it has an address and a prefix length; the last ones count. */
  lemma IpIsLast(ip: AllowedIp)
    ensures ReadIp(ip).Some? <==> AddrIn(ip).Some? && CidrIn(ip).Some?
    ensures ReadIp(ip).Some? ==>
              && ReadIp(ip).value.ipAddr == AddrIn(ip).value
              && ReadIp(ip).value.prefixLength == CidrIn(ip).value
              && ReadIp(ip).value.flags == match FlagsIn(ip) case Some(bits) => IpListOf(bits) case None => None
  {
    hide IpFlagList;
    var none := IpFields(None, None, None);
    FoldIsLast(ReadIpAttr, (f: IpFields) => f.addr, AddrOf, Same, none, ip.attrs);
    FoldIsLast(ReadIpAttr, (f: IpFields) => f.prefix, CidrOf, Same, none, ip.attrs);
    FoldIsLast(ReadIpAttr, (f: IpFields) => f.flags, FlagsOfIp, IpListOf, none, ip.attrs);
  }

  /** Those of the allowed IPs that have an address and a prefix length. */
  function Readable(ips: seq<AllowedIp>): seq<AllowedIp> {
    if ips == [] then []
    else
      var n := |ips| - 1;
      Readable(ips[..n]) + if AddrIn(ips[n]).Some? && CidrIn(ips[n]).Some? then [ips[n]] else []
  }

  /** They are read one by one in order; the others are left out. */
  lemma {:induction false} IpsAreRead(ips: seq<AllowedIp>)
    ensures |ReadIps(ips)| == |Readable(ips)|
    ensures forall i :: 0 <= i < |ReadIps(ips)| ==> ReadIp(Readable(ips)[i]) == Some(ReadIps(ips)[i])
    decreases |ips|
  {
    hide ReadIp, AddrIn, CidrIn;
    if ips == [] {
      assert Map(ReadValidIp, ips) == [];
    } else {
      var n := |ips| - 1;
      IpsAreRead(ips[..n]);
      assert ips == ips[..n] + [ips[n]];
      ReadIpsConcat(ips[..n], [ips[n]]);
      ReadIpsOne(ips[n]);
      IpIsLast(ips[n]);
    }
  }
}
