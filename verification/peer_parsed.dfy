/** Peers of a configuration and their netlink entries (src/peer_parsed.rs). */
module PeerParsed {
  import opened Flags
  import opened Keys
  import opened Netlink
  import opened Sequences
  import opened Wrappers

  const NANOS_PER_SECOND: int := 1_000_000_000

  type Nanos = x: int | 0 <= x < NANOS_PER_SECOND

  datatype Duration = Duration(secs: U64, nanos: Nanos)

  /** An allowed IP of a configuration. */
  datatype IpConfig = IpConfig(prefixLength: U8, ipAddr: IpAddr, flags: Option<seq<IpFlag>>)

  /** A peer of a configuration. */
  datatype PeerConfig = PeerConfig(
    endpoint: Option<SocketAddr>,
    publicKey: Option<string>,
    presharedKey: Option<string>,
    persistentKeepalive: Option<U16>,
    lastHandshake: Option<Duration>,
    rxBytes: Option<U64>,
    txBytes: Option<U64>,
    allowedIps: Option<seq<IpConfig>>,
    protocolVersion: Option<U32>,
    flags: Option<seq<PeerFlag>>)

  const NO_PEER := PeerConfig(None, None, None, None, None, None, None, None, None, None)

  /** The entry that removes the peer with this key. */
  function Remove(publicKey: string): PeerConfig {
    NO_PEER.(publicKey := Some(publicKey), flags := Some([RemoveMe]))
  }

  /* Building entries */

  predicate ValidPrefix(ip: IpConfig) {
    ip.prefixLength <= if ip.ipAddr.V4? then 32 else 128
  }

  function KeyFault(p: PeerConfig): Option<ErrorKind> {
    if p.publicKey.None? then Some(InvalidInput)
    else if !IsKeyText(p.publicKey.value) then Some(InvalidKey)
    else if p.presharedKey.Some? && !IsKeyText(p.presharedKey.value) then Some(InvalidKey)
    else None
  }

  /** Why `p` has no netlink entry, if it has none: the first fault in the order the fields are built. */
  function PeerFault(p: PeerConfig): Option<ErrorKind> {
    if KeyFault(p).Some? then KeyFault(p)
    else if p.allowedIps.Some? && exists ip <- p.allowedIps.value :: !ValidPrefix(ip) then Some(InvalidInput)
    else None
  }

  function BuildIp(ip: IpConfig): AllowedIp {
    AllowedIp([Cidr(ip.prefixLength), Family(if ip.ipAddr.V4? then Ipv4 else Ipv6), Addr(ip.ipAddr)]
              + if ip.flags.Some? then [IpFlags(IpBits(ip.flags.value))] else [])
  }

  /** `as i64`: seconds past the signed range wrap around. */
  function AsI64(n: U64): I64 {
    if n < 0x8000_0000_0000_0000 then n else n - 0x1_0000_0000_0000_0000
  }

  function EndpointAttr(p: PeerConfig): Option<PeerAttr> {
    if p.endpoint.Some? then Some(Endpoint(p.endpoint.value)) else None
  }

  function PublicKeyAttr(p: PeerConfig): Option<PeerAttr> {
    if p.publicKey.Some? then Some(PublicKey(KeyOf(p.publicKey.value))) else None
  }

  function PresharedKeyAttr(p: PeerConfig): Option<PeerAttr> {
    if p.presharedKey.Some? then Some(PresharedKey(KeyOf(p.presharedKey.value))) else None
  }

  function KeepaliveAttr(p: PeerConfig): Option<PeerAttr> {
    if p.persistentKeepalive.Some? then Some(PersistentKeepalive(p.persistentKeepalive.value)) else None
  }

  function HandshakeAttr(p: PeerConfig): Option<PeerAttr> {
    if p.lastHandshake.Some? then
      Some(LastHandshake(TimeSpec(AsI64(p.lastHandshake.value.secs), p.lastHandshake.value.nanos)))
    else None
  }

  function RxAttr(p: PeerConfig): Option<PeerAttr> {
    if p.rxBytes.Some? then Some(RxBytes(p.rxBytes.value)) else None
  }

  function TxAttr(p: PeerConfig): Option<PeerAttr> {
    if p.txBytes.Some? then Some(TxBytes(p.txBytes.value)) else None
  }

  function IpsAttr(p: PeerConfig): Option<PeerAttr> {
    if p.allowedIps.Some? then Some(AllowedIps(Map(BuildIp, p.allowedIps.value))) else None
  }

  function VersionAttr(p: PeerConfig): Option<PeerAttr> {
    if p.protocolVersion.Some? then Some(ProtocolVersion(p.protocolVersion.value)) else None
  }

  function FlagsAttr(p: PeerConfig): Option<PeerAttr> {
    if p.flags.Some? then Some(PeerFlags(PeerBits(p.flags.value))) else None
  }

  /** The attributes in front of the allowed IPs. */
  function HeadAttrs(p: PeerConfig): seq<PeerAttr> {
    Maybe(EndpointAttr(p)) + Maybe(PublicKeyAttr(p)) + Maybe(PresharedKeyAttr(p)) + Maybe(KeepaliveAttr(p))
    + Maybe(HandshakeAttr(p)) + Maybe(RxAttr(p)) + Maybe(TxAttr(p))
  }

  /** All attributes but the allowed IPs. */
  function StateAttrs(p: PeerConfig): seq<PeerAttr> {
    HeadAttrs(p) + Maybe(VersionAttr(p)) + Maybe(FlagsAttr(p))
  }

  /** The whole entry of a peer without a fault. */
  function BuildPeer(p: PeerConfig): Peer {
    Peer(HeadAttrs(p) + Maybe(IpsAttr(p)) + Maybe(VersionAttr(p)) + Maybe(FlagsAttr(p)))
  }

  method BuildAllowedIp(ip: IpConfig) returns (r: AllowedIp)
    ensures r == BuildIp(ip)
  {
    var attrs := [Cidr(ip.prefixLength)];
    if ip.ipAddr.V4? {
      attrs := attrs + [Family(Ipv4)];
    } else {
      attrs := attrs + [Family(Ipv6)];
    }
    attrs := attrs + [Addr(ip.ipAddr)];
    if ip.flags.Some? {
      attrs := attrs + [IpFlags(IpBits(ip.flags.value))];
    }
    r := AllowedIp(attrs);
  }

  /** Checks every prefix length before anything is converted. */
  method BuildIps(ips: seq<IpConfig>) returns (r: Result<seq<AllowedIp>, ErrorKind>)
    ensures r == if exists ip <- ips :: !ValidPrefix(ip) then Err(InvalidInput) else Ok(Map(BuildIp, ips))
  {
    for i := 0 to |ips|
      invariant forall ip <- ips[..i] :: ValidPrefix(ip)
    {
      if !ValidPrefix(ips[i]) {
        return Err(InvalidInput);
      }
    }
    var built := [];
    for i := 0 to |ips|
      invariant built == Map(BuildIp, ips[..i])
    {
      var ip := BuildAllowedIp(ips[i]);
      built := built + [ip];
    }
    assert ips[..|ips|] == ips;
    return Ok(built);
  }

  /** The attributes in front of the allowed IPs, in their order. */
  method BuildHead(p: PeerConfig) returns (r: Result<seq<PeerAttr>, ErrorKind>)
    ensures r == if KeyFault(p).Some? then Err(KeyFault(p).value) else Ok(HeadAttrs(p))
  {
    var attrs: seq<PeerAttr> := [];
    if p.publicKey.None? {
      return Err(InvalidInput);
    }
    if p.endpoint.Some? {
      attrs := attrs + [Endpoint(p.endpoint.value)];
    }
    ghost var done := Maybe(EndpointAttr(p));
    assert attrs == done;
    var key :- DecodeKey(p.publicKey.value);
    attrs := attrs + [PublicKey(key)];
    done := done + Maybe(PublicKeyAttr(p));
    assert attrs == done;
    if p.presharedKey.Some? {
      var psk :- DecodeKey(p.presharedKey.value);
      attrs := attrs + [PresharedKey(psk)];
    }
    done := done + Maybe(PresharedKeyAttr(p));
    assert attrs == done;
    if p.persistentKeepalive.Some? {
      attrs := attrs + [PersistentKeepalive(p.persistentKeepalive.value)];
    }
    done := done + Maybe(KeepaliveAttr(p));
    assert attrs == done;
    if p.lastHandshake.Some? {
      var d := p.lastHandshake.value;
      attrs := attrs + [LastHandshake(TimeSpec(AsI64(d.secs), d.nanos))];
    }
    done := done + Maybe(HandshakeAttr(p));
    assert attrs == done;
    if p.rxBytes.Some? {
      attrs := attrs + [RxBytes(p.rxBytes.value)];
    }
    done := done + Maybe(RxAttr(p));
    assert attrs == done;
    if p.txBytes.Some? {
      attrs := attrs + [TxBytes(p.txBytes.value)];
    }
    assert attrs == done + Maybe(TxAttr(p));
    return Ok(attrs);
  }

  method Build(p: PeerConfig) returns (r: Result<Peer, ErrorKind>)
    ensures r == if PeerFault(p).Some? then Err(PeerFault(p).value) else Ok(BuildPeer(p))
  {
    var attrs :- BuildHead(p);
    ghost var done := attrs + Maybe(IpsAttr(p));
    if p.allowedIps.Some? {
      var built :- BuildIps(p.allowedIps.value);
      attrs := attrs + [AllowedIps(built)];
    }
    assert attrs == done;
    if p.protocolVersion.Some? {
      attrs := attrs + [ProtocolVersion(p.protocolVersion.value)];
    }
    done := done + Maybe(VersionAttr(p));
    assert attrs == done;
    if p.flags.Some? {
      attrs := attrs + [PeerFlags(PeerBits(p.flags.value))];
    }
    assert attrs == done + Maybe(FlagsAttr(p));
    return Ok(Peer(attrs));
  }

  /* Reading entries */

  datatype IpFields = IpFields(addr: Option<IpAddr>, prefix: Option<U8>, flags: Option<seq<IpFlag>>)

  function ReadIpAttr(acc: IpFields, a: IpAttr): IpFields {
    match a
    case Addr(v) => acc.(addr := Some(v))
    case Cidr(v) => acc.(prefix := Some(v))
    case IpFlags(bits) => acc.(flags := Some(IpFlagList(bits)))
    case Family(_) => acc
    case UnknownIp(_) => acc
  }

  /** The allowed IP of an entry; without an address or a prefix length it is not one. */
  function ReadIp(ip: AllowedIp): Option<IpConfig> {
    var fields := Fold(ReadIpAttr, IpFields(None, None, None), ip.attrs);
    if fields.addr.Some? && fields.prefix.Some? then
      Some(IpConfig(fields.prefix.value, fields.addr.value, fields.flags))
    else None
  }

  function ReadValidIp(ip: AllowedIp): seq<IpConfig> {
    Maybe(ReadIp(ip))
  }

  /** The valid allowed IPs, in order. */
  function ReadIps(ips: seq<AllowedIp>): seq<IpConfig> {
    Flatten(Map(ReadValidIp, ips))
  }

  function ReadTime(t: TimeSpec): Option<Duration> {
    if (t.seconds != 0 || t.nanoSeconds != 0) && t.seconds >= 0 && 0 <= t.nanoSeconds < NANOS_PER_SECOND then
      Some(Duration(t.seconds, t.nanoSeconds))
    else None
  }

  function ReadPeerAttr(acc: PeerConfig, a: PeerAttr): PeerConfig {
    match a
    case Endpoint(v) => acc.(endpoint := Some(v))
    case PublicKey(k) => acc.(publicKey := Some(KeyText(k)))
    case PresharedKey(k) => acc.(presharedKey := if IsZeroKey(k) then None else Some(KeyText(k)))
    case PersistentKeepalive(v) => acc.(persistentKeepalive := Some(v))
    case LastHandshake(t) =>
      // An invalid time is ignored, a zero time is read as no handshake.
      if ReadTime(t).Some? || t == TimeSpec(0, 0) then acc.(lastHandshake := ReadTime(t)) else acc
    case RxBytes(v) => acc.(rxBytes := Some(v))
    case TxBytes(v) => acc.(txBytes := Some(v))
    case AllowedIps(ips) => acc.(allowedIps := Some(ReadIps(ips)))
    case ProtocolVersion(v) => acc.(protocolVersion := Some(v))
    case PeerFlags(bits) => acc.(flags := Some(PeerFlagList(bits)))
    case UnknownPeer(_) => acc
  }

  function ReadPeer(p: Peer): PeerConfig {
    Fold(ReadPeerAttr, NO_PEER, p.attrs)
  }

  method TryFrom(ip: AllowedIp) returns (r: Result<IpConfig, ErrorKind>)
    ensures r == match ReadIp(ip) case Some(c) => Ok(c) case None => Err(DecodeError)
  {
    var addr: Option<IpAddr>, prefix: Option<U8>, flags: Option<seq<IpFlag>> := None, None, None;
    for i := 0 to |ip.attrs|
      invariant IpFields(addr, prefix, flags) == Fold(ReadIpAttr, IpFields(None, None, None), ip.attrs[..i])
    {
      FoldSnoc(ReadIpAttr, IpFields(None, None, None), ip.attrs[..i], ip.attrs[i]);
      assert ip.attrs[..i + 1] == ip.attrs[..i] + [ip.attrs[i]];
      match ip.attrs[i] {
        case Addr(v) => addr := Some(v);
        case Cidr(v) => prefix := Some(v);
        case Family(_) =>
        case IpFlags(bits) => flags := Some(IpFlagList(bits));
        case UnknownIp(_) =>
      }
    }
    assert ip.attrs[..|ip.attrs|] == ip.attrs;
    if addr.Some? {
      if prefix.Some? {
        return Ok(IpConfig(prefix.value, addr.value, flags));
      } else {
        return Err(DecodeError);
      }
    } else {
      return Err(DecodeError);
    }
  }

  method FromPeer(p: Peer) returns (ret: PeerConfig)
    ensures ret == ReadPeer(p)
  {
    ret := NO_PEER;
    for i := 0 to |p.attrs|
      invariant ret == Fold(ReadPeerAttr, NO_PEER, p.attrs[..i])
    {
      FoldSnoc(ReadPeerAttr, NO_PEER, p.attrs[..i], p.attrs[i]);
      assert p.attrs[..i + 1] == p.attrs[..i] + [p.attrs[i]];
      match p.attrs[i] {
        case PublicKey(k) => ret := ret.(publicKey := Some(KeyText(k)));
        case PresharedKey(k) =>
          if forall b <- k :: b == 0 {
            ret := ret.(presharedKey := None);
          } else {
            ret := ret.(presharedKey := Some(KeyText(k)));
          }
        case Endpoint(v) => ret := ret.(endpoint := Some(v));
        case PersistentKeepalive(v) => ret := ret.(persistentKeepalive := Some(v));
        case LastHandshake(t) =>
          if t.seconds == 0 && t.nanoSeconds == 0 {
            ret := ret.(lastHandshake := None);
          } else if t.seconds >= 0 && t.nanoSeconds >= 0 && t.nanoSeconds < NANOS_PER_SECOND {
            ret := ret.(lastHandshake := Some(Duration(t.seconds, t.nanoSeconds)));
          }
        case RxBytes(v) => ret := ret.(rxBytes := Some(v));
        case TxBytes(v) => ret := ret.(txBytes := Some(v));
        case ProtocolVersion(v) => ret := ret.(protocolVersion := Some(v));
        case AllowedIps(wgIps) =>
          var ips := [];
          for j := 0 to |wgIps|
            invariant ips == ReadIps(wgIps[..j])
          {
            assert wgIps[..j + 1] == wgIps[..j] + [wgIps[j]];
            ReadIpsConcat(wgIps[..j], [wgIps[j]]);
            ReadIpsOne(wgIps[j]);
            var ip := TryFrom(wgIps[j]);
            if ip.Ok? {
              ips := ips + [ip.value];
            }
          }
          assert wgIps[..|wgIps|] == wgIps;
          ret := ret.(allowedIps := Some(ips));
        case PeerFlags(bits) =>
          ret := ret.(flags := Some(PeerFlagList(bits)));
        case UnknownPeer(_) =>
      }
    }
    assert p.attrs[..|p.attrs|] == p.attrs;
  }

  lemma ReadIpsConcat(ips: seq<AllowedIp>, more: seq<AllowedIp>)
    ensures ReadIps(ips + more) == ReadIps(ips) + ReadIps(more)
  {
    MapConcat(ReadValidIp, ips, more);
    FlattenConcat(Map(ReadValidIp, ips), Map(ReadValidIp, more));
  }

  lemma ReadIpsOne(ip: AllowedIp)
    ensures ReadIps([ip]) == Maybe(ReadIp(ip))
  {
    assert Map(ReadValidIp, [ip]) == [ReadValidIp(ip)];
    assert Flatten([Maybe(ReadIp(ip))]) == Maybe(ReadIp(ip)) + Flatten<IpConfig>([]);
  }
}
