/** The attribute tree of a WireGuard generic netlink message and its encoded lengths. */
module Netlink {
  import opened Base64
  import opened Flags
  import opened Sequences

  type U8 = x: int | 0 <= x < 0x100
  type U16 = x: int | 0 <= x < 0x1_0000
  type U32 = x: int | 0 <= x < 0x1_0000_0000
  type U64 = x: int | 0 <= x < 0x1_0000_0000_0000_0000
  type U128 = x: int | 0 <= x < 0x1_0000_0000_0000_0000_0000_0000_0000_0000
  type I64 = x: int | -0x8000_0000_0000_0000 <= x < 0x8000_0000_0000_0000

  const KEY_LEN := 32

  type Key = k: seq<Byte> | |k| == KEY_LEN witness seq(KEY_LEN, _ => 0)

  function ZeroKey(): Key {
    seq(KEY_LEN, _ => 0)
  }

  predicate IsZeroKey(k: Key) {
    forall b <- k :: b == 0
  }

  /** There is one key that consists of zeros. */
  lemma OneZeroKey(k: Key)
    ensures IsZeroKey(k) <==> k == ZeroKey()
  {
    if IsZeroKey(k) {
      forall i | 0 <= i < KEY_LEN
        ensures k[i] == ZeroKey()[i]
      {
        assert k[i] in k;
      }
    } else {
      var b :| b in k && b != 0;
      var i :| 0 <= i < KEY_LEN && k[i] == b;
      assert ZeroKey()[i] == 0;
    }
  }

  datatype IpAddr = V4(addr4: U32) | V6(addr6: U128)

  datatype SocketAddr =
    | SocketV4(addr4: U32, port: U16)
    | SocketV6(addr6: U128, port: U16, flowInfo: U32, scopeId: U32)

  datatype TimeSpec = TimeSpec(seconds: I64, nanoSeconds: I64)

  datatype AddressFamily = Ipv4 | Ipv6

  /** Attributes of one allowed IP. `UnknownIp` stands for every attribute the library does not read. */
  datatype IpAttr =
    | Cidr(prefix: U8)
    | Family(family: AddressFamily)
    | Addr(addr: IpAddr)
    | IpFlags(bits: Word)
    | UnknownIp(len: nat)

  datatype AllowedIp = AllowedIp(attrs: seq<IpAttr>)

  datatype PeerAttr =
    | Endpoint(endpoint: SocketAddr)
    | PublicKey(key: Key)
    | PresharedKey(key: Key)
    | PersistentKeepalive(seconds: U16)
    | LastHandshake(time: TimeSpec)
    | RxBytes(count: U64)
    | TxBytes(count: U64)
    | AllowedIps(ips: seq<AllowedIp>)
    | ProtocolVersion(version: U32)
    | PeerFlags(bits: Word)
    | UnknownPeer(len: nat)

  /** One peer entry of a message. */
  datatype Peer = Peer(attrs: seq<PeerAttr>)

  datatype DeviceAttr =
    | IfName(name: seq<Byte>)
    | IfIndex(index: U32)
    | DevicePublicKey(key: Key)
    | PrivateKey(key: Key)
    | ListenPort(port: U16)
    | Fwmark(mark: U32)
    | DeviceFlags(bits: Word)
    | Peers(peers: seq<Peer>)
    | UnknownDevice(len: nat)

  datatype Command = GetDevice | SetDevice

  datatype Message = Message(cmd: Command, attrs: seq<DeviceAttr>)

  /* Encoded lengths: a four byte header and a value padded to four bytes. */

  const HEADER: nat := 4
  const ALIGN: nat := 4

  /** The length of an attribute is kept in sixteen bits. */
  const MAX_ATTR_LEN: nat := 65535

  /** Bytes available to the value of one attribute. */
  const MAX_VALUE_LEN: nat := MAX_ATTR_LEN - HEADER - (ALIGN - 1)

  function AttrLen(valueLen: nat): (len: nat)
    ensures len % 4 == 0
    ensures HEADER + valueLen <= len < HEADER + valueLen + ALIGN
  {
    HEADER + (valueLen + 3) / 4 * 4
  }

  function IpLen(ip: IpAddr): nat {
    if ip.V4? then 4 else 16
  }

  /** An allowed IP attribute: `nla_put` of u8, u16, in_addr or in6_addr, and u32. */
  function IpAttrLen(a: IpAttr): nat {
    AttrLen(match a
            case Cidr(_) => 1
            case Family(_) => 2
            case Addr(ip) => IpLen(ip)
            case IpFlags(_) => 4
            case UnknownIp(n) => n)
  }

  function AllowedIpLen(ip: AllowedIp): nat {
    AttrLen(Total(IpAttrLen, ip.attrs))
  }

  /** A peer attribute; an endpoint is a `sockaddr_in` or a `sockaddr_in6`. */
  function PeerAttrLen(a: PeerAttr): nat {
    AttrLen(match a
            case Endpoint(e) => if e.SocketV4? then 16 else 28
            case PublicKey(k) => KEY_LEN
            case PresharedKey(k) => KEY_LEN
            case PersistentKeepalive(_) => 2
            case LastHandshake(_) => 16
            case RxBytes(_) => 8
            case TxBytes(_) => 8
            case AllowedIps(ips) => Total(AllowedIpLen, ips)
            case ProtocolVersion(_) => 4
            case PeerFlags(_) => 4
            case UnknownPeer(n) => n)
  }

  function PeerLen(p: Peer): nat {
    AttrLen(Total(PeerAttrLen, p.attrs))
  }

  /** A device attribute; the interface name ends with a NUL byte. */
  function DeviceAttrLen(a: DeviceAttr): nat {
    AttrLen(match a
            case IfName(name) => |name| + 1
            case IfIndex(_) => 4
            case DevicePublicKey(k) => KEY_LEN
            case PrivateKey(k) => KEY_LEN
            case ListenPort(_) => 2
            case Fwmark(_) => 4
            case DeviceFlags(_) => 4
            case Peers(peers) => Total(PeerLen, peers)
            case UnknownDevice(n) => n)
  }

  /** Every attribute of the allowed IP, and the allowed IP itself, has a length that fits sixteen bits. */
  ghost predicate IpEncodable(ip: AllowedIp) {
    && AllowedIpLen(ip) <= MAX_ATTR_LEN
    && forall a :: a in ip.attrs ==> IpAttrLen(a) <= MAX_ATTR_LEN
  }

  ghost predicate PeerEncodable(p: Peer) {
    && PeerLen(p) <= MAX_ATTR_LEN
    && (forall a :: a in p.attrs ==> PeerAttrLen(a) <= MAX_ATTR_LEN)
    && (forall a, ip :: a in p.attrs && a.AllowedIps? && ip in a.ips ==> IpEncodable(ip))
  }

  /** The same at every nesting level of a message. */
  ghost predicate Encodable(m: Message) {
    && (forall a :: a in m.attrs ==> DeviceAttrLen(a) <= MAX_ATTR_LEN)
    && (forall a, p :: a in m.attrs && a.Peers? && p in a.peers ==> PeerEncodable(p))
  }

  /** Padded attributes need no further padding: the running sums of the splitter are the encoded lengths. */
  lemma {:induction false} SumIsAligned<A>(size: A -> nat, xs: seq<A>)
    requires forall x :: x in xs ==> size(x) % 4 == 0
    ensures Total(size, xs) % 4 == 0
    ensures AttrLen(Total(size, xs)) == HEADER + Total(size, xs)
  {
    hide AttrLen;
    if xs != [] {
      assert forall x :: x in xs[1..] ==> x in xs;
      SumIsAligned(size, xs[1..]);
      assert size(xs[0]) % 4 == 0;
    }
    AlignedLen(Total(size, xs));
  }

  lemma AlignedLen(valueLen: nat)
    requires valueLen % 4 == 0
    ensures AttrLen(valueLen) == HEADER + valueLen
  {}

  lemma {:induction false} SumIncludes<A>(size: A -> nat, xs: seq<A>, x: A)
    requires x in xs
    ensures size(x) <= Total(size, xs)
  {
    if xs[0] != x {
      SumIncludes(size, xs[1..], x);
    }
  }

  /** The length of a peer entry that holds `ips` next to other attributes, as the splitter adds it up. */
  lemma PeerLenIsSum(p: Peer)
    ensures PeerLen(p) == HEADER + Total(PeerAttrLen, p.attrs)
    ensures PeerLen(p) % 4 == 0
  {
    SumIsAligned(PeerAttrLen, p.attrs);
  }

  lemma AllowedIpsLenIsSum(ips: seq<AllowedIp>)
    ensures PeerAttrLen(AllowedIps(ips)) == HEADER + Total(AllowedIpLen, ips)
  {
    SumIsAligned(AllowedIpLen, ips);
  }
}
