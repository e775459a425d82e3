/** The bytes of the attributes, as netlink and the WireGuard kernel ABI lay them out: the lengths the splitter works
    with are the numbers of these bytes, and they are what makes a list of attributes readable. */
module Emission {
  import opened Base64
  import opened Flags
  import opened Lengths
  import opened Netlink
  import opened Parsed
  import opened Sequences
  import opened Wrappers

  /* Numbers and padding */

  /** The low `k` bytes of a number, the lowest one first. */
  function Little(n: nat, k: nat): (bytes: seq<Byte>)
    ensures |bytes| == k
    decreases k
  {
    if k == 0 then [] else [n % 256] + Little(n / 256, k - 1)
  }

  /** The same, the highest one first, as addresses and ports are sent. */
  function Big(n: nat, k: nat): (bytes: seq<Byte>)
    ensures |bytes| == k
    decreases k
  {
    if k == 0 then [] else Big(n / 256, k - 1) + [n % 256]
  }

  function Zeros(n: nat): seq<Byte> {
    seq(n, _ => 0)
  }

  function BitValue(bits: Word, b: nat, value: Byte): Byte {
    if b in bits then value else 0
  }

  /** Eight bits of a word from bit `from` on. */
  function WordByte(bits: Word, from: nat): Byte {
    BitValue(bits, from, 1) + BitValue(bits, from + 1, 2) + BitValue(bits, from + 2, 4) + BitValue(bits, from + 3, 8)
    + BitValue(bits, from + 4, 16) + BitValue(bits, from + 5, 32) + BitValue(bits, from + 6, 64)
    + BitValue(bits, from + 7, 128)
  }

  function WordBytes(bits: Word): seq<Byte> {
    [WordByte(bits, 0), WordByte(bits, 8), WordByte(bits, 16), WordByte(bits, 24)]
  }

  /** A signed word in two's complement. */
  function Signed(n: I64): seq<Byte> {
    Little(if n < 0 then n + 0x1_0000_0000_0000_0000 else n, 8)
  }

  /** Zeros up to the next multiple of four. */
  function Padding(len: nat): seq<Byte> {
    Zeros((4 - len % 4) % 4)
  }

  /** One attribute: its kind and its value. */
  datatype Raw = Raw(kind: nat, value: seq<Byte>)

  /** The length of header and value and the kind in two bytes each, the value, and padding that does not count. */
  function Emit(a: Raw): seq<Byte> {
    Little(4 + |a.value|, 2) + Little(a.kind, 2) + a.value + Padding(|a.value|)
  }

  function EmitAll(attrs: seq<Raw>): seq<Byte> {
    if attrs == [] then [] else Emit(attrs[0]) + EmitAll(attrs[1..])
  }

  lemma EmittedLen(a: Raw)
    ensures |Emit(a)| == AttrLen(|a.value|)
  {
    hide Little;
    PaddedLen(|a.value|);
  }

  lemma PaddedLen(n: nat)
    ensures n + (4 - n % 4) % 4 == (n + 3) / 4 * 4
  {
    var q, r := n / 4, n % 4;
    assert n == 4 * q + r;
    if r == 0 {
      assert (n + 3) / 4 == q;
    } else {
      assert (n + 3) / 4 == q + 1;
    }
  }

  /* Values */

  function AddrBytes(ip: IpAddr): seq<Byte> {
    match ip
    case V4(addr) => Big(addr, 4)
    case V6(addr) => Big(addr, 16)
  }

  const AF_INET: nat := 2
  const AF_INET6: nat := 10

  function RawIpAttr(a: IpAttr): Raw {
    match a
    case Cidr(prefix) => Raw(3, [prefix])
    case Family(family) => Raw(1, Little(if family == Ipv4 then AF_INET else AF_INET6, 2))
    case Addr(ip) => Raw(2, AddrBytes(ip))
    case IpFlags(bits) => Raw(4, WordBytes(bits))
    case UnknownIp(n) => Raw(0, Zeros(n))
  }

  function RawIp(ip: AllowedIp): Raw {
    Raw(0, EmitAll(Map(RawIpAttr, ip.attrs)))
  }

  /** `sockaddr_in` and `sockaddr_in6`. */
  function SocketBytes(e: SocketAddr): seq<Byte> {
    match e
    case SocketV4(addr, port) => Little(AF_INET, 2) + Big(port, 2) + Big(addr, 4) + Zeros(8)
    case SocketV6(addr, port, flow, scope) =>
      Little(AF_INET6, 2) + Big(port, 2) + Big(flow, 4) + Big(addr, 16) + Little(scope, 4)
  }

  function RawPeerAttr(a: PeerAttr): Raw {
    match a
    case PublicKey(k) => Raw(1, k)
    case PresharedKey(k) => Raw(2, k)
    case PeerFlags(bits) => Raw(3, WordBytes(bits))
    case Endpoint(e) => Raw(4, SocketBytes(e))
    case PersistentKeepalive(v) => Raw(5, Little(v, 2))
    case LastHandshake(t) => Raw(6, Signed(t.seconds) + Signed(t.nanoSeconds))
    case RxBytes(v) => Raw(7, Little(v, 8))
    case TxBytes(v) => Raw(8, Little(v, 8))
    case AllowedIps(ips) => Raw(9, EmitAll(Map(RawIp, ips)))
    case ProtocolVersion(v) => Raw(10, Little(v, 4))
    case UnknownPeer(n) => Raw(0, Zeros(n))
  }

  function RawPeer(p: Peer): Raw {
    Raw(0, EmitAll(Map(RawPeerAttr, p.attrs)))
  }

  function RawDeviceAttr(a: DeviceAttr): Raw {
    match a
    case IfIndex(v) => Raw(1, Little(v, 4))
    case IfName(name) => Raw(2, name + [0])
    case PrivateKey(k) => Raw(3, k)
    case DevicePublicKey(k) => Raw(4, k)
    case DeviceFlags(bits) => Raw(5, WordBytes(bits))
    case ListenPort(v) => Raw(6, Little(v, 2))
    case Fwmark(v) => Raw(7, Little(v, 4))
    case Peers(peers) => Raw(8, EmitAll(Map(RawPeer, peers)))
    case UnknownDevice(n) => Raw(0, Zeros(n))
  }

  /* Lengths */

  lemma {:induction false} JoinedLen<A>(raw: A -> Raw, size: A -> nat, xs: seq<A>)
    requires forall x :: x in xs ==> AttrLen(|raw(x).value|) == size(x)
    ensures |EmitAll(Map(raw, xs))| == Total(size, xs)
  {
    hide AttrLen, Emit;
    if xs != [] {
      assert Map(raw, xs)[1..] == Map(raw, xs[1..]);
      EmittedLen(raw(xs[0]));
      JoinedLen(raw, size, xs[1..]);
    }
  }

  lemma IpAttrIsLong(a: IpAttr)
    ensures AttrLen(|RawIpAttr(a).value|) == IpAttrLen(a)
  {
    hide WordByte, AttrLen;
  }

  lemma IpIsLong(ip: AllowedIp)
    ensures AttrLen(|RawIp(ip).value|) == AllowedIpLen(ip)
  {
    hide RawIpAttr, IpAttrLen, AttrLen;
    forall a <- ip.attrs
      ensures AttrLen(|RawIpAttr(a).value|) == IpAttrLen(a)
    {
      IpAttrIsLong(a);
    }
    JoinedLen(RawIpAttr, IpAttrLen, ip.attrs);
  }

  lemma PeerAttrIsLong(a: PeerAttr)
    ensures AttrLen(|RawPeerAttr(a).value|) == PeerAttrLen(a)
  {
    hide WordByte, AttrLen, RawIp, AllowedIpLen;
    if a.AllowedIps? {
      forall ip <- a.ips
        ensures AttrLen(|RawIp(ip).value|) == AllowedIpLen(ip)
      {
        IpIsLong(ip);
      }
      JoinedLen(RawIp, AllowedIpLen, a.ips);
    }
  }

  /** The length of a peer entry is the number of its bytes. */
  lemma PeerIsLong(p: Peer)
    ensures AttrLen(|RawPeer(p).value|) == PeerLen(p)
    ensures |Emit(RawPeer(p))| == PeerLen(p)
  {
    hide RawPeerAttr, PeerAttrLen, Emit, AttrLen;
    forall a <- p.attrs
      ensures AttrLen(|RawPeerAttr(a).value|) == PeerAttrLen(a)
    {
      PeerAttrIsLong(a);
    }
    JoinedLen(RawPeerAttr, PeerAttrLen, p.attrs);
    EmittedLen(RawPeer(p));
  }

  /** And so is the length of every attribute of a message. */
  lemma DeviceAttrIsLong(a: DeviceAttr)
    ensures AttrLen(|RawDeviceAttr(a).value|) == DeviceAttrLen(a)
    ensures |Emit(RawDeviceAttr(a))| == DeviceAttrLen(a)
  {
    hide WordByte, AttrLen, Emit, RawPeer, PeerLen;
    EmittedLen(RawDeviceAttr(a));
    if a.Peers? {
      forall p <- a.peers
        ensures AttrLen(|RawPeer(p).value|) == PeerLen(p)
      {
        PeerIsLong(p);
      }
      JoinedLen(RawPeer, PeerLen, a.peers);
    }
  }

  /* Reading a list of attributes back */

  function Pair(low: Byte, high: Byte): nat {
    low as int + 256 * (high as int)
  }

  /** Walks over the bytes by the lengths in the headers; the padding is skipped. */
  function Walk(bytes: seq<Byte>): Option<seq<Raw>>
    decreases |bytes|
  {
    if bytes == [] then Some([])
    else if |bytes| < 4 then None
    else
      var len := Pair(bytes[0], bytes[1]);
      var next := (len + 3) / 4 * 4;
      if len < 4 || next > |bytes| then None
      else
        var rest := Walk(bytes[next..]);
        if rest.None? then None
        else Some([Raw(Pair(bytes[2], bytes[3]), bytes[4..len])] + rest.value)
  }

  lemma TwoBytes(n: nat)
    requires n < 0x1_0000
    ensures Pair(Little(n, 2)[0], Little(n, 2)[1]) == n
  {
    assert Little(n, 2) == [n % 256] + Little(n / 256, 1);
    assert Little(n / 256, 1) == [n / 256 % 256] + Little(n / 256 / 256, 0);
  }

  lemma HeaderIsRead(a: Raw, rest: seq<Byte>)
    requires 4 + |a.value| < 0x1_0000 && a.kind < 0x1_0000
    ensures var bytes := Emit(a) + rest;
            var len := Pair(bytes[0], bytes[1]);
            && len == 4 + |a.value| && Pair(bytes[2], bytes[3]) == a.kind
            && (len + 3) / 4 * 4 == |Emit(a)| && bytes[4..len] == a.value && bytes[|Emit(a)|..] == rest
  {
    hide Little;
    TwoBytes(4 + |a.value|);
    TwoBytes(a.kind);
    EmittedLen(a);
    var bytes := Emit(a) + rest;
    assert bytes[..2] == Little(4 + |a.value|, 2) && bytes[2..4] == Little(a.kind, 2);
    assert bytes[4..4 + |a.value|] == a.value;
  }

  lemma WalkFirst(a: Raw, rest: seq<Byte>)
    requires 4 + |a.value| < 0x1_0000 && a.kind < 0x1_0000 && Walk(rest).Some?
    ensures Walk(Emit(a) + rest) == Some([a] + Walk(rest).value)
  {
    hide Emit, Pair;
    HeaderIsRead(a, rest);
    EmittedLen(a);
    assert Emit(a) + rest != [];
  }

  /** Attributes whose lengths fit sixteen bits can be read back: the same kinds and values in the same order. */
  lemma {:induction false} WalkEmitted(attrs: seq<Raw>)
    requires forall i :: 0 <= i < |attrs| ==> 4 + |attrs[i].value| < 0x1_0000 && attrs[i].kind < 0x1_0000
    ensures Walk(EmitAll(attrs)) == Some(attrs)
    decreases |attrs|
  {
    hide Emit, Walk;
    if attrs == [] {
      NothingWalked();
    } else {
      WalkEmitted(attrs[1..]);
      WalkFirst(attrs[0], EmitAll(attrs[1..]));
      assert attrs == [attrs[0]] + attrs[1..];
    }
  }

  lemma NothingWalked()
    ensures Walk([]) == Some([])
  {}

  /** A longer value cannot: the length in its header is another one. */
  lemma LongValueIsLost(a: Raw, rest: seq<Byte>)
    requires 4 + |a.value| >= 0x1_0000
    ensures var bytes := Emit(a) + rest; Pair(bytes[0], bytes[1]) < 4 + |a.value|
  {}

  /** Peer entries stay within the limit of the splitter exactly when the length of the attribute that holds them can be
      read from its header. */
  lemma LimitIsReadable(peers: seq<Peer>)
    ensures Total(PeerLen, peers) <= MAX_VALUE_LEN <==> 4 + |EmitAll(Map(RawPeer, peers))| < 0x1_0000
  {
    hide PeerLen, RawPeer, EmitAll, AttrLen;
    forall p <- peers
      ensures AttrLen(|RawPeer(p).value|) == PeerLen(p) && PeerLen(p) % 4 == 0
    {
      PeerIsLong(p);
      PeerLenIsSum(p);
    }
    JoinedLen(RawPeer, PeerLen, peers);
    SumIsAligned(PeerLen, peers);
  }

  /* Messages */

  ghost predicate ReadsBack(attrs: seq<Raw>) {
    Walk(EmitAll(attrs)) == Some(attrs)
  }

  lemma ListReadsBack<A>(raw: A -> Raw, size: A -> nat, xs: seq<A>)
    requires forall x :: x in xs ==> AttrLen(|raw(x).value|) == size(x) <= MAX_ATTR_LEN && raw(x).kind < 0x1_0000
    ensures ReadsBack(Map(raw, xs))
  {
    WalkEmitted(Map(raw, xs));
  }

  ghost predicate IpReadsBack(ip: AllowedIp) {
    ReadsBack(Map(RawIpAttr, ip.attrs))
  }

  ghost predicate PeerReadsBack(p: Peer) {
    && ReadsBack(Map(RawPeerAttr, p.attrs))
    && forall a :: a in p.attrs && a.AllowedIps? ==>
         ReadsBack(Map(RawIp, a.ips)) && forall ip :: ip in a.ips ==> IpReadsBack(ip)
  }

  /** At every nesting level the bytes of the attributes are read back as these attributes. */
  ghost predicate MessageReadsBack(m: Message) {
    && ReadsBack(Map(RawDeviceAttr, m.attrs))
    && forall a :: a in m.attrs && a.Peers? ==>
         ReadsBack(Map(RawPeer, a.peers)) && forall p :: p in a.peers ==> PeerReadsBack(p)
  }

  lemma IpIsReadBack(ip: AllowedIp)
    requires IpEncodable(ip)
    ensures IpReadsBack(ip) && RawIp(ip).kind < 0x1_0000
  {
    hide RawIpAttr, IpAttrLen, AttrLen, ReadsBack;
    forall a <- ip.attrs
      ensures AttrLen(|RawIpAttr(a).value|) == IpAttrLen(a) && RawIpAttr(a).kind < 0x1_0000
    {
      IpAttrIsLong(a);
      SmallKinds(a, UnknownPeer(0), UnknownDevice(0));
    }
    ListReadsBack(RawIpAttr, IpAttrLen, ip.attrs);
  }

  lemma SmallKinds(ip: IpAttr, peer: PeerAttr, device: DeviceAttr)
    ensures RawIpAttr(ip).kind < 0x1_0000 && RawPeerAttr(peer).kind < 0x1_0000 && RawDeviceAttr(device).kind < 0x1_0000
  {}

  lemma PeerIsReadBack(p: Peer)
    requires PeerEncodable(p)
    ensures PeerReadsBack(p) && RawPeer(p).kind < 0x1_0000
  {
    hide RawPeerAttr, PeerAttrLen, AttrLen, ReadsBack, RawIp, AllowedIpLen, IpReadsBack, IpEncodable;
    forall a <- p.attrs
      ensures AttrLen(|RawPeerAttr(a).value|) == PeerAttrLen(a) && RawPeerAttr(a).kind < 0x1_0000
    {
      PeerAttrIsLong(a);
      SmallKinds(UnknownIp(0), a, UnknownDevice(0));
    }
    ListReadsBack(RawPeerAttr, PeerAttrLen, p.attrs);
    forall a | a in p.attrs && a.AllowedIps?
      ensures ReadsBack(Map(RawIp, a.ips)) && forall ip :: ip in a.ips ==> IpReadsBack(ip)
    {
      forall ip | ip in a.ips
        ensures AttrLen(|RawIp(ip).value|) == AllowedIpLen(ip) <= MAX_ATTR_LEN && RawIp(ip).kind < 0x1_0000
        ensures IpReadsBack(ip)
      {
        assert IpEncodable(ip);
        IpIsLong(ip);
        IpIsReadBack(ip);
        EncodableLen(ip);
      }
      ListReadsBack(RawIp, AllowedIpLen, a.ips);
    }
  }

  lemma EncodableLen(ip: AllowedIp)
    requires IpEncodable(ip)
    ensures AllowedIpLen(ip) <= MAX_ATTR_LEN
  {}

  lemma EncodableIsReadBack(m: Message)
    requires Encodable(m)
    ensures MessageReadsBack(m)
  {
    hide RawDeviceAttr, DeviceAttrLen, AttrLen, ReadsBack, RawPeer, PeerLen, PeerReadsBack, PeerEncodable;
    forall a <- m.attrs
      ensures AttrLen(|RawDeviceAttr(a).value|) == DeviceAttrLen(a) && RawDeviceAttr(a).kind < 0x1_0000
    {
      DeviceAttrIsLong(a);
      SmallKinds(UnknownIp(0), UnknownPeer(0), a);
    }
    ListReadsBack(RawDeviceAttr, DeviceAttrLen, m.attrs);
    forall a | a in m.attrs && a.Peers?
      ensures ReadsBack(Map(RawPeer, a.peers)) && forall p :: p in a.peers ==> PeerReadsBack(p)
    {
      forall p | p in a.peers
        ensures AttrLen(|RawPeer(p).value|) == PeerLen(p) <= MAX_ATTR_LEN && RawPeer(p).kind < 0x1_0000
        ensures PeerReadsBack(p)
      {
        assert PeerEncodable(p);
        PeerIsLong(p);
        PeerIsReadBack(p);
        EncodablePeerLen(p);
      }
      ListReadsBack(RawPeer, PeerLen, a.peers);
    }
  }

  lemma EncodablePeerLen(p: Peer)
    requires PeerEncodable(p)
    ensures PeerLen(p) <= MAX_ATTR_LEN
  {}

  /** The bytes of every message of every accepted configuration are read back at every nesting level. */
  lemma SentIsReadBack(c: Config, cmd: Command)
    requires MessagesOf(c, cmd).Ok?
    ensures forall m <- MessagesOf(c, cmd).value :: MessageReadsBack(m)
  {
    hide MessagesOf, Encodable, MessageReadsBack;
    MessagesAreEncodable(c, cmd);
    forall m <- MessagesOf(c, cmd).value
      ensures MessageReadsBack(m)
    {
      EncodableIsReadBack(m);
    }
  }
}
