/** The receiver of the messages, as far as the library relies on it: a device whose peers and allowed IPs are changed
    by one peer entry after the other. It keeps the last value it was given of every property, so that no property can
    be sent in the wrong message unnoticed. */
module Device {
  import opened Base64
  import opened Flags
  import opened Netlink
  import opened Sequences
  import opened Wrappers

  datatype Settings = Settings(
    publicKey: Option<Key>,
    privateKey: Option<Key>,
    listenPort: Option<U16>,
    fwmark: Option<U32>)

  const NO_SETTINGS := Settings(None, None, None, None)

  datatype PeerState = PeerState(
    endpoint: Option<SocketAddr>,
    presharedKey: Option<Key>,
    keepalive: Option<U16>,
    handshake: Option<TimeSpec>,
    rx: Option<U64>,
    tx: Option<U64>,
    version: Option<U32>)

  const NO_STATE := PeerState(None, None, None, None, None, None, None)

  datatype Route = Route(addr: IpAddr, prefix: U8)

  /** An allowed IP belongs to one peer at a time. */
  datatype Device = Device(
    name: seq<Byte>,
    index: U32,
    settings: Settings,
    peers: map<Key, PeerState>,
    routes: map<Route, Key>)
  {
    /** Every allowed IP belongs to a peer of the device. */
    ghost predicate Valid() {
      forall r <- routes :: routes[r] in peers
    }
  }

  /* Peer entries */

  /** The last value of every attribute of an entry. */
  datatype Fields = Fields(key: Option<Key>, flags: Word, state: PeerState, ips: seq<AllowedIp>)

  const NO_FIELDS := Fields(None, {}, NO_STATE, [])

  function SetField(acc: Fields, a: PeerAttr): Fields {
    match a
    case Endpoint(v) => acc.(state := acc.state.(endpoint := Some(v)))
    case PublicKey(k) => acc.(key := Some(k))
    case PresharedKey(k) => acc.(state := acc.state.(presharedKey := Some(k)))
    case PersistentKeepalive(v) => acc.(state := acc.state.(keepalive := Some(v)))
    case LastHandshake(v) => acc.(state := acc.state.(handshake := Some(v)))
    case RxBytes(v) => acc.(state := acc.state.(rx := Some(v)))
    case TxBytes(v) => acc.(state := acc.state.(tx := Some(v)))
    case AllowedIps(ips) => acc.(ips := ips)
    case ProtocolVersion(v) => acc.(state := acc.state.(version := Some(v)))
    case PeerFlags(bits) => acc.(flags := bits)
    case UnknownPeer(_) => acc
  }

  function FieldsOf(e: Peer): Fields {
    Fold(SetField, NO_FIELDS, e.attrs)
  }

  /** What is given is set, everything else stays. */
  function Update(was: PeerState, given: PeerState): PeerState {
    PeerState(
      OrElse(given.endpoint, was.endpoint),
      OrElse(given.presharedKey, was.presharedKey),
      OrElse(given.keepalive, was.keepalive),
      OrElse(given.handshake, was.handshake),
      OrElse(given.rx, was.rx),
      OrElse(given.tx, was.tx),
      OrElse(given.version, was.version))
  }

  /* Allowed IPs, as the receiver sees them: the last attribute of a kind counts. */

  function FamilyOf(a: IpAttr): Option<AddressFamily> {
    if a.Family? then Some(a.family) else None
  }

  function AddrOf(a: IpAttr): Option<IpAddr> {
    if a.Addr? then Some(a.addr) else None
  }

  function CidrOf(a: IpAttr): Option<U8> {
    if a.Cidr? then Some(a.prefix) else None
  }

  function FlagsOfIp(a: IpAttr): Option<Word> {
    if a.IpFlags? then Some(a.bits) else None
  }

  function FamilyIn(ip: AllowedIp): Option<AddressFamily> {
    LastOf(FamilyOf, ip.attrs)
  }

  function AddrIn(ip: AllowedIp): Option<IpAddr> {
    LastOf(AddrOf, ip.attrs)
  }

  function CidrIn(ip: AllowedIp): Option<U8> {
    LastOf(CidrOf, ip.attrs)
  }

  function FlagsIn(ip: AllowedIp): Option<Word> {
    LastOf(FlagsOfIp, ip.attrs)
  }

  /** The address is of the family that is named, and the prefix length is in its range. */
  predicate WellFormed(ip: AllowedIp) {
    var addr, prefix := AddrIn(ip), CidrIn(ip);
    && addr.Some? && prefix.Some?
    && match FamilyIn(ip)
       case None => false
       case Some(Ipv4) => addr.value.V4? && prefix.value <= 32
       case Some(Ipv6) => addr.value.V6? && prefix.value <= 128
  }

  function RouteIn(ip: AllowedIp): Route
    requires WellFormed(ip)
  {
    Route(AddrIn(ip).value, CidrIn(ip).value)
  }

  predicate TakesAway(ip: AllowedIp) {
    FlagsIn(ip).Some? && REMOVE_IP <= FlagsIn(ip).value
  }

  /** One allowed IP is given to the peer, taken from another one if need be, or taken away from the peer. What is not
      well formed is refused. */
  function ApplyIp(d: Device, key: Key, ip: AllowedIp): Device {
    if !WellFormed(ip) then d
    else
      var route := RouteIn(ip);
      if TakesAway(ip) then
        if route in d.routes && d.routes[route] == key then d.(routes := d.routes - {route}) else d
      else d.(routes := d.routes[route := key])
  }

  function ApplyIps(d: Device, key: Key, ips: seq<AllowedIp>): Device
    decreases |ips|
  {
    if ips == [] then d else ApplyIps(ApplyIp(d, key, ips[0]), key, ips[1..])
  }

  function WithoutRoutes(d: Device, key: Key): Device {
    d.(routes := map r | r in d.routes && d.routes[r] != key :: d.routes[r])
  }

  function WithoutPeer(d: Device, key: Key): Device {
    WithoutRoutes(d, key).(peers := d.peers - {key})
  }

  /** An entry updates its peer or creates it. Removing a missing peer is no error, and with `UpdateOnly` a missing peer
      stays missing. */
  function ApplyFields(d: Device, f: Fields): Device {
    if f.key.None? then d
    else
      var key := f.key.value;
      if key !in d.peers && (REMOVE_ME <= f.flags || UPDATE_ONLY <= f.flags) then d
      else if REMOVE_ME <= f.flags then WithoutPeer(d, key)
      else
        var known := key in d.peers;
        var state := Update(if known then d.peers[key] else NO_STATE, f.state);
        var kept := if known && REPLACE_ALLOWED_IPS <= f.flags then WithoutRoutes(d, key) else d;
        ApplyIps(kept.(peers := d.peers[key := state]), key, f.ips)
  }

  function ApplyEntry(d: Device, e: Peer): Device {
    ApplyFields(d, FieldsOf(e))
  }

  function ApplyEntries(d: Device, entries: seq<Peer>): Device {
    Fold(ApplyEntry, d, entries)
  }

  /* Messages */

  datatype Request = Request(
    name: Option<seq<Byte>>,
    index: Option<U32>,
    flags: Word,
    settings: Settings,
    entries: seq<Peer>)

  const NO_REQUEST := Request(None, None, {}, NO_SETTINGS, [])

  function SetProperty(acc: Request, a: DeviceAttr): Request {
    match a
    case IfName(v) => acc.(name := Some(v))
    case IfIndex(v) => acc.(index := Some(v))
    case DevicePublicKey(k) => acc.(settings := acc.settings.(publicKey := Some(k)))
    case PrivateKey(k) => acc.(settings := acc.settings.(privateKey := Some(k)))
    case ListenPort(v) => acc.(settings := acc.settings.(listenPort := Some(v)))
    case Fwmark(v) => acc.(settings := acc.settings.(fwmark := Some(v)))
    case DeviceFlags(bits) => acc.(flags := bits)
    case Peers(entries) => acc.(entries := entries)
    case UnknownDevice(_) => acc
  }

  function RequestOf(m: Message): Request {
    Fold(SetProperty, NO_REQUEST, m.attrs)
  }

  /** A request names its device by the name or by the index, not by both. */
  predicate IsFor(r: Request, d: Device) {
    || (r.name == Some(d.name) && r.index.None?)
    || (r.index == Some(d.index) && r.name.None?)
  }

  function Configure(was: Settings, given: Settings): Settings {
    Settings(
      OrElse(given.publicKey, was.publicKey),
      OrElse(given.privateKey, was.privateKey),
      OrElse(given.listenPort, was.listenPort),
      OrElse(given.fwmark, was.fwmark))
  }

  /** The settings are changed and, if the request replaces all peers, the peers are removed. */
  function Prepare(d: Device, flags: Word, settings: Settings): Device {
    var wiped := if REPLACE_PEERS <= flags then d.(peers := map[], routes := map[]) else d;
    wiped.(settings := Configure(d.settings, settings))
  }

  function ApplyRequest(d: Device, r: Request): Device {
    if !IsFor(r, d) then d else ApplyEntries(Prepare(d, r.flags, r.settings), r.entries)
  }

  /** A request that names a device in both ways, or in none, is refused. */
  lemma OneNameIsNeeded(d: Device, r: Request)
    requires r.name.Some? == r.index.Some?
    ensures ApplyRequest(d, r) == d
  {}

  /** The effect of a message that sets the device; whether it is one is for the sender to see. */
  function ApplyMessage(d: Device, m: Message): Device {
    ApplyRequest(d, RequestOf(m))
  }

  function ApplyMessages(d: Device, messages: seq<Message>): Device {
    Fold(ApplyMessage, d, messages)
  }

  /* What an application keeps */

  lemma {:induction false} ApplyIpsConcat(d: Device, key: Key, xs: seq<AllowedIp>, ys: seq<AllowedIp>)
    ensures ApplyIps(d, key, xs + ys) == ApplyIps(ApplyIps(d, key, xs), key, ys)
    decreases |xs|
  {
    if xs == [] {
      assert xs + ys == ys;
    } else {
      assert (xs + ys)[1..] == xs[1..] + ys;
      ApplyIpsConcat(ApplyIp(d, key, xs[0]), key, xs[1..], ys);
    }
  }

  lemma {:induction false} IpsKeepPeers(d: Device, key: Key, ips: seq<AllowedIp>)
    ensures var d' := ApplyIps(d, key, ips);
            d' == d.(routes := d'.routes)
    ensures key in d.peers && d.Valid() ==> ApplyIps(d, key, ips).Valid()
    decreases |ips|
  {
    if ips != [] {
      IpsKeepPeers(ApplyIp(d, key, ips[0]), key, ips[1..]);
    }
  }

  /** The peers an entry leaves on the device; only its own peer can appear or disappear. */
  lemma EntryPeers(d: Device, f: Fields)
    ensures var d' := ApplyFields(d, f);
            && d'.name == d.name && d'.index == d.index && d'.settings == d.settings
            && (d.Valid() ==> d'.Valid())
            && forall k: Key :: f.key != Some(k) ==> (k in d'.peers <==> k in d.peers)
  {
    hide ApplyIps, Update;
    if f.key.Some? {
      var key := f.key.value;
      var known := key in d.peers;
      var state := Update(if known then d.peers[key] else NO_STATE, f.state);
      var kept := if known && REPLACE_ALLOWED_IPS <= f.flags then WithoutRoutes(d, key) else d;
      IpsKeepPeers(kept.(peers := d.peers[key := state]), key, f.ips);
    }
  }

  lemma {:induction false} EntriesKeep(d: Device, entries: seq<Peer>)
    ensures var d' := ApplyEntries(d, entries);
            && d'.name == d.name && d'.index == d.index && d'.settings == d.settings
            && (d.Valid() ==> d'.Valid())
    decreases |entries|
  {
    hide ApplyFields, FieldsOf;
    if entries != [] {
      EntryPeers(d, FieldsOf(entries[0]));
      EntriesKeep(ApplyEntry(d, entries[0]), entries[1..]);
    }
  }

  /** Over every run of messages, whatever they hold, no allowed IP is left without its peer. */
  lemma {:induction false} RunKeepsValid(d: Device, messages: seq<Message>)
    requires d.Valid()
    ensures ApplyMessages(d, messages).Valid()
    decreases |messages|
  {
    hide RequestOf, ApplyEntry;
    if messages != [] {
      var r := RequestOf(messages[0]);
      EntriesKeep(Prepare(d, r.flags, r.settings), r.entries);
      RunKeepsValid(ApplyMessage(d, messages[0]), messages[1..]);
    }
  }
}
