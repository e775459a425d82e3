/** Configurations and the messages they are split into (src/parsed.rs). */
module Parsed {
  import opened Base64
  import opened Flags
  import opened Fragments
  import opened Greedy
  import opened Keys
  import opened Netlink
  import opened PeerParsed
  import opened PeerRoundTrip
  import opened Sequences
  import opened Wrappers

  /** A device configuration; the interface name is given by its UTF-8 bytes. */
  datatype Config = Config(
    ifaceName: Option<seq<Byte>>,
    ifaceIndex: Option<U32>,
    publicKey: Option<string>,
    privateKey: Option<string>,
    listenPort: Option<U16>,
    fwmark: Option<U32>,
    peers: Option<seq<PeerConfig>>,
    flags: Option<seq<DeviceFlag>>)

  const NO_CONFIG := Config(None, None, None, None, None, None, None, None)

  const IFNAMSIZ: nat := 16

  function PeersOf(c: Config): seq<PeerConfig> {
    if c.peers.Some? then c.peers.value else []
  }

  /* Device attributes */

  function IfaceFault(c: Config): Option<ErrorKind> {
    if c.ifaceName.Some? then
      if |c.ifaceName.value| >= IFNAMSIZ || 0 in c.ifaceName.value then Some(InvalidInput) else None
    else if c.ifaceIndex.Some? then None
    else Some(InvalidInput)
  }

  /** Why `c` has no device attributes, if it has none: the first fault in the order they are built. */
  function DeviceFault(c: Config): Option<ErrorKind> {
    if IfaceFault(c).Some? then IfaceFault(c)
    else if c.publicKey.Some? && !IsKeyText(c.publicKey.value) then Some(InvalidKey)
    else if c.privateKey.Some? && !IsKeyText(c.privateKey.value) then Some(InvalidKey)
    else None
  }

  /** The name wins over the index. */
  function IfaceAttr(c: Config): DeviceAttr {
    if c.ifaceName.Some? then IfName(c.ifaceName.value)
    else if c.ifaceIndex.Some? then IfIndex(c.ifaceIndex.value)
    else IfIndex(0)
  }

  function PublicAttr(c: Config): Option<DeviceAttr> {
    if c.publicKey.Some? then Some(DevicePublicKey(KeyOf(c.publicKey.value))) else None
  }

  function PrivateAttr(c: Config): Option<DeviceAttr> {
    if c.privateKey.Some? then Some(PrivateKey(KeyOf(c.privateKey.value))) else None
  }

  function PortAttr(c: Config): Option<DeviceAttr> {
    if c.listenPort.Some? then Some(ListenPort(c.listenPort.value)) else None
  }

  function MarkAttr(c: Config): Option<DeviceAttr> {
    if c.fwmark.Some? then Some(Fwmark(c.fwmark.value)) else None
  }

  function DeviceFlagsAttr(c: Config): Option<DeviceAttr> {
    if c.flags.Some? then Some(DeviceFlags(DeviceBits(c.flags.value))) else None
  }

  function DeviceAttrs(c: Config): seq<DeviceAttr> {
    [IfaceAttr(c)] + Maybe(PublicAttr(c)) + Maybe(PrivateAttr(c)) + Maybe(PortAttr(c)) + Maybe(MarkAttr(c))
    + Maybe(DeviceFlagsAttr(c))
  }

  /* The specification of the splitter */

  function PeerKey(p: PeerConfig): Key {
    KeyOf(if p.publicKey.Some? then p.publicKey.value else "")
  }

  function BuiltIps(p: PeerConfig): seq<AllowedIp> {
    if p.allowedIps.Some? then Map(BuildIp, p.allowedIps.value) else []
  }

  /** Room for allowed IPs next to the whole state of a peer. */
  function FirstRoom(p: PeerConfig): int {
    MAX_VALUE_LEN - (HEADER + Total(PeerAttrLen, StateAttrs(p))) - HEADER
  }

  /** Room for allowed IPs next to the public key alone. */
  function NextRoom(key: Key): int {
    MAX_VALUE_LEN - (HEADER + PeerAttrLen(PublicKey(key))) - HEADER
  }

  /** The batches of allowed IPs of a peer: one empty batch if the list is empty. */
  function Batches(p: PeerConfig): (batches: seq<seq<AllowedIp>>)
    ensures batches != []
  {
    if BuiltIps(p) == [] then [[]]
    else Cut(BuiltIps(p), AllowedIpLen, FirstRoom(p), NextRoom(PeerKey(p)))
  }

  /** The entries a peer is split into. A peer to be removed is one entry without allowed IPs. */
  function Chunks(p: PeerConfig): seq<Peer> {
    if p.allowedIps.None? || Removes(p) then [Peer(StateAttrs(p))]
    else Pieces(StateAttrs(p), |StateAttrs(p)|, PeerKey(p), Batches(p))
  }

  function AllChunks(peers: seq<PeerConfig>): seq<Peer> {
    Flatten(Map(Chunks, peers))
  }

  /** The peer entries of each message. */
  function Groups(peers: seq<PeerConfig>): seq<seq<Peer>> {
    PeerCut(AllChunks(peers))
  }

  /** The greedy cut of entries into messages. */
  function PeerCut(xs: seq<Peer>): seq<seq<Peer>> {
    Cut(xs, PeerLen, MAX_VALUE_LEN, MAX_VALUE_LEN)
  }

  /** Only the first message carries the device attributes. */
  function MessageOf(c: Config, cmd: Command, first: bool, peers: seq<Peer>): Message {
    Message(cmd, (if first then DeviceAttrs(c) else [IfaceAttr(c)]) + if c.peers.Some? then [Peers(peers)] else [])
  }

  function Render(c: Config, cmd: Command, groups: seq<seq<Peer>>): seq<Message> {
    seq(|groups|, i requires 0 <= i < |groups| => MessageOf(c, cmd, i == 0, groups[i]))
  }

  /** The entries of the messages of a configuration; without any entry there still is one message. */
  function MessageGroups(c: Config): (groups: seq<seq<Peer>>)
    ensures groups != []
  {
    if Groups(PeersOf(c)) == [] then [[]] else Groups(PeersOf(c))
  }

  /** How many leading peers are without a fault. */
  function Sound(peers: seq<PeerConfig>): (n: nat)
    ensures n <= |peers|
    ensures forall i :: 0 <= i < n ==> PeerFault(peers[i]).None?
    ensures n < |peers| ==> PeerFault(peers[n]).Some?
  {
    if peers == [] || PeerFault(peers[0]).Some? then 0 else 1 + Sound(peers[1..])
  }

  /** The messages of a configuration, or the error that is met first: a faulty peer is met before a fault of the
      device unless the peers in front of it already fill a message. */
  function MessagesOf(c: Config, cmd: Command): Result<seq<Message>, ErrorKind> {
    var peers := PeersOf(c);
    var n := Sound(peers);
    var groups := Groups(peers[..n]);
    if n < |peers| && (|groups| <= 1 || DeviceFault(c).None?) then Err(PeerFault(peers[n]).value)
    else if DeviceFault(c).Some? then Err(DeviceFault(c).value)
    else Ok(Render(c, cmd, if groups == [] then [[]] else groups))
  }

  /** Building messages succeeds exactly when the device properties and every peer are without a fault: whether and
      where the configuration is split makes no difference, and there always is a first message. */
  lemma AcceptedIffSound(c: Config, cmd: Command)
    ensures MessagesOf(c, cmd).Ok? <==> DeviceFault(c).None? && forall p <- PeersOf(c) :: PeerFault(p).None?
    ensures MessagesOf(c, cmd).Ok? ==> MessagesOf(c, cmd).value != []
    ensures MessagesOf(c, cmd).Ok? ==> MessagesOf(c, cmd).value == Render(c, cmd, MessageGroups(c))
    ensures MessagesOf(c, cmd).Ok? ==> forall i :: 0 <= i < |PeersOf(c)| ==> PeerFault(PeersOf(c)[i]).None?
  {
    hide DecodeKey, PeerFault, DeviceFault, Chunks, Groups, MessageOf;
    var peers := PeersOf(c);
    var n := Sound(peers);
    if n == |peers| {
      assert peers[..n] == peers;
      assert forall p <- peers :: PeerFault(p).None?;
    } else {
      assert peers[n] in peers;
    }
  }

  /** The messages hold the entries of all peers, in order. */
  lemma MessageGroupsHoldAll(c: Config)
    ensures Flatten(MessageGroups(c)) == AllChunks(PeersOf(c))
  {
    hide AllChunks;
    CutIsCut(AllChunks(PeersOf(c)), PeerLen, MAX_VALUE_LEN, MAX_VALUE_LEN);
    assert Flatten<Peer>([[]]) == [];
  }

  /* The implementation */

  /** The allowed IPs of a peer that are still to be sent. */
  class IpQueue {
    var ips: seq<AllowedIp>

    constructor (ips: seq<AllowedIp>)
      ensures this.ips == ips
    {
      this.ips := ips;
    }

    /** Takes the longest prefix that fits next to `prefixLen` other bytes, but at least one allowed IP. */
    method TakeBatch(prefixLen: nat) returns (batch: seq<AllowedIp>)
      modifies this
      ensures batch + ips == old(ips)
      ensures old(ips) != [] ==> batch != []
      ensures |batch| > 1 ==> prefixLen + HEADER + Total(AllowedIpLen, batch) <= MAX_VALUE_LEN
      ensures ips != [] ==> prefixLen + HEADER + Total(AllowedIpLen, batch) + AllowedIpLen(ips[0]) > MAX_VALUE_LEN
    {
      var len := prefixLen + HEADER;
      var count := 0;
      while count < |ips|
        invariant count <= |ips| && ips == old(ips)
        invariant len == prefixLen + HEADER + Total(AllowedIpLen, ips[..count])
        invariant count > 1 ==> len <= MAX_VALUE_LEN
      {
        var ipLen := AllowedIpLen(ips[count]);
        if count > 0 && len + ipLen > MAX_VALUE_LEN {
          break;
        }
        TotalSnoc(AllowedIpLen, ips[..count], ips[count]);
        assert ips[..count] + [ips[count]] == ips[..count + 1];
        len := len + ipLen;
        count := count + 1;
      }
      batch := ips[..count];
      ips := ips[count..];
    }
  }

  function FindPublicKey(attrs: seq<PeerAttr>): Option<PeerAttr> {
    if attrs == [] then None
    else if attrs[0].PublicKey? then Some(attrs[0])
    else FindPublicKey(attrs[1..])
  }

  /** What the splitter keeps of an entry while it walks over the attributes. */
  datatype Sifted = Sifted(state: seq<PeerAttr>, ips: Option<seq<AllowedIp>>, removeMe: bool)

  function Sift(acc: Sifted, a: PeerAttr): Sifted {
    match a
    case AllowedIps(ips) => acc.(ips := Some(ips))
    case PeerFlags(bits) => acc.(removeMe := REMOVE_ME <= bits, state := acc.state + [a])
    case _ => acc.(state := acc.state + [a])
  }

  lemma {:induction false} SiftPlain(acc: Sifted, attrs: seq<PeerAttr>)
    requires Plain(attrs)
    ensures Fold(Sift, acc, attrs) == acc.(state := acc.state + attrs)
    decreases |attrs|
  {
    if attrs == [] {
      assert acc.state + attrs == acc.state;
    } else {
      assert !attrs[0].AllowedIps? && !attrs[0].PeerFlags?;
      var acc' := acc.(state := acc.state + [attrs[0]]);
      assert Sift(acc, attrs[0]) == acc';
      SiftPlain(acc', attrs[1..]);
      assert acc.state + attrs == acc'.state + attrs[1..];
    }
  }

  ghost predicate Plain(attrs: seq<PeerAttr>) {
    forall a <- attrs :: !a.AllowedIps? && !a.PeerFlags?
  }

  lemma OneMorePlain(attrs: seq<PeerAttr>, more: Option<PeerAttr>)
    requires Plain(attrs) && (more.Some? ==> !more.value.AllowedIps? && !more.value.PeerFlags?)
    ensures Plain(attrs + Maybe(more))
  {}

  lemma HeadIsPlain(p: PeerConfig)
    ensures Plain(HeadAttrs(p))
  {
    var h1 := Maybe(EndpointAttr(p));
    var h2 := h1 + Maybe(PublicKeyAttr(p));
    var h3 := h2 + Maybe(PresharedKeyAttr(p));
    var h4 := h3 + Maybe(KeepaliveAttr(p));
    var h5 := h4 + Maybe(HandshakeAttr(p));
    var h6 := h5 + Maybe(RxAttr(p));
    OneMorePlain(h1, PublicKeyAttr(p));
    OneMorePlain(h2, PresharedKeyAttr(p));
    OneMorePlain(h3, KeepaliveAttr(p));
    OneMorePlain(h4, HandshakeAttr(p));
    OneMorePlain(h5, RxAttr(p));
    OneMorePlain(h6, TxAttr(p));
  }

  /** The walk finds the state, the allowed IPs and the removal flag of the peer. */
  lemma SiftBuilt(p: PeerConfig)
    ensures Fold(Sift, Sifted([], None, false), BuildPeer(p).attrs)
            == Sifted(StateAttrs(p), if p.allowedIps.Some? then Some(BuiltIps(p)) else None, Removes(p))
  {
    var none, head, attrs := Sifted([], None, false), HeadAttrs(p), HeadAttrs(p) + Maybe(IpsAttr(p));
    HeadIsPlain(p);
    SiftPlain(none, head);
    assert none.state + head == head;
    FoldMaybe(Sift, none, head, IpsAttr(p));
    var ips := if p.allowedIps.Some? then Some(BuiltIps(p)) else None;
    assert Fold(Sift, none, attrs) == Sifted(head, ips, false);
    SiftTail(none, attrs, Sifted(head, ips, false), p);
  }

  lemma SiftTail(none: Sifted, attrs: seq<PeerAttr>, sifted: Sifted, p: PeerConfig)
    requires Fold(Sift, none, attrs) == sifted && !sifted.removeMe
    ensures Fold(Sift, none, attrs + Maybe(VersionAttr(p)) + Maybe(FlagsAttr(p)))
            == Sifted(sifted.state + Maybe(VersionAttr(p)) + Maybe(FlagsAttr(p)), sifted.ips, Removes(p))
  {
    FoldMaybe(Sift, none, attrs, VersionAttr(p));
    var state := sifted.state + Maybe(VersionAttr(p));
    assert Fold(Sift, none, attrs + Maybe(VersionAttr(p))) == sifted.(state := state);
    FoldMaybe(Sift, none, attrs + Maybe(VersionAttr(p)), FlagsAttr(p));
  }

  lemma FindsPublicKey(p: PeerConfig)
    requires p.publicKey.Some?
    ensures FindPublicKey(StateAttrs(p)) == Some(PublicKey(PeerKey(p)))
  {
    var state := StateAttrs(p);
    var n := |Maybe(EndpointAttr(p))|;
    assert state[n] == PublicKey(PeerKey(p));
    if n == 1 { assert state[0].Endpoint? && state[1..][0] == state[1]; }
  }

  lemma PieceAtEnd(state: seq<PeerAttr>, ips: seq<AllowedIp>)
    ensures Piece(state, |state|, ips) == Peer(state + [AllowedIps(ips)])
  {
    assert state[..|state|] + [AllowedIps(ips)] + state[|state|..] == state + [AllowedIps(ips)];
  }

  lemma OnePiece(state: seq<PeerAttr>, key: Key, ips: seq<AllowedIp>)
    ensures Pieces(state, |state|, key, [ips]) == [Peer(state + [AllowedIps(ips)])]
  {
    PieceAtEnd(state, ips);
    assert Continuations(key, [ips][1..]) == [];
  }

  lemma PiecesSnoc(state: seq<PeerAttr>, at: nat, key: Key, slices: seq<seq<AllowedIp>>, ips: seq<AllowedIp>)
    requires at <= |state| && slices != []
    ensures Pieces(state, at, key, slices + [ips]) == Pieces(state, at, key, slices) + [Continuation(key, ips)]
  {
    assert (slices + [ips])[1..] == slices[1..] + [ips];
    assert Continuations(key, slices[1..] + [ips]) == Continuations(key, slices[1..]) + [Continuation(key, ips)];
  }

  /** The batches taken so far are a greedy cut, and the last one has no room for what is left. */
  ghost predicate TakenGreedily(batches: seq<seq<AllowedIp>>, left: seq<AllowedIp>, ips: seq<AllowedIp>,
                                first: int, next: int)
  {
    && batches != []
    && Flatten(batches) + left == ips
    && IsCut(batches, Flatten(batches), AllowedIpLen, first, next)
    && (left != [] ==>
          Total(AllowedIpLen, batches[|batches| - 1]) + AllowedIpLen(left[0]) > Cap(|batches| - 1, first, next))
  }

  lemma TakeFirst(batch: seq<AllowedIp>, left: seq<AllowedIp>, first: int, next: int)
    requires batch != [] && (|batch| > 1 ==> Total(AllowedIpLen, batch) <= first)
    requires left != [] ==> Total(AllowedIpLen, batch) + AllowedIpLen(left[0]) > first
    ensures TakenGreedily([batch], left, batch + left, first, next)
  {
    AppendIsCut([], [], batch, AllowedIpLen, first, next);
    assert [] + [batch] == [batch] && [] + batch == batch;
    assert Flatten([batch]) == batch + Flatten<AllowedIp>([]) == batch;
  }

  lemma TakeNext(batches: seq<seq<AllowedIp>>, batch: seq<AllowedIp>, left: seq<AllowedIp>, ips: seq<AllowedIp>,
                 first: int, next: int)
    requires TakenGreedily(batches, batch + left, ips, first, next)
    requires batch != [] && (|batch| > 1 ==> Total(AllowedIpLen, batch) <= next)
    requires left != [] ==> Total(AllowedIpLen, batch) + AllowedIpLen(left[0]) > next
    ensures TakenGreedily(batches + [batch], left, ips, first, next)
  {
    var taken, n := Flatten(batches), |batches| - 1;
    assert Total(AllowedIpLen, batches[n]) + AllowedIpLen(batch[0]) > Cap(n, first, next) by {
      assert (batch + left)[0] == batch[0];
    }
    AppendIsCut(batches, taken, batch, AllowedIpLen, first, next);
    assert Flatten(batches + [batch]) == taken + batch;
    Associate(taken, batch, left);
  }

  lemma Associate<A>(a: seq<A>, b: seq<A>, c: seq<A>)
    ensures a + b + c == a + (b + c)
  {}

  lemma TakeAll(batches: seq<seq<AllowedIp>>, ips: seq<AllowedIp>, first: int, next: int)
    requires TakenGreedily(batches, [], ips, first, next)
    ensures batches == Cut(ips, AllowedIpLen, first, next)
  {
    assert Flatten(batches) + [] == Flatten(batches);
    CutIsCut(ips, AllowedIpLen, first, next);
    CutIsUnique(batches, Cut(ips, AllowedIpLen, first, next), ips, AllowedIpLen, first, next);
  }

  method PeerChunks(p: PeerConfig) returns (r: Result<seq<Peer>, ErrorKind>)
    ensures r == if PeerFault(p).Some? then Err(PeerFault(p).value) else Ok(Chunks(p))
  {
    hide DecodeKey, KeyOf, BuildPeer, StateAttrs, TakenGreedily, PeerAttrLen, AllowedIpLen, Pieces;
    var built :- Build(p);
    ghost var none := Sifted([], None, false);
    var stateAttrs: seq<PeerAttr>, allowedIps: Option<seq<AllowedIp>>, removeMe := [], None, false;
    for i := 0 to |built.attrs|
      invariant Sifted(stateAttrs, allowedIps, removeMe) == Fold(Sift, none, built.attrs[..i])
    {
      FoldSnoc(Sift, none, built.attrs[..i], built.attrs[i]);
      assert built.attrs[..i + 1] == built.attrs[..i] + [built.attrs[i]];
      match built.attrs[i] {
        case AllowedIps(ips) => allowedIps := Some(ips);
        case PeerFlags(bits) =>
          removeMe := REMOVE_ME <= bits;
          stateAttrs := stateAttrs + [built.attrs[i]];
        case _ => stateAttrs := stateAttrs + [built.attrs[i]];
      }
    }
    assert built.attrs[..|built.attrs|] == built.attrs;
    SiftBuilt(p);

    if allowedIps.None? {
      return Ok([Peer(stateAttrs)]);
    }
    var ips := allowedIps.value;
    if removeMe {
      return Ok([Peer(stateAttrs)]);
    }
    ghost var key := PeerKey(p);
    if ips == [] {
      OnePiece(stateAttrs, key, ips);
      return Ok([Peer(stateAttrs + [AllowedIps(ips)])]);
    }

    var publicKey := FindPublicKey(stateAttrs);
    FindsPublicKey(p);
    assert publicKey.Some?;  // which `expect` relies on
    ghost var first, next := FirstRoom(p), NextRoom(key);
    var stateLen := HEADER + Total(PeerAttrLen, stateAttrs);
    var queue := new IpQueue(ips);
    var firstBatch := queue.TakeBatch(stateLen);
    var chunks := [Peer(stateAttrs + [AllowedIps(firstBatch)])];
    ghost var batches := [firstBatch];
    TakeFirst(firstBatch, queue.ips, first, next);
    OnePiece(stateAttrs, key, firstBatch);

    var continuationLen := HEADER + PeerAttrLen(publicKey.value);
    while queue.ips != []
      invariant batches != [] && TakenGreedily(batches, queue.ips, ips, first, next)
      invariant chunks == Pieces(stateAttrs, |stateAttrs|, key, batches)
      decreases |queue.ips|
    {
      var batch := queue.TakeBatch(continuationLen);
      chunks := chunks + [Peer([publicKey.value, AllowedIps(batch)])];
      TakeNext(batches, batch, queue.ips, ips, first, next);
      PiecesSnoc(stateAttrs, |stateAttrs|, key, batches, batch);
      batches := batches + [batch];
    }
    TakeAll(batches, ips, first, next);
    return Ok(chunks);
  }

  method IfaceAttribute(c: Config) returns (r: Result<DeviceAttr, ErrorKind>)
    ensures r == if IfaceFault(c).Some? then Err(IfaceFault(c).value) else Ok(IfaceAttr(c))
  {
    if c.ifaceName.Some? {
      var name := c.ifaceName.value;
      if |name| >= IFNAMSIZ {
        return Err(InvalidInput);
      }
      if 0 in name {
        return Err(InvalidInput);
      }
      return Ok(IfName(name));
    } else if c.ifaceIndex.Some? {
      return Ok(IfIndex(c.ifaceIndex.value));
    } else {
      return Err(InvalidInput);
    }
  }

  method DeviceAttributes(c: Config) returns (r: Result<seq<DeviceAttr>, ErrorKind>)
    ensures r == if DeviceFault(c).Some? then Err(DeviceFault(c).value) else Ok(DeviceAttrs(c))
  {
    var iface :- IfaceAttribute(c);
    var attrs := [iface];
    ghost var done := attrs;
    if c.publicKey.Some? {
      var key :- DecodeKey(c.publicKey.value);
      attrs := attrs + [DevicePublicKey(key)];
    }
    done := done + Maybe(PublicAttr(c));
    assert attrs == done;
    if c.privateKey.Some? {
      var key :- DecodeKey(c.privateKey.value);
      attrs := attrs + [PrivateKey(key)];
    }
    done := done + Maybe(PrivateAttr(c));
    assert attrs == done;
    if c.listenPort.Some? {
      attrs := attrs + [ListenPort(c.listenPort.value)];
    }
    done := done + Maybe(PortAttr(c));
    assert attrs == done;
    if c.fwmark.Some? {
      attrs := attrs + [Fwmark(c.fwmark.value)];
    }
    done := done + Maybe(MarkAttr(c));
    assert attrs == done;
    if c.flags.Some? {
      attrs := attrs + [DeviceFlags(DeviceBits(c.flags.value))];
    }
    assert attrs == done + Maybe(DeviceFlagsAttr(c));
    return Ok(attrs);
  }

  method BuildMessage(c: Config, cmd: Command, first: bool, peers: seq<Peer>) returns (r: Result<Message, ErrorKind>)
    ensures var fault := if first then DeviceFault(c) else IfaceFault(c);
            r == if fault.Some? then Err(fault.value) else Ok(MessageOf(c, cmd, first, peers))
  {
    var attributes;
    if first {
      attributes :- DeviceAttributes(c);
    } else {
      var iface :- IfaceAttribute(c);
      attributes := [iface];
    }
    if c.peers.Some? {
      attributes := attributes + [Peers(peers)];
    } else {
      assert attributes + [] == attributes;
    }
    return Ok(Message(cmd, attributes));
  }

  /** What the nested loops know once the entries so far form `groups`: there is a message for every group but the
      last one, which is still open. */
  ghost predicate Packed(c: Config, cmd: Command, messages: seq<Message>, open: seq<Peer>, openLen: nat,
                         groups: seq<seq<Peer>>)
  {
    && openLen == Total(PeerLen, open)
    && (messages != [] ==> DeviceFault(c).None?)
    && if groups == [] then messages == [] && open == []
       else open != [] && open == groups[|groups| - 1] && messages == Render(c, cmd, groups[..|groups| - 1])
  }

  function PlacePeer(groups: seq<seq<Peer>>, x: Peer): seq<seq<Peer>> {
    Place(groups, x, PeerLen, MAX_VALUE_LEN, MAX_VALUE_LEN)
  }

  lemma PackNothing(c: Config, cmd: Command)
    ensures Packed(c, cmd, [], [], 0, Groups(PeersOf(c)[..0]))
  {
    assert Map(Chunks, PeersOf(c)[..0]) == [];
  }

  /** The open message has room for one more entry. */
  lemma PackIntoOpen(c: Config, cmd: Command, messages: seq<Message>, open: seq<Peer>, openLen: nat,
                     groups: seq<seq<Peer>>, x: Peer)
    requires Packed(c, cmd, messages, open, openLen, groups)
    requires open == [] || openLen + PeerLen(x) <= MAX_VALUE_LEN
    ensures Packed(c, cmd, messages, open + [x], openLen + PeerLen(x), PlacePeer(groups, x))
  {
    TotalSnoc(PeerLen, open, x);
    if groups == [] {
      assert [] + [x] == [x];
    } else {
      var n := |groups| - 1;
      assert (groups[..n] + [groups[n] + [x]])[..n] == groups[..n];
    }
  }

  /** The open message is full and becomes a message of its own. */
  lemma PackIntoNext(c: Config, cmd: Command, messages: seq<Message>, open: seq<Peer>, openLen: nat,
                     groups: seq<seq<Peer>>, x: Peer)
    requires Packed(c, cmd, messages, open, openLen, groups)
    requires open != [] && openLen + PeerLen(x) > MAX_VALUE_LEN
    requires (if messages == [] then DeviceFault(c) else IfaceFault(c)).None?
    ensures Packed(c, cmd, messages + [MessageOf(c, cmd, messages == [], open)], [x], PeerLen(x), PlacePeer(groups, x))
  {
    TotalSnoc(PeerLen, [], x);
    assert [] + [x] == [x];
    var n := |groups| - 1;
    assert (groups + [[x]])[..n + 1] == groups;
    RenderLast(c, cmd, groups);
  }

  lemma RenderLast(c: Config, cmd: Command, groups: seq<seq<Peer>>)
    requires groups != []
    ensures var n := |groups| - 1;
            Render(c, cmd, groups) == Render(c, cmd, groups[..n]) + [MessageOf(c, cmd, n == 0, groups[n])]
  {}

  lemma AllChunksConcat(peers: seq<PeerConfig>, more: seq<PeerConfig>)
    ensures AllChunks(peers + more) == AllChunks(peers) + AllChunks(more)
  {
    MapConcat(Chunks, peers, more);
    FlattenConcat(Map(Chunks, peers), Map(Chunks, more));
  }

  lemma AllChunksOne(p: PeerConfig)
    ensures AllChunks([p]) == Chunks(p)
  {
    MapOne(Chunks, p);
    FlattenOne(Chunks(p));
  }

  lemma AllChunksSnoc(peers: seq<PeerConfig>, n: nat)
    requires n < |peers|
    ensures AllChunks(peers[..n + 1]) == AllChunks(peers[..n]) + Chunks(peers[n])
  {
    assert peers[..n + 1] == peers[..n] + [peers[n]];
    AllChunksConcat(peers[..n], [peers[n]]);
    AllChunksOne(peers[n]);
  }

  lemma {:induction false} CutGrows(xs: seq<Peer>, ys: seq<Peer>)
    ensures |PeerCut(xs)| <= |PeerCut(xs + ys)|
    decreases |ys|
  {
    if ys == [] {
      assert xs + ys == xs;
    } else {
      var n := |ys| - 1;
      CutGrows(xs, ys[..n]);
      assert xs + ys == xs + ys[..n] + [ys[n]];
      CutSnoc(xs + ys[..n], ys[n], PeerLen, MAX_VALUE_LEN, MAX_VALUE_LEN);
    }
  }

  lemma GroupsStart(peers: seq<PeerConfig>, n: nat)
    requires n < |peers|
    ensures Groups(peers[..n]) == PeerCut(AllChunks(peers[..n]) + Chunks(peers[n])[..0])
  {
    assert AllChunks(peers[..n]) + Chunks(peers[n])[..0] == AllChunks(peers[..n]);
  }

  lemma GroupsEnd(peers: seq<PeerConfig>, n: nat)
    requires n < |peers|
    ensures var chunks := Chunks(peers[n]);
            Groups(peers[..n + 1]) == PeerCut(AllChunks(peers[..n]) + chunks[..|chunks|])
  {
    AllChunksSnoc(peers, n);
    assert Chunks(peers[n])[..|Chunks(peers[n])|] == Chunks(peers[n]);
  }

  /** A full message that cannot be built is the first one. */
  lemma OpenFault(c: Config, cmd: Command, messages: seq<Message>, open: seq<Peer>, openLen: nat,
                  groups: seq<seq<Peer>>, x: Peer)
    requires Packed(c, cmd, messages, open, openLen, groups)
    requires open != [] && openLen + PeerLen(x) > MAX_VALUE_LEN
    requires (if messages == [] then DeviceFault(c) else IfaceFault(c)).Some?
    ensures messages == [] && |PlacePeer(groups, x)| > 1
  {}

  /** A message that fills up before a faulty peer is reached reports the fault of the device. */
  lemma DeviceFaultFirst(c: Config, cmd: Command, n: nat, j: nat)
    requires var peers := PeersOf(c);
             n < |peers| && (forall i :: 0 <= i < n ==> PeerFault(peers[i]).None?) && PeerFault(peers[n]).None?
             && j <= |Chunks(peers[n])| && |PeerCut(AllChunks(peers[..n]) + Chunks(peers[n])[..j])| > 1
    requires DeviceFault(c).Some?
    ensures MessagesOf(c, cmd) == Err(DeviceFault(c).value)
  {
    hide Chunks, AllChunks, PeerCut, PeerFault, DeviceFault;
    var peers := PeersOf(c);
    var m := Sound(peers);
    assert m > n;
    var front, chunks, more := AllChunks(peers[..n]), Chunks(peers[n]), AllChunks(peers[n + 1..m]);
    assert peers[..m] == peers[..n + 1] + peers[n + 1..m];
    AllChunksConcat(peers[..n + 1], peers[n + 1..m]);
    AllChunksSnoc(peers, n);
    assert chunks[..j] + chunks[j..] == chunks;
    Associate(front, chunks[..j], chunks[j..]);
    Associate(front + chunks[..j], chunks[j..], more);
    CutGrows(front + chunks[..j], chunks[j..] + more);
  }

  /** A faulty peer that is reached is reported. */
  lemma PeerFaultFirst(c: Config, cmd: Command, messages: seq<Message>, open: seq<Peer>, openLen: nat, n: nat)
    requires var peers := PeersOf(c);
             n < |peers| && (forall i :: 0 <= i < n ==> PeerFault(peers[i]).None?) && PeerFault(peers[n]).Some?
    requires Packed(c, cmd, messages, open, openLen, Groups(PeersOf(c)[..n]))
    ensures MessagesOf(c, cmd) == Err(PeerFault(PeersOf(c)[n]).value)
  {
    assert Sound(PeersOf(c)) == n;
  }

  /** After the loops, the open message is the last one. */
  lemma OpenIsLast(c: Config, cmd: Command, messages: seq<Message>, open: seq<Peer>, openLen: nat)
    requires var peers := PeersOf(c); forall i :: 0 <= i < |peers| ==> PeerFault(peers[i]).None?
    requires Packed(c, cmd, messages, open, openLen, Groups(PeersOf(c)))
    ensures open != [] || messages == []
    ensures messages != [] ==> DeviceFault(c).None? && IfaceFault(c).None?
    ensures MessagesOf(c, cmd) == if DeviceFault(c).Some? then Err(DeviceFault(c).value)
                                  else Ok(messages + [MessageOf(c, cmd, messages == [], open)])
  {
    var peers := PeersOf(c);
    assert Sound(peers) == |peers| && peers[..|peers|] == peers;
    RenderLast(c, cmd, if Groups(peers) == [] then [[]] else Groups(peers));
  }

  lemma PeerCutSnoc(seen: seq<Peer>, chunks: seq<Peer>, j: nat)
    requires j < |chunks|
    ensures PeerCut(seen + chunks[..j + 1]) == PlacePeer(PeerCut(seen + chunks[..j]), chunks[j])
  {
    assert seen + chunks[..j + 1] == seen + chunks[..j] + [chunks[j]];
    CutSnoc(seen + chunks[..j], chunks[j], PeerLen, MAX_VALUE_LEN, MAX_VALUE_LEN);
  }

  method BuildMessages(c: Config, cmd: Command) returns (r: Result<seq<Message>, ErrorKind>)
    ensures r == MessagesOf(c, cmd)
  {
    hide Chunks, AllChunks, Groups, PeerCut, PlacePeer, MessagesOf, MessageOf, Packed, PeerFault, DeviceFault,
         IfaceFault;
    var messages: seq<Message>, open: seq<Peer>, openLen: nat := [], [], 0;
    var peers := PeersOf(c);
    PackNothing(c, cmd);
    for i := 0 to |peers|
      invariant forall k :: 0 <= k < i ==> PeerFault(peers[k]).None?
      invariant Packed(c, cmd, messages, open, openLen, Groups(peers[..i]))
    {
      var chunks := PeerChunks(peers[i]);
      if chunks.Err? {
        PeerFaultFirst(c, cmd, messages, open, openLen, i);
        return Err(chunks.error);
      }
      ghost var groups := Groups(peers[..i]);
      GroupsStart(peers, i);
      for j := 0 to |chunks.value|
        invariant groups == PeerCut(AllChunks(peers[..i]) + chunks.value[..j])
        invariant Packed(c, cmd, messages, open, openLen, groups)
      {
        var chunk := chunks.value[j];
        var chunkLen := PeerLen(chunk);
        PeerCutSnoc(AllChunks(peers[..i]), chunks.value, j);
        if open != [] && openLen + chunkLen > MAX_VALUE_LEN {
          var first := messages == [];
          var message := BuildMessage(c, cmd, first, open);
          if message.Err? {
            OpenFault(c, cmd, messages, open, openLen, groups, chunk);
            DeviceFaultFirst(c, cmd, i, j + 1);
            return Err(message.error);
          }
          PackIntoNext(c, cmd, messages, open, openLen, groups, chunk);
          messages := messages + [message.value];
          open := [];
          openLen := 0;
          assert open + [chunk] == [chunk];
        } else {
          PackIntoOpen(c, cmd, messages, open, openLen, groups, chunk);
        }
        open := open + [chunk];
        openLen := openLen + chunkLen;
        groups := PlacePeer(groups, chunk);
      }
      GroupsEnd(peers, i);
    }
    assert peers[..|peers|] == peers;
    OpenIsLast(c, cmd, messages, open, openLen);
    if open != [] || messages == [] {
      var first := messages == [];
      var message :- BuildMessage(c, cmd, first, open);
      messages := messages + [message];
    }
    return Ok(messages);
  }

  /** A single message, or an error when one is not enough. */
  method BuildSingle(c: Config, cmd: Command) returns (r: Result<Message, ErrorKind>)
    ensures r == SingleOf(c, cmd)
  {
    var messages :- BuildMessages(c, cmd);
    if |messages| > 1 {
      return Err(InvalidInput);
    }
    assert messages != [];  // which `remove(0)` relies on
    return Ok(messages[0]);
  }

  function SingleOf(c: Config, cmd: Command): Result<Message, ErrorKind> {
    var messages := MessagesOf(c, cmd);
    if messages.Err? then Err(messages.error)
    else if |messages.value| > 1 then Err(InvalidInput)
    else Ok(messages.value[0])
  }
}
