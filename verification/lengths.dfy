/** Encoded lengths of the messages: that they fit, that no split uses fewer pieces, and when no split is needed. */
module Lengths {
  import opened Base64
  import opened Dump
  import opened Flags
  import opened Fragments
  import opened Greedy
  import opened Keys
  import opened Netlink
  import opened Parsed
  import opened PeerParsed
  import opened PeerRoundTrip
  import opened Reassembly
  import opened Sequences
  import opened Wrappers

  const MAX_STATE: nat := 172
  const MAX_IP: nat := 48

  lemma StateIsSmall(p: PeerConfig)
    ensures Total(PeerAttrLen, StateAttrs(p)) <= MAX_STATE
  {
    hide DecodeKey, KeyOf, Total;
    TotalNone(PeerAttrLen);
    var h1 := Maybe(EndpointAttr(p));
    var h2 := h1 + Maybe(PublicKeyAttr(p));
    var h3 := h2 + Maybe(PresharedKeyAttr(p));
    var h4 := h3 + Maybe(KeepaliveAttr(p));
    var h5 := h4 + Maybe(HandshakeAttr(p));
    var h6 := h5 + Maybe(RxAttr(p));
    assert [] + h1 == h1;
    OneMoreLen([], EndpointAttr(p), 0, 32);
    OneMoreLen(h1, PublicKeyAttr(p), 32, 36);
    OneMoreLen(h2, PresharedKeyAttr(p), 68, 36);
    OneMoreLen(h3, KeepaliveAttr(p), 104, 8);
    OneMoreLen(h4, HandshakeAttr(p), 112, 20);
    OneMoreLen(h5, RxAttr(p), 132, 12);
    OneMoreLen(h6, TxAttr(p), 144, 12);
    OneMoreLen(HeadAttrs(p), VersionAttr(p), 156, 8);
    OneMoreLen(HeadAttrs(p) + Maybe(VersionAttr(p)), FlagsAttr(p), 164, 8);
  }

  lemma OneMoreLen(attrs: seq<PeerAttr>, more: Option<PeerAttr>, bound: nat, len: nat)
    requires Total(PeerAttrLen, attrs) <= bound
    requires more.Some? ==> !more.value.AllowedIps? && PeerAttrLen(more.value) <= len
    ensures Total(PeerAttrLen, attrs + Maybe(more)) <= bound + len
  {
    hide PeerAttrLen;
    TotalMaybe(PeerAttrLen, attrs, more);
  }

  lemma IpIsSmall(ip: IpConfig)
    ensures AllowedIpLen(BuildIp(ip)) <= MAX_IP
  {
    var family := Family(if ip.ipAddr.V4? then Ipv4 else Ipv6);
    var flags := if ip.flags.Some? then Some(IpFlags(IpBits(ip.flags.value))) else None;
    var c, f, a := [Cidr(ip.prefixLength)], [family], [Addr(ip.ipAddr)];
    assert BuildIp(ip).attrs == c + f + a + Maybe(flags);
    TotalMaybe(IpAttrLen, c + f + a, flags);
    TotalSnoc(IpAttrLen, c + f, Addr(ip.ipAddr));
    TotalSnoc(IpAttrLen, c, family);
    TotalSnoc(IpAttrLen, [], Cidr(ip.prefixLength));
    assert [] + c == c;
    SumIsAligned(IpAttrLen, BuildIp(ip).attrs);
  }

  lemma BuiltIpsAreSmall(p: PeerConfig)
    ensures forall ip <- BuiltIps(p) :: AllowedIpLen(ip) <= MAX_IP
  {
    hide AllowedIpLen;
    if p.allowedIps.Some? {
      forall ip <- BuiltIps(p)
        ensures AllowedIpLen(ip) <= MAX_IP
      {
        var i :| 0 <= i < |BuiltIps(p)| && BuiltIps(p)[i] == ip;
        IpIsSmall(p.allowedIps.value[i]);
      }
    }
  }

  /** The encoded length of a piece is what the splitter adds up. */
  lemma PieceLen(state: seq<PeerAttr>, at: nat, ips: seq<AllowedIp>)
    requires at <= |state|
    ensures PeerLen(Piece(state, at, ips))
            == HEADER + Total(PeerAttrLen, state) + HEADER + Total(AllowedIpLen, ips)
  {
    PeerLenIsSum(Piece(state, at, ips));
    AllowedIpsLenIsSum(ips);
    TotalSnoc(PeerAttrLen, state[..at], AllowedIps(ips));
    TotalConcat(PeerAttrLen, state[..at] + [AllowedIps(ips)], state[at..]);
    TotalPrefix(PeerAttrLen, state, at);
  }

  lemma ContinuationLen(key: Key, ips: seq<AllowedIp>)
    ensures PeerLen(Continuation(key, ips))
            == HEADER + PeerAttrLen(PublicKey(key)) + HEADER + Total(AllowedIpLen, ips)
  {
    var state := [PublicKey(key)];
    assert Continuation(key, ips) == Piece(state, 1, ips);
    assert state[1..] == [];
    PieceLen(state, 1, ips);
  }

  /** A cut of the allowed IPs stays within the rooms exactly when every entry made from it fits an attribute. */
  lemma RoomsAreLengths(p: PeerConfig, parts: seq<seq<AllowedIp>>)
    requires parts != [] && Flatten(parts) == BuiltIps(p)
    ensures Fits(parts, BuiltIps(p), AllowedIpLen, FirstRoom(p), NextRoom(PeerKey(p)))
            <==> forall e <- Pieces(StateAttrs(p), |StateAttrs(p)|, PeerKey(p), parts) :: PeerLen(e) <= MAX_VALUE_LEN
  {
    hide StateAttrs, PeerKey, PeerLen, AllowedIpLen, PeerAttrLen;
    var state, key := StateAttrs(p), PeerKey(p);
    var pieces := Pieces(state, |state|, key, parts);
    PieceLen(state, |state|, parts[0]);
    forall i | 0 <= i < |parts|
      ensures Total(AllowedIpLen, parts[i]) <= Cap(i, FirstRoom(p), NextRoom(key))
              <==> PeerLen(pieces[i]) <= MAX_VALUE_LEN
    {
      if i > 0 {
        assert pieces[i] == Continuation(key, parts[i]);
        ContinuationLen(key, parts[i]);
      }
    }
    assert |pieces| == |parts|;
    if forall e <- pieces :: PeerLen(e) <= MAX_VALUE_LEN {
      assert forall i :: 0 <= i < |parts| ==> pieces[i] in pieces;
    }
  }

  /** The limit is tight: entries stay within it exactly when the attribute that holds them fits its sixteen bits. */
  lemma LimitIsTight(entries: seq<Peer>)
    ensures DeviceAttrLen(Peers(entries)) <= MAX_ATTR_LEN <==> Total(PeerLen, entries) <= MAX_VALUE_LEN
  {
    hide PeerLen;
    forall e <- entries
      ensures PeerLen(e) % 4 == 0
    {
      PeerLenIsSum(e);
    }
    SumIsAligned(PeerLen, entries);
  }

  lemma OneEntryFits(e: Peer)
    ensures DeviceAttrLen(Peers([e])) <= MAX_ATTR_LEN <==> PeerLen(e) <= MAX_VALUE_LEN
  {
    hide PeerLen;
    LimitIsTight([e]);
    assert [e][1..] == [];
  }

  /** Greedy chunking is optimal: whoever cuts the allowed IPs of a peer into entries, a first one with all state and
      further ones with the key, that each can be sent in some message, needs at least as many entries. */
  lemma ChunksAreFewest(p: PeerConfig, parts: seq<seq<AllowedIp>>)
    requires p.allowedIps.Some? && !Removes(p) && parts != [] && Flatten(parts) == BuiltIps(p)
    requires forall e <- Pieces(StateAttrs(p), |StateAttrs(p)|, PeerKey(p), parts) ::
               DeviceAttrLen(Peers([e])) <= MAX_ATTR_LEN
    ensures |Chunks(p)| <= |parts|
  {
    hide StateAttrs, PeerKey, PeerLen, DeviceAttrLen;
    forall e <- Pieces(StateAttrs(p), |StateAttrs(p)|, PeerKey(p), parts)
      ensures PeerLen(e) <= MAX_VALUE_LEN
    {
      OneEntryFits(e);
    }
    RoomsAreLengths(p, parts);
    if BuiltIps(p) != [] {
      CutIsOptimal(BuiltIps(p), parts, AllowedIpLen, FirstRoom(p), NextRoom(PeerKey(p)));
    }
  }

  lemma BatchesFlatten(p: PeerConfig)
    ensures Flatten(Batches(p)) == BuiltIps(p)
  {
    hide StateAttrs, PeerKey;
    CutIsCut(BuiltIps(p), AllowedIpLen, FirstRoom(p), NextRoom(PeerKey(p)));
  }

  /** Every entry fits: the first allowed IP of a batch is never too long for it. */
  lemma ChunksFit(p: PeerConfig)
    ensures forall e <- Chunks(p) :: PeerLen(e) <= MAX_VALUE_LEN
  {
    hide StateAttrs, PeerKey, AllowedIpLen;
    var state, key := StateAttrs(p), PeerKey(p);
    StateIsSmall(p);
    PeerLenIsSum(Peer(state));
    if p.allowedIps.Some? && !Removes(p) {
      BatchesFlatten(p);
      if BuiltIps(p) == [] {
        assert Total(AllowedIpLen, Batches(p)[0]) == 0;
      } else {
        BuiltIpsAreSmall(p);
        CutFits(BuiltIps(p), AllowedIpLen, FirstRoom(p), NextRoom(key));
      }
      RoomsAreLengths(p, Batches(p));
    }
  }

  lemma AllChunksFit(peers: seq<PeerConfig>)
    ensures forall e <- AllChunks(peers) :: PeerLen(e) <= MAX_VALUE_LEN
    decreases |peers|
  {
    hide Chunks, PeerLen;
    if peers == [] {
      assert AllChunks(peers) == [];
    } else {
      var n := |peers| - 1;
      AllChunksFit(peers[..n]);
      ChunksFit(peers[n]);
      AllChunksSnoc(peers, n);
      assert peers[..n + 1] == peers;
    }
  }

  /* Every attribute fits sixteen bits */

  lemma PeerFits(e: Peer)
    requires PeerLen(e) <= MAX_ATTR_LEN
    ensures PeerEncodable(e)
  {
    forall a <- e.attrs
      ensures PeerAttrLen(a) <= MAX_ATTR_LEN
    {
      SumIncludes(PeerAttrLen, e.attrs, a);
    }
    forall a, ip | a in e.attrs && a.AllowedIps? && ip in a.ips
      ensures IpEncodable(ip)
    {
      assert PeerAttrLen(a) <= MAX_ATTR_LEN;
      SumIncludes(AllowedIpLen, a.ips, ip);
      forall b <- ip.attrs
        ensures IpAttrLen(b) <= MAX_ATTR_LEN
      {
        SumIncludes(IpAttrLen, ip.attrs, b);
      }
    }
  }

  lemma DeviceAttrsFit(c: Config)
    requires DeviceFault(c).None?
    ensures forall a <- DeviceAttrs(c) :: !a.Peers? && DeviceAttrLen(a) <= MAX_ATTR_LEN
  {
    hide DecodeKey, KeyOf, DeviceAttrLen, IfaceFault, IfaceAttr, PublicAttr, PrivateAttr, PortAttr, MarkAttr,
         DeviceFlagsAttr;
    SoundInterface(c);
    IfaceFits(c);
    PublicFits(c);
    PrivateFits(c);
    PortFits(c);
    MarkFits(c);
    FlagsFit(c);
  }

  ghost predicate IsSmall(a: DeviceAttr) {
    !a.Peers? && DeviceAttrLen(a) <= MAX_ATTR_LEN
  }

  lemma SoundInterface(c: Config)
    requires DeviceFault(c).None?
    ensures IfaceFault(c).None?
  {
    hide DecodeKey;
  }

  lemma PublicFits(c: Config)
    ensures PublicAttr(c).Some? ==> IsSmall(PublicAttr(c).value)
  {
    hide KeyOf;
  }

  lemma PrivateFits(c: Config)
    ensures PrivateAttr(c).Some? ==> IsSmall(PrivateAttr(c).value)
  {
    hide KeyOf;
  }

  lemma PortFits(c: Config)
    ensures PortAttr(c).Some? ==> IsSmall(PortAttr(c).value)
  {}

  lemma MarkFits(c: Config)
    ensures MarkAttr(c).Some? ==> IsSmall(MarkAttr(c).value)
  {}

  lemma FlagsFit(c: Config)
    ensures DeviceFlagsAttr(c).Some? ==> IsSmall(DeviceFlagsAttr(c).value)
  {
    hide DeviceBits;
  }

  /** Every attribute at every nesting level of every message has a length that fits sixteen bits, and no message has
      more than one peers or flags attribute. */
  lemma MessagesAreEncodable(c: Config, cmd: Command)
    requires MessagesOf(c, cmd).Ok?
    ensures forall m <- MessagesOf(c, cmd).value :: Encodable(m) && AtMostOne(m.attrs)
  {
    hide DecodeKey, PeerLen, DeviceFault, PeerFault, MessagesOf, MessageOf, MessageGroups, Encodable, AtMostOne;
    AcceptedIffSound(c, cmd);
    var groups := MessageGroups(c);
    forall i | 0 <= i < |groups|
      ensures Encodable(MessageOf(c, cmd, i == 0, groups[i])) && AtMostOne(MessageOf(c, cmd, i == 0, groups[i]).attrs)
    {
      BuiltIsSingle(c, cmd, i == 0, groups[i]);
      GroupFits(c, i);
      MessageIsEncodable(c, cmd, i == 0, groups[i]);
    }
  }

  /** The name a receiver reads from bytes that end with a NUL. */
  function CString(bytes: seq<Byte>): seq<Byte> {
    if bytes == [] || bytes[0] == 0 then [] else [bytes[0]] + CString(bytes[1..])
  }

  /** A name is accepted exactly when it fits `IFNAMSIZ` with its NUL and the receiver reads the same name. */
  lemma NameIsRead(c: Config)
    requires c.ifaceName.Some?
    ensures var name := c.ifaceName.value;
            IfaceFault(c).None? <==> |name| + 1 <= IFNAMSIZ && CString(name + [0]) == name
  {
    NulEndsName(c.ifaceName.value);
  }

  lemma {:induction false} NulEndsName(name: seq<Byte>)
    ensures CString(name + [0]) == name <==> 0 !in name
    decreases |name|
  {
    if name != [] && name[0] != 0 {
      NulEndsName(name[1..]);
      assert (name + [0])[1..] == name[1..] + [0];
      assert name == [name[0]] + name[1..];
    }
  }

  lemma IfaceFits(c: Config)
    requires IfaceFault(c).None?
    ensures !IfaceAttr(c).Peers? && DeviceAttrLen(IfaceAttr(c)) <= MAX_ATTR_LEN
  {}

  lemma GroupFits(c: Config, i: nat)
    requires i < |MessageGroups(c)|
    ensures var group := MessageGroups(c)[i];
            Total(PeerLen, group) <= MAX_VALUE_LEN && forall e <- group :: PeerLen(e) <= MAX_VALUE_LEN
  {
    hide AllChunks, PeerLen;
    var chunks, group := AllChunks(PeersOf(c)), MessageGroups(c)[i];
    AllChunksFit(PeersOf(c));
    CutFits(chunks, PeerLen, MAX_VALUE_LEN, MAX_VALUE_LEN);
    assert Groups(PeersOf(c)) != [] ==> Total(PeerLen, group) <= Cap(i, MAX_VALUE_LEN, MAX_VALUE_LEN);
    forall e <- group
      ensures PeerLen(e) <= MAX_VALUE_LEN
    {
      SumIncludes(PeerLen, group, e);
    }
  }

  lemma MessageIsEncodable(c: Config, cmd: Command, first: bool, peers: seq<Peer>)
    requires DeviceFault(c).None?
    requires Total(PeerLen, peers) <= MAX_VALUE_LEN && forall e <- peers :: PeerLen(e) <= MAX_VALUE_LEN
    ensures Encodable(MessageOf(c, cmd, first, peers))
  {
    hide DecodeKey, DeviceAttrs, PeerLen, PeerEncodable;
    DeviceAttrsFit(c);
    IfaceFits(c);
    assert DeviceAttrLen(Peers(peers)) <= MAX_ATTR_LEN;
    forall e <- peers
      ensures PeerEncodable(e)
    {
      PeerFits(e);
    }
  }

  /* How many messages there are */

  /** The entries of all messages are the entries of all peers, in order. */
  lemma {:induction false} RenderedEntries(c: Config, cmd: Command, groups: seq<seq<Peer>>)
    requires c.peers.Some?
    ensures Entries(AllAttrs(Render(c, cmd, groups))) == Flatten(groups)
    decreases |groups|
  {
    hide DeviceAttrs;
    if groups == [] {
      assert Render(c, cmd, groups) == [] && AllAttrs([]) == [] && Entries([]) == [];
    } else {
      var n := |groups| - 1;
      RenderedEntries(c, cmd, groups[..n]);
      RenderLast(c, cmd, groups);
      var message := MessageOf(c, cmd, n == 0, groups[n]);
      AllAttrsSnoc(Render(c, cmd, groups[..n]), message);
      EntriesConcat(AllAttrs(Render(c, cmd, groups[..n])), message.attrs);
      MessageEntries(c, cmd, n == 0, groups[n]);
      assert groups == groups[..n] + [groups[n]];
      FlattenSnoc(groups[..n], groups[n]);
    }
  }

  lemma MessageEntries(c: Config, cmd: Command, first: bool, peers: seq<Peer>)
    ensures Entries(MessageOf(c, cmd, first, peers).attrs) == if c.peers.Some? then peers else []
  {
    hide DecodeKey, KeyOf;
    var device := if first then DeviceAttrs(c) else [IfaceAttr(c)];
    assert forall a <- device :: !a.Peers?;
    NoEntries(device);
    if c.peers.Some? {
      EntriesSnoc(device, Peers(peers));
    } else {
      assert device + [] == device;
    }
  }

  lemma {:induction false} EntriesOfMessages(messages: seq<Message>)
    ensures Entries(AllAttrs(messages)) == Flatten(Map(MessageEntriesOf, messages))
    decreases |messages|
  {
    hide Entries;
    if messages == [] {
      assert AllAttrs(messages) == [];
      NoEntries([]);
    } else {
      var n := |messages| - 1;
      assert messages == messages[..n] + [messages[n]];
      EntriesOfMessages(messages[..n]);
      AllAttrsSnoc(messages[..n], messages[n]);
      EntriesConcat(AllAttrs(messages[..n]), messages[n].attrs);
      MapConcat(MessageEntriesOf, messages[..n], [messages[n]]);
      MapOne(MessageEntriesOf, messages[n]);
      FlattenSnoc(Map(MessageEntriesOf, messages[..n]), MessageEntriesOf(messages[n]));
    }
  }

  function MessageEntriesOf(m: Message): seq<Peer> {
    Entries(m.attrs)
  }

  /** A message that fits, with one peers attribute at most, holds no more than the limit. */
  lemma {:induction false} EntriesWithinLimit(attrs: seq<DeviceAttr>)
    requires AtMostOne(attrs) && forall a <- attrs :: DeviceAttrLen(a) <= MAX_ATTR_LEN
    ensures Total(PeerLen, Entries(attrs)) <= MAX_VALUE_LEN
    decreases |attrs|
  {
    hide PeerLen, DeviceAttrLen;
    if attrs == [] {
      NoEntries(attrs);
    } else {
      var n := |attrs| - 1;
      var init, a := attrs[..n], attrs[n];
      assert attrs == init + [a];
      EntriesSnoc(init, a);
      if a.Peers? {
        NoEntries(init);
        LimitIsTight(a.peers);
        assert [] + a.peers == a.peers;
      } else {
        EntriesWithinLimit(init);
        assert Entries(init) + [] == Entries(init);
      }
    }
  }

  /** Greedy packing is optimal: whoever spreads the same entries, in their order, over messages that fit and have one
      peers attribute at most, needs at least as many messages. */
  lemma MessagesAreFewest(c: Config, cmd: Command, others: seq<Message>)
    requires MessagesOf(c, cmd).Ok? && c.peers.Some? && others != []
    requires Entries(AllAttrs(others)) == Entries(AllAttrs(MessagesOf(c, cmd).value))
    requires forall m <- others :: Encodable(m) && AtMostOne(m.attrs)
    ensures |MessagesOf(c, cmd).value| <= |others|
  {
    hide DecodeKey, PeerFault, DeviceFault, AllChunks, PeerLen, MessageOf, MessagesOf, Entries, AllAttrs, DeviceAttrLen,
         AtMostOne, PeerEncodable;
    AcceptedIffSound(c, cmd);
    RenderedEntries(c, cmd, MessageGroups(c));
    MessageGroupsHoldAll(c);
    EntriesOfMessages(others);
    var parts := Map(MessageEntriesOf, others);
    forall i | 0 <= i < |parts|
      ensures Total(PeerLen, parts[i]) <= MAX_VALUE_LEN
    {
      assert others[i] in others && parts[i] == MessageEntriesOf(others[i]);
      EntriesWithinLimit(others[i].attrs);
    }
    CutIsOptimal(AllChunks(PeersOf(c)), parts, PeerLen, MAX_VALUE_LEN, MAX_VALUE_LEN);
  }

  /** Two neighbouring messages carry more bytes of peers than one could, which bounds the number of messages. */
  lemma MessageCount(c: Config, cmd: Command)
    requires MessagesOf(c, cmd).Ok?
    ensures var messages := MessagesOf(c, cmd).value;
            && (forall i, j | 0 <= i < j < |messages| && j == i + 1 ::
                  Total(PeerLen, Entries(messages[i].attrs)) + Total(PeerLen, Entries(messages[j].attrs))
                  > MAX_VALUE_LEN)
            && |messages| <= 2 * (Total(PeerLen, AllChunks(PeersOf(c))) / (MAX_VALUE_LEN + 1)) + 1
  {
    hide DecodeKey, PeerFault, DeviceFault, AllChunks, PeerLen, MessageOf, MessagesOf, Entries;
    AcceptedIffSound(c, cmd);
    var groups, chunks := Groups(PeersOf(c)), AllChunks(PeersOf(c));
    var messages := MessagesOf(c, cmd).value;
    CutIsCut(chunks, PeerLen, MAX_VALUE_LEN, MAX_VALUE_LEN);
    CutCount(groups, chunks, PeerLen, MAX_VALUE_LEN);
    CountBound(|groups|, Total(PeerLen, chunks));
    NoPeersOneMessage(c);
    forall i, j | 0 <= i < j < |messages| && j == i + 1
      ensures Total(PeerLen, Entries(messages[i].attrs)) + Total(PeerLen, Entries(messages[j].attrs)) > MAX_VALUE_LEN
    {
      assert messages[i] == MessageOf(c, cmd, i == 0, groups[i]);
      assert messages[j] == MessageOf(c, cmd, j == 0, groups[j]);
      MessageEntries(c, cmd, i == 0, groups[i]);
      MessageEntries(c, cmd, j == 0, groups[j]);
      NeighboursOverflow(groups, chunks, i, PeerLen, MAX_VALUE_LEN, MAX_VALUE_LEN);
    }
  }

  lemma CountBound(n: nat, bytes: nat)
    requires (n / 2) * (MAX_VALUE_LEN + 1) <= bytes
    ensures n <= 2 * (bytes / (MAX_VALUE_LEN + 1)) + 1
  {}

  lemma NoPeersOneMessage(c: Config)
    ensures c.peers.None? ==> Groups(PeersOf(c)) == []
  {
    assert Map(Chunks, []) == [];
  }

  /* When a configuration fits into one message */

  /** What is sent for a peer if nothing has to be split. */
  function Unsplit(p: PeerConfig): Peer {
    if Removes(p) then Peer(StateAttrs(p)) else BuildPeer(p)
  }

  function UnsplitLen(p: PeerConfig): nat {
    PeerLen(Unsplit(p))
  }

  /** The one entry of a peer that is not split: its allowed IPs come last. */
  function SentWhole(p: PeerConfig): Peer {
    if p.allowedIps.None? || Removes(p) then Peer(StateAttrs(p))
    else Piece(StateAttrs(p), |StateAttrs(p)|, BuiltIps(p))
  }

  /** A peer stays whole exactly when its whole entry fits; a split peer never fits into one message. */
  lemma SplitIffTooLong(p: PeerConfig)
    requires PeerFault(p).None?
    ensures |Chunks(p)| <= 1 <==> UnsplitLen(p) <= MAX_VALUE_LEN
    ensures Chunks(p) != []
    ensures if |Chunks(p)| == 1 then Chunks(p) == [SentWhole(p)] && Total(PeerLen, Chunks(p)) == UnsplitLen(p)
            else Total(PeerLen, Chunks(p)) > MAX_VALUE_LEN
  {
    hide StateAttrs, PeerKey, PeerFault, DecodeKey, AllowedIpLen, PeerLen, BuildPeer;
    var state, key := StateAttrs(p), PeerKey(p);
    WholeIsPiece(p);
    if p.allowedIps.None? || Removes(p) {
      StateIsSmall(p);
      PeerLenIsSum(Peer(state));
      assert Chunks(p)[1..] == [];
    } else {
      PieceLen(state, |HeadAttrs(p)|, BuiltIps(p));
      BatchesFlatten(p);
      PieceLen(state, |state|, Batches(p)[0]);
      if |Batches(p)| == 1 {
        assert Batches(p)[1..] == [] && Flatten(Batches(p)) == Batches(p)[0] + Flatten<AllowedIp>([]);
        assert Batches(p)[0] + [] == Batches(p)[0];
        ChunksFit(p);
        assert Chunks(p)[0] in Chunks(p) && Chunks(p)[1..] == [];
      } else {
        SplitIsLong(p);
      }
    }
  }

  lemma SplitIsLong(p: PeerConfig)
    requires p.allowedIps.Some? && !Removes(p) && |Batches(p)| > 1
    ensures Total(PeerLen, Chunks(p)) > MAX_VALUE_LEN
    ensures Total(AllowedIpLen, BuiltIps(p)) > FirstRoom(p)
  {
    hide StateAttrs, PeerKey, DecodeKey, AllowedIpLen, PeerLen;
    var state, key, batches := StateAttrs(p), PeerKey(p), Batches(p);
    StateIsSmall(p);
    BuiltIpsAreSmall(p);
    OneGroup(BuiltIps(p), AllowedIpLen, FirstRoom(p), NextRoom(key));
    CutIsCut(BuiltIps(p), AllowedIpLen, FirstRoom(p), NextRoom(key));
    NeighboursOverflow(batches, BuiltIps(p), 0, AllowedIpLen, FirstRoom(p), NextRoom(key));
    PieceLen(state, |state|, batches[0]);
    ContinuationLen(key, batches[1]);
    var chunks := Chunks(p);
    assert chunks[0] == Piece(state, |state|, batches[0]) && chunks[1] == Continuation(key, batches[1]);
    assert chunks[1..][0] == chunks[1];
  }

  lemma {:induction false} ChunksOrUnsplit(peers: seq<PeerConfig>)
    requires forall i :: 0 <= i < |peers| ==> PeerFault(peers[i]).None?
    ensures var chunks := AllChunks(peers);
            || (chunks == Map(SentWhole, peers) && Total(PeerLen, chunks) == Total(UnsplitLen, peers))
            || (Total(PeerLen, chunks) > MAX_VALUE_LEN && Total(UnsplitLen, peers) > MAX_VALUE_LEN)
    decreases |peers|
  {
    hide PeerFault, Chunks, UnsplitLen, PeerLen, SentWhole;
    if peers == [] {
      assert AllChunks(peers) == [] == Map(SentWhole, peers);
    } else {
      var n := |peers| - 1;
      var init, p := peers[..n], peers[n];
      ChunksOrUnsplit(init);
      SplitIffTooLong(p);
      AllChunksSnoc(peers, n);
      assert peers[..n + 1] == peers == init + [p];
      TotalConcat(PeerLen, AllChunks(init), Chunks(p));
      TotalSnoc(UnsplitLen, init, p);
      if |Chunks(p)| == 1 {
        assert Map(SentWhole, peers) == Map(SentWhole, init) + [SentWhole(p)];
      }
    }
  }

  /** A sound configuration fits into one message exactly when its unsplit peers do, where a peer to be removed counts
      without its allowed IPs. */
  lemma SingleIffFits(c: Config, cmd: Command)
    ensures SingleOf(c, cmd).Ok? <==>
            && DeviceFault(c).None?
            && (forall p <- PeersOf(c) :: PeerFault(p).None?)
            && Total(UnsplitLen, PeersOf(c)) <= MAX_VALUE_LEN
  {
    hide DecodeKey, PeerFault, DeviceFault, PeerLen, MessageOf, MessagesOf, AllChunks, UnsplitLen;
    AcceptedIffSound(c, cmd);
    var peers := PeersOf(c);
    if MessagesOf(c, cmd).Ok? {
      ChunksOrUnsplit(peers);
      AllChunksFit(peers);
      OneGroup(AllChunks(peers), PeerLen, MAX_VALUE_LEN, MAX_VALUE_LEN);
    }
  }

  /* What the entries of one peer hold */

  function IpsOf(e: Peer): seq<AllowedIp> {
    if e.attrs != [] && e.attrs[|e.attrs| - 1].AllowedIps? then e.attrs[|e.attrs| - 1].ips else []
  }

  /** Conservation in order: the allowed IPs of the entries of a peer are its allowed IPs. All other attributes are in
      the first entry; a further entry holds the public key and at least one allowed IP. */
  lemma ChunksConserve(p: PeerConfig)
    requires p.allowedIps.Some? && !Removes(p)
    ensures Flatten(Map(IpsOf, Chunks(p))) == Map(BuildIp, p.allowedIps.value)
    ensures |Chunks(p)| > 0 && Chunks(p)[0] == Peer(StateAttrs(p) + [AllowedIps(IpsOf(Chunks(p)[0]))])
    ensures forall i :: 0 < i < |Chunks(p)| ==>
              Chunks(p)[i] == Continuation(PeerKey(p), IpsOf(Chunks(p)[i])) && IpsOf(Chunks(p)[i]) != []
  {
    hide StateAttrs, PeerKey, DecodeKey, AllowedIpLen, BuildIp;
    var batches := Batches(p);
    BatchesFlatten(p);
    PieceAtEnd(StateAttrs(p), batches[0]);
    forall i | 0 <= i < |batches|
      ensures IpsOf(Chunks(p)[i]) == batches[i]
    {
      if i > 0 { assert Chunks(p)[i] == Continuation(PeerKey(p), batches[i]); }
    }
    assert Map(IpsOf, Chunks(p)) == batches;
    forall i | 0 < i < |Chunks(p)|
      ensures IpsOf(Chunks(p)[i]) != []
    {
      CutIsCut(BuiltIps(p), AllowedIpLen, FirstRoom(p), NextRoom(PeerKey(p)));
      assert Holds(batches, i, AllowedIpLen, FirstRoom(p), NextRoom(PeerKey(p)));
    }
  }
}
