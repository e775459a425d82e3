/** Dumps: what any list of messages reads as, applying it again, and the reader of a single message. */
module Dump {
  import opened Coalesce
  import opened Flags
  import opened Keys
  import opened Netlink
  import opened Parsed
  import opened PeerParsed
  import opened PeerRoundTrip
  import opened Reassembly
  import opened RoundTrip
  import opened Sequences
  import opened Wrappers

  /** A key that was read is the text of a key. */
  predicate IsRead(text: Option<string>) {
    text.Some? ==> IsKeyText(text.value)
  }

  /** What holds of every peer that was read, whatever the entries were: building it changes nothing but the order and
      repetition of its flags, and the allowed IPs of a peer that is being removed. */
  ghost predicate PeerIsRead(p: PeerConfig) {
    && IsRead(p.publicKey)
    && IsRead(p.presharedKey)
    && NormalSecret(p.presharedKey) == p.presharedKey
    && (p.lastHandshake.Some? ==> NormalTime(p.lastHandshake.value) == p.lastHandshake)
    && (p.allowedIps.Some? ==> forall ip <- p.allowedIps.value :: NormalIp(ip) == ip)
  }

  lemma ReadTextIsKey(key: Key)
    ensures IsKeyText(KeyText(key)) && KeyOf(KeyText(key)) == key
  {
    KeyTextRoundTrip(key);
  }

  lemma {:induction false} ReadIpIsNormal(acc: IpFields, attrs: seq<IpAttr>)
    requires acc.flags.Some? ==> IpFlagList(IpBits(acc.flags.value)) == acc.flags.value
    ensures var flags := Fold(ReadIpAttr, acc, attrs).flags;
            flags.Some? ==> IpFlagList(IpBits(flags.value)) == flags.value
    decreases |attrs|
  {
    if attrs != [] {
      if attrs[0].IpFlags? { ListsKeepBits(attrs[0].bits); }
      ReadIpIsNormal(ReadIpAttr(acc, attrs[0]), attrs[1..]);
    }
  }

  lemma {:induction false} ReadIpsAreNormal(ips: seq<AllowedIp>)
    ensures forall ip <- ReadIps(ips) :: NormalIp(ip) == ip
    decreases |ips|
  {
    if ips == [] {
      assert ReadIps(ips) == [];
    } else {
      ReadIpsConcat([ips[0]], ips[1..]);
      assert [ips[0]] + ips[1..] == ips;
      ReadIpsOne(ips[0]);
      ReadIpIsNormal(IpFields(None, None, None), ips[0].attrs);
      ReadIpsAreNormal(ips[1..]);
    }
  }

  lemma ReadAttrIsRead(acc: PeerConfig, a: PeerAttr)
    requires PeerIsRead(acc)
    ensures PeerIsRead(ReadPeerAttr(acc, a))
  {
    hide DecodeKey, KeyText, NormalIp;
    match a {
      case PublicKey(k) => ReadTextIsKey(k);
      case PresharedKey(k) => ReadTextIsKey(k);
      case AllowedIps(ips) => ReadIpsAreNormal(ips);
      case _ =>
    }
  }

  lemma {:induction false} ReadPeerIsRead(acc: PeerConfig, attrs: seq<PeerAttr>)
    requires PeerIsRead(acc)
    ensures PeerIsRead(Fold(ReadPeerAttr, acc, attrs))
    decreases |attrs|
  {
    hide DecodeKey, PeerIsRead, ReadPeerAttr;
    if attrs != [] {
      ReadAttrIsRead(acc, attrs[0]);
      ReadPeerIsRead(ReadPeerAttr(acc, attrs[0]), attrs[1..]);
    }
  }

  lemma MergeIsRead(a: PeerConfig, b: PeerConfig)
    requires PeerIsRead(a) && PeerIsRead(b)
    ensures PeerIsRead(Merge(a, b))
  {
    hide DecodeKey, NormalIp;
  }

  ghost predicate AllRead(peers: seq<PeerConfig>) {
    forall p <- peers :: PeerIsRead(p)
  }

  lemma {:induction false} PushIsRead(peers: seq<PeerConfig>, more: seq<PeerConfig>)
    requires AllRead(peers) && AllRead(more)
    ensures AllRead(Fold(PushPeer, peers, more))
    decreases |more|
  {
    hide PeerIsRead, Merge;
    if more != [] {
      var p := more[0];
      if peers != [] { MergeIsRead(peers[|peers| - 1], p); }
      PushIsRead(PushPeer(peers, p), more[1..]);
    }
  }

  ghost predicate ConfigIsRead(c: Config) {
    && IsRead(c.publicKey)
    && IsRead(c.privateKey)
    && AllRead(PeersOf(c))
    && Separate(PeersOf(c))
  }

  lemma DeviceKeysAreRead(acc: Config, a: DeviceAttr)
    requires IsRead(acc.publicKey) && IsRead(acc.privateKey)
    ensures IsRead(ReadAttr(acc, a).publicKey) && IsRead(ReadAttr(acc, a).privateKey)
  {
    hide DecodeKey, KeyText;
    match a {
      case DevicePublicKey(k) => ReadTextIsKey(k);
      case PrivateKey(k) => ReadTextIsKey(k);
      case _ =>
    }
  }

  lemma {:induction false} FoldKeysAreRead(acc: Config, attrs: seq<DeviceAttr>)
    requires IsRead(acc.publicKey) && IsRead(acc.privateKey)
    ensures IsRead(Fold(ReadAttr, acc, attrs).publicKey) && IsRead(Fold(ReadAttr, acc, attrs).privateKey)
    decreases |attrs|
  {
    hide DecodeKey, ReadAttr;
    if attrs != [] {
      DeviceKeysAreRead(acc, attrs[0]);
      FoldKeysAreRead(ReadAttr(acc, attrs[0]), attrs[1..]);
    }
  }

  /** Every list of messages reads as such a configuration. */
  lemma MessagesAreRead(messages: seq<Message>)
    ensures ConfigIsRead(ReadMessages(messages))
  {
    hide DecodeKey, PeerIsRead, ReadPeerAttr;
    var attrs := AllAttrs(messages);
    FoldKeysAreRead(NO_CONFIG, attrs);
    PeersRead(attrs);
    var read := Map(ReadPeer, Entries(attrs));
    assert PeerIsRead(NO_PEER) by { NoPeerIsRead(); }
    forall i | 0 <= i < |read|
      ensures PeerIsRead(read[i])
    {
      ReadPeerIsRead(NO_PEER, Entries(attrs)[i].attrs);
    }
    PushIsRead([], read);
    CoalescedIsSeparate(read);
  }

  lemma NoPeerIsRead()
    ensures PeerIsRead(NO_PEER)
  {}

  /** What the caller of `set` has to check of a configuration that came from `get_by_name`. */
  ghost predicate Applicable(c: Config) {
    && IfaceFault(c).None?
    && forall p <- PeersOf(c) ::
         p.publicKey.Some? && (p.allowedIps.Some? ==> forall ip <- p.allowedIps.value :: ValidPrefix(ip))
  }

  /** Keys that were read decode again, so only the interface, missing public keys and prefix lengths can be at
      fault. */
  lemma DumpIsAccepted(messages: seq<Message>, cmd: Command)
    ensures var c := ReadMessages(messages); MessagesOf(c, cmd).Ok? <==> Applicable(c)
  {
    hide DecodeKey, MessagesOf, ReadMessages;
    var c := ReadMessages(messages);
    MessagesAreRead(messages);
    AcceptedIffSound(c, cmd);
    assert DeviceFault(c) == IfaceFault(c);
    forall p <- PeersOf(c)
      ensures PeerFault(p).None? <==>
              p.publicKey.Some? && (p.allowedIps.Some? ==> forall ip <- p.allowedIps.value :: ValidPrefix(ip))
    {
      assert PeerIsRead(p);
    }
  }

  /** A dump that was read can be applied again: the messages built from it read as the same configuration, but for the
      redundant interface index, the order and repetition of flags and the allowed IPs of removed peers. */
  lemma DumpCanBeApplied(messages: seq<Message>, cmd: Command)
    requires Applicable(ReadMessages(messages))
    ensures var c := ReadMessages(messages);
            && MessagesOf(c, cmd).Ok?
            && ReadMessages(MessagesOf(c, cmd).value) == NormalDevice(c).(
                 peers := if c.peers.Some? then Some(Map(OnlyFlagsChange, c.peers.value)) else None)
  {
    hide DecodeKey, MessagesOf, ReadMessages, NormalSecret, NormalFlags, NormalTime, Removes, NormalIp;
    var c := ReadMessages(messages);
    MessagesAreRead(messages);
    DumpIsAccepted(messages, cmd);
    BuildThenRead(c, cmd);
    if c.peers.Some? {
      var peers := c.peers.value;
      NormalKeepsPeers(c);
      forall i | 0 <= i < |peers|
        ensures NormalPeer(peers[i]) == OnlyFlagsChange(peers[i])
      {
        assert PeerIsRead(peers[i]);
        if peers[i].allowedIps.Some? {
          assert Map(NormalIp, peers[i].allowedIps.value) == peers[i].allowedIps.value;
        }
      }
      assert Map(NormalPeer, peers) == Map(OnlyFlagsChange, peers);
    }
  }

  function OnlyFlagsChange(p: PeerConfig): PeerConfig {
    p.(flags := NormalFlags(p.flags), allowedIps := if Removes(p) then None else p.allowedIps)
  }

  /* The reader of a single message */

  ghost predicate AtMostOne(attrs: seq<DeviceAttr>) {
    && (forall i, j | 0 <= i < j < |attrs| :: !(attrs[i].Peers? && attrs[j].Peers?))
    && (forall i, j | 0 <= i < j < |attrs| :: !(attrs[i].DeviceFlags? && attrs[j].DeviceFlags?))
  }

  lemma DeviceAttrsAreSingle(c: Config)
    ensures AtMostOne(DeviceAttrs(c)) && forall a <- DeviceAttrs(c) :: !a.Peers?
  {
    hide DecodeKey, KeyOf;
    var init := [IfaceAttr(c)] + Maybe(PublicAttr(c)) + Maybe(PrivateAttr(c)) + Maybe(PortAttr(c)) + Maybe(MarkAttr(c));
    assert forall a <- init :: !a.Peers? && !a.DeviceFlags?;
    assert DeviceAttrs(c) == init + Maybe(DeviceFlagsAttr(c));
    assert forall i :: 0 <= i < |init| ==> init[i] in init;
  }

  /** Every message of a configuration has at most one attribute of either kind. */
  lemma BuiltIsSingle(c: Config, cmd: Command, first: bool, peers: seq<Peer>)
    ensures AtMostOne(MessageOf(c, cmd, first, peers).attrs)
  {
    hide DecodeKey, KeyOf, DeviceAttrs;
    DeviceAttrsAreSingle(c);
    var device := if first then DeviceAttrs(c) else [IfaceAttr(c)];
    var attrs := MessageOf(c, cmd, first, peers).attrs;
    assert forall i :: 0 <= i < |device| ==> attrs[i] == device[i] && device[i] in device;
  }

  /** What reading as several messages makes of what reading as a single one gives. */
  function CoalescePeers(c: Config): Config {
    c.(peers := if c.peers.Some? then Some(Coalesced(c.peers.value)) else None)
  }

  lemma {:induction false} ReadersDifferByCoalescing(attrs: seq<DeviceAttr>)
    requires AtMostOne(attrs)
    ensures Fold(ReadAttr, NO_CONFIG, attrs) == CoalescePeers(Fold(ReadSingleAttr, NO_CONFIG, attrs))
    ensures var c := Fold(ReadSingleAttr, NO_CONFIG, attrs);
            && (c.peers.Some? <==> exists a <- attrs :: a.Peers?)
            && (c.flags.Some? <==> exists a <- attrs :: a.DeviceFlags?)
    decreases |attrs|
  {
    hide PushPeer, ReadPeer, KeyText, DeviceFlagList;
    if attrs != [] {
      var n := |attrs| - 1;
      var init, a := attrs[..n], attrs[n];
      assert attrs == init + [a];
      ReadersDifferByCoalescing(init);
      FoldSnoc(ReadAttr, NO_CONFIG, init, a);
      FoldSnoc(ReadSingleAttr, NO_CONFIG, init, a);
      if a.Peers? {
        assert Fold(ReadSingleAttr, NO_CONFIG, init).peers.None?;
      } else if a.DeviceFlags? {
        assert Fold(ReadSingleAttr, NO_CONFIG, init).flags.None?;
        assert [] + DeviceFlagList(a.bits) == DeviceFlagList(a.bits);
      }
    }
  }

  /** The two readers agree on a message exactly when no two neighbouring entries are the same peer. */
  lemma ReadersAgree(m: Message)
    requires AtMostOne(m.attrs)
    ensures ReadMessage(m) == ReadMessages([m]) <==> Separate(PeersOf(ReadMessage(m)))
  {
    assert [] + [m] == [m];
    ReadMessagesSnoc([], m);
    ReadersDifferByCoalescing(m.attrs);
    CoalescedIsIdentity(PeersOf(ReadMessage(m)));
  }
}
