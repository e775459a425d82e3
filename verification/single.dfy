/** A configuration that fits into one message, read back by the reader of a single message. */
module Single {
  import opened Dump
  import opened Fragments
  import opened Keys
  import opened Lengths
  import opened Netlink
  import opened Parsed
  import opened PeerParsed
  import opened PeerRoundTrip
  import opened Reassembly
  import opened RoundTrip
  import opened Sequences
  import opened Wrappers

  lemma ReadSentWhole(p: PeerConfig)
    requires PeerFault(p).None?
    ensures ReadPeer(SentWhole(p)) == NormalPeer(p)
  {
    hide DecodeKey, ReadPeer;
    StateHasKey(p);
    ReadState(p);
    if p.allowedIps.Some? && !Removes(p) {
      ReadPiece(StateAttrs(p), |StateAttrs(p)|, BuiltIps(p));
      ReadBuiltIps(p.allowedIps.value);
    }
  }

  /** A last handshake comes back exactly when it is not the zero time and its seconds fit a signed word. */
  lemma HandshakeComesBack(p: PeerConfig)
    requires PeerFault(p).None? && p.lastHandshake.Some?
    ensures ReadPeer(SentWhole(p)).lastHandshake == p.lastHandshake
            <==> p.lastHandshake.value != Duration(0, 0) && p.lastHandshake.value.secs < 0x8000_0000_0000_0000
  {
    hide DecodeKey, ReadPeer, SentWhole;
    ReadSentWhole(p);
  }

  lemma ReadDeviceOnce(c: Config)
    requires DeviceFault(c).None?
    ensures Fold(ReadSingleAttr, NO_CONFIG, DeviceAttrs(c)) == NormalDevice(c)
  {
    hide DecodeKey, DeviceAttrs;
    DeviceAttrsAreSingle(c);
    ReadersDifferByCoalescing(DeviceAttrs(c));
    ReadDevice(c);
  }

  /** The single message of a configuration reads as the configuration, even if neighbouring peers share a key. */
  lemma SingleMessageReads(c: Config, cmd: Command)
    requires SingleOf(c, cmd).Ok?
    ensures ReadMessage(SingleOf(c, cmd).value) == NormalDevice(c).(
              peers := if c.peers.Some? then Some(Map(NormalPeer, c.peers.value)) else None)
  {
    hide DecodeKey, MessagesOf, NormalPeer, PeerFault, DeviceFault, DeviceAttrs, NormalDevice, AllChunks, SentWhole,
         ReadPeer, PeerLen, UnsplitLen;
    var peers, message := PeersOf(c), SingleOf(c, cmd).value;
    AcceptedIffSound(c, cmd);
    SingleIffFits(c, cmd);
    ChunksOrUnsplit(peers);
    MessageGroupsHoldAll(c);
    var groups := MessageGroups(c);
    assert groups[1..] == [] && Flatten(groups) == groups[0] + Flatten(groups[1..]);
    assert groups[0] == Map(SentWhole, peers);
    assert message == MessageOf(c, cmd, true, groups[0]);
    ReadDeviceOnce(c);
    NormalDeviceHasNoPeers(c);
    if c.peers.Some? {
      FoldSnoc(ReadSingleAttr, NO_CONFIG, DeviceAttrs(c), Peers(groups[0]));
      forall i | 0 <= i < |peers|
        ensures ReadPeer(SentWhole(peers[i])) == NormalPeer(peers[i])
      {
        ReadSentWhole(peers[i]);
      }
      assert Map(ReadPeer, groups[0]) == Map(NormalPeer, peers);
    } else {
      assert DeviceAttrs(c) + [] == DeviceAttrs(c);
    }
  }
}
