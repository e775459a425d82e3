/** Which error is reported for which fault, in terms of what the caller gave. */
module Faults {
  import opened Base64
  import opened Greedy
  import opened Keys
  import opened Lengths
  import opened Netlink
  import opened Parsed
  import opened PeerParsed
  import opened Sequences
  import opened Wrappers

  /** The text is the standard base64 text of 32 bytes. */
  ghost predicate HoldsKey(text: string) {
    exists bytes: seq<Byte> :: |bytes| == 32 && Encode(bytes) == text
  }

  lemma TextHoldsKey(text: string)
    ensures IsKeyText(text) <==> HoldsKey(text)
    ensures IsKeyText(text) ==> Encode(KeyOf(text)) == text
    ensures DecodeKey(text).Err? ==> DecodeKey(text) == Err(InvalidKey)
  {
    hide Encode, Decode;
    if IsKeyText(text) { KeyTextIsCanonical(text); }
    if bytes: seq<Byte> :| |bytes| == 32 && Encode(bytes) == text { KeyTextRoundTrip(bytes); }
  }

  ghost predicate InRange(ip: IpConfig) {
    ip.prefixLength <= if ip.ipAddr.V4? then 32 else 128
  }

  ghost predicate AllInRange(ips: seq<IpConfig>) {
    forall i :: 0 <= i < |ips| ==> InRange(ips[i])
  }

  /** A peer needs a public key; then its keys have to be keys, and then its prefix lengths in range. */
  lemma PeerErrors(p: PeerConfig)
    ensures PeerFault(p)
            == if p.publicKey.None? then Some(InvalidInput)
               else if !HoldsKey(p.publicKey.value) then Some(InvalidKey)
               else if p.presharedKey.Some? && !HoldsKey(p.presharedKey.value) then Some(InvalidKey)
               else if p.allowedIps.Some? && !AllInRange(p.allowedIps.value) then Some(InvalidInput)
               else None
  {
    hide DecodeKey, IsKeyText, HoldsKey;
    if p.publicKey.Some? { TextHoldsKey(p.publicKey.value); }
    if p.presharedKey.Some? { TextHoldsKey(p.presharedKey.value); }
    if p.allowedIps.Some? {
      var ips := p.allowedIps.value;
      assert forall i :: 0 <= i < |ips| ==> (InRange(ips[i]) <==> ValidPrefix(ips[i]));
      assert (exists ip <- ips :: !ValidPrefix(ip)) <==> exists i :: 0 <= i < |ips| && !ValidPrefix(ips[i]);
    }
  }

  /** A device needs a name that fits sixteen bytes with its NUL byte, or no name and an index; then its keys have to be
      keys. */
  lemma DeviceErrors(c: Config)
    ensures DeviceFault(c)
            == if c.ifaceName.Some? && (|c.ifaceName.value| >= 16 || exists i :: 0 <= i < |c.ifaceName.value|
                                                                                 && c.ifaceName.value[i] == 0)
               then Some(InvalidInput)
               else if c.ifaceName.None? && c.ifaceIndex.None? then Some(InvalidInput)
               else if c.publicKey.Some? && !HoldsKey(c.publicKey.value) then Some(InvalidKey)
               else if c.privateKey.Some? && !HoldsKey(c.privateKey.value) then Some(InvalidKey)
               else None
  {
    hide DecodeKey, IsKeyText, HoldsKey;
    if c.publicKey.Some? { TextHoldsKey(c.publicKey.value); }
    if c.privateKey.Some? { TextHoldsKey(c.privateKey.value); }
    if c.ifaceName.Some? {
      var name := c.ifaceName.value;
      assert 0 in name <==> exists i :: 0 <= i < |name| && name[i] == 0;
    }
  }

  /** Of a configuration with a faulty peer, the first one is reported, unless the device is at fault, too, and the
      entries of the peers in front are more than one message holds. */
  lemma FirstFault(c: Config, cmd: Command, n: nat)
    requires var peers := PeersOf(c);
             n < |peers| && PeerFault(peers[n]).Some? && forall i :: 0 <= i < n ==> PeerFault(peers[i]).None?
    ensures var front := AllChunks(PeersOf(c)[..n]);
            MessagesOf(c, cmd) == Err(if DeviceFault(c).Some? && Total(PeerLen, front) > MAX_VALUE_LEN
                                      then DeviceFault(c).value
                                      else PeerFault(PeersOf(c)[n]).value)
  {
    hide PeerFault, DeviceFault, AllChunks, PeerLen, Cut;
    var peers := PeersOf(c);
    assert Sound(peers) == n;
    AllChunksFit(peers[..n]);
    OneGroup(AllChunks(peers[..n]), PeerLen, MAX_VALUE_LEN, MAX_VALUE_LEN);
  }

  /** Without a faulty peer, it is the device's. */
  lemma DeviceFaultOnly(c: Config, cmd: Command)
    requires forall i :: 0 <= i < |PeersOf(c)| ==> PeerFault(PeersOf(c)[i]).None?
    ensures DeviceFault(c).Some? ==> MessagesOf(c, cmd) == Err(DeviceFault(c).value)
    ensures DeviceFault(c).None? ==> MessagesOf(c, cmd).Ok?
  {
    hide PeerFault, DeviceFault, Groups;
  }

  /** One message is asked for, and more are needed: that is an input error, and no other one. */
  lemma MoreThanOne(c: Config, cmd: Command)
    ensures MessagesOf(c, cmd).Err? ==> SingleOf(c, cmd) == Err(MessagesOf(c, cmd).error)
    ensures MessagesOf(c, cmd).Ok? ==>
              SingleOf(c, cmd) == if |MessagesOf(c, cmd).value| > 1 then Err(InvalidInput)
                                  else Ok(MessagesOf(c, cmd).value[0])
  {
    hide MessagesOf;
    AcceptedIffSound(c, cmd);
  }

  /** The cast of the seconds wraps around: it keeps the low 64 bits. */
  lemma CastWraps(n: U64)
    ensures (AsI64(n) - n) % 0x1_0000_0000_0000_0000 == 0
  {}
}
