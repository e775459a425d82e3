/** Flag lists and the 32 bit words they stand for. A word is the set of the positions of its one bits, so that `|` is
    union, `& !` is difference and "contains" is inclusion. */
module Flags {
  import opened Sequences

  type Bit = b: nat | b < 32
  type Word = set<Bit>

  datatype DeviceFlag = ReplacePeers | OtherDevice(bits: Word)
  datatype PeerFlag = RemoveMe | ReplaceAllowedIps | UpdateOnly | OtherPeer(bits: Word)
  datatype IpFlag = RemoveIp | OtherIp(bits: Word)

  const REPLACE_PEERS: Word := {0}
  const REMOVE_ME: Word := {0}
  const REPLACE_ALLOWED_IPS: Word := {1}
  const UPDATE_ONLY: Word := {2}
  const REMOVE_IP: Word := {0}

  /** The named flags of each word, in the order they are listed. */
  const DEVICE_FLAGS: seq<Word> := [REPLACE_PEERS]
  const PEER_FLAGS: seq<Word> := [REMOVE_ME, REPLACE_ALLOWED_IPS, UPDATE_ONLY]
  const IP_FLAGS: seq<Word> := [REMOVE_IP]

  function DeviceFlagBits(f: DeviceFlag): Word {
    match f
    case ReplacePeers => REPLACE_PEERS
    case OtherDevice(bits) => bits
  }

  function DeviceFlagOf(bits: Word): (f: DeviceFlag)
    ensures DeviceFlagBits(f) == bits
  {
    if bits == REPLACE_PEERS then ReplacePeers else OtherDevice(bits)
  }

  function PeerFlagBits(f: PeerFlag): Word {
    match f
    case RemoveMe => REMOVE_ME
    case ReplaceAllowedIps => REPLACE_ALLOWED_IPS
    case UpdateOnly => UPDATE_ONLY
    case OtherPeer(bits) => bits
  }

  function PeerFlagOf(bits: Word): (f: PeerFlag)
    ensures PeerFlagBits(f) == bits
  {
    if bits == REMOVE_ME then RemoveMe
    else if bits == REPLACE_ALLOWED_IPS then ReplaceAllowedIps
    else if bits == UPDATE_ONLY then UpdateOnly
    else OtherPeer(bits)
  }

  function IpFlagBits(f: IpFlag): Word {
    match f
    case RemoveIp => REMOVE_IP
    case OtherIp(bits) => bits
  }

  function IpFlagOf(bits: Word): (f: IpFlag)
    ensures IpFlagBits(f) == bits
  {
    if bits == REMOVE_IP then RemoveIp else OtherIp(bits)
  }

  /** The word of a list of flags. */
  function Union(words: seq<Word>): Word {
    if words == [] then {} else words[0] + Union(words[1..])
  }

  /** The named flags contained in `bits`, then all other bits as one word. */
  function Split(bits: Word, named: seq<Word>): seq<Word> {
    if named == [] then (if bits == {} then [] else [bits])
    else if {} < named[0] <= bits then [named[0]] + Split(bits - named[0], named[1..])
    else Split(bits, named[1..])
  }

  lemma {:induction false} SplitKeepsBits(bits: Word, named: seq<Word>)
    ensures Union(Split(bits, named)) == bits
    decreases |named|
  {
    if named != [] {
      SplitKeepsBits(bits, named[1..]);
      SplitKeepsBits(bits - named[0], named[1..]);
    }
  }

  function DeviceBits(flags: seq<DeviceFlag>): Word {
    Union(Map(DeviceFlagBits, flags))
  }

  function DeviceFlagList(bits: Word): seq<DeviceFlag> {
    Map(DeviceFlagOf, Split(bits, DEVICE_FLAGS))
  }

  function PeerBits(flags: seq<PeerFlag>): Word {
    Union(Map(PeerFlagBits, flags))
  }

  function PeerFlagList(bits: Word): seq<PeerFlag> {
    Map(PeerFlagOf, Split(bits, PEER_FLAGS))
  }

  function IpBits(flags: seq<IpFlag>): Word {
    Union(Map(IpFlagBits, flags))
  }

  function IpFlagList(bits: Word): seq<IpFlag> {
    Map(IpFlagOf, Split(bits, IP_FLAGS))
  }

  /** Listing the flags of a word loses no bit, named or not. */
  lemma ListsKeepBits(bits: Word)
    ensures DeviceBits(DeviceFlagList(bits)) == bits
    ensures PeerBits(PeerFlagList(bits)) == bits
    ensures IpBits(IpFlagList(bits)) == bits
  {
    SplitKeepsBits(bits, DEVICE_FLAGS);
    SplitKeepsBits(bits, PEER_FLAGS);
    SplitKeepsBits(bits, IP_FLAGS);
    MapInverse(DeviceFlagBits, DeviceFlagOf, Split(bits, DEVICE_FLAGS));
    MapInverse(PeerFlagBits, PeerFlagOf, Split(bits, PEER_FLAGS));
    MapInverse(IpFlagBits, IpFlagOf, Split(bits, IP_FLAGS));
  }

  /** The flags of a word are listed by name, in the order of their bits, and all bits without a name as one flag. */
  lemma PeerListIsNamed(bits: Word)
    ensures PeerFlagList(bits) == (if 0 in bits then [RemoveMe] else [])
                                  + (if 1 in bits then [ReplaceAllowedIps] else [])
                                  + (if 2 in bits then [UpdateOnly] else [])
                                  + (if bits <= {0, 1, 2} then [] else [OtherPeer(bits - {0, 1, 2})])
  {
    hide Split;
    NamedAreSplit(bits);
    var rest := bits - {0, 1, 2};
    assert rest == {} <==> bits <= {0, 1, 2};
    var n0, n1, n2, n3 := One(0 in bits, {0}), One(1 in bits, {1}), One(2 in bits, {2}), One(rest != {}, rest);
    MapConcat(PeerFlagOf, n0 + n1 + n2, n3);
    MapConcat(PeerFlagOf, n0 + n1, n2);
    MapConcat(PeerFlagOf, n0, n1);
    OtherIsOther(rest);
    assert PeerFlagList(bits) == Map(PeerFlagOf, n0) + Map(PeerFlagOf, n1) + Map(PeerFlagOf, n2) + Map(PeerFlagOf, n3);
  }

  lemma ListIsNamed(bits: Word)
    ensures IpFlagList(bits) == (if 0 in bits then [RemoveIp] else [])
                                + (if bits <= {0} then [] else [OtherIp(bits - {0})])
    ensures DeviceFlagList(bits) == (if 0 in bits then [ReplacePeers] else [])
                                    + (if bits <= {0} then [] else [OtherDevice(bits - {0})])
  {
    hide Split;
    SplitFirst(bits, 0, IP_FLAGS);
    SplitFirst(bits, 0, DEVICE_FLAGS);
    SplitNone(bits - {0});
    assert IP_FLAGS[1..] == [] && DEVICE_FLAGS[1..] == [];
    assert bits - {0} == {} <==> bits <= {0};
    var n0, m := One(0 in bits, {0}), One(bits - {0} != {}, bits - {0});
    MapConcat(IpFlagOf, n0, m);
    MapConcat(DeviceFlagOf, n0, m);
    OtherIsOther(bits - {0});
    assert IpFlagList(bits) == Map(IpFlagOf, n0) + Map(IpFlagOf, m);
    assert DeviceFlagList(bits) == Map(DeviceFlagOf, n0) + Map(DeviceFlagOf, m);
  }

  lemma OtherIsOther(bits: Word)
    ensures bits != {} && !(0 in bits || 1 in bits || 2 in bits) ==> PeerFlagOf(bits) == OtherPeer(bits)
    ensures bits != {} && 0 !in bits ==> IpFlagOf(bits) == OtherIp(bits) && DeviceFlagOf(bits) == OtherDevice(bits)
    ensures IpFlagOf({0}) == RemoveIp && DeviceFlagOf({0}) == ReplacePeers
    ensures PeerFlagOf({0}) == RemoveMe && PeerFlagOf({1}) == ReplaceAllowedIps && PeerFlagOf({2}) == UpdateOnly
  {}

  function One(there: bool, word: Word): seq<Word> {
    if there then [word] else []
  }

  lemma SplitFirst(bits: Word, b: Bit, named: seq<Word>)
    requires named != [] && named[0] == {b}
    ensures Split(bits, named) == One(b in bits, {b}) + Split(bits - {b}, named[1..])
  {
    if b !in bits { assert bits - {b} == bits; }
  }

  lemma NamedAreSplit(bits: Word)
    ensures Split(bits, PEER_FLAGS) == One(0 in bits, {0}) + One(1 in bits, {1}) + One(2 in bits, {2})
                                       + One(bits - {0, 1, 2} != {}, bits - {0, 1, 2})
  {
    hide Split, One;
    var b1, b2, b3 := bits - {0}, bits - {0} - {1}, bits - {0} - {1} - {2};
    var n1, n2 := PEER_FLAGS[1..], PEER_FLAGS[2..];
    assert n1[0] == {1} && n1[1..] == n2 && n2[0] == {2} && n2[1..] == [];
    SplitFirst(bits, 0, PEER_FLAGS);
    SplitFirst(b1, 1, n1);
    SplitFirst(b2, 2, n2);
    SplitNone(b3);
    Sequenced(bits);
    Joined(One(0 in bits, {0}), One(1 in bits, {1}), One(2 in bits, {2}), One(b3 != {}, b3));
  }

  lemma Joined<T>(a: seq<T>, b: seq<T>, c: seq<T>, d: seq<T>)
    ensures a + (b + (c + d)) == a + b + c + d
  {}

  lemma Sequenced(bits: Word)
    ensures 1 in bits - {0} <==> 1 in bits
    ensures 2 in bits - {0} - {1} <==> 2 in bits
    ensures bits - {0} - {1} - {2} == bits - {0, 1, 2}
  {}

  lemma SplitNone(bits: Word)
    ensures Split(bits, []) == One(bits != {}, bits)
  {}

  /** The bits that a flag sets. */
  ghost predicate Sets(f: PeerFlag, b: Bit) {
    match f
    case RemoveMe => b == 0
    case ReplaceAllowedIps => b == 1
    case UpdateOnly => b == 2
    case OtherPeer(bits) => b in bits
  }

  ghost predicate SetsOfIp(f: IpFlag, b: Bit) {
    match f
    case RemoveIp => b == 0
    case OtherIp(bits) => b in bits
  }

  ghost predicate SetsOfDevice(f: DeviceFlag, b: Bit) {
    match f
    case ReplacePeers => b == 0
    case OtherDevice(bits) => b in bits
  }

  lemma {:induction false} UnionHas(words: seq<Word>, b: Bit)
    ensures b in Union(words) <==> exists i :: 0 <= i < |words| && b in words[i]
    decreases |words|
  {
    if words != [] {
      UnionHas(words[1..], b);
      assert words == [words[0]] + words[1..];
      assert forall i :: 0 <= i < |words[1..]| ==> words[1..][i] == words[i + 1];
      assert forall i :: 0 < i < |words| ==> words[i] == words[1..][i - 1];
    }
  }

  /** A bit of the word of a list of flags is set exactly when one of the flags sets it. */
  lemma FlagsAreJoined(peer: seq<PeerFlag>, ip: seq<IpFlag>, device: seq<DeviceFlag>, b: Bit)
    ensures b in PeerBits(peer) <==> exists i :: 0 <= i < |peer| && Sets(peer[i], b)
    ensures b in IpBits(ip) <==> exists i :: 0 <= i < |ip| && SetsOfIp(ip[i], b)
    ensures b in DeviceBits(device) <==> exists i :: 0 <= i < |device| && SetsOfDevice(device[i], b)
  {
    UnionHas(Map(PeerFlagBits, peer), b);
    UnionHas(Map(IpFlagBits, ip), b);
    UnionHas(Map(DeviceFlagBits, device), b);
    forall i | 0 <= i < |peer|
      ensures Sets(peer[i], b) <==> b in Map(PeerFlagBits, peer)[i]
    {
      BitsOfFlags(peer[i], RemoveIp, ReplacePeers, b);
    }
    forall i | 0 <= i < |ip|
      ensures SetsOfIp(ip[i], b) <==> b in Map(IpFlagBits, ip)[i]
    {
      BitsOfFlags(RemoveMe, ip[i], ReplacePeers, b);
    }
    forall i | 0 <= i < |device|
      ensures SetsOfDevice(device[i], b) <==> b in Map(DeviceFlagBits, device)[i]
    {
      BitsOfFlags(RemoveMe, RemoveIp, device[i], b);
    }
  }

  lemma BitsOfFlags(peer: PeerFlag, ip: IpFlag, device: DeviceFlag, b: Bit)
    ensures Sets(peer, b) <==> b in PeerFlagBits(peer)
    ensures SetsOfIp(ip, b) <==> b in IpFlagBits(ip)
    ensures SetsOfDevice(device, b) <==> b in DeviceFlagBits(device)
  {}
}
