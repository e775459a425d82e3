/** Every allowed IP that is sent is well formed. */
module WellFormedness {
  import opened Applying
  import opened Device
  import opened Dump
  import opened Flags
  import opened Fragments
  import opened Lengths
  import opened Meaning
  import opened Netlink
  import opened Parsed
  import opened PeerParsed
  import opened PeerRoundTrip
  import opened RetryExact
  import opened RetryKept
  import opened Sequences

  /** There is exactly one attribute of the kind. */
  ghost predicate Once(attrs: seq<IpAttr>, kind: IpAttr -> bool) {
    exists i :: 0 <= i < |attrs| && kind(attrs[i]) && forall j :: 0 <= j < |attrs| && kind(attrs[j]) ==> j == i
  }

  function IsFamily(a: IpAttr): bool { a.Family? }

  function IsAddr(a: IpAttr): bool { a.Addr? }

  function IsCidr(a: IpAttr): bool { a.Cidr? }

  /** One family, one address of that family, one prefix length in its range, and nothing else but flags. */
  ghost predicate IsProper(ip: AllowedIp) {
    && WellFormed(ip)
    && Once(ip.attrs, IsFamily) && Once(ip.attrs, IsAddr) && Once(ip.attrs, IsCidr)
    && 3 <= |ip.attrs| <= 4 && (|ip.attrs| == 4 ==> exists bits :: IpFlags(bits) in ip.attrs)
  }

  lemma BuiltIsProper(ip: IpConfig)
    requires ValidPrefix(ip)
    ensures IsProper(BuildIp(ip))
  {
    hide IpBits, WellFormed, Once, AddrIn, CidrIn, FlagsIn;
    BuiltIpIsSeen(ip);
    BuiltOnce(ip);
    var attrs := BuildIp(ip).attrs;
    if ip.flags.Some? { assert attrs[3] == IpFlags(IpBits(ip.flags.value)); }
  }

  lemma BuiltOnce(ip: IpConfig)
    ensures var attrs := BuildIp(ip).attrs; Once(attrs, IsFamily) && Once(attrs, IsAddr) && Once(attrs, IsCidr)
  {
    hide IpBits, Once;
    var attrs := BuildIp(ip).attrs;
    assert |attrs| == 4 ==> attrs[3].IpFlags?;
    OnlyOne(attrs, IsCidr, 0);
    OnlyOne(attrs, IsFamily, 1);
    OnlyOne(attrs, IsAddr, 2);
  }

  lemma OnlyOne(attrs: seq<IpAttr>, kind: IpAttr -> bool, i: nat)
    requires i < |attrs| && kind(attrs[i]) && forall j :: 0 <= j < |attrs| && j != i ==> !kind(attrs[j])
    ensures Once(attrs, kind)
  {}

  ghost predicate AllProper(ips: seq<AllowedIp>) {
    forall i :: 0 <= i < |ips| ==> IsProper(ips[i])
  }

  /** All allowed IPs in the attributes of an entry. */
  ghost predicate ProperEntry(e: Peer) {
    forall i :: 0 <= i < |e.attrs| && e.attrs[i].AllowedIps? ==> AllProper(e.attrs[i].ips)
  }

  lemma BuiltAreProper(p: PeerConfig)
    requires PeerFault(p).None?
    ensures AllProper(BuiltIps(p))
  {
    hide IsProper, BuildIp;
    if p.allowedIps.Some? {
      var ips := p.allowedIps.value;
      forall i | 0 <= i < |ips|
        ensures IsProper(BuiltIps(p)[i])
      {
        ValidAt(p, i);
        BuiltIsProper(ips[i]);
      }
    }
  }

  lemma ValidAt(p: PeerConfig, i: nat)
    requires PeerFault(p).None? && p.allowedIps.Some? && i < |p.allowedIps.value|
    ensures ValidPrefix(p.allowedIps.value[i])
  {}

  lemma BatchIsProper(p: PeerConfig, i: nat)
    requires PeerFault(p).None? && i < |Batches(p)|
    ensures AllProper(Batches(p)[i])
  {
    hide IsProper, Batches, PeerFault, BuiltIps;
    var batches := Batches(p);
    BuiltAreProper(p);
    BatchesFlatten(p);
    assert batches == batches[..i] + ([batches[i]] + batches[i + 1..]);
    FlattenConcat(batches[..i], [batches[i]] + batches[i + 1..]);
    var front, batch, rest := Flatten(batches[..i]), batches[i], Flatten(batches[i + 1..]);
    assert Flatten([batch] + batches[i + 1..]) == batch + rest;
    assert forall k :: 0 <= k < |batch| ==> (front + (batch + rest))[|front| + k] == batch[k];
  }

  lemma ChunkIsProper(p: PeerConfig, i: nat)
    requires PeerFault(p).None? && i < |Chunks(p)|
    ensures ProperEntry(Chunks(p)[i])
  {
    hide IsProper, Batches, PeerFault, StateAttrs, PeerKey, AllProper;
    StateHoldsNoIps(p);
    var state := StateAttrs(p);
    if p.allowedIps.Some? && !Removes(p) {
      BatchIsProper(p, i);
      if i == 0 {
        PieceAtEnd(state, Batches(p)[0]);
      } else {
        assert Chunks(p)[i] == Continuation(PeerKey(p), Batches(p)[i]);
      }
    }
  }

  lemma StateHoldsNoIps(p: PeerConfig)
    requires PeerFault(p).None?
    ensures forall i :: 0 <= i < |StateAttrs(p)| ==> !StateAttrs(p)[i].AllowedIps?
  {
    hide StateAttrs, PeerFault;
    SoundHasKey(p);
    StateHasKey(p);
  }

  /** In every message of every accepted configuration, every allowed IP of every entry is proper. */
  lemma SentIpsAreProper(c: Config, cmd: Command, k: nat, a: nat)
    requires MessagesOf(c, cmd).Ok? && k < |MessagesOf(c, cmd).value|
    requires a < |MessagesOf(c, cmd).value[k].attrs| && MessagesOf(c, cmd).value[k].attrs[a].Peers?
    ensures forall e <- MessagesOf(c, cmd).value[k].attrs[a].peers :: ProperEntry(e)
  {
    hide MessagesOf, MessageGroups, AllChunks, Chunks, ProperEntry, PeerFault, DeviceAttrs;
    AcceptedIffSound(c, cmd);
    MessageGroupsHoldAll(c);
    DeviceAttrsAreSingle(c);
    var peers, groups := PeersOf(c), MessageGroups(c);
    var m := MessagesOf(c, cmd).value[k];
    assert m == MessageOf(c, cmd, k == 0, groups[k]);
    var device := if k == 0 then DeviceAttrs(c) else [IfaceAttr(c)];
    assert forall i :: 0 <= i < |device| ==> m.attrs[i] == device[i] && device[i] in device;
    assert m.attrs[a].peers == groups[k];
    GroupIsSlice(groups, k);
    assert peers[..|peers|] == peers;
    var from := |Flatten(groups[..k])|;
    forall i | 0 <= i < |groups[k]|
      ensures ProperEntry(groups[k][i])
    {
      assert groups[k][i] == AllChunks(peers)[from + i];
      var n, t := Origin(peers, |peers|, from + i);
      ChunkIsProper(peers[n], t);
    }
  }
}
