/** Applying a configuration that describes the device changes nothing, wherever the run is interrupted. */
module Idle {
  import opened Applying
  import opened Device
  import opened Effects
  import opened Flags
  import opened Keys
  import opened Meaning
  import opened Netlink
  import opened Owners
  import opened Parsed
  import opened PeerParsed
  import opened Retry
  import opened RetryKept
  import opened Sequences
  import opened Wrappers

  /** The entry asks for nothing that is not so. */
  ghost predicate IsIdle(d: Device, f: Fields) {
    && f.key.Some? && f.key.value in d.peers
    && !(REMOVE_ME <= f.flags) && !(REPLACE_ALLOWED_IPS <= f.flags)
    && Update(d.peers[f.key.value], f.state) == d.peers[f.key.value]
    && forall r: Route :: !Takes(f.ips, r) && (Gives(f.ips, r) ==> Owner(d, r) == f.key)
  }

  lemma IdleChangesNothing(d: Device, f: Fields)
    requires IsIdle(d, f)
    ensures ApplyFields(d, f) == d
  {
    hide Gives, Takes, Update, ApplyIps, OwnerAfter, Owner;
    var key := f.key.value;
    assert d.peers[key := d.peers[key]] == d.peers;
    var e := ApplyIps(d, key, f.ips);
    assert ApplyFields(d, f) == e;
    IpsKeepPeers(d, key, f.ips);
    forall r: Route
      ensures Owner(e, r) == Owner(d, r)
    {
      IpsOwner(d, key, f.ips, r);
      GivenOrKept(Owner(d, r), Owner(d, r), key, f.ips, r);
      if Gives(f.ips, r) { GivenForGood(Owner(d, r), key, f.ips, r); }
    }
    SameDevice(d, e);
  }

  lemma PartIsIdle(d: Device, part: Fields, f: Fields)
    requires PartOfFields(part, f) && IsIdle(d, f)
    ensures IsIdle(d, part)
  {
    hide Gives, Takes, Owner;
    assert f.ips == part.ips + f.ips[|part.ips|..];
    forall r: Route
      ensures !Takes(part.ips, r) && (Gives(part.ips, r) ==> Owner(d, r) == f.key)
    {
      GivesConcat(part.ips, f.ips[|part.ips|..], r);
    }
  }

  lemma MatchingIps(d: Device, p: PeerConfig, r: Route)
    requires PeerMatches(d, p)
    ensures !Takes(BuiltIps(p), r) && (Gives(BuiltIps(p), r) ==> Owner(d, r) == Some(PeerKey(p)))
  {
    hide BuildIp, GivesIp, TakesIp, KeyOf, PeerKey, Update, StateOf, IpBits, FlagBits;
    if p.allowedIps.Some? {
      var ips := p.allowedIps.value;
      forall i | 0 <= i < |ips|
        ensures !TakesIp(BuiltIps(p)[i], r) && (GivesIp(BuiltIps(p)[i], r) ==> Owner(d, r) == Some(PeerKey(p)))
      {
        assert IpMatches(d, PeerKey(p), ips[i]);
        BuiltIpGives(ips[i], r);
      }
    }
  }

  lemma ChunkIsIdle(d: Device, p: PeerConfig, i: nat)
    requires PeerFault(p).None? && PeerMatches(d, p) && i < |Chunks(p)|
    ensures IsIdle(d, FieldsOf(Chunks(p)[i]))
  {
    hide PeerFault, Chunks, ChunkIps, BuiltIps, Gives, Takes, PeerKey, StateOf, FieldsOf, FlagBits, Owner, IpMatches,
         Update;
    ChunkFields(p, i);
    NothingUpdates(d.peers[PeerKey(p)]);
    forall r: Route
      ensures !Takes(ChunkIps(p, i), r) && (Gives(ChunkIps(p, i), r) ==> Owner(d, r) == Some(PeerKey(p)))
    {
      MatchingIps(d, p, r);
      ChunkIpsAreIps(p, i, r);
    }
  }

  ghost predicate AreIdle(d: Device, entries: seq<Peer>) {
    forall i :: 0 <= i < |entries| ==> IsIdle(d, FieldsOf(entries[i]))
  }

  lemma {:induction false} ChunksAreIdle(d: Device, peers: seq<PeerConfig>, n: nat)
    requires AllSound(peers) && n <= |peers| && forall i :: 0 <= i < |peers| ==> PeerMatches(d, peers[i])
    ensures AreIdle(d, AllChunks(peers[..n]))
    decreases n
  {
    hide PeerFault, Chunks, AllChunks, FieldsOf, PeerMatches, IsIdle;
    if n == 0 {
      NoChunks();
      assert peers[..0] == [];
    } else {
      ChunksAreIdle(d, peers, n - 1);
      AllChunksSnoc(peers, n - 1);
      var p := peers[n - 1];
      forall i | 0 <= i < |Chunks(p)|
        ensures IsIdle(d, FieldsOf(Chunks(p)[i]))
      {
        ChunkIsIdle(d, p, i);
      }
    }
  }

  lemma {:induction false} IdleEntries(d: Device, entries: seq<Peer>)
    requires AreIdle(d, entries)
    ensures ApplyEntries(d, entries) == d
    decreases |entries|
  {
    hide ApplyFields, FieldsOf, IsIdle;
    if entries != [] {
      IdleChangesNothing(d, FieldsOf(entries[0]));
      IdleEntries(d, entries[1..]);
    }
  }

  lemma PartOfSame(was: Settings, part: Settings, given: Settings)
    requires PartOfSettings(part, given) && Configure(was, given) == was
    ensures Configure(was, part) == was
  {}

  lemma IdlePart(d: Device, m: Message, effect: Option<Request>, given: Settings)
    requires AreIdle(d, RequestOf(m).entries) && !(REPLACE_PEERS <= RequestOf(m).flags)
    requires Configure(d.settings, given) == d.settings
    requires RequestOf(m).settings == given || RequestOf(m).settings == NO_SETTINGS
    ensures ApplyPart(d, m, effect) == d
  {
    hide RequestOf, ApplyEntry, PartOfFields, FieldsOf, IsIdle, PartOfSettings;
    if effect.Some? && PartOfRequest(effect.value, RequestOf(m)) && IsFor(effect.value, d) {
      var q, r := effect.value, RequestOf(m);
      NothingIsPart(q.settings, given);
      PartOfSame(d.settings, q.settings, given);
      assert Prepare(d, q.flags, q.settings) == d;
      forall i | 0 <= i < |q.entries|
        ensures IsIdle(d, FieldsOf(q.entries[i]))
      {
        PartIsIdle(d, FieldsOf(q.entries[i]), FieldsOf(r.entries[i]));
      }
      IdleEntries(d, q.entries);
    }
  }

  /** Any run of a configuration that describes the device, interrupted anywhere, leaves the device as it was. */
  lemma InterruptedReapply(d: Device, c: Config, cmd: Command, run: Run)
    requires MessagesOf(c, cmd).Ok? && Describes(c, d)
    ensures Interrupted(d, MessagesOf(c, cmd).value, run) == d
  {
    hide MessagesOf, MessageGroups, MessageOf, ApplyEntry, ApplyMessage, FieldsOf, SettingsOf, RequestOf, ApplyPart,
         AllChunks, Configure, DeviceFlagBitsOf, PeerFault, PeerMatches, IsIdle, Addresses;
    var messages, all := MessagesOf(c, cmd).value, AllChunks(PeersOf(c));
    AcceptedIffSound(c, cmd);
    assert Prepared(d, c) == d;
    assert PeersOf(c)[..|PeersOf(c)|] == PeersOf(c);
    ChunksAreIdle(d, PeersOf(c), |PeersOf(c)|);
    if run.sent < |messages| {
      var k := run.sent;
      MessageIsSlice(c, cmd, k);
      var front := Flatten(MessageGroups(c)[..k]);
      assert forall i :: 0 <= i < |front| ==> front[i] == all[i];
      IdleEntries(d, front);
      if k == 0 { assert messages[..0] == []; } else { FirstMessages(d, c, cmd, k); }
      var entries := RequestOf(messages[k]).entries;
      assert forall i :: 0 <= i < |entries| ==> entries[i] == all[|front| + i];
      SettingsOfMessage(c, cmd, k == 0, MessageGroups(c)[k]);
      IdlePart(d, messages[k], run.effect, SettingsOf(c));
    } else {
      ReapplyChangesNothing(d, c, cmd);
    }
  }

  lemma SettingsOfMessage(c: Config, cmd: Command, first: bool, entries: seq<Peer>)
    requires DeviceFault(c).None?
    ensures RequestOf(MessageOf(c, cmd, first, entries)).settings == if first then SettingsOf(c) else NO_SETTINGS
  {
    hide DecodeKey, MessageOf, SettingsOf, RequestOf, DeviceFlagBitsOf;
    RequestOfMessage(c, cmd, first, entries);
  }
}
