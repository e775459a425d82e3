/** When applying a configuration again that keeps the old peers leaves the same device, exactly. */
module RetryExact {
  import opened Applying
  import opened Device
  import opened Effects
  import opened Flags
  import opened Keys
  import opened Lengths
  import opened Meaning
  import opened Netlink
  import opened Outcomes
  import opened Owners
  import opened Parsed
  import opened PeerParsed
  import opened Reruns
  import opened Retry
  import opened RetryKept
  import opened Sequences
  import opened Turns
  import opened Wrappers

  /* Every number of entries is where some run ends */

  lemma {:induction false} FindGroup(groups: seq<seq<Peer>>, n: nat) returns (k: nat, m: nat)
    requires groups != [] && n <= |Flatten(groups)|
    ensures k < |groups| && m <= |groups[k]| && |Flatten(groups[..k])| + m == n
    decreases |groups|
  {
    if n <= |groups[0]| {
      assert groups[..0] == [];
      k, m := 0, n;
    } else {
      var rest := groups[1..];
      k, m := FindGroup(rest, n - |groups[0]|);
      assert groups[..k + 1] == [groups[0]] + rest[..k];
      k := k + 1;
    }
  }

  lemma PartOfMessage(c: Config, cmd: Command, first: bool, entries: seq<Peer>, m: nat)
    requires IfaceFault(c).None? && m <= |entries|
    ensures PartOfRequest(RequestOf(MessageOf(c, cmd, first, entries[..m])),
                          RequestOf(MessageOf(c, cmd, first, entries)))
  {
    hide MessageOf, RequestOf, KeyOf, FieldsOf, SettingsOf, PartOfFields, DeviceFlagBitsOf;
    RequestOfMessage(c, cmd, first, entries);
    RequestOfMessage(c, cmd, first, entries[..m]);
    SettingsAreParts(c);
    NothingIsPart(NO_SETTINGS, NO_SETTINGS);
    forall i | 0 <= i < m
      ensures PartOfFields(FieldsOf(entries[..m][i]), FieldsOf(entries[i]))
    {
      WholeIsPart(FieldsOf(entries[i]));
    }
  }

  /** A run that ends after the first `m` entries of the message `k`. */
  lemma RunInto(d: Device, c: Config, cmd: Command, k: nat, m: nat) returns (run: Run)
    requires MessagesOf(c, cmd).Ok? && Addresses(c, d) && k < |MessagesOf(c, cmd).value|
    requires |MessageGroups(c)| == |MessagesOf(c, cmd).value| && m <= |MessageGroups(c)[k]|
    requires c.peers.None? ==> MessageGroups(c)[k] == []
    ensures Interrupted(d, MessagesOf(c, cmd).value, run)
            == ApplyEntries(Prepared(d, c), Flatten(MessageGroups(c)[..k]) + MessageGroups(c)[k][..m])
  {
    hide MessagesOf, MessageGroups, MessageOf, ApplyEntry, RequestOf, AllChunks, PartOfRequest, FieldsOf, Prepared,
         IfaceFault, Addresses, DecodeKey, KeyOf, PeerFault, DeviceFlagBitsOf, SettingsOf, DeviceFault;
    AcceptedIffSound(c, cmd);
    var groups, messages := MessageGroups(c), MessagesOf(c, cmd).value;
    MessageIsSlice(c, cmd, k);
    SoundInterface(c);
    var part := groups[k][..m];
    var q := RequestOf(MessageOf(c, cmd, k == 0, part));
    run := Run(k, Some(q));
    PartOfMessage(c, cmd, k == 0, groups[k], m);
    var before := ApplyMessages(d, messages[..k]);
    assert Interrupted(d, messages, run) == ApplyMessage(before, MessageOf(c, cmd, k == 0, part));
    FrontOf(d, c, cmd, k);
    ApplyOneMessage(before, c, cmd, k == 0, part);
    FoldConcat(ApplyEntry, Prepared(d, c), Flatten(groups[..k]), part);
  }

  /** For every number of entries there is a run that ends after them. */
  lemma RunTo(d: Device, c: Config, cmd: Command, n: nat) returns (run: Run)
    requires MessagesOf(c, cmd).Ok? && Addresses(c, d) && n <= |SeenOf(c)|
    ensures Interrupted(d, MessagesOf(c, cmd).value, run) == After(Prepared(d, c), SeenOf(c), n)
  {
    hide MessagesOf, MessageGroups, ApplyEntry, RequestOf, AllChunks, FieldsOf, Prepared, Addresses, DecodeKey,
         PeerFault, Interrupted, DeviceFlagBitsOf, MessageOf, Fold;
    AcceptedIffSound(c, cmd);
    MessageGroupsHoldAll(c);
    var groups, all := MessageGroups(c), AllChunks(PeersOf(c));
    var k, m := FindGroup(groups, n);
    GroupIsSlice(groups, k);
    if c.peers.None? { NoChunks(); }
    run := RunInto(d, c, cmd, k, m);
    assert Flatten(groups[..k]) + groups[k][..m] == all[..n];
    ApplySeen(Prepared(d, c), all[..n]);
    SlicesAreSeen(all, 0, n);
    assert SeenOf(c)[0..n] == SeenOf(c)[..n];
  }

  lemma FrontOf(d: Device, c: Config, cmd: Command, k: nat)
    requires MessagesOf(c, cmd).Ok? && Addresses(c, d) && k < |MessagesOf(c, cmd).value|
    requires |MessageGroups(c)| == |MessagesOf(c, cmd).value|
    ensures var before := ApplyMessages(d, MessagesOf(c, cmd).value[..k]);
            && Addresses(c, before)
            && (if k == 0 then Prepared(before, c) else before)
               == ApplyEntries(Prepared(d, c), Flatten(MessageGroups(c)[..k]))
  {
    hide MessagesOf, MessageGroups, ApplyEntry, Prepared, Addresses, ApplyMessage;
    if k == 0 {
      assert MessagesOf(c, cmd).value[..0] == [] && MessageGroups(c)[..0] == [];
    } else {
      FirstMessages(d, c, cmd, k);
      EntriesKeep(Prepared(d, c), Flatten(MessageGroups(c)[..k]));
      PreparedKeepsName(d, c);
      SameAddress(d, ApplyMessages(d, MessagesOf(c, cmd).value[..k]), c);
    }
  }

  /* Exactly */

  ghost predicate Heals(d: Device, messages: seq<Message>, runs: seq<Run>) {
    ApplyMessages(AfterRuns(d, messages, runs), messages) == ApplyMessages(d, messages)
  }

  lemma OneRun(d: Device, messages: seq<Message>, run: Run)
    ensures AfterRuns(d, messages, [run]) == Interrupted(d, messages, run)
  {
    hide Interrupted;
    assert [run][1..] == [];
  }

  /** What is left by entries is prepared already. */
  lemma AfterIsPrepared(d: Device, c: Config, n: nat)
    requires !(REPLACE_PEERS <= DeviceFlagBitsOf(c)) && n <= |SeenOf(c)|
    ensures var e := After(Prepared(d, c), SeenOf(c), n);
            Prepared(e, c) == e && e.name == d.name && e.index == d.index
  {
    hide SettingsOf, DeviceFlagBitsOf, SeenOf, Configure, ApplyAll;
    AfterKeeps(Prepared(d, c), SeenOf(c), n);
    SettingsAreParts(c);
    ConfigureAgain(d.settings, SettingsOf(c), SettingsOf(c));
  }

  /** The run after the first `n` entries leaves the same device exactly when it is harmless. */
  lemma RetryAfterIff(d: Device, c: Config, cmd: Command, n: nat, run: Run)
    requires MessagesOf(c, cmd).Ok? && Addresses(c, d) && !(REPLACE_PEERS <= DeviceFlagBitsOf(c))
    requires d.Valid() && n <= |SeenOf(c)|
    requires Interrupted(d, MessagesOf(c, cmd).value, run) == After(Prepared(d, c), SeenOf(c), n)
    ensures Heals(d, MessagesOf(c, cmd).value, [run]) <==> RetryHarmless(Prepared(d, c), SeenOf(c), n)
  {
    hide MessagesOf, DeviceFlagBitsOf, SeenOf, RetryHarmless, Interrupted, ApplyAll, ApplyMessages, Addresses,
         Prepared, After;
    var e := After(Prepared(d, c), SeenOf(c), n);
    OneRun(d, MessagesOf(c, cmd).value, run);
    AfterIsPrepared(d, c, n);
    SameAddress(d, e, c);
    PreparedValid(d, c);
    RunIsApplyAll(d, c, cmd);
    RunIsApplyAll(e, c, cmd);
    RerunIff(Prepared(d, c), SeenOf(c), n);
  }

  /** For every configuration that keeps the old peers, whatever its keys and flags: it can be applied twice exactly
      when a run after all entries is harmless. If it can be retried after all interrupted runs then a run is harmless
      after every number of entries, and that is enough unless an update-only entry gives allowed IPs to a peer that is
      removed further on. */
  lemma RetryHealsIff(d: Device, c: Config, cmd: Command)
    requires MessagesOf(c, cmd).Ok? && Addresses(c, d) && !(REPLACE_PEERS <= DeviceFlagBitsOf(c)) && d.Valid()
    ensures var messages, d0, fs := MessagesOf(c, cmd).value, Prepared(d, c), SeenOf(c);
            && (ApplyMessages(ApplyMessages(d, messages), messages) == ApplyMessages(d, messages)
                <==> RetryHarmless(d0, fs, |fs|))
            && ((forall runs: seq<Run> :: Heals(d, messages, runs)) ==>
                  forall n | 0 <= n <= |fs| :: RetryHarmless(d0, fs, n))
            && (RemovedGiveNothing(fs) ==>
                  ((forall runs: seq<Run> :: Heals(d, messages, runs))
                   <==> forall n | 0 <= n <= |fs| :: RetryHarmless(d0, fs, n)))
  {
    hide MessagesOf, DeviceFlagBitsOf, SeenOf, RemovedGiveNothing, RetryHarmless, ApplyAll, ApplyMessages,
         Addresses, Prepared, AfterRuns;
    var messages, d0, fs := MessagesOf(c, cmd).value, Prepared(d, c), SeenOf(c);
    if n :| 0 <= n <= |fs| && !RetryHarmless(d0, fs, n) {
      var run := RunTo(d, c, cmd, n);
      RetryAfterIff(d, c, cmd, n, run);
      assert !Heals(d, messages, [run]);
    } else if RemovedGiveNothing(fs) {
      forall runs: seq<Run>
        ensures Heals(d, messages, runs)
      {
        RetryHealsKept(d, c, cmd, runs);
      }
    }
    var all := Run(|messages|, None);
    OneRun(d, messages, all);
    RunIsApplyAll(d, c, cmd);
    AfterNone(d0, fs);
    RetryAfterIff(d, c, cmd, |fs|, all);
  }

  /* Two kinds of configurations that can always be retried */

  lemma NoneOfNone(peers: seq<PeerConfig>)
    ensures AllChunks(peers[..0]) == []
  {
    hide Chunks;
    NoChunks();
    assert peers[..0] == [];
  }

  /** Every entry is one of a peer. */
  lemma {:induction false} Origin(peers: seq<PeerConfig>, n: nat, i: nat) returns (a: nat, t: nat)
    requires n <= |peers| && i < |AllChunks(peers[..n])|
    ensures a < n && t < |Chunks(peers[a])| && AllChunks(peers[..n])[i] == Chunks(peers[a])[t]
    decreases n
  {
    hide Chunks, AllChunks;
    if n == 0 {
      NoneOfNone(peers);
      assert false;
    } else {
      AllChunksSnoc(peers, n - 1);
      var before := |AllChunks(peers[..n - 1])|;
      if i < before {
        a, t := Origin(peers, n - 1, i);
      } else {
        a, t := n - 1, i - before;
      }
    }
  }

  lemma SeenOrigin(c: Config, i: nat) returns (a: nat, t: nat)
    requires AllSound(PeersOf(c)) && i < |SeenOf(c)|
    ensures a < |PeersOf(c)| && t < |Chunks(PeersOf(c)[a])|
    ensures SeenOf(c)[i].key == Some(PeerKey(PeersOf(c)[a]))
    ensures SeenOf(c)[i].flags == if t == 0 then FlagBits(PeersOf(c)[a]) else {}
  {
    hide Chunks, AllChunks, FieldsOf, PeerFault, PeerKey, FlagBits, StateOf, ChunkIps;
    var peers := PeersOf(c);
    assert peers[..|peers|] == peers;
    a, t := Origin(peers, |peers|, i);
    ChunkFields(peers[a], t);
  }

  ghost predicate NoUpdateOnly(c: Config) {
    forall p <- PeersOf(c) :: !(UPDATE_ONLY <= FlagBits(p))
  }

  /** Without update-only peers, whatever the keys, every configuration can be repeated. */
  lemma WithoutUpdateOnly(d: Device, c: Config)
    requires d.Valid() && AllSound(PeersOf(c)) && NoUpdateOnly(c)
    ensures CanBeRepeated(d, c)
  {
    hide SeenOf, PeerFault, Chunks, PeerKey, FlagBits, RemovedGiveNothing, RetryHarmless, Prepared, Settled;
    var fs := SeenOf(c);
    forall i | 0 <= i < |fs|
      ensures !Conditional(fs, i)
    {
      var a, t := SeenOrigin(c, i);
      assert PeersOf(c)[a] in PeersOf(c);
    }
    NothingWaitsIsHarmless(Prepared(d, c), fs);
  }

  /** The same holds if every peer is named once and none is lost. */
  lemma NamedOnceNoneLost(d: Device, c: Config)
    requires d.Valid() && AllSound(PeersOf(c)) && DistinctKeys(PeersOf(c))
    requires forall p <- PeersOf(c) :: !Lost(Prepared(d, c), p)
    ensures CanBeRepeated(d, c)
  {
    hide SeenOf, PeerFault, Chunks, PeerKey, FlagBits, RemovedGiveNothing, RetryHarmless, Prepared, DistinctKeys, Lost;
    var fs, d0 := SeenOf(c), Prepared(d, c);
    forall i | 0 <= i < |fs| && Conditional(fs, i)
      ensures var key := fs[i].key.value; (key in d0.peers && !Removed(fs, key)) || !Settled(fs, |fs|, key)
    {
      NotLostDoesNotWait(d0, c, i);
    }
    NothingWaitsIsHarmless(d0, fs);
  }

  lemma NotLostDoesNotWait(d: Device, c: Config, i: nat)
    requires AllSound(PeersOf(c)) && DistinctKeys(PeersOf(c))
    requires forall p <- PeersOf(c) :: !Lost(d, p)
    requires i < |SeenOf(c)| && Conditional(SeenOf(c), i)
    ensures var fs, key := SeenOf(c), SeenOf(c)[i].key.value;
            (key in d.peers && !Removed(fs, key)) || !Settled(fs, |fs|, key)
  {
    hide SeenOf, PeerFault, Chunks, PeerKey, FlagBits;
    var fs, peers := SeenOf(c), PeersOf(c);
    var key := fs[i].key.value;
    var a, t := SeenOrigin(c, i);
    var p := peers[a];
    assert t == 0 && p in peers;
    WholeFieldsAre(p) by { assert PeerFault(p).None?; }
    forall j | 0 <= j < |fs| && fs[j].key == Some(key)
      ensures fs[j].flags == FlagBits(p) || (fs[j].flags == {} && |Chunks(p)| > 1)
    {
      var b, s := SeenOrigin(c, j);
      assert b == a;
    }
  }

  /* A lost peer with properties */

  /** A lost peer is there without state afterwards; the second time it is not lost and gets its state. */
  lemma LostState(d: Device, peers: seq<PeerConfig>, i: nat)
    requires AllSound(peers) && DistinctKeys(peers) && i < |peers| && Lost(d, peers[i])
    ensures var d1 := Applied(d, peers);
            && PeerAt(d1, PeerKey(peers[i])) == Some(NO_STATE)
            && PeerAt(Applied(d1, peers), PeerKey(peers[i])) == Some(StateOf(peers[i]))
  {
    hide PeerFault, PeerKey, Chunks, WholeFieldsOf, DistinctKeys, ApplyAll, StateOf, Batches, BuiltIps, FlagBits;
    var p, d1 := peers[i], Applied(d, peers);
    EffectivesAreOneEach(d, peers);
    EffectivesAreOneEach(d1, peers);
    WholeFieldsAre(p);
    NothingUpdates(NO_STATE);
    NothingUpdates(StateOf(p));
    PeerAfterAll(d, Effectives(d, peers), i);
    assert PeerKey(p) in d1.peers;
    PeerAfterAll(d1, Effectives(d1, peers), i);
  }

  /** If a lost peer carries any property, applying the configuration twice leaves another device than applying it
      once. */
  lemma LostPropertyShows(d: Device, c: Config, cmd: Command, i: nat)
    requires MessagesOf(c, cmd).Ok? && Addresses(c, d) && !(REPLACE_PEERS <= DeviceFlagBitsOf(c))
    requires DistinctKeys(PeersOf(c)) && i < |PeersOf(c)|
    requires Lost(d, PeersOf(c)[i]) && StateOf(PeersOf(c)[i]) != NO_STATE
    ensures var messages := MessagesOf(c, cmd).value;
            ApplyMessages(ApplyMessages(d, messages), messages) != ApplyMessages(d, messages)
  {
    hide MessagesOf, DecodeKey, KeyOf, ApplyMessage, PeerFault, PeerKey, Chunks, SettingsOf, DeviceFlagBitsOf, StateOf,
         DistinctKeys, Applied, Configure, SeenOf, ApplyAll;
    var peers, messages := PeersOf(c), MessagesOf(c, cmd).value;
    AcceptedIffSound(c, cmd);
    var d0, d1 := Prepared(d, c), ApplyMessages(d, messages);
    RunIsApplied(d, c, cmd);
    assert Lost(d0, peers[i]);
    LostState(d0, peers, i);
    RunIsApplyAll(d, c, cmd);
    AfterNone(d0, SeenOf(c));
    AfterIsPrepared(d, c, |SeenOf(c)|);
    SameAddress(d, d1, c);
    RunIsApplied(d1, c, cmd);
  }
}
