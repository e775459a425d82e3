/** Applying a configuration again that keeps the old peers. */
module RetryKept {
  import opened Device
  import opened Flags
  import opened Keys
  import opened Meaning
  import opened Netlink
  import opened Owners
  import opened Parsed
  import opened PeerParsed
  import opened Reruns
  import opened Retry
  import opened Sequences
  import opened Turns
  import opened Wrappers

  /** The entries of the peers, as the receiver sees them. */
  function Seen(entries: seq<Peer>): seq<Fields> {
    Map(FieldsOf, entries)
  }

  function SeenOf(c: Config): seq<Fields> {
    Seen(AllChunks(PeersOf(c)))
  }

  lemma {:induction false} ApplySeen(d: Device, entries: seq<Peer>)
    ensures ApplyEntries(d, entries) == ApplyAll(d, Seen(entries))
    decreases |entries|
  {
    hide ApplyFields, FieldsOf;
    if entries != [] {
      var first := ApplyFields(d, FieldsOf(entries[0]));
      assert Seen(entries)[1..] == Seen(entries[1..]);
      ApplySeen(first, entries[1..]);
      assert ApplyEntries(d, entries) == Fold(ApplyEntry, first, entries[1..]);
      assert ApplyAll(d, Seen(entries)) == Fold(ApplyFields, first, Seen(entries[1..]));
    }
  }

  /** What all messages do to a device for which they are. */
  lemma RunIsApplyAll(d: Device, c: Config, cmd: Command)
    requires MessagesOf(c, cmd).Ok? && Addresses(c, d)
    ensures ApplyMessages(d, MessagesOf(c, cmd).value) == ApplyAll(Prepared(d, c), SeenOf(c))
  {
    hide MessagesOf, ApplyMessage, ApplyEntry, Prepared, Addresses, AllChunks, FieldsOf;
    ApplySplit(d, c, cmd);
    ApplySeen(Prepared(d, c), AllChunks(PeersOf(c)));
  }

  /* Interrupted runs recover */

  /** Parts of the entries from `from` on. */
  lemma {:induction false} PartsRecover(d: Device, e: Device, fs: seq<Fields>, parts: seq<Fields>, n: nat, from: nat)
      returns (n': nat)
    requires from <= n <= |fs| && from + |parts| <= |fs| && RemovedGiveNothing(fs)
    requires forall i :: 0 <= i < |parts| ==> PartOfFields(parts[i], fs[from + i])
    requires Recovers(d, e, fs, n, from)
    ensures from + |parts| <= n' <= |fs| && Recovers(d, ApplyAll(e, parts), fs, n', from + |parts|)
    decreases |parts|
  {
    hide ApplyFields, Recovers, RemovedGiveNothing, PartOfFields;
    n' := n;
    if parts != [] {
      StepRecovers(d, e, parts[0], fs, n, from);
      n' := PartsRecover(d, ApplyFields(e, parts[0]), fs, parts[1..], Further(n, from), from + 1);
    }
  }

  lemma PreparedRecovers(d: Device, e: Device, flags: Word, settings: Settings, fs: seq<Fields>, n: nat, m: nat)
    requires m <= n <= |fs| && Recovers(d, e, fs, n, m) && !(REPLACE_PEERS <= flags)
    ensures Recovers(d, Prepare(e, flags, settings), fs, n, m)
  {
    hide Configure, Removed, Settled, Update, NoneGives, Remains;
    var e' := Prepare(e, flags, settings);
    forall key: Key
      ensures PeerRecovers(d, e', fs, n, m, key)
    {
      assert PeerRecovers(d, e, fs, n, m, key);
    }
    forall r: Route
      ensures RouteRecovers(d, e', fs, n, r)
    {
      assert RouteRecovers(d, e, fs, n, r) && Owner(e', r) == Owner(e, r);
    }
  }

  lemma PartRecovers(d: Device, e: Device, m: Message, effect: Option<Request>, fs: seq<Fields>, n: nat, from: nat)
      returns (n': nat, to: nat)
    requires var all := RequestOf(m).entries;
             && from <= n <= |fs| && from + |all| <= |fs| && RemovedGiveNothing(fs) && Recovers(d, e, fs, n, from)
             && Seen(all) == fs[from..from + |all|] && !(REPLACE_PEERS <= RequestOf(m).flags)
    ensures to <= n' <= |fs| && Recovers(d, ApplyPart(e, m, effect), fs, n', to)
  {
    hide RequestOf, ApplyEntry, Recovers, PartOfFields, FieldsOf, Prepare, RemovedGiveNothing;
    n', to := n, from;
    if effect.Some? && PartOfRequest(effect.value, RequestOf(m)) && IsFor(effect.value, e) {
      var q, all := effect.value, RequestOf(m).entries;
      PreparedRecovers(d, e, q.flags, q.settings, fs, n, from);
      forall i | 0 <= i < |q.entries|
        ensures PartOfFields(Seen(q.entries)[i], fs[from + i])
      {
        assert Seen(all)[i] == fs[from..from + |all|][i];
      }
      n' := PartsRecover(d, Prepare(e, q.flags, q.settings), fs, Seen(q.entries), n, from);
      to := from + |q.entries|;
      ApplySeen(Prepare(e, q.flags, q.settings), q.entries);
    }
  }

  /** Where the entries of a group stand among all entries. */
  lemma GroupIsSlice(groups: seq<seq<Peer>>, k: nat)
    requires k <= |groups|
    ensures var from, all := |Flatten(groups[..k])|, Flatten(groups);
            && from <= |all| && Flatten(groups[..k]) == all[..from]
            && (k < |groups| ==> from + |groups[k]| <= |all| && all[from..from + |groups[k]|] == groups[k])
  {
    assert groups == groups[..k] + groups[k..];
    FlattenConcat(groups[..k], groups[k..]);
    if k < |groups| {
      assert groups[k..] == [groups[k]] + groups[k + 1..];
      assert Flatten(groups[k..]) == groups[k] + Flatten(groups[k + 1..]);
    }
  }

  /** The first messages of a configuration have the effect of its first entries. */
  lemma FirstMessages(d: Device, c: Config, cmd: Command, k: nat)
    requires MessagesOf(c, cmd).Ok? && Addresses(c, d) && 0 < k <= |MessagesOf(c, cmd).value|
    ensures |MessageGroups(c)| == |MessagesOf(c, cmd).value|
    ensures ApplyMessages(d, MessagesOf(c, cmd).value[..k])
            == ApplyEntries(Prepared(d, c), Flatten(MessageGroups(c)[..k]))
  {
    hide MessagesOf, MessageGroups, MessageOf, ApplyEntry, ApplyMessage, DecodeKey, KeyOf, PeerFault, Prepared,
         AllChunks, Addresses;
    AcceptedIffSound(c, cmd);
    var groups := MessageGroups(c);
    assert MessagesOf(c, cmd).value[..k] == Render(c, cmd, groups[..k]);
    ApplyRendered(d, c, cmd, groups[..k]);
    if c.peers.None? {
      MessageGroupsHoldAll(c);
      NoChunks();
      GroupIsSlice(groups, k);
      assert Flatten(groups[..k]) == [];
    }
  }

  /** The request of a message asks for a slice of all entries. */
  lemma MessageIsSlice(c: Config, cmd: Command, k: nat)
    requires MessagesOf(c, cmd).Ok? && k < |MessagesOf(c, cmd).value|
    ensures |MessageGroups(c)| == |MessagesOf(c, cmd).value|
    ensures var r, from, all := RequestOf(MessagesOf(c, cmd).value[k]), |Flatten(MessageGroups(c)[..k])|,
                                AllChunks(PeersOf(c));
            && from + |r.entries| <= |all| && Flatten(MessageGroups(c)[..k]) == all[..from]
            && all[from..from + |r.entries|] == r.entries == MessageGroups(c)[k]
            && MessagesOf(c, cmd).value[k] == MessageOf(c, cmd, k == 0, MessageGroups(c)[k])
            && r.flags <= DeviceFlagBitsOf(c)
  {
    hide MessagesOf, MessageGroups, MessageOf, DecodeKey, KeyOf, PeerFault, AllChunks, RequestOf, DeviceFlagBitsOf;
    AcceptedIffSound(c, cmd);
    MessageGroupsHoldAll(c);
    var groups := MessageGroups(c);
    GroupIsSlice(groups, k);
    RequestOfMessage(c, cmd, k == 0, groups[k]);
    if c.peers.None? { NoChunks(); }
  }

  lemma SlicesAreSeen(entries: seq<Peer>, i: nat, j: nat)
    requires i <= j <= |entries|
    ensures Seen(entries)[i..j] == Seen(entries[i..j])
  {
    hide FieldsOf;
  }

  lemma InterruptedRecovers(d: Device, e: Device, c: Config, cmd: Command, run: Run, n: nat) returns (n': nat)
    requires MessagesOf(c, cmd).Ok? && Addresses(c, e) && !(REPLACE_PEERS <= DeviceFlagBitsOf(c))
    requires n <= |SeenOf(c)| && Recovers(d, e, SeenOf(c), n, 0) && RemovedGiveNothing(SeenOf(c))
    ensures n' <= |SeenOf(c)| && Recovers(d, Interrupted(e, MessagesOf(c, cmd).value, run), SeenOf(c), n', 0)
  {
    hide MessagesOf, MessageGroups, ApplyEntry, ApplyMessage, FieldsOf, SettingsOf, RequestOf, ApplyPart, Recovers,
         AllChunks, Prepare, DeviceFlagBitsOf, RemovedGiveNothing, Addresses;
    var fs, entries, messages := SeenOf(c), AllChunks(PeersOf(c)), MessagesOf(c, cmd).value;
    var to: nat;
    if run.sent < |messages| {
      var k := run.sent;
      MessageIsSlice(c, cmd, k);
      var front := Flatten(MessageGroups(c)[..k]);
      var before := ApplyMessages(e, messages[..k]);
      SlicesAreSeen(entries, 0, |front|);
      n' := FrontRecovers(d, e, c, cmd, k, n);
      SlicesAreSeen(entries, |front|, |front| + |RequestOf(messages[k]).entries|);
      n', to := PartRecovers(d, before, messages[k], run.effect, fs, n', |front|);
    } else {
      AllRecovers(d, e, c, cmd, n);
      n' := |fs|;
      to := |fs|;
    }
    RecoversAgain(d, Interrupted(e, messages, run), fs, n', to);
  }

  lemma FrontRecovers(d: Device, e: Device, c: Config, cmd: Command, k: nat, n: nat) returns (n': nat)
    requires MessagesOf(c, cmd).Ok? && Addresses(c, e) && !(REPLACE_PEERS <= DeviceFlagBitsOf(c))
    requires n <= |SeenOf(c)| && Recovers(d, e, SeenOf(c), n, 0) && RemovedGiveNothing(SeenOf(c))
    requires k < |MessagesOf(c, cmd).value|
    ensures |MessageGroups(c)| == |MessagesOf(c, cmd).value|
    ensures |Flatten(MessageGroups(c)[..k])| <= n' <= |SeenOf(c)|
    ensures Recovers(d, ApplyMessages(e, MessagesOf(c, cmd).value[..k]), SeenOf(c), n',
                     |Flatten(MessageGroups(c)[..k])|)
  {
    hide MessagesOf, MessageGroups, ApplyEntry, ApplyMessage, FieldsOf, SettingsOf, RequestOf, Recovers, AllChunks,
         Prepare, DeviceFlagBitsOf, RemovedGiveNothing, Addresses, PartOfFields, MessageOf;
    var fs, entries, messages := SeenOf(c), AllChunks(PeersOf(c)), MessagesOf(c, cmd).value;
    MessageIsSlice(c, cmd, k);
    var front := Flatten(MessageGroups(c)[..k]);
    if k == 0 {
      assert MessageGroups(c)[..0] == [] && messages[..0] == [];
      n' := n;
    } else {
      FirstMessages(e, c, cmd, k);
      PreparedRecovers(d, e, DeviceFlagBitsOf(c), SettingsOf(c), fs, n, 0);
      SlicesAreSeen(entries, 0, |front|);
      forall i | 0 <= i < |front|
        ensures PartOfFields(Seen(front)[i], fs[0 + i])
      {
        assert fs[0..|front|][i] == Seen(front)[i];
        WholeIsPart(fs[i]);
      }
      n' := PartsRecover(d, Prepared(e, c), fs, Seen(front), n, 0);
      ApplySeen(Prepared(e, c), front);
    }
  }

  lemma AllRecovers(d: Device, e: Device, c: Config, cmd: Command, n: nat)
    requires MessagesOf(c, cmd).Ok? && Addresses(c, e) && !(REPLACE_PEERS <= DeviceFlagBitsOf(c))
    requires n <= |SeenOf(c)| && Recovers(d, e, SeenOf(c), n, 0) && RemovedGiveNothing(SeenOf(c))
    ensures Recovers(d, ApplyMessages(e, MessagesOf(c, cmd).value), SeenOf(c), |SeenOf(c)|, |SeenOf(c)|)
  {
    hide MessagesOf, ApplyMessage, FieldsOf, SettingsOf, Recovers, AllChunks, Prepare, DeviceFlagBitsOf,
         RemovedGiveNothing, Addresses, PartOfFields, ApplyFields;
    var fs := SeenOf(c);
    PreparedRecovers(d, e, DeviceFlagBitsOf(c), SettingsOf(c), fs, n, 0);
    forall i | 0 <= i < |fs|
      ensures PartOfFields(fs[i], fs[0 + i])
    {
      WholeIsPart(fs[i]);
    }
    var n' := PartsRecover(d, Prepared(e, c), fs, fs, n, 0);
    RunIsApplyAll(e, c, cmd);
  }

  lemma SameAddress(d: Device, e: Device, c: Config)
    requires d.name == e.name && d.index == e.index
    ensures Addresses(c, d) <==> Addresses(c, e)
  {}

  lemma {:induction false} RunsRecover(d: Device, e: Device, c: Config, cmd: Command, runs: seq<Run>, n: nat)
      returns (n': nat)
    requires MessagesOf(c, cmd).Ok? && Addresses(c, e) && !(REPLACE_PEERS <= DeviceFlagBitsOf(c))
    requires n <= |SeenOf(c)| && Recovers(d, e, SeenOf(c), n, 0) && RemovedGiveNothing(SeenOf(c))
    ensures n' <= |SeenOf(c)| && Recovers(d, AfterRuns(e, MessagesOf(c, cmd).value, runs), SeenOf(c), n', 0)
    decreases |runs|
  {
    hide MessagesOf, DeviceFlagBitsOf, Recovers, SeenOf, RemovedGiveNothing, Interrupted, Addresses, SettingsOf,
         Configure;
    n' := n;
    if runs != [] {
      n' := InterruptedRecovers(d, e, c, cmd, runs[0], n);
      var e' := Interrupted(e, MessagesOf(c, cmd).value, runs[0]);
      InterruptedSettings(e, c, cmd, runs[0]);
      SameAddress(e, e', c);
      n' := RunsRecover(d, e', c, cmd, runs[1..], n');
    }
  }

  /* Retrying */

  /** Wherever runs of the configuration are interrupted, a run after them is harmless. */
  ghost predicate CanBeRepeated(d: Device, c: Config) {
    var fs := SeenOf(c);
    d.Valid() && RemovedGiveNothing(fs) && forall n | 0 <= n <= |fs| :: RetryHarmless(Prepared(d, c), fs, n)
  }

  lemma PreparedValid(d: Device, c: Config)
    requires d.Valid() && !(REPLACE_PEERS <= DeviceFlagBitsOf(c))
    ensures Prepared(d, c).Valid() && Prepared(d, c).peers == d.peers && Prepared(d, c).routes == d.routes
  {
    hide SettingsOf, DeviceFlagBitsOf;
  }

  /** A configuration that keeps the old peers, whatever its keys: however often its runs were interrupted and wherever,
      applying all messages leaves the device that they leave the first time, if that is harmless. */
  lemma RetryHealsKept(d: Device, c: Config, cmd: Command, runs: seq<Run>)
    requires MessagesOf(c, cmd).Ok? && Addresses(c, d) && !(REPLACE_PEERS <= DeviceFlagBitsOf(c))
    requires CanBeRepeated(d, c)
    ensures var messages := MessagesOf(c, cmd).value;
            ApplyMessages(AfterRuns(d, messages, runs), messages) == ApplyMessages(d, messages)
  {
    hide MessagesOf, KeyOf, AfterRuns, SettingsOf, DeviceFlagBitsOf, ApplyMessage, Configure, Recovers, SeenOf,
         ApplyAll, RemovedGiveNothing, RetryHarmless, Addresses;
    var d0, e, fs := Prepared(d, c), AfterRuns(d, MessagesOf(c, cmd).value, runs), SeenOf(c);
    PreparedValid(d, c);
    RecoversItself(d, fs);
    SameStart(d, d0, d, fs, 0);
    var n := RunsRecover(d0, d, c, cmd, runs, 0);
    RunsKeepSettings(d, c, cmd, runs);
    SameAddress(d, e, c);
    PreparedRecovers(d0, e, DeviceFlagBitsOf(c), SettingsOf(c), fs, n, 0);
    PreparedKeepsName(d, c);
    PreparedKeepsName(e, c);
    RecoversBecomesEqual(d0, Prepared(e, c), fs, n, 0);
    RunIsApplyAll(d, c, cmd);
    RunIsApplyAll(e, c, cmd);
  }

  lemma SameStart(d: Device, d0: Device, e: Device, fs: seq<Fields>, n: nat)
    requires n <= |fs| && Recovers(d, e, fs, n, 0) && d0.Valid() && d0.peers == d.peers && d0.routes == d.routes
    ensures Recovers(d0, e, fs, n, 0)
  {
    hide Removed, Settled, Update, NoneGives, Remains, SetBy;
    forall key: Key
      ensures PeerRecovers(d0, e, fs, n, 0, key)
    {
      assert PeerRecovers(d, e, fs, n, 0, key);
    }
    assert KeysAfter(d0, fs, n) == KeysAfter(d, fs, n);
    forall r: Route
      ensures RouteRecovers(d0, e, fs, n, r)
    {
      assert RouteRecovers(d, e, fs, n, r) && Owner(d0, r) == Owner(d, r);
    }
  }
}
