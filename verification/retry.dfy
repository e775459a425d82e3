/** Applying a configuration again after runs that were interrupted. */
module Retry {
  import opened Device
  import opened Flags
  import opened Keys
  import opened Meaning
  import opened Netlink
  import opened Parsed
  import opened PeerParsed
  import opened Sequences
  import opened Wrappers

  /* Interrupted runs */

  ghost predicate PartOf<T>(part: Option<T>, whole: Option<T>) {
    part.None? || part == whole
  }

  /** Some of the properties of a peer. */
  ghost predicate PartOfState(part: PeerState, whole: PeerState) {
    && PartOf(part.endpoint, whole.endpoint)
    && PartOf(part.presharedKey, whole.presharedKey)
    && PartOf(part.keepalive, whole.keepalive)
    && PartOf(part.handshake, whole.handshake)
    && PartOf(part.rx, whole.rx)
    && PartOf(part.tx, whole.tx)
    && PartOf(part.version, whole.version)
  }

  /** An entry of which only some properties and the first allowed IPs take effect, with or without the old allowed IPs
      replaced. */
  ghost predicate PartOfFields(part: Fields, whole: Fields) {
    && part.key == whole.key
    && PartOfState(part.state, whole.state)
    && part.ips <= whole.ips
    && (REMOVE_ME <= part.flags <==> REMOVE_ME <= whole.flags)
    && (UPDATE_ONLY <= part.flags <==> UPDATE_ONLY <= whole.flags)
    && (REPLACE_ALLOWED_IPS <= part.flags ==> REPLACE_ALLOWED_IPS <= whole.flags)
  }

  ghost predicate PartOfSettings(part: Settings, whole: Settings) {
    && PartOf(part.publicKey, whole.publicKey)
    && PartOf(part.privateKey, whole.privateKey)
    && PartOf(part.listenPort, whole.listenPort)
    && PartOf(part.fwmark, whole.fwmark)
  }

  /** A request of which only some settings and the first entries take effect, the last of them or more only in part,
      with or without the old peers replaced. */
  ghost predicate PartOfRequest(part: Request, whole: Request) {
    && part.name == whole.name && part.index == whole.index
    && part.flags <= whole.flags
    && PartOfSettings(part.settings, whole.settings)
    && |part.entries| <= |whole.entries|
    && forall i :: 0 <= i < |part.entries| ==> PartOfFields(FieldsOf(part.entries[i]), FieldsOf(whole.entries[i]))
  }

  /** What a message makes of the device if it takes effect in part: `effect` says in which, if any. */
  ghost function ApplyPart(d: Device, m: Message, effect: Option<Request>): Device {
    if effect.Some? && PartOfRequest(effect.value, RequestOf(m)) then ApplyRequest(d, effect.value) else d
  }

  /** A run of a list of messages ends after the first `sent` ones or within the message after them; a run of all
      messages is not interrupted. */
  datatype Run = Run(sent: nat, effect: Option<Request>)

  ghost function Interrupted(d: Device, messages: seq<Message>, run: Run): Device {
    if run.sent < |messages| then ApplyPart(ApplyMessages(d, messages[..run.sent]), messages[run.sent], run.effect)
    else ApplyMessages(d, messages)
  }

  /** Any number of interrupted runs, one after the other. */
  ghost function AfterRuns(d: Device, messages: seq<Message>, runs: seq<Run>): Device
    decreases |runs|
  {
    if runs == [] then d else AfterRuns(Interrupted(d, messages, runs[0]), messages, runs[1..])
  }

  /* With all peers replaced */

  /** A configuration that replaces all peers sets whatever it sets, and leaves nothing of the peers that were there: it
      does the same to every device that has the same settings otherwise. */
  lemma ReplacingForgets(d: Device, d': Device, c: Config, cmd: Command)
    requires MessagesOf(c, cmd).Ok? && Addresses(c, d)
    requires REPLACE_PEERS <= DeviceFlagBitsOf(c)
    requires d'.name == d.name && d'.index == d.index
    requires Configure(d'.settings, SettingsOf(c)) == Configure(d.settings, SettingsOf(c))
    ensures ApplyMessages(d', MessagesOf(c, cmd).value) == ApplyMessages(d, MessagesOf(c, cmd).value)
  {
    hide MessagesOf, ApplyEntry, AllChunks, DecodeKey, KeyOf, SettingsOf, DeviceFlagBitsOf, ApplyMessage;
    assert Prepared(d', c) == Prepared(d, c);
    ApplySplit(d, c, cmd);
    ApplySplit(d', c, cmd);
  }

  lemma ConfigureAgain(was: Settings, part: Settings, given: Settings)
    requires PartOfSettings(part, given)
    ensures Configure(Configure(was, part), given) == Configure(was, given)
  {}

  ghost predicate SameSettings(d: Device, d': Device, c: Config) {
    && d'.name == d.name && d'.index == d.index
    && Configure(d'.settings, SettingsOf(c)) == Configure(d.settings, SettingsOf(c))
  }

  /** The request a message of a configuration makes. */
  lemma RequestOfMessage(c: Config, cmd: Command, first: bool, entries: seq<Peer>)
    requires IfaceFault(c).None?
    ensures var r := RequestOf(MessageOf(c, cmd, first, entries));
            && r.name == c.ifaceName && r.index == (if c.ifaceName.Some? then None else c.ifaceIndex)
            && r.settings == (if first then SettingsOf(c) else NO_SETTINGS)
            && r.flags == (if first then DeviceFlagBitsOf(c) else {})
            && r.entries == if c.peers.Some? then entries else []
  {
    hide DecodeKey, KeyOf, DeviceAttrs;
    var device := if first then DeviceAttrs(c) else [IfaceAttr(c)];
    DeviceRequest(c);
    IfaceRequest(c);
    if c.peers.Some? {
      FoldSnoc(SetProperty, NO_REQUEST, device, Peers(entries));
    } else {
      assert device + [] == device;
    }
  }

  lemma PartKeepsSettings(d: Device, c: Config, m: Message, effect: Option<Request>)
    requires RequestOf(m).settings == SettingsOf(c) || RequestOf(m).settings == NO_SETTINGS
    ensures SameSettings(d, ApplyPart(d, m, effect), c)
  {
    hide RequestOf, KeyOf, SettingsOf, ApplyEntry, Configure, PartOfFields;
    if effect.Some? && PartOfRequest(effect.value, RequestOf(m)) && IsFor(effect.value, d) {
      var q := effect.value;
      EntriesKeep(Prepare(d, q.flags, q.settings), q.entries);
      NothingIsPart(q.settings, SettingsOf(c));
      ConfigureAgain(d.settings, q.settings, SettingsOf(c));
    }
  }

  lemma NothingIsPart(part: Settings, whole: Settings)
    ensures PartOfSettings(part, NO_SETTINGS) ==> PartOfSettings(part, whole)
  {}

  /** An interrupted run only changes settings that the configuration sets. */
  lemma InterruptedSettings(d: Device, c: Config, cmd: Command, run: Run)
    requires MessagesOf(c, cmd).Ok?
    ensures SameSettings(d, Interrupted(d, MessagesOf(c, cmd).value, run), c)
  {
    hide MessagesOf, MessageGroups, MessageOf, ApplyEntry, ApplyMessage, DecodeKey, KeyOf, SettingsOf, PeerFault,
         Configure, RequestOf, ApplyPart, PartOfSettings;
    AcceptedIffSound(c, cmd);
    var groups, messages := MessageGroups(c), MessagesOf(c, cmd).value;
    var k := if run.sent < |messages| then run.sent else |messages|;
    assert messages[..|messages|] == messages;
    var before := ApplyMessages(d, messages[..k]);
    assert SameSettings(d, before, c) by {
      assert messages[..k] == Render(c, cmd, groups[..k]);
      if k > 0 {
        ApplyRendered(d, c, cmd, groups[..k]);
        EntriesKeep(Prepared(d, c), if c.peers.Some? then Flatten(groups[..k]) else []);
        SettingsAreParts(c);
        ConfigureAgain(d.settings, SettingsOf(c), SettingsOf(c));
      }
    }
    if k < |messages| {
      assert messages[k] == MessageOf(c, cmd, k == 0, groups[k]);
      RequestOfMessage(c, cmd, k == 0, groups[k]);
      PartKeepsSettings(before, c, messages[k], run.effect);
    }
  }

  lemma SettingsAreParts(c: Config)
    ensures PartOfSettings(SettingsOf(c), SettingsOf(c))
  {
    hide KeyOf;
  }

  lemma {:induction false} RunsKeepSettings(d: Device, c: Config, cmd: Command, runs: seq<Run>)
    requires MessagesOf(c, cmd).Ok?
    ensures SameSettings(d, AfterRuns(d, MessagesOf(c, cmd).value, runs), c)
    decreases |runs|
  {
    hide MessagesOf, SettingsOf, Configure, Interrupted;
    if runs != [] {
      InterruptedSettings(d, c, cmd, runs[0]);
      RunsKeepSettings(Interrupted(d, MessagesOf(c, cmd).value, runs[0]), c, cmd, runs[1..]);
    }
  }

  /** A configuration that replaces all peers can be retried: wherever its runs were interrupted, between messages,
      within the settings, within an entry, applying all messages leaves the device that they leave the first time. */
  lemma RetryHeals(d: Device, c: Config, cmd: Command, runs: seq<Run>)
    requires MessagesOf(c, cmd).Ok? && Addresses(c, d)
    requires REPLACE_PEERS <= DeviceFlagBitsOf(c)
    ensures var messages := MessagesOf(c, cmd).value;
            ApplyMessages(AfterRuns(d, messages, runs), messages) == ApplyMessages(d, messages)
  {
    hide MessagesOf, DecodeKey, KeyOf, AfterRuns, SettingsOf, DeviceFlagBitsOf, ApplyMessages, Addresses, Configure;
    RunsKeepSettings(d, c, cmd, runs);
    ReplacingForgets(d, AfterRuns(d, MessagesOf(c, cmd).value, runs), c, cmd);
  }
}
