/** What a caller does with one handle: reading and setting what was read, setting and reading what was set. */
module Sessions {
  import opened Applying
  import opened Base64
  import opened Device
  import opened Dump
  import opened Flags
  import opened GetThenSet
  import opened Handle
  import opened Idle
  import opened Keys
  import opened Meaning
  import opened Netlink
  import opened Parsed
  import opened PeerParsed
  import opened Reassembly
  import opened Retry
  import opened RetryKept
  import opened Sequences
  import opened SetThenGet
  import opened Turns
  import opened Wrappers

  /** The answer to a query that was sent after `sent` is a list of messages, without an error. */
  ghost predicate AnswersQuery(o: Outcome, messages: seq<Message>) {
    o.Answered? && var items := Items(o.replies);
    && FirstError(items).None? && |items| == |messages| > 0
    && forall i :: 0 <= i < |items| ==> items[i] == Ok(messages[i])
  }

  function QueryFor(ifaceName: seq<Byte>): Sent {
    Sent(0x305, Message(GetDevice, [IfName(ifaceName)]))
  }

  lemma AnswerIsRead(o: Outcome, messages: seq<Message>)
    requires AnswersQuery(o, messages)
    requires forall i :: 0 <= i < |Items(o.replies)| ==> Items(o.replies)[i].Ok?
    ensures Received(Items(o.replies)) == messages
  {
    hide Items;
  }

  /** Reads the configuration of a device and sets it. If the replies are a true dump of the device, then it is as it
      was afterwards, even if setting fails on the way. */
  method ReadThenSet(handle: WireguardHandle, ifaceName: seq<Byte>, ghost dump: seq<Message>)
      returns (r: Result<(), Failure>)
    modifies handle
    ensures IfaceFault(QueryOf(ifaceName)).None? && IsReal(old(handle.device)) && IsDumpOf(dump, old(handle.device))
            && AnswersQuery(handle.answer(old(handle.sent) + [QueryFor(ifaceName)]), dump) ==>
              && handle.device == old(handle.device)
              && MessagesOf(ReadMessages(dump), SetDevice).Ok?
              && (r.Ok? ==> handle.sent == old(handle.sent) + [QueryFor(ifaceName)]
                                           + Map(SetRequest, MessagesOf(ReadMessages(dump), SetDevice).value))
  {
    hide Items, ReadMessages, MessagesOf, IsDumpOf, ApplyMessages, Interrupted, Describes, Applicable, IfaceFault,
         Entries, AllAttrs, AllChunks;
    ghost var d, o := handle.device, handle.answer(handle.sent + [QueryFor(ifaceName)]);
    var read := handle.GetByName(ifaceName);
    if IfaceFault(QueryOf(ifaceName)).None? && AnswersQuery(o, dump) {
      AnswerIsRead(o, dump);
    }
    if read.Err? {
      return Err(Failure(read.error, None));
    }
    r := handle.Set(read.value);
    if IsReal(d) && IsDumpOf(dump, d) && AnswersQuery(o, dump) && IfaceFault(QueryOf(ifaceName)).None? {
      var c := read.value;
      DumpDescribes(dump, d);
      GetThenSetChangesNothing(dump, d);
      if r.Err? {
        ghost var messages := MessagesOf(c, SetDevice).value;
        ghost var k, effect :| handle.device == Interrupted(d, messages, Run(k, effect));
        InterruptedReapply(d, c, SetDevice, Run(k, effect));
      }
    }
  }

  /** Each peer that was read is one that the entries leave. */
  ghost predicate Leaves(fs: seq<Fields>, keys: seq<Key>, got: seq<PeerConfig>) {
    && |got| == |keys| && Distinct(keys)
    && (forall key: Key :: key in keys <==> PresentAt(false, fs, |fs|, key))
    && forall i :: 0 <= i < |got| ==> ReadsAs(fs, keys[i], got[i])
  }

  /** Sets a configuration and reads it. If both succeed, the configuration replaces all peers and the replies are a
      complete dump of the device, then the peers that are read are those that the configuration sets. */
  method SetThenRead(handle: WireguardHandle, c: Config, ifaceName: seq<Byte>, ghost dump: seq<Message>,
                     ghost keys: seq<Key>, ghost ts: seq<Transmission>) returns (r: Result<Config, ErrorKind>)
    modifies handle
    ensures r.Ok? ==> && MessagesOf(c, SetDevice).Ok?
                      && handle.sent == old(handle.sent) + Map(SetRequest, MessagesOf(c, SetDevice).value)
                                        + [QueryFor(ifaceName)]
    ensures r.Ok? && IfaceFault(QueryOf(ifaceName)).None? && Addresses(c, old(handle.device))
            && REPLACE_PEERS <= DeviceFlagBitsOf(c)
            && AnswersQuery(handle.answer(handle.sent), dump) && IsFullDump(dump, handle.device, keys, ts) ==>
              Leaves(SeenOf(c), keys, PeersOf(r.value))
  {
    hide Items, ReadMessages, MessagesOf, IsFullDump, ApplyMessages, IfaceFault, Entries, AllAttrs, AllChunks, SeenOf,
         Addresses, DeviceFlagBitsOf, ReadsAs;
    ghost var d := handle.device;
    var done := handle.Set(c);
    if done.Err? {
      return Err(done.error.kind);
    }
    r := handle.GetByName(ifaceName);
    if r.Ok? && IfaceFault(QueryOf(ifaceName)).None? && Addresses(c, d) && REPLACE_PEERS <= DeviceFlagBitsOf(c)
       && AnswersQuery(handle.answer(handle.sent), dump) && IsFullDump(dump, handle.device, keys, ts) {
      AnswerIsRead(handle.answer(handle.sent), dump);
      EntriesComeBack(d, c, dump, keys, ts);
    }
  }
}
