/** The handle that sends messages and classifies the replies (src/handle.rs). */
module Handle {
  import opened Applying
  import opened Base64
  import opened Device
  import opened Flags
  import opened Keys
  import opened Lengths
  import opened Meaning
  import opened Netlink
  import opened Parsed
  import opened PeerParsed
  import opened Reassembly
  import opened Retry
  import opened RetryExact
  import opened RetryKept
  import opened Sequences
  import opened Wrappers

  type ErrorCode = c: int | c != 0 witness -1

  /** The payload of a reply; an `Error` without a code is an acknowledgement. */
  datatype Payload =
    | InnerMessage(message: Message)
    | Error(code: Option<ErrorCode>)
    | Done(status: int)
    | Noop
    | Overrun
    | OtherPayload

  datatype Reply = Decoded(payload: Payload) | Undecodable

  /** How the other side treats one request: it cannot be sent, or it is answered by a stream of replies. A request that
      is answered by an error may have taken effect in part, as `effect` says. */
  datatype Outcome = SendFailed | Answered(replies: seq<Reply>, effect: Option<Request>)

  const NLM_F_REQUEST: nat := 0x1
  const NLM_F_ACK: nat := 0x4
  const NLM_F_DUMP: nat := 0x300

  datatype Sent = Sent(headerFlags: nat, message: Message)

  /** The item of the stream that a reply becomes, if it becomes one. */
  function Classify(r: Reply): Option<Result<Message, ErrorKind>> {
    match r
    case Undecodable => Some(Err(DecodeError))
    case Decoded(InnerMessage(m)) => Some(Ok(m))
    case Decoded(Error(code)) => if code.None? then None else Some(Err(NetlinkError))
    case Decoded(Done(status)) => if status == 0 then None else Some(Err(NetlinkError))
    case Decoded(Noop) => None
    case Decoded(Overrun) => Some(Err(Bug))
    case Decoded(OtherPayload) => Some(Err(Bug))
  }

  function ClassifyItem(r: Reply): seq<Result<Message, ErrorKind>> {
    Maybe(Classify(r))
  }

  function Items(replies: seq<Reply>): seq<Result<Message, ErrorKind>> {
    Flatten(Map(ClassifyItem, replies))
  }

  /** The first error among the items. */
  function FirstError(items: seq<Result<Message, ErrorKind>>): Option<ErrorKind> {
    if items == [] then None
    else if items[0].Err? then Some(items[0].error)
    else FirstError(items[1..])
  }

  lemma {:induction false} FirstErrorAt(items: seq<Result<Message, ErrorKind>>, n: nat)
    requires n <= |items| && forall i :: 0 <= i < n ==> items[i].Ok?
    ensures FirstError(items) == FirstError(items[n..])
    decreases n
  {
    if n == 0 {
      assert items[0..] == items;
    } else {
      FirstErrorAt(items[1..], n - 1);
      assert items[1..][n - 1..] == items[n..];
    }
  }

  /* Which replies are errors */

  /** The reply says that the request failed, or it cannot be made sense of. */
  ghost predicate IsBad(r: Reply) {
    || r == Undecodable
    || (exists code: ErrorCode :: r == Decoded(Error(Some(code))))
    || (exists status: int :: status != 0 && r == Decoded(Done(status)))
    || r == Decoded(Overrun)
    || r == Decoded(OtherPayload)
  }

  /** The messages among the replies. */
  function Inner(replies: seq<Reply>): seq<Message> {
    if replies == [] then []
    else
      var n := |replies| - 1;
      Inner(replies[..n]) + if replies[n].Decoded? && replies[n].payload.InnerMessage? then [replies[n].payload.message]
                            else []
  }

  lemma BadReply(r: Reply)
    ensures IsBad(r) <==> Classify(r).Some? && Classify(r).value.Err?
    ensures IsBad(r) ==> Classify(r).value.error == if r == Undecodable then DecodeError
                                                    else if r.payload in {Overrun, OtherPayload} then Bug
                                                    else NetlinkError
    ensures !IsBad(r) ==> r.Decoded?
    ensures !IsBad(r) ==> Classify(r) == if r.payload.InnerMessage? then Some(Ok(r.payload.message)) else None
  {
    if r.Decoded? && r.payload.Error? && r.payload.code.Some? {
      assert r == Decoded(Error(Some(r.payload.code.value)));
    } else if r.Decoded? && r.payload.Done? {
      assert r == Decoded(Done(r.payload.status));
    }
  }

  lemma ItemsSnoc(replies: seq<Reply>, n: nat)
    requires n < |replies|
    ensures Items(replies[..n + 1]) == Items(replies[..n]) + Maybe(Classify(replies[n]))
  {
    hide Classify;
    assert Map(ClassifyItem, replies[..n + 1]) == Map(ClassifyItem, replies[..n]) + [ClassifyItem(replies[n])];
    FlattenSnoc(Map(ClassifyItem, replies[..n]), ClassifyItem(replies[n]));
  }

  /** In front of the first bad reply, the stream yields the messages, in order and nothing else: acknowledgements and
      the end of a dump are left out. */
  lemma {:induction false} ItemsAreMessages(replies: seq<Reply>, n: nat)
    requires n <= |replies| && forall i :: 0 <= i < n ==> !IsBad(replies[i])
    ensures |Items(replies[..n])| == |Inner(replies[..n])|
    ensures forall k :: 0 <= k < |Items(replies[..n])| ==> Items(replies[..n])[k] == Ok(Inner(replies[..n])[k])
    decreases n
  {
    hide Classify, IsBad, Items, Inner;
    if n == 0 {
      NoItems();
      assert replies[..0] == [];
    } else {
      ItemsAreMessages(replies, n - 1);
      ItemsSnoc(replies, n - 1);
      BadReply(replies[n - 1]);
      InnerSnoc(replies, n - 1);
    }
  }

  lemma InnerSnoc(replies: seq<Reply>, n: nat)
    requires n < |replies|
    ensures Inner(replies[..n + 1])
            == Inner(replies[..n]) + if replies[n].Decoded? && replies[n].payload.InnerMessage?
                                     then [replies[n].payload.message] else []
  {
    assert replies[..n + 1][..n] == replies[..n] && replies[..n + 1][n] == replies[n];
  }

  lemma NoItems()
    ensures Items([]) == [] && Inner([]) == []
  {}

  lemma {:induction false} ItemsBegin(replies: seq<Reply>, n: nat)
    requires n <= |replies|
    ensures Items(replies[..n]) <= Items(replies)
    decreases |replies| - n
  {
    hide Items;
    if n == |replies| {
      assert replies[..n] == replies;
    } else {
      ItemsSnoc(replies, n);
      ItemsBegin(replies, n + 1);
    }
  }

  /** A request is answered by an error exactly when one of the replies is bad. */
  lemma ErrorIffReply(replies: seq<Reply>)
    ensures FirstError(Items(replies)).Some? <==> exists i :: 0 <= i < |replies| && IsBad(replies[i])
  {
    hide Classify, IsBad, Items, FirstError;
    if n :| 0 <= n < |replies| && IsBad(replies[n]) {
      var first := FirstBad(replies, n);
      BadReplyIsReported(replies, first);
    } else {
      ItemsAreMessages(replies, |replies|);
      assert replies[..|replies|] == replies;
      NothingReported(Items(replies));
    }
  }

  /** Without a bad reply the stream yields exactly the messages among the replies, in order. */
  lemma MessagesAreYielded(replies: seq<Reply>)
    requires forall i :: 0 <= i < |replies| ==> !IsBad(replies[i])
    ensures Items(replies) == Map(m => Ok(m), Inner(replies))
    ensures Received(Items(replies)) == Inner(replies)
  {
    hide Classify, IsBad, Items;
    ItemsAreMessages(replies, |replies|);
    assert replies[..|replies|] == replies;
  }

  lemma {:induction false} FirstBad(replies: seq<Reply>, n: nat) returns (first: nat)
    requires n < |replies| && IsBad(replies[n])
    ensures first <= n && IsBad(replies[first]) && forall i :: 0 <= i < first ==> !IsBad(replies[i])
    decreases n
  {
    hide IsBad;
    if i :| 0 <= i < n && IsBad(replies[i]) {
      first := FirstBad(replies, i);
    } else {
      first := n;
    }
  }

  /** The first bad reply decides what is reported: undecodable replies are decode errors, lost and unexpected messages
      are bugs, and error codes are those of netlink. */
  lemma BadReplyIsReported(replies: seq<Reply>, n: nat)
    requires n < |replies| && IsBad(replies[n]) && forall i :: 0 <= i < n ==> !IsBad(replies[i])
    ensures FirstError(Items(replies)) == Some(if replies[n] == Undecodable then DecodeError
                                               else if replies[n].payload in {Overrun, OtherPayload} then Bug
                                               else NetlinkError)
  {
    hide Classify, IsBad, Items;
    ItemsAreMessages(replies, n);
    ItemsSnoc(replies, n);
    BadReply(replies[n]);
    ItemsBegin(replies, n + 1);
    var items, k := Items(replies), |Items(replies[..n])|;
    assert items[..k] == Items(replies[..n]) && items[k] == Classify(replies[n]).value;
    assert forall i :: 0 <= i < k ==> items[i] == items[..k][i];
    FirstErrorAt(items, k);
  }

  lemma NothingReported(items: seq<Result<Message, ErrorKind>>)
    requires forall i :: 0 <= i < |items| ==> items[i].Ok?
    ensures FirstError(items).None?
  {
    FirstErrorAt(items, |items|);
  }

  /** The request failed: it was not sent, or it was answered by an error. */
  predicate Fails(o: Outcome) {
    o.SendFailed? || FirstError(Items(o.replies)).Some?
  }

  /** What a request makes of the device. */
  ghost function After(d: Device, m: Message, o: Outcome): Device {
    if m.cmd.GetDevice? || o.SendFailed? then d
    else if !Fails(o) then ApplyMessage(d, m)
    else ApplyPart(d, m, o.effect)
  }

  datatype Part = Part(index: nat, total: nat)

  /** A failure of `set`, with the part of the configuration that failed if there are several. */
  datatype Failure = Failure(kind: ErrorKind, part: Option<Part>)

  /** The outcome of request `i` of a run that started after `sent`. */
  function OutcomeOf(answer: seq<Sent> -> Outcome, sent: seq<Sent>, requests: seq<Sent>, i: nat): Outcome
    requires i < |requests|
  {
    answer(sent + requests[..i + 1])
  }

  /** The device is left by a run that was interrupted at message `k`. */
  ghost predicate IsInterrupted(before: Device, after: Device, messages: seq<Message>, k: nat) {
    k < |messages| && exists effect :: after == Interrupted(before, messages, Run(k, effect))
  }

  lemma SetRequestDone(before: Device, messages: seq<Message>, k: nat, o: Outcome)
    requires k < |messages| && messages[k].cmd.SetDevice?
    ensures var d := ApplyMessages(before, messages[..k]);
            if Fails(o) then IsInterrupted(before, After(d, messages[k], o), messages, k)
            else After(d, messages[k], o) == ApplyMessage(d, messages[k])
  {
    hide ApplyMessages, PartOfRequest, Items;
    if Fails(o) {
      var effect := if o.SendFailed? then None else o.effect;
      assert After(ApplyMessages(before, messages[..k]), messages[k], o)
          == Interrupted(before, messages, Run(k, effect));
    }
  }

  function SetRequest(m: Message): Sent {
    Sent(NLM_F_REQUEST + NLM_F_ACK, m)
  }

  /** A request to set asks for an acknowledgement: bits 0 and 2 of the header flags. */
  lemma SetAsksForAck(m: Message)
    ensures SetRequest(m) == Sent(0x5, m)
  {}

  function QueryOf(ifaceName: seq<Byte>): Config {
    NO_CONFIG.(ifaceName := Some(ifaceName))
  }

  /** The items in front of an error, as messages. */
  function Received(items: seq<Result<Message, ErrorKind>>): seq<Message>
    requires forall i :: 0 <= i < |items| ==> items[i].Ok?
  {
    seq(|items|, i requires 0 <= i < |items| => items[i].value)
  }

  class WireguardHandle {
    /** All requests so far. */
    var sent: seq<Sent>

    /** The other side: what it makes of the last of a sequence of requests. */
    const answer: seq<Sent> -> Outcome

    /** The device at the other side. */
    ghost var device: Device

    constructor (answer: seq<Sent> -> Outcome, ghost device: Device)
      ensures this.answer == answer && this.device == device && sent == []
    {
      this.answer := answer;
      this.device := device;
      sent := [];
    }

    method Request(headerFlags: nat, message: Message)
      returns (r: Result<seq<Result<Message, ErrorKind>>, ErrorKind>)
      modifies this
      ensures sent == old(sent) + [Sent(headerFlags, message)]
      ensures r == match answer(sent)
                   case SendFailed => Err(NetlinkError)
                   case Answered(replies, _) => Ok(Items(replies))
      ensures device == After(old(device), message, answer(sent))
    {
      sent := sent + [Sent(headerFlags, message)];
      var outcome := answer(sent);
      device := After(device, message, outcome);
      match outcome {
        case SendFailed => return Err(NetlinkError);
        case Answered(replies, _) =>
          var items: seq<Result<Message, ErrorKind>> := [];
          for i := 0 to |replies|
            invariant items == Items(replies[..i])
            invariant sent == old(sent) + [Sent(headerFlags, message)]
            invariant device == After(old(device), message, outcome)
          {
            ItemsSnoc(replies, i);
            var item := Classify(replies[i]);
            if item.Some? {
              items := items + [item.value];
            }
          }
          assert replies[..|replies|] == replies;
          return Ok(items);
      }
    }

    /** Sends the messages of `c` one after the other and stops at the first one that fails. Without a failure all
        messages were sent and took effect; with one, `n` messages were sent, the failure is that of the last of them,
        and the run was interrupted there. */
    method Set(c: Config) returns (r: Result<(), Failure>)
      modifies this
      ensures match MessagesOf(c, SetDevice)
              case Err(kind) => r == Err(Failure(kind, None)) && sent == old(sent) && device == old(device)
              case Ok(messages) =>
                var requests := Map(SetRequest, messages);
                && (r.Ok? <==> forall i :: 0 <= i < |messages| ==> !Fails(OutcomeOf(answer, old(sent), requests, i)))
                && (r.Ok? ==> sent == old(sent) + requests && device == ApplyMessages(old(device), messages))
                && (r.Err? ==>
                      var n := |sent| - |old(sent)|;
                      && 0 < n <= |messages| && sent == old(sent) + requests[..n]
                      && (forall i :: 0 <= i < n - 1 ==> !Fails(OutcomeOf(answer, old(sent), requests, i)))
                      && (match answer(sent)
                          case SendFailed => r.error == Failure(NetlinkError, None)
                          case Answered(replies, _) =>
                            && FirstError(Items(replies)) == Some(r.error.kind)
                            && r.error.part == if |messages| > 1 then Some(Part(n, |messages|)) else None)
                      && IsInterrupted(old(device), device, messages, n - 1)
                      && (c.peers.Some? ==> Entries(AllAttrs(messages[..n - 1])) <= AllChunks(PeersOf(c))))
    {
      hide MessagesOf, ApplyMessage, After, IsInterrupted, Items, Classify, Entries, AllAttrs, AllChunks;
      var built := BuildMessages(c, SetDevice);
      if built.Err? {
        return Err(Failure(built.error, None));
      }
      var messages := built.value;
      var total := |messages|;
      ghost var requests, sent0, device0 := Map(SetRequest, messages), sent, device;
      SetMessages(c);
      for index := 0 to total
        invariant sent == sent0 + requests[..index]
        invariant device == ApplyMessages(device0, messages[..index])
        invariant forall i :: 0 <= i < index ==> !Fails(OutcomeOf(answer, sent0, requests, i))
      {
        if c.peers.Some? { RunIsPrefix(c, SetDevice, index); }
        ghost var before := device;
        var stream := Request(NLM_F_REQUEST + NLM_F_ACK, messages[index]);
        SetRequestDone(device0, messages, index, answer(sent));
        assert device == After(before, messages[index], answer(sent));
        assert requests[..index + 1] == requests[..index] + [SetRequest(messages[index])];
        assert sent == sent0 + requests[..index + 1];
        assert messages[..index + 1] == messages[..index] + [messages[index]];
        FoldSnoc(ApplyMessage, device0, messages[..index], messages[index]);
        if stream.Err? {
          assert Fails(OutcomeOf(answer, sent0, requests, index));
          return Err(Failure(stream.error, None));
        }
        var items := stream.value;
        for j := 0 to |items|
          invariant forall i :: 0 <= i < j ==> items[i].Ok?
        {
          if items[j].Err? {
            FirstErrorAt(items, j);
            assert FirstError(items) == Some(items[j].error);
            assert Fails(OutcomeOf(answer, sent0, requests, index));
            return Err(Failure(items[j].error, if total > 1 then Some(Part(index + 1, total)) else None));
          }
        }
        FirstErrorAt(items, |items|);
        assert !Fails(OutcomeOf(answer, sent0, requests, index));
      }
      assert requests[..total] == requests && messages[..total] == messages;
      return Ok(());
    }

    /** Removes one peer by one message. */
    method RemovePeer(ifaceName: seq<Byte>, publicKey: string) returns (r: Result<(), Failure>)
      modifies this
      ensures !IsKeyText(publicKey) ==> r == Err(Failure(InvalidKey, None)) && sent == old(sent)
      ensures IsKeyText(publicKey) && IfaceFault(QueryOf(ifaceName)).Some? ==>
                r == Err(Failure(InvalidInput, None)) && sent == old(sent)
      ensures IsKeyText(publicKey) && IfaceFault(QueryOf(ifaceName)).None? ==>
                var key := KeyOf(publicKey);
                && |sent| == |old(sent)| + 1
                && (match answer(sent)
                    case SendFailed => r == Err(Failure(NetlinkError, None))
                    case Answered(replies, _) =>
                      var error := FirstError(Items(replies));
                      if error.Some? then r == Err(Failure(error.value, None)) else r.Ok?)
                && (r.Ok? ==> device == if ifaceName == old(device).name && key in old(device).peers
                                        then WithoutPeer(old(device), key) else old(device))
    {
      hide MessagesOf, ApplyMessage, DecodeKey, IsKeyText, KeyOf, Interrupted;
      RemovalMeaning(device, ifaceName, publicKey);
      ghost var c := RemovalOf(ifaceName, publicKey);
      assert IfaceFault(c) == IfaceFault(QueryOf(ifaceName));
      ghost var sent0 := sent;
      r := Set(NO_CONFIG.(ifaceName := Some(ifaceName), peers := Some([Remove(publicKey)])));
      if MessagesOf(c, SetDevice).Ok? {
        ghost var requests := Map(SetRequest, MessagesOf(c, SetDevice).value);
        assert requests[..0 + 1] == requests;
        assert OutcomeOf(answer, sent0, requests, 0) == answer(sent0 + requests);
        if r.Err? {
          assert |sent| - |sent0| == 1;
        } else {
          assert !Fails(OutcomeOf(answer, sent0, requests, 0));
        }
      }
    }

    /** Asks for a device by its name and reads all replies, unless one of them is an error. */
    method GetByName(ifaceName: seq<Byte>) returns (r: Result<Config, ErrorKind>)
      modifies this
      ensures device == old(device)
      ensures IfaceFault(QueryOf(ifaceName)).Some? ==> r == Err(InvalidInput) && sent == old(sent)
      ensures IfaceFault(QueryOf(ifaceName)).None? ==>
                && sent == old(sent) + [Sent(0x305, Message(GetDevice, [IfName(ifaceName)]))]
                && match answer(sent)
                   case SendFailed => r == Err(NetlinkError)
                   case Answered(replies, _) =>
                     var items := Items(replies);
                     if FirstError(items).Some? then r == Err(FirstError(items).value)
                     else if items == [] then r == Err(Bug)
                     else (forall i :: 0 <= i < |items| ==> items[i].Ok?) && r == Ok(ReadMessages(Received(items)))
    {
      hide Items, ReadMessages, MessagesOf;
      var query := QueryOf(ifaceName);
      QueryMessage(ifaceName);
      var message :- BuildSingle(query, GetDevice);
      var stream :- Request(NLM_F_REQUEST + NLM_F_ACK + NLM_F_DUMP, message);
      var messages: seq<Message> := [];
      for j := 0 to |stream|
        invariant forall i :: 0 <= i < j ==> stream[i].Ok?
        invariant messages == Received(stream[..j])
      {
        if stream[j].Err? {
          FirstErrorAt(stream, j);
          return Err(stream[j].error);
        }
        messages := messages + [stream[j].value];
      }
      FirstErrorAt(stream, |stream|);
      assert stream[..|stream|] == stream;
      if messages == [] {
        return Err(Bug);
      }
      var config := FromMessages(messages);
      return Ok(config);
    }
  }

  lemma SetMessages(c: Config)
    requires MessagesOf(c, SetDevice).Ok?
    ensures forall i :: 0 <= i < |MessagesOf(c, SetDevice).value| ==> MessagesOf(c, SetDevice).value[i].cmd.SetDevice?
  {
    hide MessagesOf, MessageGroups;
    AcceptedIffSound(c, SetDevice);
  }

  lemma QueryMessage(ifaceName: seq<Byte>)
    ensures var c := QueryOf(ifaceName);
            SingleOf(c, GetDevice) == if IfaceFault(c).Some? then Err(InvalidInput)
                                      else Ok(Message(GetDevice, [IfName(ifaceName)]))
  {
    assert Map(Chunks, []) == [];
    var c := QueryOf(ifaceName);
    assert PeersOf(c)[..0] == [];
    assert DeviceAttrs(c) == [IfName(ifaceName)] && [IfName(ifaceName)] + [] == [IfName(ifaceName)];
  }

  /** Applying the configuration to the device, after any interrupted runs of it, leaves the device that one
      uninterrupted run leaves: it replaces all peers, or runs after interrupted ones are harmless. */
  ghost predicate CanBeRetried(d: Device, c: Config) {
    Addresses(c, d) && (REPLACE_PEERS <= DeviceFlagBitsOf(c) || CanBeRepeated(d, c))
  }

  /** That is so for every accepted configuration without update-only peers, whatever its keys. */
  lemma PlainCanBeRetried(d: Device, c: Config)
    requires MessagesOf(c, SetDevice).Ok? && Addresses(c, d) && d.Valid() && NoUpdateOnly(c)
    ensures CanBeRetried(d, c)
  {
    hide MessagesOf, PeerFault, FlagBits, CanBeRepeated, Addresses;
    AcceptedIffSound(c, SetDevice);
    WithoutUpdateOnly(d, c);
  }

  lemma RunsHeal(before: Device, c: Config, runs: seq<Run>)
    requires MessagesOf(c, SetDevice).Ok? && CanBeRetried(before, c)
    ensures var messages := MessagesOf(c, SetDevice).value;
            ApplyMessages(AfterRuns(before, messages, runs), messages) == ApplyMessages(before, messages)
  {
    hide MessagesOf, ApplyMessages, AfterRuns, Addresses, DeviceFlagBitsOf, CanBeRepeated;
    if REPLACE_PEERS <= DeviceFlagBitsOf(c) {
      RetryHeals(before, c, SetDevice, runs);
    } else {
      RetryHealsKept(before, c, SetDevice, runs);
    }
  }

  /** After a `set` that failed anywhere, a `set` of the same configuration that succeeds leaves the device that the
      first one would have left. */
  lemma FailedSetHeals(before: Device, after: Device, c: Config, k: nat)
    requires MessagesOf(c, SetDevice).Ok? && CanBeRetried(before, c)
    requires IsInterrupted(before, after, MessagesOf(c, SetDevice).value, k)
    ensures var messages := MessagesOf(c, SetDevice).value;
            ApplyMessages(after, messages) == ApplyMessages(before, messages)
  {
    hide MessagesOf, ApplyMessages, Interrupted, CanBeRetried;
    var messages := MessagesOf(c, SetDevice).value;
    var effect :| after == Interrupted(before, messages, Run(k, effect));
    AfterOneMoreRun(before, messages, [], Run(k, effect));
    RunsHeal(before, c, [] + [Run(k, effect)]);
  }

  lemma {:induction false} AfterOneMoreRun(d: Device, messages: seq<Message>, runs: seq<Run>, run: Run)
    ensures AfterRuns(d, messages, runs + [run]) == Interrupted(AfterRuns(d, messages, runs), messages, run)
    decreases |runs|
  {
    hide Interrupted;
    if runs == [] {
      assert ([] + [run])[1..] == [];
    } else {
      assert (runs + [run])[1..] == runs[1..] + [run];
      AfterOneMoreRun(Interrupted(d, messages, runs[0]), messages, runs[1..], run);
    }
  }

  /** A caller that calls `set` until it succeeds, at most `attempts` times. If it succeeds in the end, the device is
      left as if the first attempt had succeeded. */
  method SetRepeatedly(handle: WireguardHandle, c: Config, attempts: nat) returns (r: Result<(), Failure>)
    requires attempts > 0
    modifies handle
    ensures MessagesOf(c, SetDevice).Err? ==>
              r.Err? && handle.sent == old(handle.sent) && handle.device == old(handle.device)
    ensures MessagesOf(c, SetDevice).Ok? && CanBeRetried(old(handle.device), c) && r.Ok? ==>
              handle.device == ApplyMessages(old(handle.device), MessagesOf(c, SetDevice).value)
  {
    hide MessagesOf, ApplyMessages, Interrupted, AfterRuns, Entries, AllAttrs, AllChunks, CanBeRetried, Items;
    ghost var before, runs: seq<Run> := handle.device, [];
    NoRuns(before);
    r := Ok(());
    for i := 0 to attempts
      invariant i > 0 ==> r.Err?
      invariant MessagesOf(c, SetDevice).Err? ==> handle.sent == old(handle.sent) && handle.device == before
      invariant MessagesOf(c, SetDevice).Ok? ==>
                  handle.device == AfterRuns(before, MessagesOf(c, SetDevice).value, runs)
    {
      ghost var was, n := handle.device, |handle.sent|;
      r := handle.Set(c);
      if r.Ok? {
        if CanBeRetried(before, c) { RunsHeal(before, c, runs); }
        return;
      }
      if MessagesOf(c, SetDevice).Ok? {
        ghost var messages, k := MessagesOf(c, SetDevice).value, |handle.sent| - n - 1;
        ghost var effect :| handle.device == Interrupted(was, messages, Run(k, effect));
        AfterOneMoreRun(before, messages, runs, Run(k, effect));
        runs := runs + [Run(k, effect)];
      }
    }
  }

  lemma NoRuns(d: Device)
    ensures forall messages: seq<Message> :: AfterRuns(d, messages, []) == d
  {}

  /** The messages that were accepted before a failure account for a prefix of the entries of the configuration. */
  lemma RunIsPrefix(c: Config, cmd: Command, n: nat)
    requires MessagesOf(c, cmd).Ok? && n <= |MessagesOf(c, cmd).value| && c.peers.Some?
    ensures Entries(AllAttrs(MessagesOf(c, cmd).value[..n])) <= AllChunks(PeersOf(c))
  {
    hide MessagesOf, MessageGroups, MessageOf, AllChunks, Entries, AllAttrs;
    AcceptedIffSound(c, cmd);
    var groups := MessageGroups(c);
    assert MessagesOf(c, cmd).value[..n] == Render(c, cmd, groups[..n]);
    RenderedEntries(c, cmd, groups[..n]);
    MessageGroupsHoldAll(c);
    FlattenConcat(groups[..n], groups[n..]);
    assert groups[..n] + groups[n..] == groups;
  }
}
