/** Reading messages back into a configuration: the two `From` conversions of src/parsed.rs. */
module Reassembly {
  import opened Coalesce
  import opened Flags
  import opened Fragments
  import opened Keys
  import opened Netlink
  import opened Parsed
  import opened PeerParsed
  import opened Sequences
  import opened Wrappers

  /** The properties that the last attribute of their kind decides, alike in both readers. */
  function ReadPlainAttr(acc: Config, a: DeviceAttr): Config {
    match a
    case IfName(v) => acc.(ifaceName := Some(v))
    case IfIndex(v) => acc.(ifaceIndex := Some(v))
    case PrivateKey(k) => acc.(privateKey := Some(KeyText(k)))
    case DevicePublicKey(k) => acc.(publicKey := Some(KeyText(k)))
    case ListenPort(v) => acc.(listenPort := Some(v))
    case Fwmark(v) => acc.(fwmark := Some(v))
    case _ => acc
  }

  function FlagsOf(c: Config): seq<DeviceFlag> {
    if c.flags.Some? then c.flags.value else []
  }

  /** Of several messages, peers are coalesced and flags are collected. */
  function ReadAttr(acc: Config, a: DeviceAttr): Config {
    match a
    case Peers(peers) => acc.(peers := Some(Fold(PushPeer, PeersOf(acc), Map(ReadPeer, peers))))
    case DeviceFlags(bits) => acc.(flags := Some(FlagsOf(acc) + DeviceFlagList(bits)))
    case _ => ReadPlainAttr(acc, a)
  }

  /** Of a single message, the last attribute decides everything and nothing is coalesced. */
  function ReadSingleAttr(acc: Config, a: DeviceAttr): Config {
    match a
    case Peers(peers) => acc.(peers := Some(Map(ReadPeer, peers)))
    case DeviceFlags(bits) => acc.(flags := Some(DeviceFlagList(bits)))
    case _ => ReadPlainAttr(acc, a)
  }

  function AttrsOf(m: Message): seq<DeviceAttr> {
    m.attrs
  }

  function AllAttrs(messages: seq<Message>): seq<DeviceAttr> {
    Flatten(Map(AttrsOf, messages))
  }

  function ReadMessages(messages: seq<Message>): Config {
    Fold(ReadAttr, NO_CONFIG, AllAttrs(messages))
  }

  function ReadMessage(m: Message): Config {
    Fold(ReadSingleAttr, NO_CONFIG, m.attrs)
  }

  lemma AllAttrsSnoc(messages: seq<Message>, m: Message)
    ensures AllAttrs(messages + [m]) == AllAttrs(messages) + m.attrs
  {
    MapConcat(AttrsOf, messages, [m]);
    assert Map(AttrsOf, [m]) == [AttrsOf(m)];
    FlattenSnoc(Map(AttrsOf, messages), m.attrs);
  }

  lemma ReadMessagesSnoc(messages: seq<Message>, m: Message)
    ensures ReadMessages(messages + [m]) == Fold(ReadAttr, ReadMessages(messages), m.attrs)
  {
    AllAttrsSnoc(messages, m);
    FoldConcat(ReadAttr, NO_CONFIG, AllAttrs(messages), m.attrs);
  }

  lemma NothingRead()
    ensures ReadMessages([]) == NO_CONFIG
  {
    assert AllAttrs([]) == [];
  }

  method PushEntries(list: PeerList, entries: seq<Peer>)
    requires list.Valid()
    modifies list, list.entries
    ensures list.Valid()
    ensures forall i :: 0 <= i < |list.entries| ==> fresh(list.entries[i]) || list.entries[i] in old(list.entries)
    ensures list.Values() == Fold(PushPeer, old(list.Values()), Map(ReadPeer, entries))
  {
    hide PushPeer, ReadPeer;
    ghost var known := list.Values();
    for k := 0 to |entries|
      invariant list.Valid()
      invariant forall i :: 0 <= i < |list.entries| ==> fresh(list.entries[i]) || list.entries[i] in old(list.entries)
      invariant list.Values() == Fold(PushPeer, known, Map(ReadPeer, entries[..k]))
    {
      assert Map(ReadPeer, entries[..k + 1]) == Map(ReadPeer, entries[..k]) + [ReadPeer(entries[k])];
      FoldSnoc(PushPeer, known, Map(ReadPeer, entries[..k]), ReadPeer(entries[k]));
      var p := FromPeer(entries[k]);
      list.Push(p);
    }
    assert entries[..|entries|] == entries;
  }

  method FromMessages(messages: seq<Message>) returns (r: Config)
    ensures r == ReadMessages(messages)
  {
    hide KeyText, ReadPeer, DeviceFlagList, PushPeer, Fold, AllAttrs;
    NothingRead();
    var ret, peers: PeerList? := NO_CONFIG, null;
    for i := 0 to |messages|
      invariant peers != null ==> fresh(peers) && peers.Valid()
      invariant peers != null ==> forall k :: 0 <= k < |peers.entries| ==> fresh(peers.entries[k])
      invariant ret.(peers := if peers == null then None else Some(peers.Values())) == ReadMessages(messages[..i])
    {
      assert messages[..i + 1] == messages[..i] + [messages[i]];
      ReadMessagesSnoc(messages[..i], messages[i]);
      ghost var before := ReadMessages(messages[..i]);
      FoldNone(ReadAttr, before);
      var attrs := messages[i].attrs;
      for j := 0 to |attrs|
        invariant peers != null ==> fresh(peers) && peers.Valid()
        invariant peers != null ==> forall k :: 0 <= k < |peers.entries| ==> fresh(peers.entries[k])
        invariant ret.(peers := if peers == null then None else Some(peers.Values()))
                  == Fold(ReadAttr, before, attrs[..j])
      {
        assert attrs[..j + 1] == attrs[..j] + [attrs[j]];
        FoldSnoc(ReadAttr, before, attrs[..j], attrs[j]);
        match attrs[j] {
          case Peers(entries) =>
            if peers == null {
              peers := new PeerList();
            }
            PushEntries(peers, entries);
          case DeviceFlags(bits) =>
            var known := if ret.flags.Some? then ret.flags.value else [];
            ret := ret.(flags := Some(known + DeviceFlagList(bits)));
          case IfName(v) => ret := ret.(ifaceName := Some(v));
          case IfIndex(v) => ret := ret.(ifaceIndex := Some(v));
          case PrivateKey(key) => ret := ret.(privateKey := Some(KeyText(key)));
          case DevicePublicKey(key) => ret := ret.(publicKey := Some(KeyText(key)));
          case ListenPort(v) => ret := ret.(listenPort := Some(v));
          case Fwmark(v) => ret := ret.(fwmark := Some(v));
          case UnknownDevice(_) =>
        }
      }
      assert attrs[..|attrs|] == attrs;
    }
    assert messages[..|messages|] == messages;
    r := ret.(peers := if peers == null then None else Some(peers.Values()));
  }

  method FromMessage(m: Message) returns (ret: Config)
    ensures ret == ReadMessage(m)
  {
    ret := NO_CONFIG;
    for i := 0 to |m.attrs|
      invariant ret == Fold(ReadSingleAttr, NO_CONFIG, m.attrs[..i])
    {
      assert m.attrs[..i + 1] == m.attrs[..i] + [m.attrs[i]];
      FoldSnoc(ReadSingleAttr, NO_CONFIG, m.attrs[..i], m.attrs[i]);
      match m.attrs[i] {
        case Peers(entries) =>
          var peers := [];
          for k := 0 to |entries|
            invariant peers == Map(ReadPeer, entries[..k])
          {
            var p := FromPeer(entries[k]);
            peers := peers + [p];
          }
          assert entries[..|entries|] == entries;
          ret := ret.(peers := Some(peers));
        case DeviceFlags(bits) => ret := ret.(flags := Some(DeviceFlagList(bits)));
        case IfName(v) => ret := ret.(ifaceName := Some(v));
        case IfIndex(v) => ret := ret.(ifaceIndex := Some(v));
        case PrivateKey(key) => ret := ret.(privateKey := Some(KeyText(key)));
        case DevicePublicKey(key) => ret := ret.(publicKey := Some(KeyText(key)));
        case ListenPort(v) => ret := ret.(listenPort := Some(v));
        case Fwmark(v) => ret := ret.(fwmark := Some(v));
        case UnknownDevice(_) =>
      }
    }
    assert m.attrs[..|m.attrs|] == m.attrs;
  }

  /* What the readers see of the peers */

  function EntriesIn(a: DeviceAttr): seq<Peer> {
    if a.Peers? then a.peers else []
  }

  /** All peer entries of a list of attributes, in order. */
  function Entries(attrs: seq<DeviceAttr>): seq<Peer> {
    Flatten(Map(EntriesIn, attrs))
  }

  lemma EntriesConcat(xs: seq<DeviceAttr>, ys: seq<DeviceAttr>)
    ensures Entries(xs + ys) == Entries(xs) + Entries(ys)
  {
    MapConcat(EntriesIn, xs, ys);
    FlattenConcat(Map(EntriesIn, xs), Map(EntriesIn, ys));
  }

  lemma EntriesSnoc(attrs: seq<DeviceAttr>, a: DeviceAttr)
    ensures Entries(attrs + [a]) == Entries(attrs) + EntriesIn(a)
  {
    MapConcat(EntriesIn, attrs, [a]);
    assert Map(EntriesIn, [a]) == [EntriesIn(a)];
    FlattenSnoc(Map(EntriesIn, attrs), EntriesIn(a));
  }

  /** The peers read are the coalesced entries of all messages: how the entries are spread over attributes and
      messages makes no difference. */
  lemma {:induction false} PeersRead(attrs: seq<DeviceAttr>)
    ensures Fold(ReadAttr, NO_CONFIG, attrs).peers
            == if exists a <- attrs :: a.Peers? then Some(Coalesced(Map(ReadPeer, Entries(attrs)))) else None
    decreases |attrs|
  {
    hide PushPeer, ReadPeer, KeyText, DeviceFlagList;
    if attrs != [] {
      var n := |attrs| - 1;
      var init, a := attrs[..n], attrs[n];
      assert attrs == init + [a];
      PeersRead(init);
      FoldSnoc(ReadAttr, NO_CONFIG, init, a);
      EntriesSnoc(init, a);
      MapConcat(ReadPeer, Entries(init), EntriesIn(a));
      FoldConcat(PushPeer, [], Map(ReadPeer, Entries(init)), Map(ReadPeer, EntriesIn(a)));
      if !exists b <- init :: b.Peers? {
        NoEntries(init);
      }
    }
  }

  lemma {:induction false} NoEntries(attrs: seq<DeviceAttr>)
    requires forall a <- attrs :: !a.Peers?
    ensures Entries(attrs) == []
    decreases |attrs|
  {
    if attrs != [] {
      var n := |attrs| - 1;
      assert attrs == attrs[..n] + [attrs[n]];
      NoEntries(attrs[..n]);
      EntriesSnoc(attrs[..n], attrs[n]);
    }
  }

  /** Blocks that each coalesce to one peer coalesce together to the list of these peers, coalesced. */
  lemma {:induction false} CoalesceBlocks(blocks: seq<seq<PeerConfig>>, wholes: seq<PeerConfig>)
    requires |blocks| == |wholes| && forall i :: 0 <= i < |blocks| ==> Coalesced(blocks[i]) == [wholes[i]]
    ensures Coalesced(Flatten(blocks)) == Coalesced(wholes)
    decreases |blocks|
  {
    if blocks != [] {
      var n := |blocks| - 1;
      assert blocks == blocks[..n] + [blocks[n]] && wholes == wholes[..n] + [wholes[n]];
      CoalesceBlocks(blocks[..n], wholes[..n]);
      FlattenSnoc(blocks[..n], blocks[n]);
      CoalesceConcat(Flatten(blocks[..n]), blocks[n]);
      CoalesceConcat(wholes[..n], [wholes[n]]);
      CoalescedOne(wholes[n]);
    }
  }

  /** How a sender may transmit one entry: as it is, or cut along slices of its allowed IPs. */
  datatype Transmission =
    | Uncut(entry: Peer)
    | CutUp(state: seq<PeerAttr>, at: nat, at': nat, key: Key, slices: seq<seq<AllowedIp>>)
  {
    ghost predicate Valid() {
      CutUp? ==> at <= |state| && at' <= |state| && slices != [] && NoIps(state) && PublicKeyIn(state) == Some(key)
    }

    /** The entry that is meant. */
    function Whole(): Peer
      requires CutUp? ==> at' <= |state|
    {
      if Uncut? then entry else Piece(state, at', Flatten(slices))
    }

    /** The entries that are sent for it. */
    function Parts(): seq<Peer>
      requires CutUp? ==> at <= |state| && slices != []
    {
      if Uncut? then [entry] else Pieces(state, at, key, slices)
    }
  }

  /** Fragmentation independence: however entries are cut and spread over messages, the peers read are the same. */
  lemma FragmentationIndependence(ts: seq<Transmission>, wholes: seq<Peer>, parts: seq<seq<Peer>>,
                                  sent: seq<Message>, meant: seq<Message>)
    requires |ts| == |wholes| == |parts|
    requires forall i :: 0 <= i < |ts| ==> ts[i].Valid() && wholes[i] == ts[i].Whole() && parts[i] == ts[i].Parts()
    requires Entries(AllAttrs(sent)) == Flatten(parts) && Entries(AllAttrs(meant)) == wholes
    requires (exists a <- AllAttrs(sent) :: a.Peers?) <==> (exists a <- AllAttrs(meant) :: a.Peers?)
    ensures ReadMessages(sent).peers == ReadMessages(meant).peers
  {
    PeersRead(AllAttrs(sent));
    PeersRead(AllAttrs(meant));
    var read := Map(ReadPeer, wholes);
    var blocks := seq(|parts|, i requires 0 <= i < |parts| => Map(ReadPeer, parts[i]));
    forall i | 0 <= i < |blocks|
      ensures Coalesced(blocks[i]) == [read[i]]
    {
      if ts[i].Uncut? {
        assert blocks[i] == [ReadPeer(ts[i].entry)];
        CoalescedOne(ReadPeer(ts[i].entry));
      } else {
        PiecesCoalesce(ts[i].state, ts[i].at, ts[i].at', ts[i].key, ts[i].slices);
      }
    }
    CoalesceBlocks(blocks, read);
    MapFlatten(ReadPeer, parts, blocks);
  }

  lemma {:induction false} MapFlatten<A, B>(f: A -> B, xss: seq<seq<A>>, yss: seq<seq<B>>)
    requires |xss| == |yss| && forall i :: 0 <= i < |xss| ==> yss[i] == Map(f, xss[i])
    ensures Map(f, Flatten(xss)) == Flatten(yss)
    decreases |xss|
  {
    if xss != [] {
      MapFlatten(f, xss[1..], yss[1..]);
      MapConcat(f, xss[0], Flatten(xss[1..]));
    }
  }
}
