/** What the entries of a peer do, seen as one entry: what the whole entry does or, if the peer is lost, what the
    entries after the first one do. */
module Effects {
  import opened Applying
  import opened Device
  import opened Flags
  import opened Fragments
  import opened Keys
  import opened Lengths
  import opened Meaning
  import opened Netlink
  import opened Outcomes
  import opened Owners
  import opened Parsed
  import opened PeerParsed
  import opened PeerRoundTrip
  import opened Sequences
  import opened Turns
  import opened Wrappers

  function WholeFieldsOf(p: PeerConfig): Fields {
    FieldsOf(BuildPeer(p))
  }

  lemma WholeFieldsAre(p: PeerConfig)
    requires PeerFault(p).None?
    ensures WholeFieldsOf(p) == Fields(Some(PeerKey(p)), FlagBits(p), StateOf(p), BuiltIps(p))
    ensures Removes(p) <==> REMOVE_ME <= FlagBits(p)
  {
    hide DecodeKey, KeyOf, StateAttrs, HeadAttrs, PeerKey, BuildPeer, StateOf, BuildIp;
    WholeFields(p);
  }

  /** The allowed IPs of one entry of a peer. */
  function ChunkIps(p: PeerConfig, i: nat): seq<AllowedIp>
    requires i < |Chunks(p)|
  {
    if p.allowedIps.None? || Removes(p) then [] else Batches(p)[i]
  }

  /** The receiver sees the state of a peer in its first entry only. */
  lemma ChunkFields(p: PeerConfig, i: nat)
    requires PeerFault(p).None? && i < |Chunks(p)|
    ensures FieldsOf(Chunks(p)[i])
            == if i == 0 then Fields(Some(PeerKey(p)), FlagBits(p), StateOf(p), ChunkIps(p, 0))
               else Fields(Some(PeerKey(p)), {}, NO_STATE, ChunkIps(p, i))
  {
    hide DecodeKey, KeyOf, StateAttrs, PeerKey, Batches, FlagBits, StateOf;
    WholeFields(p);
    StateHasKey(p);
    if p.allowedIps.Some? && !Removes(p) {
      if i == 0 {
        FieldsOfPiece(StateAttrs(p), |StateAttrs(p)|, Batches(p)[0]);
      } else {
        assert Chunks(p)[i] == Continuation(PeerKey(p), Batches(p)[i]);
        FieldsOfContinuation(PeerKey(p), Batches(p)[i]);
      }
    }
  }

  lemma ChunkIpsAreIps(p: PeerConfig, i: nat, r: Route)
    requires i < |Chunks(p)|
    ensures Gives(ChunkIps(p, i), r) ==> Gives(BuiltIps(p), r)
    ensures Takes(ChunkIps(p, i), r) ==> Takes(BuiltIps(p), r)
  {
    hide Batches, BuiltIps, Gives, Takes;
    NothingGiven(r);
    if p.allowedIps.Some? && !Removes(p) {
      var batches := Batches(p);
      BatchesFlatten(p);
      assert batches == batches[..i] + [batches[i]] + batches[i + 1..];
      FlattenConcat(batches[..i] + [batches[i]], batches[i + 1..]);
      FlattenSnoc(batches[..i], batches[i]);
      GivesConcat(Flatten(batches[..i]) + batches[i], Flatten(batches[i + 1..]), r);
      GivesConcat(Flatten(batches[..i]), batches[i], r);
    }
  }

  lemma BuiltIpGives(ip: IpConfig, r: Route)
    requires !(ip.flags.Some? && REMOVE_IP <= IpBits(ip.flags.value))
    ensures GivesIp(BuildIp(ip), r) <==> ValidPrefix(ip) && Route(ip.ipAddr, ip.prefixLength) == r
    ensures !TakesIp(BuildIp(ip), r)
  {
    hide BuildIp, IpBits, WellFormed;
    BuiltIpIsSeen(ip);
  }

  lemma NothingUpdates(state: PeerState)
    ensures Update(NO_STATE, state) == state && Update(state, state) == state
    ensures Update(state, NO_STATE) == state
  {}

  lemma RemovedIsOneChunk(p: PeerConfig)
    ensures Removes(p) ==> |Chunks(p)| == 1
  {
    hide StateAttrs, Batches;
  }

  /** The first entry of a peer, and all further ones in one. */
  function First(p: PeerConfig): Fields {
    Fields(Some(PeerKey(p)), FlagBits(p), StateOf(p), Batches(p)[0])
  }

  function Rest(p: PeerConfig): Fields {
    Fields(Some(PeerKey(p)), {}, NO_STATE, Flatten(Batches(p)[1..]))
  }

  /** A whole entry gives and takes what its two parts give and take. */
  lemma FirstAndRest(p: PeerConfig, r: Route)
    ensures Gives(BuiltIps(p), r) <==> Gives(First(p).ips, r) || Gives(Rest(p).ips, r)
    ensures Takes(BuiltIps(p), r) <==> Takes(First(p).ips, r) || Takes(Rest(p).ips, r)
  {
    hide Batches, BuiltIps, Gives, Takes, PeerKey, FlagBits, StateOf;
    var batches := Batches(p);
    BatchesFlatten(p);
    assert Flatten(batches) == batches[0] + Flatten(batches[1..]);
    GivesConcat(batches[0], Flatten(batches[1..]), r);
  }

  lemma KeyAlone(key: Key, ips: seq<AllowedIp>)
    ensures Piece([PublicKey(key)], 1, ips) == Continuation(key, ips)
    ensures FieldsOf(Peer([PublicKey(key)])) == NO_FIELDS.(key := Some(key))
  {
    assert [PublicKey(key)][..1] == [PublicKey(key)] && [PublicKey(key)][1..] == [];
    FoldSnoc(SetField, NO_FIELDS, [], PublicKey(key));
    assert [] + [PublicKey(key)] == [PublicKey(key)];
  }

  lemma FirstThenRest(d: Device, p: PeerConfig)
    requires PeerFault(p).None? && |Chunks(p)| > 1
    ensures ApplyEntries(d, Chunks(p)) == ApplyFields(ApplyFields(d, First(p)), Rest(p))
  {
    hide DecodeKey, KeyOf, StateAttrs, Batches, ApplyFields, FlagBits, StateOf, PeerFault;
    RemovedIsOneChunk(p);
    ChunkFields(p, 0);
    var key, batches := PeerKey(p), Batches(p)[1..];
    var state := [PublicKey(key)];
    KeyAlone(key, batches[0]);
    KeyAlone(key, Flatten(batches));
    assert Pieces(state, 1, key, batches) == [Continuation(key, batches[0])] + Continuations(key, batches[1..]);
    assert Chunks(p)[1..] == Pieces(state, 1, key, batches);
    PiecesMean(ApplyFields(d, First(p)), state, 1, 1, key, batches);
    FieldsOfContinuation(key, Flatten(batches));
    assert Chunks(p) == [Chunks(p)[0]] + Chunks(p)[1..];
    FoldConcat(ApplyEntry, d, [Chunks(p)[0]], Chunks(p)[1..]);
    ApplyOneEntry(d, Chunks(p)[0]);
  }

  /** The one entry that does on `d` what the entries of the peer do. */
  function Effective(d: Device, p: PeerConfig): Fields {
    if Lost(d, p) then Rest(p) else WholeFieldsOf(p)
  }

  lemma ChunksAct(d: Device, p: PeerConfig)
    requires PeerFault(p).None?
    ensures ApplyEntries(d, Chunks(p)) == ApplyFields(d, Effective(d, p))
  {
    hide DecodeKey, KeyOf, Chunks, PeerKey, PeerFault, BuildPeer, Batches, StateOf, FieldsOf;
    if Lost(d, p) {
      FirstThenRest(d, p);
      WholeFieldsAre(p);
      assert ApplyFields(d, First(p)) == d;
    } else {
      ChunksMean(d, p);
    }
  }

  /** What the peers of a configuration do to a device that holds the peers of `d`. */
  function Effectives(d: Device, peers: seq<PeerConfig>): seq<Fields> {
    seq(|peers|, i requires 0 <= i < |peers| => Effective(d, peers[i]))
  }

  lemma EffectiveKey(d: Device, p: PeerConfig)
    requires PeerFault(p).None?
    ensures Effective(d, p).key == Some(PeerKey(p))
  {
    hide PeerKey, PeerFault, Lost, WholeFieldsOf, FlagBits, StateOf, BuiltIps, Batches;
    WholeFieldsAre(p);
  }

  lemma EffectivesAreOneEach(d: Device, peers: seq<PeerConfig>)
    requires AllSound(peers) && DistinctKeys(peers)
    ensures OneEach(Effectives(d, peers))
  {
    hide PeerFault, PeerKey, Effective;
    forall i | 0 <= i < |peers|
      ensures Effectives(d, peers)[i].key == Some(PeerKey(peers[i]))
    {
      EffectiveKey(d, peers[i]);
    }
  }

  /** With distinct keys, no entry changes whether a later peer is lost. */
  lemma LostInTurn(d: Device, peers: seq<PeerConfig>, n: nat)
    requires AllSound(peers) && DistinctKeys(peers) && n < |peers|
    ensures var before := ApplyEntries(d, AllChunks(peers[..n]));
            && (Lost(before, peers[n]) <==> Lost(d, peers[n]))
            && ApplyEntries(d, AllChunks(peers[..n + 1])) == ApplyFields(before, Effective(d, peers[n]))
  {
    hide PeerFault, PeerKey, AllChunks, Chunks, ApplyFields, Rest, WholeFieldsOf, ApplyEntry;
    Presence(d, peers, n, PeerKey(peers[n]));
    SplitSnoc(d, peers, n);
    ChunksAct(ApplyEntries(d, AllChunks(peers[..n])), peers[n]);
  }

  lemma {:induction false} AllChunksAct(d: Device, peers: seq<PeerConfig>, n: nat)
    requires AllSound(peers) && DistinctKeys(peers) && n <= |peers|
    ensures ApplyEntries(d, AllChunks(peers[..n])) == ApplyAll(d, Effectives(d, peers)[..n])
    decreases n
  {
    hide PeerFault, PeerKey, AllChunks, Effective, ApplyFields, ApplyEntry, DistinctKeys, Lost;
    var fs := Effectives(d, peers);
    if n == 0 {
      NoChunks();
      assert peers[..0] == [];
    } else {
      AllChunksAct(d, peers, n - 1);
      LostInTurn(d, peers, n - 1);
      assert fs[..n] == fs[..n - 1] + [fs[n - 1]];
      FoldSnoc(ApplyFields, d, fs[..n - 1], fs[n - 1]);
    }
  }

  /** The device after all entries of the peers. */
  function Applied(d: Device, peers: seq<PeerConfig>): Device {
    ApplyAll(d, Effectives(d, peers))
  }

  lemma RunIsApplied(d: Device, c: Config, cmd: Command)
    requires MessagesOf(c, cmd).Ok? && Addresses(c, d) && DistinctKeys(PeersOf(c))
    ensures ApplyMessages(d, MessagesOf(c, cmd).value) == Applied(Prepared(d, c), PeersOf(c))
  {
    hide MessagesOf, DecodeKey, KeyOf, ApplyMessage, PeerFault, ApplyEntry, PeerKey, Prepared, Addresses, AllChunks,
         Effective, DistinctKeys;
    var peers := PeersOf(c);
    AcceptedIffSound(c, cmd);
    ApplySplit(d, c, cmd);
    AllChunksAct(Prepared(d, c), peers, |peers|);
    assert peers[..|peers|] == peers;
    assert Effectives(Prepared(d, c), peers)[..|peers|] == Effectives(Prepared(d, c), peers);
  }
}
