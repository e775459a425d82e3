/** Coalescing the peer entries of a dump: `merge_continuation` (src/peer_parsed.rs) and `push_peer` (src/parsed.rs). */
module Coalesce {
  import opened Flags
  import opened Netlink
  import opened PeerParsed
  import opened Sequences
  import opened Wrappers

  /** Both lists, one after the other, where there are any. */
  function Join<T>(a: Option<seq<T>>, b: Option<seq<T>>): Option<seq<T>> {
    if a.Some? && b.Some? then Some(a.value + b.value) else OrElse(a, b)
  }

  /** The peer `a` together with a later entry `b` of the same peer: what `a` says stands, the lists add up. */
  function Merge(a: PeerConfig, b: PeerConfig): PeerConfig {
    PeerConfig(
      OrElse(a.endpoint, b.endpoint),
      OrElse(a.publicKey, b.publicKey),
      OrElse(a.presharedKey, b.presharedKey),
      OrElse(a.persistentKeepalive, b.persistentKeepalive),
      OrElse(a.lastHandshake, b.lastHandshake),
      OrElse(a.rxBytes, b.rxBytes),
      OrElse(a.txBytes, b.txBytes),
      Join(a.allowedIps, b.allowedIps),
      OrElse(a.protocolVersion, b.protocolVersion),
      Join(a.flags, b.flags))
  }

  predicate SamePeer(a: PeerConfig, b: PeerConfig) {
    b.publicKey.Some? && a.publicKey == b.publicKey
  }

  function PushPeer(peers: seq<PeerConfig>, p: PeerConfig): seq<PeerConfig> {
    var n := |peers| - 1;
    if n >= 0 && SamePeer(peers[n], p) then peers[..n] + [Merge(peers[n], p)]
    else peers + [p]
  }

  function Coalesced(peers: seq<PeerConfig>): seq<PeerConfig> {
    Fold(PushPeer, [], peers)
  }

  /** No two neighbours are the same peer. */
  ghost predicate Separate(peers: seq<PeerConfig>) {
    forall i, j | 0 <= i < j < |peers| && j == i + 1 :: !SamePeer(peers[i], peers[j])
  }

  lemma MergeIsAssociative(a: PeerConfig, b: PeerConfig, c: PeerConfig)
    ensures Merge(Merge(a, b), c) == Merge(a, Merge(b, c))
  {
    JoinIsAssociative(a.allowedIps, b.allowedIps, c.allowedIps);
    JoinIsAssociative(a.flags, b.flags, c.flags);
  }

  lemma JoinIsAssociative<T>(a: Option<seq<T>>, b: Option<seq<T>>, c: Option<seq<T>>)
    ensures Join(Join(a, b), c) == Join(a, Join(b, c))
  {
    if a.Some? && b.Some? && c.Some? {
      assert a.value + b.value + c.value == a.value + (b.value + c.value);
    }
  }

  /** Pushing two entries of one peer is pushing their merge. */
  lemma PushMerged(peers: seq<PeerConfig>, a: PeerConfig, b: PeerConfig)
    requires SamePeer(a, b)
    ensures PushPeer(PushPeer(peers, a), b) == PushPeer(peers, Merge(a, b))
  {
    var n := |peers| - 1;
    if n >= 0 && SamePeer(peers[n], a) {
      MergeIsAssociative(peers[n], a, b);
    }
  }

  /** Pushing one more entry commutes with coalescing the entries in front of it. */
  lemma PushAfter(peers: seq<PeerConfig>, done: seq<PeerConfig>, p: PeerConfig)
    ensures Fold(PushPeer, peers, PushPeer(done, p)) == PushPeer(Fold(PushPeer, peers, done), p)
  {
    var m := |done| - 1;
    if m >= 0 && SamePeer(done[m], p) {
      var init, last := done[..m], done[m];
      assert done == init + [last];
      FoldSnoc(PushPeer, peers, init, last);
      FoldSnoc(PushPeer, peers, init, Merge(last, p));
      PushMerged(Fold(PushPeer, peers, init), last, p);
    } else {
      FoldSnoc(PushPeer, peers, done, p);
    }
  }

  /** Entries may be coalesced among themselves before they are pushed. */
  lemma {:induction false} PushCoalesced(peers: seq<PeerConfig>, more: seq<PeerConfig>)
    ensures Fold(PushPeer, peers, Coalesced(more)) == Fold(PushPeer, peers, more)
    decreases |more|
  {
    if more != [] {
      var n := |more| - 1;
      assert more == more[..n] + [more[n]];
      FoldSnoc(PushPeer, [], more[..n], more[n]);
      FoldSnoc(PushPeer, peers, more[..n], more[n]);
      PushCoalesced(peers, more[..n]);
      PushAfter(peers, Coalesced(more[..n]), more[n]);
    }
  }

  /** Coalescing is a homomorphism: a list may be cut anywhere and each part coalesced first. */
  lemma CoalesceConcat(xs: seq<PeerConfig>, ys: seq<PeerConfig>)
    ensures Coalesced(xs + ys) == Fold(PushPeer, Coalesced(xs), Coalesced(ys))
    ensures Coalesced(xs + ys) == Coalesced(Coalesced(xs) + Coalesced(ys))
    ensures Coalesced(Coalesced(xs)) == Coalesced(xs)
  {
    FoldConcat(PushPeer, [], xs, ys);
    PushCoalesced(Coalesced(xs), ys);
    FoldConcat(PushPeer, [], Coalesced(xs), Coalesced(ys));
    PushCoalesced([], xs);
  }

  lemma CoalescedOne(p: PeerConfig)
    ensures Coalesced([p]) == [p]
  {
    FoldSnoc(PushPeer, [], [], p);
    assert [] + [p] == [p];
  }

  /** The first value that is there. */
  function FirstOf<T>(values: seq<Option<T>>): Option<T> {
    if values == [] then None else OrElse(values[0], FirstOf(values[1..]))
  }

  /** All lists that are there, one after the other. */
  function AllOf<T>(lists: seq<Option<seq<T>>>): Option<seq<T>> {
    if lists == [] then None else Join(lists[0], AllOf(lists[1..]))
  }

  /** What a run of entries of one peer says of it, property by property. */
  function Gathered(es: seq<PeerConfig>): PeerConfig {
    PeerConfig(
      FirstOf(Map((p: PeerConfig) => p.endpoint, es)),
      FirstOf(Map((p: PeerConfig) => p.publicKey, es)),
      FirstOf(Map((p: PeerConfig) => p.presharedKey, es)),
      FirstOf(Map((p: PeerConfig) => p.persistentKeepalive, es)),
      FirstOf(Map((p: PeerConfig) => p.lastHandshake, es)),
      FirstOf(Map((p: PeerConfig) => p.rxBytes, es)),
      FirstOf(Map((p: PeerConfig) => p.txBytes, es)),
      AllOf(Map((p: PeerConfig) => p.allowedIps, es)),
      FirstOf(Map((p: PeerConfig) => p.protocolVersion, es)),
      AllOf(Map((p: PeerConfig) => p.flags, es)))
  }

  lemma MapCons<A, B>(f: A -> B, x: A, xs: seq<A>)
    ensures Map(f, [x] + xs) == [f(x)] + Map(f, xs)
  {}

  lemma GatheredCons(p: PeerConfig, es: seq<PeerConfig>)
    ensures Gathered([p] + es) == Merge(p, Gathered(es))
  {
    MapCons((p: PeerConfig) => p.endpoint, p, es);
    MapCons((p: PeerConfig) => p.publicKey, p, es);
    MapCons((p: PeerConfig) => p.presharedKey, p, es);
    MapCons((p: PeerConfig) => p.persistentKeepalive, p, es);
    MapCons((p: PeerConfig) => p.lastHandshake, p, es);
    MapCons((p: PeerConfig) => p.rxBytes, p, es);
    MapCons((p: PeerConfig) => p.txBytes, p, es);
    MapCons((p: PeerConfig) => p.allowedIps, p, es);
    MapCons((p: PeerConfig) => p.protocolVersion, p, es);
    MapCons((p: PeerConfig) => p.flags, p, es);
  }

  /** A run of entries of one peer coalesces to the first value given of every property, and to all allowed IPs and
      flags in order. */
  lemma {:induction false} RunIsGathered(es: seq<PeerConfig>, key: string)
    requires es != [] && forall e <- es :: e.publicKey == Some(key)
    ensures Coalesced(es) == [Gathered(es)]
    decreases |es|
  {
    hide Gathered, Merge;
    var p, rest := es[0], es[1..];
    assert es == [p] + rest;
    GatheredCons(p, rest);
    if rest == [] {
      assert es == [p];
      CoalescedOne(p);
      MergeNothing(p);
    } else {
      RunIsGathered(rest, key);
      CoalesceConcat([p], rest);
      CoalescedOne(p);
      GatheredKey(rest, key);
      FoldSnoc(PushPeer, [p], [], Gathered(rest));
      assert [] + [Gathered(rest)] == [Gathered(rest)];
    }
  }

  lemma MergeNothing(p: PeerConfig)
    ensures Merge(p, Gathered([])) == p
  {}

  lemma GatheredKey(es: seq<PeerConfig>, key: string)
    requires es != [] && es[0].publicKey == Some(key)
    ensures Gathered(es).publicKey == Some(key)
  {}

  lemma {:induction false} CoalescedIsSeparate(peers: seq<PeerConfig>)
    ensures Separate(Coalesced(peers))
    decreases |peers|
  {
    if peers != [] {
      var n := |peers| - 1;
      CoalescedIsSeparate(peers[..n]);
      assert peers == peers[..n] + [peers[n]];
      FoldSnoc(PushPeer, [], peers[..n], peers[n]);
    }
  }

  /** Coalescing changes a list exactly when two neighbours are the same peer; then the list gets shorter. */
  lemma {:induction false} CoalescedIsIdentity(peers: seq<PeerConfig>)
    ensures Coalesced(peers) == peers <==> Separate(peers)
    ensures |Coalesced(peers)| <= |peers|
    decreases |peers|
  {
    hide Merge;
    if peers != [] {
      var n := |peers| - 1;
      var init := peers[..n];
      assert peers == init + [peers[n]];
      CoalescedIsIdentity(init);
      FoldSnoc(PushPeer, [], init, peers[n]);
      assert Coalesced(peers) == PushPeer(Coalesced(init), peers[n]);
      if Separate(peers) {
        assert Separate(init);
        if n > 0 { assert init[n - 1] == peers[n - 1]; }
      } else if Coalesced(peers) == peers {
        CoalescedIsSeparate(peers);
      }
    }
  }

  /** Coalescing changes a list exactly when two neighbours have the same key; peers without a key are kept apart. */
  lemma NeighboursAreMerged(peers: seq<PeerConfig>)
    ensures Coalesced(peers) != peers <==> exists i, j | 0 <= i < j < |peers| && j == i + 1 ::
                                             peers[i].publicKey.Some? && peers[i].publicKey == peers[j].publicKey
  {
    hide Coalesced;
    CoalescedIsIdentity(peers);
  }

  /** One entry is merged into the last peer or becomes a peer of its own; the peers in front stay. */
  lemma OnePush(peers: seq<PeerConfig>, p: PeerConfig)
    ensures var n, pushed := |peers| - 1, PushPeer(peers, p);
            if n >= 0 && p.publicKey.Some? && peers[n].publicKey == p.publicKey
            then |pushed| == n + 1 && pushed[..n] == peers[..n] && pushed[n].publicKey == p.publicKey
            else pushed == peers + [p]
  {}

  /** A peer under construction; its fields are those of `WireguardPeerParsed`. */
  class PeerEntry {
    var endpoint: Option<SocketAddr>
    var publicKey: Option<string>
    var presharedKey: Option<string>
    var persistentKeepalive: Option<U16>
    var lastHandshake: Option<Duration>
    var rxBytes: Option<U64>
    var txBytes: Option<U64>
    var allowedIps: Option<seq<IpConfig>>
    var protocolVersion: Option<U32>
    var flags: Option<seq<PeerFlag>>

    function Value(): PeerConfig
      reads this
    {
      PeerConfig(endpoint, publicKey, presharedKey, persistentKeepalive, lastHandshake, rxBytes, txBytes, allowedIps,
                 protocolVersion, flags)
    }

    constructor (p: PeerConfig)
      ensures Value() == p
    {
      endpoint := p.endpoint;
      publicKey := p.publicKey;
      presharedKey := p.presharedKey;
      persistentKeepalive := p.persistentKeepalive;
      lastHandshake := p.lastHandshake;
      rxBytes := p.rxBytes;
      txBytes := p.txBytes;
      allowedIps := p.allowedIps;
      protocolVersion := p.protocolVersion;
      flags := p.flags;
    }

    method MergeContinuation(continuation: PeerConfig)
      modifies this
      ensures Value() == Merge(old(Value()), continuation)
    {
      if continuation.allowedIps.Some? {
        if allowedIps.Some? {
          allowedIps := Some(allowedIps.value + continuation.allowedIps.value);
        } else {
          allowedIps := continuation.allowedIps;
        }
      }
      publicKey := OrElse(publicKey, continuation.publicKey);
      presharedKey := OrElse(presharedKey, continuation.presharedKey);
      endpoint := OrElse(endpoint, continuation.endpoint);
      persistentKeepalive := OrElse(persistentKeepalive, continuation.persistentKeepalive);
      lastHandshake := OrElse(lastHandshake, continuation.lastHandshake);
      rxBytes := OrElse(rxBytes, continuation.rxBytes);
      txBytes := OrElse(txBytes, continuation.txBytes);
      protocolVersion := OrElse(protocolVersion, continuation.protocolVersion);
      if continuation.flags.Some? {
        var mine := if flags.Some? then flags.value else [];
        flags := Some(mine + continuation.flags.value);
        assert [] + continuation.flags.value == continuation.flags.value;
      }
    }
  }

  /** The list of peers a dump is read into. */
  class PeerList {
    var entries: seq<PeerEntry>

    ghost predicate Valid()
      reads this
    {
      forall i, j | 0 <= i < j < |entries| :: entries[i] != entries[j]
    }

    function Values(): (ps: seq<PeerConfig>)
      reads this, entries
      ensures |ps| == |entries|
    {
      seq(|entries|, i requires 0 <= i < |entries| reads this, entries => entries[i].Value())
    }

    constructor ()
      ensures Valid() && entries == [] && Values() == []
    {
      entries := [];
    }

    /** Only the last entry changes, or a new one is appended. */
    method Push(p: PeerConfig)
      requires Valid()
      modifies this, entries
      ensures Valid() && forall i :: 0 <= i < |entries| ==> fresh(entries[i]) || entries[i] in old(entries)
      ensures Values() == PushPeer(old(Values()), p)
    {
      var n := |entries| - 1;
      ghost var was := Values();
      if n >= 0 && p.publicKey.Some? && entries[n].publicKey == p.publicKey {
        entries[n].MergeContinuation(p);
        assert Values() == was[..n] + [Merge(was[n], p)];
        return;
      }
      var e := new PeerEntry(p);
      entries := entries + [e];
      assert Values() == was + [p];
    }
  }
}
