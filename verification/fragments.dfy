/** One peer entry cut into several: a first piece with all state and some allowed IPs, then continuations that carry
    only the public key and further allowed IPs. Both the splitter of this library and the kernel's dumps cut so. */
module Fragments {
  import opened Coalesce
  import opened Keys
  import opened Netlink
  import opened PeerParsed
  import opened Sequences
  import opened Wrappers

  ghost predicate NoIps(attrs: seq<PeerAttr>) {
    forall a <- attrs :: !a.AllowedIps?
  }

  /** The last public key among the attributes. */
  function PublicKeyIn(attrs: seq<PeerAttr>): Option<Key> {
    if attrs == [] then None
    else
      var last := attrs[|attrs| - 1];
      if last.PublicKey? then Some(last.key) else PublicKeyIn(attrs[..|attrs| - 1])
  }

  /** The entry with attributes `state` and with `ips` in front of attribute `at`. */
  function Piece(state: seq<PeerAttr>, at: nat, ips: seq<AllowedIp>): Peer
    requires at <= |state|
  {
    Peer(state[..at] + [AllowedIps(ips)] + state[at..])
  }

  function Continuation(key: Key, ips: seq<AllowedIp>): Peer {
    Peer([PublicKey(key), AllowedIps(ips)])
  }

  function Continuations(key: Key, slices: seq<seq<AllowedIp>>): seq<Peer> {
    Map(ips => Continuation(key, ips), slices)
  }

  /** The entry cut along `slices` of its allowed IPs. */
  function Pieces(state: seq<PeerAttr>, at: nat, key: Key, slices: seq<seq<AllowedIp>>): seq<Peer>
    requires at <= |state| && slices != []
  {
    [Piece(state, at, slices[0])] + Continuations(key, slices[1..])
  }

  lemma {:induction false} FoldSkipsIps(acc: PeerConfig, ips: Option<seq<IpConfig>>, attrs: seq<PeerAttr>)
    requires NoIps(attrs)
    ensures Fold(ReadPeerAttr, acc.(allowedIps := ips), attrs)
            == Fold(ReadPeerAttr, acc, attrs).(allowedIps := ips)
    decreases |attrs|
  {
    if attrs != [] {
      assert !attrs[0].AllowedIps?;
      assert ReadPeerAttr(acc.(allowedIps := ips), attrs[0]) == ReadPeerAttr(acc, attrs[0]).(allowedIps := ips);
      FoldSkipsIps(ReadPeerAttr(acc, attrs[0]), ips, attrs[1..]);
    }
  }

  /** Where the allowed IPs stand among the attributes makes no difference to the reader. */
  lemma ReadPiece(state: seq<PeerAttr>, at: nat, ips: seq<AllowedIp>)
    requires at <= |state| && NoIps(state)
    ensures ReadPeer(Piece(state, at, ips)) == ReadPeer(Peer(state)).(allowedIps := Some(ReadIps(ips)))
  {
    var front := Fold(ReadPeerAttr, NO_PEER, state[..at]);
    FoldSnoc(ReadPeerAttr, NO_PEER, state[..at], AllowedIps(ips));
    FoldConcat(ReadPeerAttr, NO_PEER, state[..at] + [AllowedIps(ips)], state[at..]);
    FoldSkipsIps(front, Some(ReadIps(ips)), state[at..]);
    FoldConcat(ReadPeerAttr, NO_PEER, state[..at], state[at..]);
    assert state[..at] + state[at..] == state;
  }

  lemma ReadContinuation(key: Key, ips: seq<AllowedIp>)
    ensures ReadPeer(Continuation(key, ips))
            == NO_PEER.(publicKey := Some(KeyText(key)), allowedIps := Some(ReadIps(ips)))
  {
    FoldSnoc(ReadPeerAttr, NO_PEER, [PublicKey(key)], AllowedIps(ips));
    FoldSnoc(ReadPeerAttr, NO_PEER, [], PublicKey(key));
    assert [] + [PublicKey(key)] == [PublicKey(key)];
    assert [PublicKey(key)] + [AllowedIps(ips)] == [PublicKey(key), AllowedIps(ips)];
  }

  lemma {:induction false} ReadPublicKey(attrs: seq<PeerAttr>)
    ensures var key := PublicKeyIn(attrs);
            Fold(ReadPeerAttr, NO_PEER, attrs).publicKey == if key.Some? then Some(KeyText(key.value)) else None
    decreases |attrs|
  {
    if attrs != [] {
      var n := |attrs| - 1;
      ReadPublicKey(attrs[..n]);
      assert attrs == attrs[..n] + [attrs[n]];
      FoldSnoc(ReadPeerAttr, NO_PEER, attrs[..n], attrs[n]);
    }
  }

  /** A continuation adds its allowed IPs and nothing else. */
  lemma PushContinuation(p: PeerConfig, text: string, ips: seq<IpConfig>)
    requires p.publicKey == Some(text) && p.allowedIps.Some?
    ensures PushPeer([p], NO_PEER.(publicKey := Some(text), allowedIps := Some(ips)))
            == [p.(allowedIps := Some(p.allowedIps.value + ips))]
  {}

  /** Coalescing the pieces of an entry gives the uncut entry back, wherever it was cut. Invalid allowed IPs are
      dropped alike. */
  lemma {:induction false} PiecesCoalesce(state: seq<PeerAttr>, at: nat, at': nat, key: Key,
                                          slices: seq<seq<AllowedIp>>)
    requires at <= |state| && at' <= |state| && slices != []
    requires NoIps(state) && PublicKeyIn(state) == Some(key)
    ensures Coalesced(Map(ReadPeer, Pieces(state, at, key, slices))) == [ReadPeer(Piece(state, at', Flatten(slices)))]
    decreases |slices|
  {
    hide PushPeer, KeyText, ReadIps, ReadPeerAttr;
    var n := |slices| - 1;
    var whole := ReadPeer(Peer(state));
    ReadPublicKey(state);
    if n == 0 {
      assert Flatten(slices) == slices[0] + Flatten(slices[1..]) == slices[0];
      ReadPiece(state, at, slices[0]);
      ReadPiece(state, at', slices[0]);
      assert Map(ReadPeer, Pieces(state, at, key, slices)) == [ReadPeer(Piece(state, at, slices[0]))];
      CoalescedOne(ReadPeer(Piece(state, at, slices[0])));
    } else {
      var init, last := slices[..n], slices[n];
      assert slices == init + [last];
      FlattenSnoc(init, last);
      ReadIpsConcat(Flatten(init), last);
      PiecesCoalesce(state, at, at', key, init);
      var read := Map(ReadPeer, Pieces(state, at, key, init));
      assert Pieces(state, at, key, slices) == Pieces(state, at, key, init) + [Continuation(key, last)];
      assert Map(ReadPeer, Pieces(state, at, key, slices)) == read + [ReadPeer(Continuation(key, last))];
      FoldSnoc(PushPeer, [], read, ReadPeer(Continuation(key, last)));
      ReadPiece(state, at', Flatten(init));
      ReadPiece(state, at', Flatten(slices));
      ReadContinuation(key, last);
      PushContinuation(whole.(allowedIps := Some(ReadIps(Flatten(init)))), KeyText(key), ReadIps(last));
    }
  }
}
