/** What a list of entries leaves of a peer that has one entry. */
module Outcomes {
  import opened Device
  import opened Netlink
  import opened Owners
  import opened Turns
  import opened Wrappers

  ghost predicate OneEach(fs: seq<Fields>) {
    && (forall i :: 0 <= i < |fs| ==> fs[i].key.Some?)
    && forall i, j | 0 <= i < j < |fs| :: fs[i].key != fs[j].key
  }

  ghost predicate Absent(fs: seq<Fields>, key: Key) {
    forall i :: 0 <= i < |fs| ==> fs[i].key != Some(key)
  }

  lemma {:induction false} OthersKeepPeer(d: Device, fs: seq<Fields>, key: Key)
    requires Absent(fs, key)
    ensures PeerAt(ApplyAll(d, fs), key) == PeerAt(d, key)
    decreases |fs|
  {
    hide ApplyFields, StateAfter, PeerAt;
    if fs != [] {
      EntryPeer(d, fs[0], key);
      OthersKeepPeer(ApplyFields(d, fs[0]), fs[1..], key);
    }
  }

  lemma {:induction false} PeerAfterAll(d: Device, fs: seq<Fields>, i: nat)
    requires OneEach(fs) && i < |fs|
    ensures PeerAt(ApplyAll(d, fs), fs[i].key.value) == StateAfter(fs[i], PeerAt(d, fs[i].key.value))
    decreases i
  {
    hide ApplyFields, StateAfter, PeerAt;
    var key := fs[i].key.value;
    EntryPeer(d, fs[0], key);
    if i == 0 {
      OthersKeepPeer(ApplyFields(d, fs[0]), fs[1..], key);
    } else {
      PeerAfterAll(ApplyFields(d, fs[0]), fs[1..], i - 1);
    }
  }
}
