/** A device seen one key and one allowed IP at a time: which peer an entry leaves under a key, and to which peer it
    leaves an allowed IP. */
module Owners {
  import opened Device
  import opened Flags
  import opened Meaning
  import opened Netlink
  import opened Wrappers

  function PeerAt(d: Device, key: Key): Option<PeerState> {
    if key in d.peers then Some(d.peers[key]) else None
  }

  function Owner(d: Device, r: Route): Option<Key> {
    if r in d.routes then Some(d.routes[r]) else None
  }

  lemma SameDevice(d: Device, d': Device)
    requires d'.name == d.name && d'.index == d.index && d'.settings == d.settings
    requires forall key: Key :: PeerAt(d', key) == PeerAt(d, key)
    requires forall r: Route :: Owner(d', r) == Owner(d, r)
    ensures d' == d
  {
    assert forall key: Key :: key in d'.peers <==> PeerAt(d', key).Some?;
    assert forall key: Key :: key in d.peers <==> PeerAt(d, key).Some?;
    assert forall key: Key :: key in d.peers ==> d'.peers[key] == PeerAt(d', key).value == d.peers[key];
    assert d'.peers == d.peers;
    assert forall r: Route :: (r in d'.routes <==> Owner(d', r).Some?) && (r in d.routes <==> Owner(d, r).Some?);
    assert forall r: Route :: r in d.routes ==> d'.routes[r] == Owner(d', r).value == d.routes[r];
    assert d'.routes == d.routes;
  }

  /* Allowed IPs */

  /** The allowed IP gives `r` to the peer. */
  predicate GivesIp(ip: AllowedIp, r: Route) {
    WellFormed(ip) && RouteIn(ip) == r && !TakesAway(ip)
  }

  /** The allowed IP takes `r` away from the peer. */
  predicate TakesIp(ip: AllowedIp, r: Route) {
    WellFormed(ip) && RouteIn(ip) == r && TakesAway(ip)
  }

  predicate Gives(ips: seq<AllowedIp>, r: Route) {
    exists i :: 0 <= i < |ips| && GivesIp(ips[i], r)
  }

  predicate Takes(ips: seq<AllowedIp>, r: Route) {
    exists i :: 0 <= i < |ips| && TakesIp(ips[i], r)
  }

  lemma GivesConcat(xs: seq<AllowedIp>, ys: seq<AllowedIp>, r: Route)
    ensures Gives(xs + ys, r) <==> Gives(xs, r) || Gives(ys, r)
    ensures Takes(xs + ys, r) <==> Takes(xs, r) || Takes(ys, r)
  {
    hide GivesIp, TakesIp;
    var all := xs + ys;
    assert forall i :: 0 <= i < |xs| ==> all[i] == xs[i];
    assert forall i :: 0 <= i < |ys| ==> all[|xs| + i] == ys[i];
  }

  lemma GivesFirst(ips: seq<AllowedIp>, r: Route)
    requires ips != []
    ensures Gives(ips, r) <==> GivesIp(ips[0], r) || Gives(ips[1..], r)
    ensures Takes(ips, r) <==> TakesIp(ips[0], r) || Takes(ips[1..], r)
  {
    hide GivesIp, TakesIp;
    assert ips == [ips[0]] + ips[1..];
    GivesConcat([ips[0]], ips[1..], r);
    assert forall i :: 0 <= i < |[ips[0]]| ==> [ips[0]][i] == ips[0];
    assert [ips[0]][0] == ips[0];
  }

  /** The owner of `r` after one allowed IP of the peer `key`, and after several. */
  function OwnerAfterIp(o: Option<Key>, key: Key, ip: AllowedIp, r: Route): Option<Key> {
    if GivesIp(ip, r) then Some(key) else if TakesIp(ip, r) && o == Some(key) then None else o
  }

  function OwnerAfter(o: Option<Key>, key: Key, ips: seq<AllowedIp>, r: Route): Option<Key>
    decreases |ips|
  {
    if ips == [] then o else OwnerAfter(OwnerAfterIp(o, key, ips[0], r), key, ips[1..], r)
  }

  lemma {:induction false} IpsOwner(d: Device, key: Key, ips: seq<AllowedIp>, r: Route)
    ensures Owner(ApplyIps(d, key, ips), r) == OwnerAfter(Owner(d, r), key, ips, r)
    decreases |ips|
  {
    hide WellFormed, TakesAway, RouteIn;
    if ips != [] {
      assert Owner(ApplyIp(d, key, ips[0]), r) == OwnerAfterIp(Owner(d, r), key, ips[0], r);
      IpsOwner(ApplyIp(d, key, ips[0]), key, ips[1..], r);
    }
  }

  /** Once an allowed IP is given it does not matter who had it before; if it is not, it can only be taken from its
      owner. */
  lemma {:induction false} GivenOrKept(o: Option<Key>, o': Option<Key>, key: Key, ips: seq<AllowedIp>, r: Route)
    ensures Gives(ips, r) ==> OwnerAfter(o, key, ips, r) == OwnerAfter(o', key, ips, r)
    ensures !Gives(ips, r) ==>
              OwnerAfter(o, key, ips, r) == if o == Some(key) && Takes(ips, r) then None else o
    ensures OwnerAfter(o, key, ips, r) in {None, Some(key), o}
    decreases |ips|
  {
    hide GivesIp, TakesIp, Gives, Takes;
    if ips == [] {
      assert !Gives(ips, r) && !Takes(ips, r) by { NothingGiven(r); }
    } else {
      GivesFirst(ips, r);
      assert GivesIp(ips[0], r) ==> !TakesIp(ips[0], r) by { GivesOrTakes(ips[0], r); }
      GivenOrKept(OwnerAfterIp(o, key, ips[0], r), OwnerAfterIp(o', key, ips[0], r), key, ips[1..], r);
    }
  }

  lemma {:induction false} GivenForGood(o: Option<Key>, key: Key, ips: seq<AllowedIp>, r: Route)
    requires !Takes(ips, r) && (Gives(ips, r) || o == Some(key))
    ensures OwnerAfter(o, key, ips, r) == Some(key)
    decreases |ips|
  {
    hide GivesIp, TakesIp, Gives, Takes;
    if ips == [] {
      NothingGiven(r);
    } else {
      GivesFirst(ips, r);
      GivenForGood(OwnerAfterIp(o, key, ips[0], r), key, ips[1..], r);
    }
  }

  lemma NothingGiven(r: Route)
    ensures !Gives([], r) && !Takes([], r)
  {}

  lemma GivesOrTakes(ip: AllowedIp, r: Route)
    ensures !(GivesIp(ip, r) && TakesIp(ip, r))
  {
    hide WellFormed, TakesAway, RouteIn;
  }

  /* Entries */

  /** What an entry makes of its peer. */
  function StateAfter(f: Fields, was: Option<PeerState>): Option<PeerState> {
    if REMOVE_ME <= f.flags || (was.None? && UPDATE_ONLY <= f.flags) then None
    else Some(Update(if was.Some? then was.value else NO_STATE, f.state))
  }

  lemma EntryPeer(d: Device, f: Fields, key: Key)
    ensures PeerAt(ApplyFields(d, f), key)
            == if f.key == Some(key) then StateAfter(f, PeerAt(d, key)) else PeerAt(d, key)
  {
    hide ApplyIps, Update;
    if f.key.Some? {
      var own := f.key.value;
      var known := own in d.peers;
      var state := Update(if known then d.peers[own] else NO_STATE, f.state);
      var kept := if known && REPLACE_ALLOWED_IPS <= f.flags then WithoutRoutes(d, own) else d;
      IpsKeepPeers(kept.(peers := d.peers[own := state]), own, f.ips);
    }
  }

  /** The entry makes its peer lose `r`, unless it gives it. */
  predicate Drops(f: Fields, r: Route) {
    REMOVE_ME <= f.flags || REPLACE_ALLOWED_IPS <= f.flags || Takes(f.ips, r)
  }

  /** What an entry makes of the owner of `r`, depending on whether it acts on its peer. */
  function OwnerThen(acts: bool, f: Fields, o: Option<Key>, r: Route): Option<Key>
    requires acts ==> f.key.Some?
  {
    if acts && Gives(f.ips, r) then OwnerAfter(None, f.key.value, f.ips, r)
    else if (acts || REMOVE_ME <= f.flags) && f.key.Some? && o == f.key && Drops(f, r) then None
    else o
  }

  lemma EntryOwner(d: Device, f: Fields, r: Route)
    requires d.Valid()
    ensures Owner(ApplyFields(d, f), r) == OwnerThen(Acts(d, f), f, Owner(d, r), r)
  {
    hide ApplyIps, Update, Gives, Takes, OwnerAfter;
    if f.key.Some? {
      var own := f.key.value;
      assert Owner(d, r) == Some(own) ==> own in d.peers;
      if Acts(d, f) {
        var known := own in d.peers;
        var state := Update(if known then d.peers[own] else NO_STATE, f.state);
        var kept := if known && REPLACE_ALLOWED_IPS <= f.flags then WithoutRoutes(d, own) else d;
        var base := kept.(peers := d.peers[own := state]);
        IpsOwner(base, own, f.ips, r);
        GivenOrKept(Owner(base, r), None, own, f.ips, r);
      }
    }
  }
}
