/** What a list of entries leaves on a device, in closed form: who is there, with which properties, and who owns an
    allowed IP. Keys may repeat. */
module Turns {
  import opened Device
  import opened Flags
  import opened Meaning
  import opened Netlink
  import opened Owners
  import opened Sequences
  import opened Wrappers

  function ApplyAll(d: Device, fs: seq<Fields>): Device {
    Fold(ApplyFields, d, fs)
  }

  /** The device when the first `n` entries have taken effect. */
  function After(d: Device, fs: seq<Fields>, n: nat): Device
    requires n <= |fs|
  {
    ApplyAll(d, fs[..n])
  }

  lemma AfterNone(d: Device, fs: seq<Fields>)
    ensures After(d, fs, 0) == d && After(d, fs, |fs|) == ApplyAll(d, fs)
  {
    assert fs[..0] == [] && fs[..|fs|] == fs;
  }

  lemma AfterNext(d: Device, fs: seq<Fields>, n: nat)
    requires n < |fs|
    ensures After(d, fs, n + 1) == ApplyFields(After(d, fs, n), fs[n])
  {
    assert fs[..n + 1] == fs[..n] + [fs[n]];
    FoldSnoc(ApplyFields, d, fs[..n], fs[n]);
  }

  lemma {:induction false} AfterKeeps(d: Device, fs: seq<Fields>, n: nat)
    requires n <= |fs|
    ensures var e := After(d, fs, n); e.name == d.name && e.index == d.index && e.settings == d.settings
    ensures d.Valid() ==> After(d, fs, n).Valid()
    decreases n
  {
    hide ApplyFields;
    if n == 0 {
      AfterNone(d, fs);
    } else {
      AfterKeeps(d, fs, n - 1);
      AfterNext(d, fs, n - 1);
      EntryPeers(After(d, fs, n - 1), fs[n - 1]);
    }
  }

  /* Who is there */

  /** After the entry it is known whether its peer is there. */
  predicate Settles(f: Fields) {
    REMOVE_ME <= f.flags || !(UPDATE_ONLY <= f.flags)
  }

  /** One of the first `n` entries settles whether the peer is there. */
  predicate Settled(fs: seq<Fields>, n: nat, key: Key)
    requires n <= |fs|
  {
    exists i :: 0 <= i < n && fs[i].key == Some(key) && Settles(fs[i])
  }

  predicate Removed(fs: seq<Fields>, key: Key) {
    exists i :: 0 <= i < |fs| && fs[i].key == Some(key) && REMOVE_ME <= fs[i].flags
  }

  /** Whether the peer is there after the first `n` entries, if it is `there` in front of them. */
  function PresentAt(there: bool, fs: seq<Fields>, n: nat, key: Key): bool
    requires n <= |fs|
  {
    if n == 0 then there
    else if fs[n - 1].key == Some(key) && Settles(fs[n - 1]) then !(REMOVE_ME <= fs[n - 1].flags)
    else PresentAt(there, fs, n - 1, key)
  }

  lemma {:induction false} SettledPresence(fs: seq<Fields>, n: nat, key: Key)
    requires n <= |fs|
    ensures Settled(fs, n, key) ==> PresentAt(true, fs, n, key) == PresentAt(false, fs, n, key)
    ensures !Settled(fs, n, key) ==> PresentAt(true, fs, n, key) && !PresentAt(false, fs, n, key)
    ensures !Removed(fs, key) ==> PresentAt(true, fs, n, key) && PresentAt(false, fs, n, key) == Settled(fs, n, key)
    decreases n
  {
    hide Settles;
    if n > 0 {
      SettledPresence(fs, n - 1, key);
      SettledNext(fs, n - 1, key);
      assert REMOVE_ME <= fs[n - 1].flags ==> Settles(fs[n - 1]) by { RemovalSettles(fs[n - 1]); }
    }
  }

  lemma RemovalSettles(f: Fields)
    ensures REMOVE_ME <= f.flags ==> Settles(f)
  {}

  lemma SettledNext(fs: seq<Fields>, n: nat, key: Key)
    requires n < |fs|
    ensures Settled(fs, n + 1, key) <==> Settled(fs, n, key) || (fs[n].key == Some(key) && Settles(fs[n]))
  {
    hide Settles;
  }

  lemma {:induction false} PresenceInTurn(d: Device, fs: seq<Fields>, n: nat, key: Key)
    requires n <= |fs|
    ensures key in After(d, fs, n).peers <==> PresentAt(key in d.peers, fs, n, key)
    decreases n
  {
    hide ApplyFields;
    if n == 0 {
      AfterNone(d, fs);
    } else {
      PresenceInTurn(d, fs, n - 1, key);
      AfterNext(d, fs, n - 1);
      EntryPeer(After(d, fs, n - 1), fs[n - 1], key);
    }
  }

  /** The entry acts on its peer if it is its turn in a run that begins with the peers `there`. */
  ghost predicate ActsIn(there: iset<Key>, fs: seq<Fields>, i: nat)
    requires i < |fs|
  {
    var f := fs[i];
    && f.key.Some? && !(REMOVE_ME <= f.flags)
    && (UPDATE_ONLY <= f.flags ==> PresentAt(f.key.value in there, fs, i, f.key.value))
  }

  ghost function KeysOn(d: Device): iset<Key> {
    iset key | key in d.peers
  }

  lemma ActsInTurn(d: Device, fs: seq<Fields>, i: nat)
    requires i < |fs|
    ensures Acts(After(d, fs, i), fs[i]) <==> ActsIn(KeysOn(d), fs, i)
  {
    hide ApplyAll;
    if fs[i].key.Some? { PresenceInTurn(d, fs, i, fs[i].key.value); }
  }

  /** An update-only entry acts only if its peer is there when the run begins, if no entry before it settles that. */
  ghost predicate Conditional(fs: seq<Fields>, i: nat)
    requires i < |fs|
  {
    fs[i].key.Some? && !Settles(fs[i]) && !Settled(fs, i, fs[i].key.value)
  }

  lemma ConditionalActs(there: iset<Key>, fs: seq<Fields>, i: nat)
    requires i < |fs| && Conditional(fs, i)
    ensures ActsIn(there, fs, i) <==> fs[i].key.value in there
  {
    SettledPresence(fs, i, fs[i].key.value);
  }

  lemma OtherActs(there: iset<Key>, there': iset<Key>, fs: seq<Fields>, i: nat)
    requires i < |fs| && !Conditional(fs, i)
    ensures ActsIn(there, fs, i) <==> ActsIn(there', fs, i)
  {
    if fs[i].key.Some? { SettledPresence(fs, i, fs[i].key.value); }
  }

  /* Properties */

  /** What the first `n` entries set of the properties of the peer. */
  function SetBy(there: bool, fs: seq<Fields>, n: nat, key: Key): PeerState
    requires n <= |fs|
  {
    if n == 0 then NO_STATE
    else
      var f, before := fs[n - 1], SetBy(there, fs, n - 1, key);
      if f.key == Some(key) && (Settles(f) || PresentAt(there, fs, n - 1, key)) then Update(before, f.state) else before
  }

  lemma UpdateIsAssociative(a: PeerState, b: PeerState, c: PeerState)
    ensures Update(Update(a, b), c) == Update(a, Update(b, c))
    ensures Update(a, NO_STATE) == a == Update(NO_STATE, a) == Update(a, a)
  {}

  function StateOn(d: Device, key: Key): PeerState {
    if key in d.peers then d.peers[key] else NO_STATE
  }

  /** A peer that is not removed has what it had and what the entries set. */
  lemma {:induction false} StateInTurn(d: Device, fs: seq<Fields>, n: nat, key: Key)
    requires n <= |fs| && !Removed(fs, key)
    ensures var there := key in d.peers;
            PeerAt(After(d, fs, n), key)
            == if PresentAt(there, fs, n, key) then Some(Update(StateOn(d, key), SetBy(there, fs, n, key))) else None
    ensures !PresentAt(key in d.peers, fs, n, key) ==> SetBy(key in d.peers, fs, n, key) == NO_STATE
    decreases n
  {
    hide ApplyFields, Update;
    var there := key in d.peers;
    UpdateIsAssociative(StateOn(d, key), NO_STATE, NO_STATE);
    if n == 0 {
      AfterNone(d, fs);
    } else {
      var f := fs[n - 1];
      StateInTurn(d, fs, n - 1, key);
      SettledPresence(fs, n - 1, key);
      AfterNext(d, fs, n - 1);
      EntryPeer(After(d, fs, n - 1), f, key);
      UpdateIsAssociative(StateOn(d, key), SetBy(there, fs, n - 1, key), f.state);
      UpdateIsAssociative(NO_STATE, f.state, NO_STATE);
      UpdateIsAssociative(f.state, NO_STATE, NO_STATE);
    }
  }

  /** A peer that is removed ends up the same whatever it was. */
  lemma {:induction false} RemovalForgets(d: Device, d': Device, fs: seq<Fields>, n: nat, key: Key)
    requires n <= |fs|
    requires PeerAt(d, key) == PeerAt(d', key)
             || exists i :: 0 <= i < n && fs[i].key == Some(key) && REMOVE_ME <= fs[i].flags
    ensures PeerAt(After(d, fs, n), key) == PeerAt(After(d', fs, n), key)
    decreases n
  {
    hide ApplyFields, Update;
    if n == 0 {
      AfterNone(d, fs);
      AfterNone(d', fs);
    } else {
      AfterNext(d, fs, n - 1);
      AfterNext(d', fs, n - 1);
      EntryPeer(After(d, fs, n - 1), fs[n - 1], key);
      EntryPeer(After(d', fs, n - 1), fs[n - 1], key);
      if !(fs[n - 1].key == Some(key) && REMOVE_ME <= fs[n - 1].flags) {
        RemovalForgets(d, d', fs, n - 1, key);
      }
    }
  }

  /** What one entry sets is among what all of them set. */
  lemma {:induction false} SetByAll(fs: seq<Fields>, i: nat, n: nat, key: Key)
    requires i < n <= |fs| && fs[i].key == Some(key) && !Removed(fs, key)
    ensures Update(fs[i].state, SetBy(true, fs, n, key)) == SetBy(true, fs, n, key)
    decreases n
  {
    hide Settles;
    SettledPresence(fs, n - 1, key);
    if i < n - 1 { SetByAll(fs, i, n - 1, key); }
  }

  /** What is set if the peer is not there is set if it is there. */
  lemma {:induction false} SetByLess(fs: seq<Fields>, n: nat, key: Key)
    requires n <= |fs| && !Removed(fs, key)
    ensures Update(SetBy(true, fs, n, key), SetBy(false, fs, n, key)) == SetBy(true, fs, n, key)
    ensures !PresentAt(false, fs, n, key) ==> SetBy(false, fs, n, key) == NO_STATE
    decreases n
  {
    hide Settles;
    if n > 0 {
      SettledPresence(fs, n - 1, key);
      SetByLess(fs, n - 1, key);
    }
  }

  /** Without a conditional entry it makes no difference whether the peer is there. */
  lemma {:induction false} SetBySame(fs: seq<Fields>, n: nat, key: Key)
    requires n <= |fs|
    requires forall i :: 0 <= i < n && fs[i].key == Some(key) ==> !Conditional(fs, i)
    ensures SetBy(true, fs, n, key) == SetBy(false, fs, n, key)
    decreases n
  {
    if n > 0 {
      SettledPresence(fs, n - 1, key);
      SetBySame(fs, n - 1, key);
    }
  }

  /* Allowed IPs */

  ghost predicate GivesIn(there: iset<Key>, fs: seq<Fields>, i: nat, r: Route)
    requires i < |fs|
  {
    ActsIn(there, fs, i) && Gives(fs[i].ips, r)
  }

  /** The last entry that gives `r` and acts. */
  ghost predicate LastGives(there: iset<Key>, fs: seq<Fields>, i: nat, r: Route) {
    i < |fs| && GivesIn(there, fs, i, r) && forall j :: i < j < |fs| ==> !GivesIn(there, fs, j, r)
  }

  ghost predicate NoneGives(there: iset<Key>, fs: seq<Fields>, r: Route) {
    forall i :: 0 <= i < |fs| ==> !GivesIn(there, fs, i, r)
  }

  lemma {:induction false} SomeGivesLast(there: iset<Key>, fs: seq<Fields>, r: Route, i: nat)
    requires i < |fs| && GivesIn(there, fs, i, r)
    ensures exists j :: i <= j && LastGives(there, fs, j, r)
    decreases |fs| - i
  {
    hide GivesIn;
    if j :| i < j < |fs| && GivesIn(there, fs, j, r) {
      SomeGivesLast(there, fs, r, j);
    } else {
      assert LastGives(there, fs, i, r);
    }
  }

  /** One of the entries from `m` to `n` makes the peer lose `r`. */
  ghost predicate DroppedBy(fs: seq<Fields>, m: nat, n: nat, key: Key, r: Route)
    requires n <= |fs|
  {
    exists i :: m <= i < n && fs[i].key == Some(key) && Drops(fs[i], r)
  }

  /** What becomes of an owner to whom nothing is given and who is not replaced by another one. */
  ghost function Remains(fs: seq<Fields>, o: Option<Key>, m: nat, n: nat, r: Route): Option<Key>
    requires n <= |fs|
  {
    if o.Some? && DroppedBy(fs, m, n, o.value, r) then None else o
  }

  lemma {:induction false} OwnerWithoutGivers(d: Device, fs: seq<Fields>, m: nat, n: nat, r: Route)
    requires d.Valid() && m <= n <= |fs|
    requires forall i :: m <= i < n ==> !GivesIn(KeysOn(d), fs, i, r)
    ensures Owner(After(d, fs, n), r) == Remains(fs, Owner(After(d, fs, m), r), m, n, r)
    decreases n
  {
    hide ApplyFields, Gives, Takes, OwnerAfter, Drops, Owner, ActsIn;
    var o := Owner(After(d, fs, m), r);
    if m < n {
      var e, f := After(d, fs, n - 1), fs[n - 1];
      OwnerWithoutGivers(d, fs, m, n - 1, r);
      AfterKeeps(d, fs, n - 1);
      AfterNext(d, fs, n - 1);
      EntryOwner(e, f, r);
      ActsInTurn(d, fs, n - 1);
      OwnerIsThere(e, r);
      assert !GivesIn(KeysOn(d), fs, n - 1, r);
      assert o.Some? ==> (DroppedBy(fs, m, n, o.value, r)
                          <==> DroppedBy(fs, m, n - 1, o.value, r) || (f.key == o && Drops(f, r)));
    }
  }

  lemma OwnerIsThere(d: Device, r: Route)
    requires d.Valid()
    ensures Owner(d, r).Some? ==> Owner(d, r).value in d.peers
  {}

  /** The entry gives `r`, and neither it nor a later entry of its peer drops it. */
  ghost predicate Keeps(fs: seq<Fields>, i: nat, r: Route)
    requires i < |fs|
  {
    && fs[i].key.Some? && OwnerAfter(None, fs[i].key.value, fs[i].ips, r) == fs[i].key
    && !DroppedBy(fs, i + 1, |fs|, fs[i].key.value, r)
  }

  /** The last entry that gives `r` decides who owns it. */
  lemma LastGiverDecides(d: Device, fs: seq<Fields>, i: nat, r: Route)
    requires d.Valid() && LastGives(KeysOn(d), fs, i, r)
    ensures Owner(ApplyAll(d, fs), r) == if Keeps(fs, i, r) then fs[i].key else None
  {
    hide ApplyFields, Gives, Takes, OwnerAfter, Drops, Owner, ActsIn, DroppedBy;
    var key := fs[i].key;
    ActsInTurn(d, fs, i);
    AfterKeeps(d, fs, i);
    AfterNext(d, fs, i);
    EntryOwner(After(d, fs, i), fs[i], r);
    GivenOrKept(None, None, key.value, fs[i].ips, r);
    OwnerWithoutGivers(d, fs, i + 1, |fs|, r);
    AfterNone(d, fs);
  }

  /** Nobody owns `r` in the end. */
  ghost predicate NobodyOwns(d: Device, fs: seq<Fields>, r: Route) {
    || (exists i :: LastGives(KeysOn(d), fs, i, r) && !Keeps(fs, i, r))
    || (NoneGives(KeysOn(d), fs, r) && Remains(fs, Owner(d, r), 0, |fs|, r) == None)
  }

  lemma NobodyOwnsIff(d: Device, fs: seq<Fields>, r: Route)
    requires d.Valid()
    ensures NobodyOwns(d, fs, r) <==> Owner(ApplyAll(d, fs), r) == None
  {
    hide GivesIn, Keeps, Owner, ApplyAll;
    if NoneGives(KeysOn(d), fs, r) {
      OwnerWithoutGivers(d, fs, 0, |fs|, r);
      AfterNone(d, fs);
    } else {
      var k :| 0 <= k < |fs| && GivesIn(KeysOn(d), fs, k, r);
      SomeGivesLast(KeysOn(d), fs, r, k);
      var i :| k <= i && LastGives(KeysOn(d), fs, i, r);
      LastGiverDecides(d, fs, i, r);
      GiverHasKey(KeysOn(d), fs, i, r);
      assert forall j :: LastGives(KeysOn(d), fs, j, r) ==> j == i;
    }
  }

  lemma GiverHasKey(there: iset<Key>, fs: seq<Fields>, i: nat, r: Route)
    requires i < |fs| && GivesIn(there, fs, i, r)
    ensures fs[i].key.Some?
  {}
}
