/** Applying a list of entries again to a device on which it was begun before, any number of times: when that leaves the
    device that one run leaves. Keys may repeat. */
module Reruns {
  import opened Device
  import opened Flags
  import opened Meaning
  import opened Netlink
  import opened Owners
  import opened Retry
  import opened Turns
  import opened Wrappers

  /** The peers that are there after the first `n` entries. */
  ghost function KeysAfter(d: Device, fs: seq<Fields>, n: nat): iset<Key>
    requires n <= |fs|
  {
    iset key | PresentAt(key in d.peers, fs, n, key)
  }

  /** An entry gives `r` later on, whoever is there. */
  ghost predicate GivenLater(fs: seq<Fields>, i: nat, r: Route) {
    exists j :: i < j < |fs| && !Conditional(fs, j) && GivesIn(iset{}, fs, j, r)
  }

  /** What a conditional entry gives to a peer that is also removed is given again later. This is so in particular if no
      peer is removed that an entry in front only updates. */
  ghost predicate RemovedGiveNothing(fs: seq<Fields>) {
    forall i, r: Route | 0 <= i < |fs| && Conditional(fs, i) && Removed(fs, fs[i].key.value) && Gives(fs[i].ips, r) ::
      GivenLater(fs, i, r)
  }

  /** The conditional entries of the peer set nothing that is not set again once the peer is there anyway. */
  ghost predicate SetAgain(fs: seq<Fields>, key: Key) {
    SetBy(true, fs, |fs|, key) == SetBy(false, fs, |fs|, key)
  }

  /** A run after the first `n` entries took effect differs from the first run by the update-only entries whose peers
      have been created or removed since: they were skipped and now act, or the other way round. They do no harm: what
      is set now only is set again or the peer is removed, and if another entry than the first time is the last to give
      an allowed IP then its peer loses it again and nobody owns it after the first run either. */
  ghost predicate RetryHarmless(d: Device, fs: seq<Fields>, n: nat)
    requires n <= |fs|
  {
    && (forall key: Key :: key !in d.peers && Settled(fs, n, key) && !Removed(fs, key) ==> SetAgain(fs, key))
    && (forall i, r: Route | LastGives(KeysAfter(d, fs, n), fs, i, r) ::
          LastGives(KeysOn(d), fs, i, r) || (!Keeps(fs, i, r) && NobodyOwns(d, fs, r)))
  }

  /* Who gives in which run */

  lemma MoreGivers(there: iset<Key>, there': iset<Key>, fs: seq<Fields>, i: nat, r: Route)
    requires RemovedGiveNothing(fs) && i < |fs| && GivesIn(there, fs, i, r)
    requires forall key: Key :: key in there && !Removed(fs, key) ==> key in there'
    ensures exists j :: i <= j < |fs| && GivesIn(there', fs, j, r)
  {
    hide Gives, Removed;
    if !Conditional(fs, i) {
      OtherActs(there, there', fs, i);
      assert GivesIn(there', fs, i, r);
    } else if Removed(fs, fs[i].key.value) {
      assert GivenLater(fs, i, r);
      var j :| i < j < |fs| && !Conditional(fs, j) && GivesIn(iset{}, fs, j, r);
      OtherActs(iset{}, there', fs, j);
      assert GivesIn(there', fs, j, r);
    } else {
      ConditionalActs(there, fs, i);
      ConditionalActs(there', fs, i);
      assert GivesIn(there', fs, i, r);
    }
  }

  /** Peers that are removed make no difference to who gives last. */
  lemma SameLastGiver(there: iset<Key>, there': iset<Key>, fs: seq<Fields>, i: nat, r: Route)
    requires RemovedGiveNothing(fs) && LastGives(there, fs, i, r)
    requires forall key: Key :: !Removed(fs, key) ==> (key in there <==> key in there')
    ensures LastGives(there', fs, i, r)
  {
    hide GivesIn, Removed, RemovedGiveNothing;
    forall j | i <= j < |fs| && GivesIn(there', fs, j, r)
      ensures j == i
    {
      MoreGivers(there', there, fs, j, r);
    }
    MoreGivers(there, there', fs, i, r);
  }

  lemma NoneGivesLess(there: iset<Key>, there': iset<Key>, fs: seq<Fields>, r: Route)
    requires RemovedGiveNothing(fs) && NoneGives(there', fs, r)
    requires forall key: Key :: key in there && !Removed(fs, key) ==> key in there'
    ensures NoneGives(there, fs, r)
  {
    hide GivesIn, Removed, RemovedGiveNothing;
    forall i | 0 <= i < |fs| && GivesIn(there, fs, i, r)
      ensures false
    {
      MoreGivers(there, there', fs, i, r);
    }
  }

  /** Peers that are not removed stay there, and more of them are there after more entries. */
  lemma KeysGrow(d: Device, fs: seq<Fields>, n: nat, n': nat, key: Key)
    requires n <= n' <= |fs| && !Removed(fs, key)
    ensures key in KeysAfter(d, fs, n) ==> key in KeysAfter(d, fs, n')
    ensures key in KeysAfter(d, fs, n) <==> key in d.peers || Settled(fs, n, key)
  {
    SettledPresence(fs, n, key);
    SettledPresence(fs, n', key);
  }

  /* What interrupted runs leave */

  /** The peer on a device that is left by runs from `d` that went as far as entry `n`, the latest one as far as entry
      `m`: it is there if it was or was created; and what the entries set makes it what it would have become. */
  ghost predicate PeerRecovers(d: Device, e: Device, fs: seq<Fields>, n: nat, m: nat, key: Key)
    requires m <= n <= |fs|
  {
    && (!Removed(fs, key) ==> (key in e.peers <==> key in d.peers || Settled(fs, n, key)))
    && (Settled(fs, m, key) ==> (key in e.peers <==> PresentAt(false, fs, m, key)))
    && (!Removed(fs, key) && key in e.peers ==>
          var all := SetBy(true, fs, |fs|, key); Update(e.peers[key], all) == Update(StateOn(d, key), all))
  }

  /** If nobody gives `r`, its owner is the one it was or one that loses it. */
  ghost predicate RouteRecovers(d: Device, e: Device, fs: seq<Fields>, n: nat, r: Route)
    requires n <= |fs|
  {
    NoneGives(KeysAfter(d, fs, n), fs, r) ==>
      Remains(fs, Owner(e, r), 0, |fs|, r) == Remains(fs, Owner(d, r), 0, |fs|, r)
  }

  ghost predicate Recovers(d: Device, e: Device, fs: seq<Fields>, n: nat, m: nat)
    requires m <= n <= |fs|
  {
    && d.Valid() && e.Valid()
    && (forall key: Key :: PeerRecovers(d, e, fs, n, m, key))
    && (forall r: Route :: RouteRecovers(d, e, fs, n, r))
  }

  lemma RecoversItself(d: Device, fs: seq<Fields>)
    requires d.Valid()
    ensures Recovers(d, d, fs, 0, 0)
  {
    hide Removed, Update;
  }

  /** A new run begins. */
  lemma RecoversAgain(d: Device, e: Device, fs: seq<Fields>, n: nat, m: nat)
    requires m <= n <= |fs| && Recovers(d, e, fs, n, m)
    ensures Recovers(d, e, fs, n, 0)
  {
    hide Removed, Update, RouteRecovers;
    forall key: Key
      ensures PeerRecovers(d, e, fs, n, 0, key)
    {
      assert PeerRecovers(d, e, fs, n, m, key);
    }
  }

  function Further(n: nat, m: nat): nat {
    if m < n then n else m + 1
  }

  lemma PartSetsLess(part: PeerState, whole: PeerState, all: PeerState, was: PeerState)
    requires PartOfState(part, whole) && Update(whole, all) == all
    ensures Update(Update(was, part), all) == Update(was, all)
  {}

  lemma StepPeer(d: Device, e: Device, g: Fields, fs: seq<Fields>, n: nat, m: nat, key: Key)
    requires m <= n <= |fs| && m < |fs| && PartOfFields(g, fs[m]) && PeerRecovers(d, e, fs, n, m, key)
    ensures PeerRecovers(d, ApplyFields(e, g), fs, Further(n, m), m + 1, key)
  {
    hide ApplyFields, Update, SetBy, PartOfState;
    var f, e' := fs[m], ApplyFields(e, g);
    EntryPeer(e, g, key);
    assert PeerAt(e', key) == if g.key == Some(key) then StateAfter(g, PeerAt(e, key)) else PeerAt(e, key);
    SettledNext(fs, m, key);
    SettledPresence(fs, m, key);
    SettledPresence(fs, m + 1, key);
    if f.key == Some(key) && !Removed(fs, key) && key in e'.peers {
      var all := SetBy(true, fs, |fs|, key);
      SetByAll(fs, m, |fs|, key);
      PartSetsLess(g.state, f.state, all, StateOn(e, key));
      UpdateIsAssociative(all, all, all);
      if key !in e.peers { assert key !in d.peers; }
    }
  }

  lemma PartGivesLess(g: Fields, f: Fields, r: Route)
    requires PartOfFields(g, f)
    ensures Gives(g.ips, r) ==> Gives(f.ips, r)
    ensures Drops(g, r) ==> Drops(f, r)
  {
    hide Gives, Takes;
    assert f.ips == g.ips + f.ips[|g.ips|..];
    GivesConcat(g.ips, f.ips[|g.ips|..], r);
  }

  /** An entry that acts when its turn comes in an interrupted run acts in a run after it. */
  lemma ActsAfterwards(d: Device, e: Device, g: Fields, fs: seq<Fields>, n: nat, m: nat)
    requires m <= n <= |fs| && m < |fs| && PartOfFields(g, fs[m]) && Acts(e, g)
    requires PeerRecovers(d, e, fs, n, m, fs[m].key.value)
    requires !(Conditional(fs, m) && Removed(fs, fs[m].key.value))
    ensures ActsIn(KeysAfter(d, fs, Further(n, m)), fs, m)
  {
    hide Update, SetBy, PartOfState, Removed;
    var f, key := fs[m], fs[m].key.value;
    SettledPresence(fs, m, key);
    if Conditional(fs, m) {
      KeysGrow(d, fs, n, Further(n, m), key);
      ConditionalActs(KeysAfter(d, fs, Further(n, m)), fs, m);
    } else if UPDATE_ONLY <= f.flags {
      assert Settled(fs, m, key);
    }
  }

  lemma StepRoute(d: Device, e: Device, g: Fields, fs: seq<Fields>, n: nat, m: nat, r: Route)
    requires m <= n <= |fs| && m < |fs| && PartOfFields(g, fs[m]) && RemovedGiveNothing(fs)
    requires e.Valid() && RouteRecovers(d, e, fs, n, r)
    requires fs[m].key.Some? ==> PeerRecovers(d, e, fs, n, m, fs[m].key.value)
    ensures RouteRecovers(d, ApplyFields(e, g), fs, Further(n, m), r)
  {
    hide ApplyFields, Update, SetBy, PartOfState, Removed, Gives, Takes, OwnerAfter, Owner, GivesIn, PeerRecovers,
         Conditional, Acts, Drops, RemovedGiveNothing;
    var f, e', n' := fs[m], ApplyFields(e, g), Further(n, m);
    if NoneGives(KeysAfter(d, fs, n'), fs, r) {
      forall key: Key | key in KeysAfter(d, fs, n) && !Removed(fs, key)
        ensures key in KeysAfter(d, fs, n')
      {
        KeysGrow(d, fs, n, n', key);
      }
      NoneGivesLess(KeysAfter(d, fs, n), KeysAfter(d, fs, n'), fs, r);
      EntryOwner(e, g, r);
      PartGivesLess(g, f, r);
      if Acts(e, g) && Gives(g.ips, r) {
        ActsHasKey(e, g);
        GivesNothingThen(d, e, g, fs, n, m, r);
      } else if Owner(e', r) != Owner(e, r) {
        assert Owner(e, r) == f.key && Owner(e', r) == None && Drops(f, r);
        assert DroppedBy(fs, 0, |fs|, f.key.value, r);
      }
    }
  }

  lemma ActsHasKey(e: Device, g: Fields)
    ensures Acts(e, g) ==> g.key.Some?
  {}

  lemma GivesNothingThen(d: Device, e: Device, g: Fields, fs: seq<Fields>, n: nat, m: nat, r: Route)
    requires m <= n <= |fs| && m < |fs| && PartOfFields(g, fs[m]) && RemovedGiveNothing(fs)
    requires Acts(e, g) && Gives(fs[m].ips, r) && PeerRecovers(d, e, fs, n, m, fs[m].key.value)
    ensures !NoneGives(KeysAfter(d, fs, Further(n, m)), fs, r)
  {
    hide Update, SetBy, PartOfState, Removed, Gives, PeerRecovers;
    var there := KeysAfter(d, fs, Further(n, m));
    if Conditional(fs, m) && Removed(fs, fs[m].key.value) {
      assert GivenLater(fs, m, r);
      var j :| m < j < |fs| && !Conditional(fs, j) && GivesIn(iset{}, fs, j, r);
      OtherActs(iset{}, there, fs, j);
      assert GivesIn(there, fs, j, r);
    } else {
      ActsAfterwards(d, e, g, fs, n, m);
      assert GivesIn(there, fs, m, r);
    }
  }

  /** A part of the entry whose turn it is. */
  lemma StepRecovers(d: Device, e: Device, g: Fields, fs: seq<Fields>, n: nat, m: nat)
    requires m <= n <= |fs| && m < |fs| && PartOfFields(g, fs[m]) && RemovedGiveNothing(fs)
    requires Recovers(d, e, fs, n, m)
    ensures Recovers(d, ApplyFields(e, g), fs, Further(n, m), m + 1)
  {
    hide ApplyFields, PeerRecovers, RouteRecovers, RemovedGiveNothing, PartOfFields;
    var e', n', m' := ApplyFields(e, g), Further(n, m), m + 1;
    EntryPeers(e, g);
    forall key: Key
      ensures PeerRecovers(d, e', fs, n', m', key)
    {
      StepPeer(d, e, g, fs, n, m, key);
    }
    forall r: Route
      ensures RouteRecovers(d, e', fs, n', r)
    {
      StepRoute(d, e, g, fs, n, m, r);
    }
  }

  /* Running all of it once more */

  lemma RecoversPeer(d: Device, e: Device, fs: seq<Fields>, n: nat, m: nat, key: Key)
    requires m <= n <= |fs| && PeerRecovers(d, e, fs, n, m, key)
    requires key !in d.peers && Settled(fs, n, key) && !Removed(fs, key) ==> SetAgain(fs, key)
    ensures PeerAt(ApplyAll(e, fs), key) == PeerAt(ApplyAll(d, fs), key)
  {
    hide ApplyAll, Update, SetBy;
    AfterNone(d, fs);
    AfterNone(e, fs);
    if Removed(fs, key) {
      RemovalForgets(d, e, fs, |fs|, key);
    } else {
      StateInTurn(d, fs, |fs|, key);
      StateInTurn(e, fs, |fs|, key);
      SettledPresence(fs, |fs|, key);
      UpdateIsAssociative(SetBy(true, fs, |fs|, key), NO_STATE, NO_STATE);
      UpdateIsAssociative(SetBy(false, fs, |fs|, key), NO_STATE, NO_STATE);
      SettledStays(fs, n, key);
    }
  }

  lemma SettledStays(fs: seq<Fields>, n: nat, key: Key)
    requires n <= |fs|
    ensures Settled(fs, n, key) ==> Settled(fs, |fs|, key)
  {}

  lemma RecoversKeys(d: Device, e: Device, fs: seq<Fields>, n: nat, m: nat, key: Key)
    requires m <= n <= |fs| && PeerRecovers(d, e, fs, n, m, key)
    ensures !Removed(fs, key) ==> (key in KeysOn(e) <==> key in KeysAfter(d, fs, n))
  {
    hide Update, SetBy, Removed;
    if !Removed(fs, key) { KeysGrow(d, fs, n, n, key); }
  }

  lemma RecoversRoute(d: Device, e: Device, fs: seq<Fields>, n: nat, m: nat, r: Route)
    requires m <= n <= |fs| && Recovers(d, e, fs, n, m) && RemovedGiveNothing(fs) && RetryHarmless(d, fs, n)
    ensures Owner(ApplyAll(e, fs), r) == Owner(ApplyAll(d, fs), r)
  {
    hide ApplyAll, Owner, GivesIn, Removed, PeerRecovers, Keeps, NobodyOwns, SetAgain, RemovedGiveNothing, Remains;
    var there := KeysAfter(d, fs, n);
    forall key: Key | !Removed(fs, key)
      ensures key in KeysOn(e) <==> key in there
      ensures key in KeysOn(d) ==> key in there
    {
      assert PeerRecovers(d, e, fs, n, m, key);
      RecoversKeys(d, e, fs, n, m, key);
      KeysGrow(d, fs, n, n, key);
    }
    if NoneGives(there, fs, r) {
      NoneGivesLess(KeysOn(e), there, fs, r);
      NoneGivesLess(KeysOn(d), there, fs, r);
      OwnerWithoutGivers(e, fs, 0, |fs|, r);
      OwnerWithoutGivers(d, fs, 0, |fs|, r);
      AfterNone(d, fs);
      AfterNone(e, fs);
      assert RouteRecovers(d, e, fs, n, r);
    } else {
      var k :| 0 <= k < |fs| && GivesIn(there, fs, k, r);
      SomeGivesLast(there, fs, r, k);
      var i :| k <= i && LastGives(there, fs, i, r);
      SameLastGiver(there, KeysOn(e), fs, i, r);
      LastGiverDecides(e, fs, i, r);
      if LastGives(KeysOn(d), fs, i, r) {
        LastGiverDecides(d, fs, i, r);
      } else {
        NobodyOwnsIff(d, fs, r);
      }
    }
  }

  ghost predicate SameElse(d: Device, d': Device) {
    d'.name == d.name && d'.index == d.index && d'.settings == d.settings
  }

  /** Whatever the runs before did in part, one more run in full leaves what the first run leaves. */
  lemma RecoversBecomesEqual(d: Device, e: Device, fs: seq<Fields>, n: nat, m: nat)
    requires m <= n <= |fs| && Recovers(d, e, fs, n, m) && RemovedGiveNothing(fs) && RetryHarmless(d, fs, n)
    requires SameElse(d, e)
    ensures ApplyAll(e, fs) == ApplyAll(d, fs)
  {
    hide ApplyAll, Owner, PeerAt, PeerRecovers, RouteRecovers, LastGives, Keeps, NobodyOwns, SetAgain,
         RemovedGiveNothing;
    AfterNone(d, fs);
    AfterNone(e, fs);
    AfterKeeps(d, fs, |fs|);
    AfterKeeps(e, fs, |fs|);
    forall key: Key
      ensures PeerAt(ApplyAll(e, fs), key) == PeerAt(ApplyAll(d, fs), key)
    {
      RecoversPeer(d, e, fs, n, m, key);
    }
    forall r: Route
      ensures Owner(ApplyAll(e, fs), r) == Owner(ApplyAll(d, fs), r)
    {
      RecoversRoute(d, e, fs, n, m, r);
    }
    SameDevice(ApplyAll(d, fs), ApplyAll(e, fs));
  }

  /* After an interruption between entries, exactly */

  lemma WholeIsPart(f: Fields)
    ensures PartOfFields(f, f)
  {}

  lemma {:induction false} PeerAfterEntries(d: Device, fs: seq<Fields>, n: nat, key: Key)
    requires n <= |fs|
    ensures PeerRecovers(d, After(d, fs, n), fs, n, n, key)
    decreases n
  {
    hide ApplyFields, PeerRecovers, PartOfFields;
    if n == 0 {
      AfterNone(d, fs);
      PeerRecoversItself(d, fs, key);
    } else {
      PeerAfterEntries(d, fs, n - 1, key);
      AfterNext(d, fs, n - 1);
      WholeIsPart(fs[n - 1]);
      StepPeer(d, After(d, fs, n - 1), fs[n - 1], fs, n - 1, n - 1, key);
    }
  }

  lemma PeerRecoversItself(d: Device, fs: seq<Fields>, key: Key)
    ensures PeerRecovers(d, d, fs, 0, 0, key)
  {
    hide Removed, Update;
  }

  lemma MoreIsSet(was: PeerState, all: PeerState, less: PeerState)
    requires Update(all, less) == all && all != less
    ensures Update(was, all) != less
  {}

  /** Properties that are not set again show. */
  lemma SkippedPropertyShows(d: Device, fs: seq<Fields>, n: nat, key: Key)
    requires n <= |fs| && key !in d.peers && Settled(fs, n, key) && !Removed(fs, key) && !SetAgain(fs, key)
    ensures PeerAt(ApplyAll(After(d, fs, n), fs), key) != PeerAt(ApplyAll(d, fs), key)
  {
    hide ApplyAll, Update, SetBy, Removed;
    var e := After(d, fs, n);
    AfterNone(d, fs);
    AfterNone(e, fs);
    PresenceInTurn(d, fs, n, key);
    SettledPresence(fs, n, key);
    SettledPresence(fs, |fs|, key);
    SettledStays(fs, n, key);
    StateInTurn(d, fs, |fs|, key);
    StateInTurn(e, fs, |fs|, key);
    SetByLess(fs, |fs|, key);
    UpdateIsAssociative(SetBy(false, fs, |fs|, key), NO_STATE, NO_STATE);
    MoreIsSet(StateOn(e, key), SetBy(true, fs, |fs|, key), SetBy(false, fs, |fs|, key));
  }

  lemma KeysInTurn(d: Device, fs: seq<Fields>, n: nat)
    requires n <= |fs|
    ensures KeysOn(After(d, fs, n)) == KeysAfter(d, fs, n)
  {
    hide After;
    forall key: Key
      ensures key in KeysOn(After(d, fs, n)) <==> key in KeysAfter(d, fs, n)
    {
      PresenceInTurn(d, fs, n, key);
    }
  }

  /** The entries of a missing peer that do not settle whether it is there do not act. */
  lemma MissingDoesNotAct(d: Device, fs: seq<Fields>, s: nat, i: nat)
    requires s < i < |fs| && Conditional(fs, i) && fs[i].key.value !in d.peers && fs[s].key == fs[i].key
    ensures !ActsIn(KeysOn(d), fs, s)
  {
    assert Conditional(fs, s);
    ConditionalActs(KeysOn(d), fs, s);
  }

  lemma {:induction false} GoneIsRemoved(fs: seq<Fields>, n: nat, key: Key) returns (i: nat)
    requires n <= |fs| && !PresentAt(true, fs, n, key)
    ensures i < n && fs[i].key == Some(key) && REMOVE_ME <= fs[i].flags
    decreases n
  {
    if fs[n - 1].key == Some(key) && Settles(fs[n - 1]) {
      i := n - 1;
    } else {
      i := GoneIsRemoved(fs, n - 1, key);
    }
  }

  /** An entry that acts in the first run and not in a run after `n` entries: its peer was there and was removed in
      between, and has lost all allowed IPs. */
  lemma GoneGiver(d: Device, fs: seq<Fields>, n: nat, s: nat, r: Route)
    requires d.Valid() && n <= |fs| && LastGives(KeysOn(d), fs, s, r) && !ActsIn(KeysAfter(d, fs, n), fs, s)
    ensures Owner(ApplyAll(d, fs), r) == None && Owner(After(d, fs, n), r) == None
  {
    hide ApplyAll, Gives, Takes, OwnerAfter;
    if !Conditional(fs, s) { OtherActs(KeysAfter(d, fs, n), KeysOn(d), fs, s); }
    var key := fs[s].key.value;
    ConditionalActs(KeysOn(d), fs, s);
    ConditionalActs(KeysAfter(d, fs, n), fs, s);
    var i := GoneIsRemoved(fs, n, key);
    RemovalSettles(fs[i]);
    assert s < i;
    assert Drops(fs[i], r) && DroppedBy(fs, s + 1, n, key, r) && DroppedBy(fs, s + 1, |fs|, key, r);
    LastGiverDecides(d, fs, s, r);
    GivenOwner(d, fs, s, r);
    OwnerWithoutGivers(d, fs, s + 1, n, r);
  }

  lemma GivenOwner(d: Device, fs: seq<Fields>, s: nat, r: Route)
    requires d.Valid() && s < |fs| && GivesIn(KeysOn(d), fs, s, r)
    ensures Owner(After(d, fs, s + 1), r) in {None, fs[s].key}
  {
    hide ApplyFields, Gives, Takes, OwnerAfter, Owner;
    AfterKeeps(d, fs, s);
    AfterNext(d, fs, s);
    ActsInTurn(d, fs, s);
    EntryOwner(After(d, fs, s), fs[s], r);
    GivenOrKept(None, None, fs[s].key.value, fs[s].ips, r);
  }

  lemma RouteAfterEntries(d: Device, fs: seq<Fields>, n: nat, r: Route)
    requires d.Valid() && n <= |fs| && RetryHarmless(d, fs, n)
    ensures Owner(ApplyAll(After(d, fs, n), fs), r) == Owner(ApplyAll(d, fs), r)
  {
    hide ApplyAll, Owner, ActsIn, Gives, Keeps, NobodyOwns, SetAgain, DroppedBy, After;
    var e, there, was := After(d, fs, n), KeysAfter(d, fs, n), KeysOn(d);
    KeysInTurn(d, fs, n);
    AfterKeeps(d, fs, n);
    if k :| 0 <= k < |fs| && GivesIn(there, fs, k, r) {
      SomeGivesLast(there, fs, r, k);
      var i :| k <= i && LastGives(there, fs, i, r);
      LastGiverDecides(e, fs, i, r);
      if LastGives(was, fs, i, r) { LastGiverDecides(d, fs, i, r); } else { NobodyOwnsIff(d, fs, r); }
    } else {
      OwnerWithoutGivers(e, fs, 0, |fs|, r);
      AfterNone(e, fs);
      AfterNone(d, fs);
      if k :| 0 <= k < |fs| && GivesIn(was, fs, k, r) {
        SomeGivesLast(was, fs, r, k);
        var s :| k <= s && LastGives(was, fs, s, r);
        assert !GivesIn(there, fs, s, r);
        GoneGiver(d, fs, n, s, r);
      } else {
        OwnerWithoutGivers(d, fs, 0, n, r);
        OwnerWithoutGivers(d, fs, 0, |fs|, r);
        DroppedEarlier(fs, n, Owner(d, r), r);
      }
    }
  }

  lemma DroppedEarlier(fs: seq<Fields>, n: nat, o: Option<Key>, r: Route)
    requires n <= |fs|
    ensures Remains(fs, Remains(fs, o, 0, n, r), 0, |fs|, r) == Remains(fs, o, 0, |fs|, r)
  {
    hide Drops;
  }

  /** A peer to which an allowed IP is given last the second time only does not own it after the first time. */
  lemma SecondGiverIsNew(d: Device, fs: seq<Fields>, n: nat, i: nat, r: Route)
    requires d.Valid() && n <= |fs|
    requires LastGives(KeysAfter(d, fs, n), fs, i, r) && !LastGives(KeysOn(d), fs, i, r)
    ensures Owner(ApplyAll(d, fs), r) != fs[i].key
  {
    hide ApplyAll, Gives, Removed, Keeps, Owner, After;
    var there, was := KeysAfter(d, fs, n), KeysOn(d);
    if k :| 0 <= k < |fs| && GivesIn(was, fs, k, r) {
      SomeGivesLast(was, fs, r, k);
      var s :| k <= s && LastGives(was, fs, s, r);
      if s > i {
        assert !GivesIn(there, fs, s, r);
        GoneGiver(d, fs, n, s, r);
      } else {
        FirstTimeMissing(d, fs, n, i, r);
        LastGiverDecides(d, fs, s, r);
        if fs[s].key == fs[i].key { MissingDoesNotAct(d, fs, s, i); }
      }
    } else {
      FirstTimeMissing(d, fs, n, i, r);
      OwnerWithoutGivers(d, fs, 0, |fs|, r);
      AfterNone(d, fs);
      OwnerIsThere(d, r);
    }
  }

  lemma FirstTimeMissing(d: Device, fs: seq<Fields>, n: nat, i: nat, r: Route)
    requires n <= |fs| && i < |fs| && GivesIn(KeysAfter(d, fs, n), fs, i, r) && !GivesIn(KeysOn(d), fs, i, r)
    ensures Conditional(fs, i) && fs[i].key.value !in d.peers
  {
    if !Conditional(fs, i) { OtherActs(KeysAfter(d, fs, n), KeysOn(d), fs, i); }
    ConditionalActs(KeysOn(d), fs, i);
  }

  lemma SkippedGiftShows(d: Device, fs: seq<Fields>, n: nat, i: nat, r: Route)
    requires d.Valid() && n <= |fs|
    requires LastGives(KeysAfter(d, fs, n), fs, i, r) && !LastGives(KeysOn(d), fs, i, r)
    requires Keeps(fs, i, r) || !NobodyOwns(d, fs, r)
    ensures Owner(ApplyAll(After(d, fs, n), fs), r) != Owner(ApplyAll(d, fs), r)
  {
    hide ApplyAll, Keeps, NobodyOwns, LastGives, After;
    KeysInTurn(d, fs, n);
    AfterKeeps(d, fs, n);
    LastGiverDecides(After(d, fs, n), fs, i, r);
    NobodyOwnsIff(d, fs, r);
    SecondGiverIsNew(d, fs, n, i, r);
  }

  lemma SameAfterEntries(d: Device, fs: seq<Fields>, n: nat)
    requires d.Valid() && n <= |fs| && RetryHarmless(d, fs, n)
    ensures ApplyAll(After(d, fs, n), fs) == ApplyAll(d, fs)
  {
    hide ApplyAll, Owner, PeerAt, PeerRecovers, LastGives, Keeps, NobodyOwns, SetAgain, After;
    var e := After(d, fs, n);
    AfterKeeps(d, fs, n);
    AfterKeeps(d, fs, |fs|);
    AfterKeeps(e, fs, |fs|);
    AfterNone(d, fs);
    AfterNone(e, fs);
    forall key: Key
      ensures PeerAt(ApplyAll(e, fs), key) == PeerAt(ApplyAll(d, fs), key)
    {
      PeerAfterEntries(d, fs, n, key);
      RecoversPeer(d, e, fs, n, n, key);
    }
    forall r: Route
      ensures Owner(ApplyAll(e, fs), r) == Owner(ApplyAll(d, fs), r)
    {
      RouteAfterEntries(d, fs, n, r);
    }
    SameDevice(ApplyAll(d, fs), ApplyAll(e, fs));
  }

  /** For every device and all entries, whatever their keys and flags: a run after the first `n` entries took effect
      leaves what the first run leaves exactly when the retry is harmless. */
  lemma RerunIff(d: Device, fs: seq<Fields>, n: nat)
    requires d.Valid() && n <= |fs|
    ensures ApplyAll(After(d, fs, n), fs) == ApplyAll(d, fs) <==> RetryHarmless(d, fs, n)
  {
    hide ApplyAll, Keeps, NobodyOwns, SetAgain, Settled, Removed, GivesIn, After, Recovers, Owner,
         PeerAt;
    if RetryHarmless(d, fs, n) {
      SameAfterEntries(d, fs, n);
    } else if key: Key :| key !in d.peers && Settled(fs, n, key) && !Removed(fs, key) && !SetAgain(fs, key) {
      SkippedPropertyShows(d, fs, n, key);
    } else {
      var i, r: Route :| 0 <= i < |fs| && LastGives(KeysAfter(d, fs, n), fs, i, r) && !LastGives(KeysOn(d), fs, i, r)
                         && (Keeps(fs, i, r) || !NobodyOwns(d, fs, r));
      SkippedGiftShows(d, fs, n, i, r);
    }
  }

  /* Entries that are never skipped */

  /** No update-only entry waits for a peer that the list creates or removes: it acts in all runs or in none. */
  ghost predicate NothingWaits(d: Device, fs: seq<Fields>) {
    forall i :: 0 <= i < |fs| && Conditional(fs, i) ==>
      var key := fs[i].key.value;
      (key in d.peers && !Removed(fs, key)) || !Settled(fs, |fs|, key)
  }

  lemma WaitsForNothing(d: Device, fs: seq<Fields>, n: nat, i: nat)
    requires n <= |fs| && i < |fs| && NothingWaits(d, fs)
    ensures ActsIn(KeysAfter(d, fs, n), fs, i) <==> ActsIn(KeysOn(d), fs, i)
  {
    hide Removed;
    if Conditional(fs, i) {
      var key := fs[i].key.value;
      ConditionalActs(KeysAfter(d, fs, n), fs, i);
      ConditionalActs(KeysOn(d), fs, i);
      SettledPresence(fs, n, key);
      SettledStays(fs, n, key);
    } else {
      OtherActs(KeysAfter(d, fs, n), KeysOn(d), fs, i);
    }
  }

  lemma NothingWaitsIsHarmless(d: Device, fs: seq<Fields>)
    requires NothingWaits(d, fs)
    ensures RemovedGiveNothing(fs) && forall n | 0 <= n <= |fs| :: RetryHarmless(d, fs, n)
  {
    hide Keeps, NobodyOwns, ActsIn, Gives;
    forall i | 0 <= i < |fs| && Conditional(fs, i)
      ensures !(Removed(fs, fs[i].key.value))
    {
      RemovedIsSettled(fs, fs[i].key.value);
    }
    forall n | 0 <= n <= |fs|
      ensures RetryHarmless(d, fs, n)
    {
      forall key: Key | key !in d.peers && Settled(fs, n, key)
        ensures SetAgain(fs, key)
      {
        SettledStays(fs, n, key);
        SetBySame(fs, |fs|, key);
      }
      forall i | 0 <= i < |fs|
        ensures ActsIn(KeysAfter(d, fs, n), fs, i) <==> ActsIn(KeysOn(d), fs, i)
      {
        WaitsForNothing(d, fs, n, i);
      }
      forall i, r: Route | LastGives(KeysAfter(d, fs, n), fs, i, r)
        ensures LastGives(KeysOn(d), fs, i, r)
      {
        SameActsSameLast(KeysAfter(d, fs, n), KeysOn(d), fs, i, r);
      }
    }
  }

  lemma SameActsSameLast(there: iset<Key>, there': iset<Key>, fs: seq<Fields>, i: nat, r: Route)
    requires forall j :: 0 <= j < |fs| ==> (ActsIn(there, fs, j) <==> ActsIn(there', fs, j))
    requires LastGives(there, fs, i, r)
    ensures LastGives(there', fs, i, r)
  {
    hide ActsIn, Gives;
    assert forall j :: 0 <= j < |fs| ==> (GivesIn(there, fs, j, r) <==> GivesIn(there', fs, j, r));
  }

  lemma RemovedIsSettled(fs: seq<Fields>, key: Key)
    ensures Removed(fs, key) ==> Settled(fs, |fs|, key)
  {}
}
