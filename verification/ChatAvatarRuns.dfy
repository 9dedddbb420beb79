/** What single calls keep: lookups, and calls on cached avatars. */
module ChatAvatarRuns {
  import opened ChatAvatars
  import opened ChatContacts
  import opened ChatDatabase
  import opened ChatSchema
  import opened ChatTables
  import opened Text
  import opened Vectors

  /** What the service adds on top of the schema: nobody is stored as both friend and ignored. */
  ghost predicate Disjoint(t: Tables, id: nat) {
    var friends, ignores := FriendRowsOf(t.friends, id), IgnoreRowsOf(t.ignores, id);
    forall i, j :: 0 <= i < |friends| && 0 <= j < |ignores| ==> friends[i].friendId != ignores[j].ignoreId
  }

  ghost predicate UncachedDisjoint(t: Tables, cache: seq<ChatAvatar>) {
    forall id :: !HasKey(cache, IdOf, id) ==> Disjoint(t, id)
  }

  /** What every request keeps whose reads are complete.  A list may still point to an avatar that has been
      destroyed: its id then stands for the one it had, and nothing follows the pointer. */
  ghost predicate Good(service: ChatAvatarService)
    reads service, service.db, service.avatarCache
  {
    && service.Valid() && Schema(service.db.tables)
    && AllClean(service.avatarCache) && UncachedDisjoint(service.db.tables, service.avatarCache)
  }

  /** All cached lists equal the stored rows, and every contact is a cached avatar. */
  ghost predicate Settled(service: ChatAvatarService)
    reads service, service.avatarCache,
        set i | 0 <= i < |service.avatarCache| :: service.avatarCache[i].avatarService.db
  {
    AllInStep(service.avatarCache) && RefsClosed(service.avatarCache)
  }

  /** Lists loaded from good tables hold no null and no duplicate, are disjoint, stay inside the
      cache and agree with the tables. */
  lemma LoadedIsClean(t: Tables, cache: seq<ChatAvatar>, service: ChatAvatarService, a: ChatAvatar)
    requires Loaded(t, cache, service, a) && service.db.tables == t && Schema(t) && Disjoint(t, a.avatarId)
    ensures a.Clean() && a.InStep() && ContactsIn(a, cache)
  {
    var friends, ignores := FriendRowsOf(t.friends, a.avatarId), IgnoreRowsOf(t.ignores, a.avatarId);
    FriendRowsAreDistinct(t.friends, a.avatarId);
    IgnoreRowsAreDistinct(t.ignores, a.avatarId);
    forall j | 0 <= j < |friends|
      ensures a.friendList[j].frnd in cache && FriendKey(a.friendList[j]) == friends[j].friendId
    {
      assert friends[j] in t.friends;
      assert Points(t, cache, a.friendList[j].frnd, friends[j].friendId);
    }
    forall j | 0 <= j < |ignores|
      ensures a.ignoreList[j].ignored in cache && IgnoreKey(a.ignoreList[j]) == ignores[j].ignoreId
    {
      assert ignores[j] in t.ignores;
      assert Points(t, cache, a.ignoreList[j].ignored, ignores[j].ignoreId);
    }
    forall id | HasKey(a.friendList, FriendKey, id) ensures !HasKey(a.ignoreList, IgnoreKey, id) {
      var i :| 0 <= i < |friends| && FriendKey(a.friendList[i]) == id;
    }
  }

  /** Whoever was cached before points to nobody who came later. */
  ghost predicate PointsBack(before: seq<ChatAvatar>, after: seq<ChatAvatar>)
    reads before`friendList, before`ignoreList
  {
    forall i :: 0 <= i < |before| && ContactsIn(before[i], after) ==> ContactsIn(before[i], before)
  }

  /** A list that has not changed points to nobody who did not exist before. */
  twostate lemma OldPointBack(before: seq<ChatAvatar>, new after: seq<ChatAvatar>)
    requires forall i :: 0 <= i < |before| ==> before[i].friendList == old(before[i].friendList)
    requires forall i :: 0 <= i < |before| ==> before[i].ignoreList == old(before[i].ignoreList)
    requires before <= after && forall i :: |before| <= i < |after| ==> fresh(after[i])
    ensures PointsBack(before, after)
  {
    forall i | 0 <= i < |before| && ContactsIn(before[i], after) ensures ContactsIn(before[i], before) {
      forall c | c in before[i].friendList ensures c.frnd in before {
        var j :| 0 <= j < |after| && after[j] == c.frnd;
      }
      forall c | c in before[i].ignoreList ensures c.ignored in before {
        var j :| 0 <= j < |after| && after[j] == c.ignored;
      }
    }
  }

  twostate lemma CreatedPointBack(cache: seq<ChatAvatar>, new a: ChatAvatar)
    requires fresh(a)
    requires forall i :: 0 <= i < |cache| ==> cache[i].friendList == old(cache[i].friendList)
    requires forall i :: 0 <= i < |cache| ==> cache[i].ignoreList == old(cache[i].ignoreList)
    ensures PointsBack(cache, cache + [a])
  {
    OldPointBack(cache, cache + [a]);
  }

  /** In a closed cache, being in step is a matter of each avatar. */
  lemma SettledWhenClosed(service: ChatAvatarService)
    ensures Settled(service) <==> RefsClosed(service.avatarCache) && ClosedInStep(service.avatarCache)
  {
  }

  /** Newcomers from complete reads keep the cache good, closed, and in step where it is closed. */
  lemma NewcomersFit(t: Tables, before: seq<ChatAvatar>, after: seq<ChatAvatar>, service: ChatAvatarService)
    requires Grown(t, before, after) && AllArrived(t, after, service, |before|, true) && PointsBack(before, after)
    requires service.db.tables == t && Schema(t) && UncachedDisjoint(t, before)
    ensures UncachedDisjoint(t, after)
    ensures AllClean(before) ==> AllClean(after)
    ensures ClosedInStep(before) ==> ClosedInStep(after)
    ensures RefsClosed(before) ==> RefsClosed(after)
  {
    GrownKeys(t, before, after);
    forall id | !HasKey(after, IdOf, id) ensures Disjoint(t, id) {
      PrefixKeys(before, after, id);
    }
    forall i | |before| <= i < |after|
      ensures after[i].Clean() && after[i].InStep() && ContactsIn(after[i], after)
    {
      assert Arrived(t, after, service, after[i], true);
      assert !HasKey(before, IdOf, after[i].avatarId);
      LoadedIsClean(t, after, service, after[i]);
    }
    if RefsClosed(before) {
      forall i | 0 <= i < |before| ensures ContactsIn(after[i], after) {
        assert ContactsIn(before[i], before);
      }
    }
    if ClosedInStep(before) {
      forall i | 0 <= i < |before| && ContactsIn(after[i], after) ensures after[i].InStep() {
        assert ContactsIn(before[i], before);
      }
    }
  }

  // Lookups

  /** What a lookup by id does to the cache. */
  method LookUpId(service: ChatAvatarService, id: nat) returns (avatar: ChatAvatar?, complete: bool)
    requires service.Valid()
    modifies service`avatarCache
    ensures service.db.reliable ==> complete
    ensures service.Valid() && Grown(service.db.tables, old(service.avatarCache), service.avatarCache)
    ensures AllArrived(service.db.tables, service.avatarCache, service, |old(service.avatarCache)|, complete)
    ensures PointsBack(old(service.avatarCache), service.avatarCache)
    ensures avatar != null ==> avatar in service.avatarCache && avatar.avatarId == id
    ensures complete && avatar == null ==> id !in service.db.tables.avatars && !HasKey(service.avatarCache, IdOf, id)
    ensures old(HasKey(service.avatarCache, IdOf, id)) || id !in service.db.tables.avatars ==>
              service.avatarCache == old(service.avatarCache)
    ensures forall i :: |old(service.avatarCache)| <= i < |service.avatarCache| ==> fresh(service.avatarCache[i])
    ensures forall i :: 0 <= i < |service.avatarCache| ==>
              service.avatarCache[i] in old(service.avatarCache) || fresh(service.avatarCache[i])
  {
    ghost var before := service.avatarCache;
    var ok;
    avatar, ok, complete := service.GetAvatar(id);
    OldPointBack(before, service.avatarCache);
  }

  method Fetch(service: ChatAvatarService, id: nat) returns (avatar: ChatAvatar?, complete: bool)
    requires service.Valid() && Schema(service.db.tables)
    modifies service`avatarCache
    ensures service.db.reliable ==> complete
    ensures service.Valid() && old(service.avatarCache) <= service.avatarCache
    ensures avatar != null ==> avatar in service.avatarCache && avatar.avatarId == id
    ensures complete && avatar == null ==> id !in service.db.tables.avatars && !HasKey(service.avatarCache, IdOf, id)
    ensures old(HasKey(service.avatarCache, IdOf, id)) || id !in service.db.tables.avatars ==>
              service.avatarCache == old(service.avatarCache)
    ensures forall i :: 0 <= i < |service.avatarCache| ==>
              service.avatarCache[i] in old(service.avatarCache) || fresh(service.avatarCache[i])
    ensures complete && old(Good(service)) ==> Good(service)
    ensures complete && old(Good(service) && ClosedInStep(service.avatarCache)) ==> ClosedInStep(service.avatarCache)
    ensures complete && old(Good(service) && RefsClosed(service.avatarCache)) ==> RefsClosed(service.avatarCache)
  {
    ghost var before, t := service.avatarCache, service.db.tables;
    avatar, complete := LookUpId(service, id);
    service.SameLists(before);
    if complete && old(Good(service)) {
      NewcomersFit(t, before, service.avatarCache, service);
    }
  }

  lemma StorableNamesDoNotDouble(service: ChatAvatarService, name: Wide, address: Wide)
    requires Storable(name, service.signedChar) && Storable(address, service.signedChar)
    ensures !service.Doubles(name, address)
    ensures Stored(name, service.signedChar) == name && Stored(address, service.signedChar) == address
  {
    StorageRoundTrip(name, service.signedChar);
    StorageRoundTrip(address, service.signedChar);
  }

  /** What a lookup by a storable name does to the cache. */
  method LookUp(service: ChatAvatarService, name: Wide, address: Wide)
    returns (avatar: ChatAvatar?, ok: bool, complete: bool)
    requires service.Valid() && UniqueNames(service.db.tables)
    requires Storable(name, service.signedChar) && Storable(address, service.signedChar)
    modifies service`avatarCache
    ensures service.db.reliable ==> complete
    ensures complete ==> ok
    ensures service.Valid() && Grown(service.db.tables, old(service.avatarCache), service.avatarCache)
    ensures AllArrived(service.db.tables, service.avatarCache, service, |old(service.avatarCache)|, complete)
    ensures PointsBack(old(service.avatarCache), service.avatarCache)
    ensures avatar != null ==> avatar in service.avatarCache && avatar.name == name && avatar.address == address
    ensures complete && avatar == null ==> !RowExists(service.db.tables, name, address)
    ensures forall i :: |old(service.avatarCache)| <= i < |service.avatarCache| ==> fresh(service.avatarCache[i])
    ensures forall i :: 0 <= i < |service.avatarCache| ==>
              service.avatarCache[i] in old(service.avatarCache) || fresh(service.avatarCache[i])
  {
    ghost var before := service.avatarCache;
    StorableNamesDoNotDouble(service, name, address);
    avatar, ok, complete := service.GetAvatarNamed(name, address);
    OldPointBack(before, service.avatarCache);
  }

  /** A text that storage does not give back, and that finds the row of a cached avatar all the same. */
  lemma TextThatDoubles(service: ChatAvatarService, a: ChatAvatar)
    requires service.avatarCache == [a] && a.name == [0x42] && a.address == [0x53]
    ensures service.Doubles([0x142], [0x53])
  {
    var name: Wide, address: Wide := [0x142], [0x53];
    assert FromWide(name) == [0x42] + FromWide(name[1..]) == [0x42];
    assert FromWide(address) == [0x53] + FromWide(address[1..]) == [0x53];
    assert ToStorage(name) == [0x42] && ToStorage(address) == [0x53];
    assert Stored(name, service.signedChar) == a.name && Stored(address, service.signedChar) == a.address;
    assert service.avatarCache[0] == a;
  }

  /** The lookup with it leaves two cached objects of one id. */
  method LookUpThatDoubles(service: ChatAvatarService, a: ChatAvatar) returns (complete: bool)
    requires service.Valid() && UniqueNames(service.db.tables)
    requires service.avatarCache == [a] && a.name == [0x42] && a.address == [0x53]
    modifies service`avatarCache
    ensures service.db.reliable ==> complete
    ensures complete ==> !DistinctKeys(service.avatarCache, IdOf)
  {
    TextThatDoubles(service, a);
    var avatar, ok;
    avatar, ok, complete := service.GetAvatarNamed([0x142], [0x53]);
  }

  method FetchNamed(service: ChatAvatarService, name: Wide, address: Wide)
    returns (avatar: ChatAvatar?, ok: bool, complete: bool)
    requires service.Valid() && Schema(service.db.tables)
    requires Storable(name, service.signedChar) && Storable(address, service.signedChar)
    modifies service`avatarCache
    ensures service.db.reliable ==> complete
    ensures service.Valid() && old(service.avatarCache) <= service.avatarCache && (complete ==> ok)
    ensures avatar != null ==> avatar in service.avatarCache && avatar.name == name && avatar.address == address
    ensures complete && avatar == null ==> !RowExists(service.db.tables, name, address)
    ensures forall i :: 0 <= i < |service.avatarCache| ==>
              service.avatarCache[i] in old(service.avatarCache) || fresh(service.avatarCache[i])
    ensures complete && old(Good(service)) ==> Good(service)
    ensures complete && old(Good(service) && ClosedInStep(service.avatarCache)) ==> ClosedInStep(service.avatarCache)
    ensures complete && old(Good(service) && RefsClosed(service.avatarCache)) ==> RefsClosed(service.avatarCache)
  {
    ghost var before, t := service.avatarCache, service.db.tables;
    avatar, ok, complete := LookUp(service, name, address);
    service.SameLists(before);
    if complete && old(Good(service)) {
      NewcomersFit(t, before, service.avatarCache, service);
    }
  }

  // Calls on a cached avatar

  method LoginCached(service: ChatAvatarService, avatar: ChatAvatar)
    requires service.Valid() && avatar in service.avatarCache
    modifies service`onlineAvatars, avatar`isOnline
    ensures service.Valid() && avatar.isOnline
    ensures Keys(service.onlineAvatars, IdOf) == old(Keys(service.onlineAvatars, IdOf)) + {avatar.avatarId}
    ensures old(Good(service)) ==> Good(service)
    ensures ClosedInStep(service.avatarCache) <==> old(ClosedInStep(service.avatarCache))
    ensures RefsClosed(service.avatarCache) <==> old(RefsClosed(service.avatarCache))
  {
    service.LoginAvatar(avatar);
    service.SameLists(service.avatarCache);
  }

  method LogoutCached(service: ChatAvatarService, avatar: ChatAvatar)
    requires service.Valid() && avatar in service.avatarCache
    modifies service`onlineAvatars, avatar`isOnline
    ensures service.Valid() && !avatar.isOnline
    ensures Keys(service.onlineAvatars, IdOf) == old(Keys(service.onlineAvatars, IdOf)) - {avatar.avatarId}
    ensures old(Good(service)) ==> Good(service)
    ensures ClosedInStep(service.avatarCache) <==> old(ClosedInStep(service.avatarCache))
    ensures RefsClosed(service.avatarCache) <==> old(RefsClosed(service.avatarCache))
  {
    KeptKeys(service.onlineAvatars, IdOf, avatar.avatarId);
    service.LogoutAvatar(avatar);
    service.SameLists(service.avatarCache);
  }

  /** From a closed cache, what is left is closed exactly if nobody left names the destroyed id. */
  method DestroyCached(service: ChatAvatarService, avatar: ChatAvatar) returns (ok: bool)
    requires service.Valid() && Schema(service.db.tables) && avatar in service.avatarCache
    modifies service`avatarCache, service`onlineAvatars, avatar`isOnline, service.db`tables
    ensures service.db.willing ==> ok
    ensures service.Valid() && Schema(service.db.tables)
    ensures ok ==> avatar.avatarId !in service.db.tables.avatars && !HasKey(service.avatarCache, IdOf, avatar.avatarId)
    ensures ok ==> service.db.tables == WithoutAvatar(old(service.db.tables), avatar.avatarId) &&
                   Keys(service.onlineAvatars, IdOf) ==
                     old(Keys(service.onlineAvatars, IdOf)) - {avatar.avatarId}
    ensures forall i :: 0 <= i < |service.avatarCache| ==> service.avatarCache[i] in old(service.avatarCache)
    ensures old(Good(service)) ==> Good(service)
    ensures old(ClosedInStep(service.avatarCache)) ==> ClosedInStep(service.avatarCache)
    ensures old(RefsClosed(service.avatarCache)) ==>
              (RefsClosed(service.avatarCache) <==> !ok || !NamedIn(service.avatarCache, avatar.avatarId))
    ensures old(RefsClosed(service.avatarCache) && !NamedIn(service.avatarCache, avatar.avatarId)) ==>
              RefsClosed(service.avatarCache)
    ensures Keys(service.avatarCache, IdOf) ==
              if ok then old(Keys(service.avatarCache, IdOf)) - {avatar.avatarId}
              else old(Keys(service.avatarCache, IdOf))
  {
    ghost var cache, t := service.avatarCache, service.db.tables;
    KeptMembers(cache, IdOf, avatar.avatarId);
    KeptKeys(cache, IdOf, avatar.avatarId);
    KeptKeys(service.onlineAvatars, IdOf, avatar.avatarId);
    ok := service.DestroyAvatar(avatar);
    if ok && old(Good(service)) { DisjointWithout(t, cache, avatar.avatarId); }
  }

  /** The least case in which a contact is left dangling: a friend of the only other avatar. */
  method DestroyFriend(service: ChatAvatarService, a: ChatAvatar, b: ChatAvatar) returns (ok: bool)
    requires service.Valid() && Schema(service.db.tables) && service.avatarCache == [a, b]
    requires a.friendList == [FriendContact(b, [])] && a.ignoreList == [] && b.friendList == [] && b.ignoreList == []
    modifies service`avatarCache, service`onlineAvatars, b`isOnline, service.db`tables
    ensures service.db.willing ==> ok
    ensures ok ==> !RefsClosed(service.avatarCache)
  {
    assert FriendKey(a.friendList[0]) == b.avatarId && b in service.avatarCache;
    assert Names(service.avatarCache[0], b);
    assert service.avatarCache[0] != b by {
      assert IdOf(service.avatarCache[0]) != IdOf(service.avatarCache[1]);
    }
    assert NamedByOthers(service.avatarCache, b);
    assert RefsClosed(service.avatarCache);
    ok := service.DestroyAvatar(b);
  }

  /** The cascade leaves nothing of the destroyed avatar's rows and only takes from those of others. */
  lemma DisjointWithout(t: Tables, cache: seq<ChatAvatar>, id: nat)
    requires UncachedDisjoint(t, cache)
    ensures UncachedDisjoint(WithoutAvatar(t, id), Kept(cache, IdOf, id))
  {
    var after := WithoutAvatar(t, id);
    KeptKeys(cache, IdOf, id);
    forall x | !HasKey(Kept(cache, IdOf, id), IdOf, x) ensures Disjoint(after, x) {
      FriendRowsCascaded(t.friends, id, x);
      IgnoreRowsCascaded(t.ignores, id, x);
      if x != id {
        var friends, ignores := FriendRowsOf(t.friends, x), IgnoreRowsOf(t.ignores, x);
        FriendsCascadeRows(friends, id);
        IgnoresCascadeRows(ignores, id);
        assert Disjoint(t, x);
        forall i, j | 0 <= i < |FriendsCascade(friends, id)| && 0 <= j < |IgnoresCascade(ignores, id)|
          ensures FriendsCascade(friends, id)[i].friendId != IgnoresCascade(ignores, id)[j].ignoreId
        {
          assert FriendsCascade(friends, id)[i] in friends && IgnoresCascade(ignores, id)[j] in ignores;
        }
      }
    }
  }

  method ForgetCached(service: ChatAvatarService, avatar: ChatAvatar) returns (ok: bool)
    requires Good(service) && RefsClosed(service.avatarCache) && avatar in service.avatarCache
    modifies service.db`tables, service.avatarCache`friendList, service.avatarCache`ignoreList
    ensures service.db.willing ==> ok
    ensures Good(service) && RefsClosed(service.avatarCache)
    ensures ok ==> !NamedIn(service.avatarCache, avatar.avatarId)
    ensures ok && old(ClosedInStep(service.avatarCache)) ==> ClosedInStep(service.avatarCache)
    ensures OnlyRowsOfKeys(old(service.db.tables), service.db.tables, Keys(service.avatarCache, IdOf))
    ensures OnlyNaming(old(service.db.tables), service.db.tables, avatar.avatarId)
  {
    ghost var t := service.db.tables;
    ok := service.RemoveAsFriendOrIgnoreFromAll(avatar);
    SameUncachedDisjoint(t, service.db.tables, service.avatarCache);
  }

  lemma SameUncachedDisjoint(before: Tables, after: Tables, cache: seq<ChatAvatar>)
    requires OnlyRowsOfKeys(before, after, Keys(cache, IdOf)) && UncachedDisjoint(before, cache)
    ensures UncachedDisjoint(after, cache)
  {
    forall id | !HasKey(cache, IdOf, id) ensures Disjoint(after, id) {
      assert Disjoint(before, id);
    }
  }

  method CreateNew(service: ChatAvatarService, name: Wide, address: Wide, userId: nat, attributes: nat)
    returns (avatar: ChatAvatar?)
    requires service.Valid() && Schema(service.db.tables)
    requires Storable(name, service.signedChar) && Storable(address, service.signedChar)
    modifies service`avatarCache, service.db
    ensures service.db.willing && old(service.CanCreate(name, address, userId, attributes)) ==> avatar != null
    ensures service.Valid() && Schema(service.db.tables)
    ensures service.avatarCache ==
              if avatar == null then old(service.avatarCache) else old(service.avatarCache) + [avatar]
    ensures avatar == null ==> service.db.tables == old(service.db.tables)
    ensures avatar != null ==> fresh(avatar) && avatar.name == name && avatar.address == address
    ensures avatar != null ==>
              && avatar.avatarId !in old(service.db.tables.avatars)
              && service.db.tables ==
                   PlusAvatar(old(service.db.tables), avatar.avatarId, NewRow(name, address, userId, attributes))
    ensures old(Good(service)) ==> Good(service)
    ensures old(Good(service) && ClosedInStep(service.avatarCache)) ==> ClosedInStep(service.avatarCache)
    ensures old(RefsClosed(service.avatarCache)) ==> RefsClosed(service.avatarCache)
  {
    ghost var cache, t := service.avatarCache, service.db.tables;
    avatar := service.CreateAvatar(name, address, userId, attributes);
    service.SameLists(cache);
    if avatar != null && old(Good(service)) {
      CreatedPointBack(cache, avatar);
      CreatedFits(t, cache, service, avatar, NewRow(name, address, userId, attributes));
    }
  }

  lemma {:induction false} NoFriendRows(rows: seq<FriendRow>, id: nat)
    requires forall r :: r in rows ==> r.avatarId != id
    ensures FriendRowsOf(rows, id) == []
  {
    if rows != [] {
      assert rows[0] in rows;
      NoFriendRows(rows[1..], id);
    }
  }

  lemma {:induction false} NoIgnoreRows(rows: seq<IgnoreRow>, id: nat)
    requires forall r :: r in rows ==> r.avatarId != id
    ensures IgnoreRowsOf(rows, id) == []
  {
    if rows != [] {
      assert rows[0] in rows;
      NoIgnoreRows(rows[1..], id);
    }
  }

  /** A created avatar, which has no rows yet, fits in. */
  lemma CreatedFits(t: Tables, cache: seq<ChatAvatar>, service: ChatAvatarService, a: ChatAvatar, row: AvatarRow)
    requires Schema(t) && a.avatarId !in t.avatars && a.friendList == [] && a.ignoreList == []
    requires UncachedDisjoint(t, cache) && a.avatarService == service && PointsBack(cache, cache + [a])
    requires service.db.tables == t.(avatars := t.avatars[a.avatarId := row])
    ensures UncachedDisjoint(service.db.tables, cache + [a])
    ensures ClosedInStepWith(t, cache, service.signedChar) && AllOf(cache, service) ==> ClosedInStep(cache + [a])
  {
    assert forall i :: 0 <= i < |cache| ==> (cache + [a])[i] == cache[i];
    NoFriendRows(t.friends, a.avatarId);
    NoIgnoreRows(t.ignores, a.avatarId);
    assert a.InStep();
    AppendKeys(cache, IdOf, a);
    forall id | !HasKey(cache + [a], IdOf, id) ensures Disjoint(service.db.tables, id) {
      assert id !in Keys(cache + [a], IdOf);
      assert !HasKey(cache, IdOf, id) && Disjoint(t, id);
    }
  }

  /** The other avatars' lists and rows do not move. */
  method ContactAt(service: ChatAvatarService, src: ChatAvatar, dest: ChatAvatar, call: ContactCall, ghost j: nat)
    returns (ok: bool)
    requires DistinctKeys(service.avatarCache, IdOf) && AllOf(service.avatarCache, service) &&
             AllClean(service.avatarCache)
    requires j < |service.avatarCache| && service.avatarCache[j] == src && dest in service.avatarCache
    modifies src`friendList, src`ignoreList, service.db`tables
    ensures old(src.InStep()) && old(src.Storing(dest)) ==> ok
    ensures AllClean(service.avatarCache) && OnlyRowsOf(old(service.db.tables), service.db.tables, src.avatarId)
    ensures Called(old(service.db.tables), service.db.tables, old(ListsOf(src)), ListsOf(src), src.avatarId,
                   dest.avatarId, call, ok)
    ensures ok && CommentSurvives(call, service.signedChar) && old(src.InStep()) && old(Schema(service.db.tables)) ==>
              StoredCall(old(service.db.tables), service.db.tables, src.avatarId, dest.avatarId, call,
                         service.signedChar)
    ensures ok ==> Done(src, dest, call)
    ensures ok && CommentSurvives(call, service.signedChar) && old(AllInStep(service.avatarCache)) ==>
              AllInStep(service.avatarCache)
    ensures old(RefsClosed(service.avatarCache)) ==> RefsClosed(service.avatarCache)
    ensures old(Schema(service.db.tables)) ==> Schema(service.db.tables)
    ensures service.Presence() <==> old(service.Presence())
  {
    DistinctElements(service.avatarCache, j);
    assert forall i :: 0 <= i < |service.avatarCache| && i != j ==> IdOf(service.avatarCache[i]) != src.avatarId;
    ok := ApplyContact(service, src, dest, call, service.avatarCache);
    forall i | 0 <= i < |service.avatarCache| && old(RefsClosed(service.avatarCache))
      ensures ContactsIn(service.avatarCache[i], service.avatarCache)
    {
      assert old(ContactsIn(service.avatarCache[i], service.avatarCache));
    }
  }

  /** A willing server takes every contact call of a service that is settled. */
  method ContactCached(service: ChatAvatarService, src: ChatAvatar, dest: ChatAvatar, call: ContactCall)
    returns (ok: bool)
    requires Good(service) && RefsClosed(service.avatarCache)
    requires src in service.avatarCache && dest in service.avatarCache
    modifies src`friendList, src`ignoreList, service.db`tables
    ensures service.db.willing && old(ClosedInStep(service.avatarCache)) ==> ok
    ensures Good(service) && RefsClosed(service.avatarCache) && (ok ==> Done(src, dest, call))
    ensures ok && CommentSurvives(call, service.signedChar) && old(ClosedInStep(service.avatarCache)) ==>
              ClosedInStep(service.avatarCache)
    ensures Called(old(service.db.tables), service.db.tables, old(ListsOf(src)), ListsOf(src), src.avatarId,
                   dest.avatarId, call, ok)
    ensures ok && CommentSurvives(call, service.signedChar) && old(ClosedInStep(service.avatarCache)) ==>
              StoredCall(old(service.db.tables), service.db.tables, src.avatarId, dest.avatarId, call,
                         service.signedChar)
  {
    ghost var cache, t := service.avatarCache, service.db.tables;
    ghost var j :| 0 <= j < |cache| && cache[j] == src;
    ghost var k :| 0 <= k < |cache| && cache[k] == dest;
    assert FieldsMatch(t, service.signedChar, cache[j]) && FieldsMatch(t, service.signedChar, cache[k]);
    ok := ContactAt(service, src, dest, call, j);
    OwnRowsOnly(t, service.db.tables, service, cache, j);
  }

  lemma OwnRowsOnly(t: Tables, u: Tables, service: ChatAvatarService, cache: seq<ChatAvatar>, j: nat)
    requires j < |cache| && OnlyRowsOf(t, u, cache[j].avatarId)
    requires Described(t, cache, service) && UncachedDisjoint(t, cache)
    ensures Described(u, cache, service) && UncachedDisjoint(u, cache)
  {
    CachedHasKey(cache, cache[j]);
    SameUncachedDisjoint(t, u, cache);
  }
}
