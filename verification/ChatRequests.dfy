/** Requests as their handlers serve them, and runs of requests. */
module ChatRequests {
  import opened ChatAvatarRuns
  import opened ChatAvatars
  import opened ChatContacts
  import opened ChatDatabase
  import opened ChatSchema
  import opened ChatTables
  import opened ChatTurns
  import opened Text
  import opened Vectors

  // Who hears of a login

  /** The avatars in a list that have the id among their friends. */
  function Watchers(online: seq<ChatAvatar>, id: nat): seq<ChatAvatar>
    reads online`friendList
  {
    if online == [] then []
    else
      var last := online[|online| - 1];
      Watchers(online[..|online| - 1], id) + if HasKey(last.friendList, FriendKey, id) then [last] else []
  }

  lemma WatchersNext(online: seq<ChatAvatar>, i: nat, id: nat)
    requires i < |online|
    ensures Watchers(online[..i + 1], id) ==
              Watchers(online[..i], id) + if HasKey(online[i].friendList, FriendKey, id) then [online[i]] else []
  {
    assert online[..i + 1][..i] == online[..i];
  }

  /** Who hears of a login or a logout: the online avatars that have the avatar as a friend. */
  method FindWatchers(online: seq<ChatAvatar>, avatar: ChatAvatar) returns (watchers: seq<ChatAvatar>)
    requires AllClean(online)
    ensures watchers == Watchers(online, avatar.avatarId)
  {
    watchers := [];
    var i := 0;
    while i < |online|
      invariant 0 <= i <= |online| && watchers == Watchers(online[..i], avatar.avatarId)
    {
      WatchersNext(online, i, avatar.avatarId);
      var isFriend := online[i].IsFriend(avatar);
      if isFriend { watchers := watchers + [online[i]]; }
      i := i + 1;
    }
    assert online[..|online|] == online;
  }

  lemma {:induction false} WatchersAre(online: seq<ChatAvatar>, id: nat)
    ensures forall i :: 0 <= i < |online| ==>
              (online[i] in Watchers(online, id) <==> HasKey(online[i].friendList, FriendKey, id))
    ensures forall j :: 0 <= j < |Watchers(online, id)| ==>
              Watchers(online, id)[j] in online && HasKey(Watchers(online, id)[j].friendList, FriendKey, id)
  {
    if online != [] {
      var front := online[..|online| - 1];
      WatchersAre(front, id);
      assert online == front + [online[|online| - 1]];
    }
  }

  /** They are the avatars at certain places, from front to back: at those with the id among their friends. */
  lemma {:induction false} WatchersInOrder(online: seq<ChatAvatar>, id: nat) returns (places: seq<nat>)
    ensures Ascending(places, |online|) && |places| == |Watchers(online, id)|
    ensures forall j :: 0 <= j < |places| ==> Watchers(online, id)[j] == online[places[j]]
    ensures forall i :: 0 <= i < |online| ==> (i in places <==> HasKey(online[i].friendList, FriendKey, id))
  {
    places := [];
    if online != [] {
      var front, last := online[..|online| - 1], |online| - 1;
      var before := WatchersInOrder(front, id);
      assert forall i :: 0 <= i < last ==> front[i] == online[i];
      if !HasKey(online[last].friendList, FriendKey, id) { return before; }
      places := before + [last];
      assert Watchers(online, id) == Watchers(front, id) + [online[last]];
    }
  }

  /** In a settled service a login is told to exactly the online avatars whose stored friends it is among. */
  lemma WatchersAreStored(service: ChatAvatarService, id: nat)
    requires Good(service) && Settled(service)
    ensures forall i :: 0 <= i < |service.onlineAvatars| ==>
              (service.onlineAvatars[i] in Watchers(service.onlineAvatars, id) <==>
               HasFriendRow(service.db.tables.friends, service.onlineAvatars[i].avatarId, id))
    ensures forall j :: 0 <= j < |Watchers(service.onlineAvatars, id)| ==>
              Watchers(service.onlineAvatars, id)[j] in service.onlineAvatars
  {
    var t, cache, online := service.db.tables, service.avatarCache, service.onlineAvatars;
    WatchersAre(online, id);
    forall i | 0 <= i < |online|
      ensures HasKey(online[i].friendList, FriendKey, id) <==> HasFriendRow(t.friends, online[i].avatarId, id)
    {
      var k :| 0 <= k < |cache| && cache[k] == online[i];
      ListedAsStored(t, cache[k].friendList, cache[k].avatarId, id, service.signedChar);
    }
  }

  lemma OnlineIsClean(service: ChatAvatarService)
    requires service.Presence() && AllClean(service.avatarCache)
    ensures AllClean(service.onlineAvatars)
  {
    forall i | 0 <= i < |service.onlineAvatars| ensures service.onlineAvatars[i].Clean() {
      var k :| 0 <= k < |service.avatarCache| && service.avatarCache[k] == service.onlineAvatars[i];
    }
  }

  /** The friends of an avatar that are online, which it hears of itself. */
  function OnlineFriends(list: seq<FriendContact>): seq<ChatAvatar>
    requires forall c :: c in list ==> c.frnd != null
    reads set c | c in list :: c.frnd
  {
    if list == [] then []
    else
      var front, last := list[..|list| - 1], list[|list| - 1];
      OnlineFriends(front) + if last.frnd.isOnline then [last.frnd] else []
  }

  /** They are the friends at certain places of the list, from front to back: at those that are online. */
  lemma {:induction false} OnlineFriendsInOrder(list: seq<FriendContact>) returns (places: seq<nat>)
    requires forall c :: c in list ==> c.frnd != null
    ensures Ascending(places, |list|) && |places| == |OnlineFriends(list)|
    ensures forall j :: 0 <= j < |places| ==> OnlineFriends(list)[j] == list[places[j]].frnd
    ensures forall i :: 0 <= i < |list| ==> (i in places <==> list[i].frnd.isOnline)
  {
    places := [];
    if list != [] {
      var front, last := list[..|list| - 1], |list| - 1;
      places := OnlineFriendsInOrder(front);
      if list[last].frnd.isOnline { places := places + [last]; }
    }
  }

  /** Nobody is told, or told of, twice. */
  lemma ToldOnce(service: ChatAvatarService, avatar: ChatAvatar)
    requires Good(service) && avatar in service.avatarCache
    ensures DistinctKeys(Watchers(service.onlineAvatars, avatar.avatarId), IdOf)
    ensures avatar.Clean() && DistinctKeys(OnlineFriends(avatar.friendList), IdOf)
  {
    var i :| 0 <= i < |service.avatarCache| && service.avatarCache[i] == avatar;
    var online, friends := service.onlineAvatars, avatar.friendList;
    var told, hears := Watchers(online, avatar.avatarId), OnlineFriends(friends);
    var places := WatchersInOrder(online, avatar.avatarId);
    forall j, k | 0 <= j < k < |told| ensures IdOf(told[j]) != IdOf(told[k]) {
      assert IdOf(online[places[j]]) != IdOf(online[places[k]]);
    }
    places := OnlineFriendsInOrder(friends);
    forall j, k | 0 <= j < k < |hears| ensures IdOf(hears[j]) != IdOf(hears[k]) {
      assert FriendKey(friends[places[j]]) != FriendKey(friends[places[k]]);
    }
  }

  method FindOnlineFriends(list: seq<FriendContact>) returns (friends: seq<ChatAvatar>)
    requires forall c :: c in list ==> c.frnd != null
    ensures friends == OnlineFriends(list)
  {
    friends := [];
    var i := 0;
    while i < |list|
      invariant 0 <= i <= |list| && friends == OnlineFriends(list[..i])
    {
      assert list[..i + 1][..i] == list[..i];
      if list[i].frnd.isOnline { friends := friends + [list[i].frnd]; }
      i := i + 1;
    }
    assert list[..|list|] == list;
  }

  // The handlers

  /** Nobody cached has the id in a list, and its avatar is cached if it is stored at all. */
  ghost predicate Forgotten(service: ChatAvatarService, id: nat)
    reads service, service.db, service.avatarCache`friendList, service.avatarCache`ignoreList
  {
    && !NamedIn(service.avatarCache, id)
    && (HasKey(service.avatarCache, IdOf, id) || id !in service.db.tables.avatars)
  }

  /** The tables can take one more avatar. */
  predicate HasRoom(db: Database)
    reads db
  {
    db.nextId < 0x1_0000_0000 && db.nextId !in db.tables.avatars
  }

  /** What a request has brought about once it is served, all reads and statements having gone through. */
  ghost predicate Effect(service: ChatAvatarService, request: Request)
    reads service, service.db, service.avatarCache
  {
    var cache, t := service.avatarCache, service.db.tables;
    match request
    case Get(id) => id in t.avatars ==> HasKey(cache, IdOf, id)
    case Lookup(name, address) => RowExists(t, name, address) ==> CachedNamed(cache, name, address)
    case Login(name, address, _, _) => RowExists(t, name, address) ==> OnlineNamed(cache, name, address)
    case Logout(id) => forall i :: 0 <= i < |cache| && cache[i].avatarId == id ==> !cache[i].isOnline
    case Destroy(id) => id !in t.avatars && !HasKey(cache, IdOf, id)
    case Forget(id) => !NamedIn(cache, id)
    case Contact(id, name, address, call) =>
      id in t.avatars && RowExists(t, name, address) ==> DoneIn(cache, id, name, address, call)
  }

  ghost predicate OnlineNamed(cache: seq<ChatAvatar>, name: Wide, address: Wide)
    reads cache`isOnline
  {
    exists i :: 0 <= i < |cache| && cache[i].name == name && cache[i].address == address && cache[i].isOnline
  }

  ghost predicate DoneIn(cache: seq<ChatAvatar>, id: nat, name: Wide, address: Wide, call: ContactCall)
    reads cache`friendList, cache`ignoreList
  {
    exists i, j :: 0 <= i < |cache| && 0 <= j < |cache| && cache[i].avatarId == id
                   && cache[j].name == name && cache[j].address == address && Done(cache[i], cache[j], call)
  }

  /** The avatar of that name, which is created if there is none. */
  method GetOrCreate(service: ChatAvatarService, name: Wide, address: Wide, userId: nat, attributes: nat)
    returns (avatar: ChatAvatar?, complete: bool)
    requires service.Valid() && Schema(service.db.tables)
    requires Storable(name, service.signedChar) && Storable(address, service.signedChar)
    modifies service`avatarCache, service.db
    ensures service.db.reliable ==> complete
    ensures service.Valid() && Schema(service.db.tables)
    ensures complete && service.db.willing && old(HasRoom(service.db)) ==> avatar != null
    ensures complete && avatar == null ==> !RowExists(service.db.tables, name, address)
    ensures avatar != null ==> avatar in service.avatarCache && avatar.name == name && avatar.address == address
    ensures forall i :: 0 <= i < |service.avatarCache| ==>
              service.avatarCache[i] in old(service.avatarCache) || fresh(service.avatarCache[i])
    ensures complete && old(Good(service)) ==> Good(service)
    ensures complete && old(Good(service) && ClosedInStep(service.avatarCache)) ==> ClosedInStep(service.avatarCache)
    ensures complete && old(Good(service) && RefsClosed(service.avatarCache)) ==> RefsClosed(service.avatarCache)
    ensures complete ==>
              if avatar == null then service.db.tables == old(service.db.tables)
              else Gained(old(service.db.tables), avatar.avatarId, name, address, userId, attributes, service.db.tables)
    ensures old(service.avatarCache) <= service.avatarCache
  {
    var ok;
    avatar, ok, complete := FetchNamed(service, name, address);
    if !ok || avatar != null { return; }
    avatar := CreateNew(service, name, address, userId, attributes);
  }

  lemma CachedCarries(service: ChatAvatarService, avatar: ChatAvatar)
    requires Described(service.db.tables, service.avatarCache, service) && avatar in service.avatarCache
    ensures Carries(service.db.tables, avatar.avatarId, avatar.name, avatar.address, service.signedChar)
  {
    var i :| 0 <= i < |service.avatarCache| && service.avatarCache[i] == avatar;
    assert FieldsMatch(service.db.tables, service.signedChar, service.avatarCache[i]);
  }

  /** The part of a login that changes the service. */
  method LoginNamed(service: ChatAvatarService, name: Wide, address: Wide, userId: nat, attributes: nat)
    returns (avatar: ChatAvatar?, complete: bool)
    requires service.Valid() && Schema(service.db.tables)
    requires Storable(name, service.signedChar) && Storable(address, service.signedChar)
    modifies service`avatarCache, service`onlineAvatars, service.db, service.avatarCache`isOnline
    ensures service.db.reliable ==> complete
    ensures service.Valid() && Schema(service.db.tables)
    ensures complete && service.db.willing && old(HasRoom(service.db)) ==> avatar != null
    ensures complete && avatar == null ==> !RowExists(service.db.tables, name, address)
    ensures avatar != null ==>
              avatar in service.avatarCache && avatar.isOnline && avatar.name == name && avatar.address == address
    ensures forall i :: 0 <= i < |service.avatarCache| ==>
              service.avatarCache[i] in old(service.avatarCache) || fresh(service.avatarCache[i])
    ensures complete && old(Good(service)) ==> Good(service)
    ensures complete && old(Good(service) && ClosedInStep(service.avatarCache)) ==> ClosedInStep(service.avatarCache)
    ensures complete && old(Good(service) && RefsClosed(service.avatarCache)) ==> RefsClosed(service.avatarCache)
    ensures complete ==>
              Turn(old(SnapshotOf(service)), Login(name, address, userId, attributes), SnapshotOf(service),
                   service.signedChar)
    ensures old(service.avatarCache) <= service.avatarCache
  {
    ghost var before, cache := SnapshotOf(service), service.avatarCache;
    avatar, complete := GetOrCreate(service, name, address, userId, attributes);
    CachedStay(cache, service.avatarCache);
    if avatar == null { return; }
    CachedCarries(service, avatar);
    LoginCached(service, avatar);
    if complete {
      LoginTurn(before, avatar.avatarId, name, address, userId, attributes, SnapshotOf(service), service.signedChar);
    }
  }

  /** What is sent out after a login: to whom, and about whom the new one hears. */
  method SendFriendLoginUpdates(service: ChatAvatarService, avatar: ChatAvatar)
    returns (told: seq<ChatAvatar>, friends: seq<ChatAvatar>)
    requires Good(service) && avatar in service.avatarCache
    ensures told == Watchers(service.onlineAvatars, avatar.avatarId)
    ensures Good(service)
    ensures ClosedInStep(service.avatarCache) <==> old(ClosedInStep(service.avatarCache))
    ensures RefsClosed(service.avatarCache) <==> old(RefsClosed(service.avatarCache))
    ensures avatar.Clean() && friends == OnlineFriends(avatar.friendList)
  {
    told := WatchersToTell(service, avatar);
    friends := FriendsToHearOf(service, avatar);
  }

  method FriendsToHearOf(service: ChatAvatarService, avatar: ChatAvatar) returns (friends: seq<ChatAvatar>)
    requires Good(service) && avatar in service.avatarCache
    ensures avatar.Clean() && friends == OnlineFriends(avatar.friendList)
    ensures Watchers(service.onlineAvatars, avatar.avatarId) == old(Watchers(service.onlineAvatars, avatar.avatarId))
    ensures Good(service)
    ensures ClosedInStep(service.avatarCache) <==> old(ClosedInStep(service.avatarCache))
    ensures RefsClosed(service.avatarCache) <==> old(RefsClosed(service.avatarCache))
  {
    ghost var i :| 0 <= i < |service.avatarCache| && service.avatarCache[i] == avatar;
    friends := FindOnlineFriends(avatar.friendList);
    service.SameLists(service.avatarCache);
  }

  method WatchersToTell(service: ChatAvatarService, avatar: ChatAvatar) returns (told: seq<ChatAvatar>)
    requires Good(service)
    ensures told == Watchers(service.onlineAvatars, avatar.avatarId) ==
                    old(Watchers(service.onlineAvatars, avatar.avatarId))
    ensures Good(service)
    ensures ClosedInStep(service.avatarCache) <==> old(ClosedInStep(service.avatarCache))
    ensures RefsClosed(service.avatarCache) <==> old(RefsClosed(service.avatarCache))
  {
    OnlineIsClean(service);
    told := FindWatchers(service.onlineAvatars, avatar);
    service.SameLists(service.avatarCache);
  }

  /** Behind a failed read the updates are left out: the list may hold nulls. */
  method ServeLogin(service: ChatAvatarService, name: Wide, address: Wide, userId: nat, attributes: nat)
    returns (avatar: ChatAvatar?, told: seq<ChatAvatar>, complete: bool)
    requires service.Valid() && Schema(service.db.tables) && (name != SYSTEM ==> Good(service))
    requires Storable(name, service.signedChar) && Storable(address, service.signedChar)
    modifies service`avatarCache, service`onlineAvatars, service.db, service.avatarCache`isOnline
    ensures complete ==> Effect(service, Login(name, address, userId, attributes))
    ensures service.db.reliable ==> complete
    ensures service.Valid() && Schema(service.db.tables)
    ensures complete && service.db.willing && old(HasRoom(service.db)) ==> avatar != null
    ensures complete && avatar == null ==> !RowExists(service.db.tables, name, address)
    ensures avatar != null ==>
              avatar in service.avatarCache && avatar.isOnline && avatar.name == name && avatar.address == address
    ensures complete && avatar != null && name != SYSTEM ==>
              told == Watchers(service.onlineAvatars, avatar.avatarId)
    ensures name == SYSTEM ==> told == []
    ensures forall i :: 0 <= i < |service.avatarCache| ==>
              service.avatarCache[i] in old(service.avatarCache) || fresh(service.avatarCache[i])
    ensures complete && old(Good(service)) ==> Good(service)
    ensures complete && old(Good(service) && ClosedInStep(service.avatarCache)) ==> ClosedInStep(service.avatarCache)
    ensures complete && old(Good(service) && RefsClosed(service.avatarCache)) ==> RefsClosed(service.avatarCache)
    ensures complete ==>
              Turn(old(SnapshotOf(service)), Login(name, address, userId, attributes), SnapshotOf(service),
                   service.signedChar)
  {
    told := [];
    avatar, complete := LoginNamed(service, name, address, userId, attributes);
    if avatar != null {
      ghost var i :| 0 <= i < |service.avatarCache| && service.avatarCache[i] == avatar;
    }
    if avatar != null && complete && name != SYSTEM {
      var friends;
      told, friends := SendFriendLoginUpdates(service, avatar);
    }
  }

  /** First `SendFriendLogoutUpdates` tells the others. */
  method LogoutFound(service: ChatAvatarService, avatar: ChatAvatar) returns (told: seq<ChatAvatar>)
    requires Good(service) && avatar in service.avatarCache
    modifies service`onlineAvatars, avatar`isOnline
    ensures Good(service) && !avatar.isOnline && Effect(service, Logout(avatar.avatarId))
    ensures told == old(Watchers(service.onlineAvatars, avatar.avatarId))
    ensures ClosedInStep(service.avatarCache) <==> old(ClosedInStep(service.avatarCache))
    ensures RefsClosed(service.avatarCache) <==> old(RefsClosed(service.avatarCache))
    ensures Turn(old(SnapshotOf(service)), Logout(avatar.avatarId), SnapshotOf(service), service.signedChar)
  {
    CacheIdsUnique(service.avatarCache, avatar);
    told := WatchersToTell(service, avatar);
    LogoutCached(service, avatar);
  }

  /** The handler checks nothing: without the avatar it goes on with a null pointer, and behind a failed
      read it may meet one in a list. */
  method ServeLogout(service: ChatAvatarService, id: nat)
    returns (avatar: ChatAvatar?, told: seq<ChatAvatar>, complete: bool)
    requires Good(service)
    modifies service`avatarCache, service`onlineAvatars, service.avatarCache`isOnline
    ensures complete && avatar != null ==> Effect(service, Logout(id))
    ensures service.db.reliable ==> complete
    ensures service.Valid()
    ensures complete && avatar == null ==> id !in service.db.tables.avatars
    ensures avatar != null ==> avatar in service.avatarCache && avatar.avatarId == id
    ensures complete && avatar != null ==> !avatar.isOnline && told == old(Watchers(service.onlineAvatars, id))
    ensures forall i :: 0 <= i < |service.avatarCache| ==>
              service.avatarCache[i] in old(service.avatarCache) || fresh(service.avatarCache[i])
    ensures complete ==> Good(service)
    ensures complete && old(ClosedInStep(service.avatarCache)) ==> ClosedInStep(service.avatarCache)
    ensures complete && old(RefsClosed(service.avatarCache)) ==> RefsClosed(service.avatarCache)
    ensures complete && avatar != null ==>
              Turn(old(SnapshotOf(service)), Logout(id), SnapshotOf(service), service.signedChar)
    ensures avatar == null ==> service.onlineAvatars == old(service.onlineAvatars)
  {
    told := [];
    avatar, complete := Fetch(service, id);
    assert Watchers(service.onlineAvatars, id) == old(Watchers(service.onlineAvatars, id));
    CachedStay(old(service.avatarCache), service.avatarCache);
    if avatar == null || !complete { return; }
    told := LogoutFound(service, avatar);
  }

  /** A closed cache stays closed exactly if, the avatar gone, nobody cached has its id in a list. */
  method ServeDestroy(service: ChatAvatarService, id: nat) returns (accepted: bool, complete: bool)
    requires service.Valid() && Schema(service.db.tables)
    modifies service`avatarCache, service`onlineAvatars, service.avatarCache`isOnline, service.db`tables
    ensures accepted && complete ==> Effect(service, Destroy(id))
    ensures service.db.reliable ==> complete
    ensures service.db.willing ==> accepted
    ensures service.Valid() && Schema(service.db.tables)
    ensures accepted && complete ==> id !in service.db.tables.avatars && !HasKey(service.avatarCache, IdOf, id)
    ensures forall i :: 0 <= i < |service.avatarCache| ==>
              service.avatarCache[i] in old(service.avatarCache) || fresh(service.avatarCache[i])
    ensures old(HasKey(service.avatarCache, IdOf, id)) || id !in old(service.db.tables.avatars) ==>
              forall i :: 0 <= i < |service.avatarCache| ==> service.avatarCache[i] in old(service.avatarCache)
    ensures complete && old(Good(service)) ==> Good(service)
    ensures complete && old(Good(service) && ClosedInStep(service.avatarCache)) ==> ClosedInStep(service.avatarCache)
    ensures complete && old(Good(service) && RefsClosed(service.avatarCache)) ==>
              (RefsClosed(service.avatarCache) <==> !accepted || !NamedIn(service.avatarCache, id))
    ensures complete && old(Good(service) && RefsClosed(service.avatarCache) && Forgotten(service, id)) ==>
              RefsClosed(service.avatarCache)
    ensures accepted && complete ==>
              Turn(old(SnapshotOf(service)), Destroy(id), SnapshotOf(service), service.signedChar)
  {
    var avatar;
    accepted := true;
    ghost var before := service.avatarCache;
    avatar, complete := Fetch(service, id);
    assert NamedIn(before, id) <==> old(NamedIn(before, id));
    CachedStay(before, service.avatarCache);
    if avatar != null {
      accepted := DestroyCached(service, avatar);
    } else if complete && RefsClosed(service.avatarCache) {
      ClosedNamesCached(service.avatarCache, id);
    }
  }

  method ServeForget(service: ChatAvatarService, id: nat) returns (accepted: bool, complete: bool)
    requires Good(service) && RefsClosed(service.avatarCache)
    modifies service`avatarCache, service.avatarCache`friendList, service.avatarCache`ignoreList, service.db`tables
    ensures accepted && complete ==> Effect(service, Forget(id))
    ensures service.db.reliable ==> complete
    ensures service.db.willing ==> accepted
    ensures service.Valid() && Schema(service.db.tables)
    ensures accepted && complete ==> !NamedIn(service.avatarCache, id)
    ensures complete ==> HasKey(service.avatarCache, IdOf, id) || id !in service.db.tables.avatars
    ensures forall i :: 0 <= i < |service.avatarCache| ==>
              service.avatarCache[i] in old(service.avatarCache) || fresh(service.avatarCache[i])
    ensures complete ==> Good(service) && RefsClosed(service.avatarCache)
    ensures complete && accepted && old(ClosedInStep(service.avatarCache)) ==> ClosedInStep(service.avatarCache)
    ensures OnlyRowsOfKeys(old(service.db.tables), service.db.tables, Keys(service.avatarCache, IdOf))
    ensures OnlyNaming(old(service.db.tables), service.db.tables, id)
    ensures old(service.avatarCache) <= service.avatarCache
  {
    var avatar;
    accepted := true;
    avatar, complete := Fetch(service, id);
    if complete { accepted := ForgetFetched(service, avatar, id); }
  }

  method ForgetFetched(service: ChatAvatarService, avatar: ChatAvatar?, id: nat) returns (accepted: bool)
    requires Good(service) && RefsClosed(service.avatarCache)
    requires avatar != null ==> avatar in service.avatarCache && avatar.avatarId == id
    requires avatar == null ==> !HasKey(service.avatarCache, IdOf, id)
    modifies service.avatarCache`friendList, service.avatarCache`ignoreList, service.db`tables
    ensures service.db.willing ==> accepted
    ensures Good(service) && RefsClosed(service.avatarCache)
    ensures accepted ==> !NamedIn(service.avatarCache, id)
    ensures avatar != null ==> HasKey(service.avatarCache, IdOf, id)
    ensures accepted && old(ClosedInStep(service.avatarCache)) ==> ClosedInStep(service.avatarCache)
    ensures OnlyRowsOfKeys(old(service.db.tables), service.db.tables, Keys(service.avatarCache, IdOf))
    ensures OnlyNaming(old(service.db.tables), service.db.tables, id)
  {
    if avatar == null {
      ClosedNamesCached(service.avatarCache, id);
      return true;
    }
    CachedHasKey(service.avatarCache, avatar);
    accepted := ForgetCached(service, avatar);
  }

  method FetchBoth(service: ChatAvatarService, id: nat, name: Wide, address: Wide)
    returns (src: ChatAvatar?, dest: ChatAvatar?, complete: bool)
    requires Good(service) && RefsClosed(service.avatarCache)
    requires Storable(name, service.signedChar) && Storable(address, service.signedChar)
    modifies service`avatarCache
    ensures service.db.reliable ==> complete
    ensures service.Valid() && old(service.avatarCache) <= service.avatarCache
    ensures src != null ==> src in service.avatarCache && src.avatarId == id
    ensures dest != null ==> dest in service.avatarCache && dest.name == name && dest.address == address
    ensures complete && src == null ==> id !in service.db.tables.avatars
    ensures complete && src != null && dest == null ==> !RowExists(service.db.tables, name, address)
    ensures forall i :: 0 <= i < |service.avatarCache| ==>
              service.avatarCache[i] in old(service.avatarCache) || fresh(service.avatarCache[i])
    ensures complete ==> Good(service) && RefsClosed(service.avatarCache)
    ensures complete && old(ClosedInStep(service.avatarCache)) ==> ClosedInStep(service.avatarCache)
  {
    dest := null;
    src, complete := Fetch(service, id);
    if src != null && complete {
      var ok;
      dest, ok, complete := FetchNamed(service, name, address);
    }
  }

  method ContactFound(service: ChatAvatarService, src: ChatAvatar, dest: ChatAvatar, call: ContactCall)
    returns (accepted: bool)
    requires Good(service) && RefsClosed(service.avatarCache)
    requires src in service.avatarCache && dest in service.avatarCache
    modifies src`friendList, src`ignoreList, service.db`tables
    ensures service.db.willing && old(ClosedInStep(service.avatarCache)) ==> accepted
    ensures accepted ==> Done(src, dest, call)
    ensures accepted ==> DoneIn(service.avatarCache, src.avatarId, dest.name, dest.address, call)
    ensures Good(service) && RefsClosed(service.avatarCache)
    ensures accepted && CommentSurvives(call, service.signedChar) ==>
              old(ClosedInStep(service.avatarCache)) ==> ClosedInStep(service.avatarCache)
    ensures TouchesPair(old(service.db.tables), service.db.tables, src.avatarId, dest.name, dest.address,
                        service.signedChar)
    ensures accepted && CommentSurvives(call, service.signedChar) && old(ClosedInStep(service.avatarCache)) ==>
              ContactStored(old(service.db.tables), service.db.tables, src.avatarId, dest.name, dest.address, call,
                            service.signedChar)
  {
    ghost var i :| 0 <= i < |service.avatarCache| && service.avatarCache[i] == src;
    ghost var j :| 0 <= j < |service.avatarCache| && service.avatarCache[j] == dest;
    CachedCarries(service, dest);
    accepted := ContactCached(service, src, dest, call);
    assert accepted ==> Done(service.avatarCache[i], service.avatarCache[j], call);
  }

  /** The call, on what was found. */
  method ContactFetched(service: ChatAvatarService, src: ChatAvatar?, dest: ChatAvatar?, id: nat, name: Wide,
                        address: Wide, call: ContactCall)
    returns (accepted: bool)
    requires Good(service) && RefsClosed(service.avatarCache)
    requires src != null ==> src in service.avatarCache && src.avatarId == id
    requires dest != null ==> dest in service.avatarCache && dest.name == name && dest.address == address
    requires src == null ==> id !in service.db.tables.avatars
    requires src != null && dest == null ==> !RowExists(service.db.tables, name, address)
    modifies service.avatarCache`friendList, service.avatarCache`ignoreList, service.db`tables
    ensures service.db.willing && old(ClosedInStep(service.avatarCache)) ==> accepted
    ensures accepted ==> Effect(service, Contact(id, name, address, call))
    ensures Good(service) && RefsClosed(service.avatarCache)
    ensures accepted && CommentSurvives(call, service.signedChar) ==>
              old(ClosedInStep(service.avatarCache)) ==>
                && ClosedInStep(service.avatarCache)
                && ContactTurn(old(service.db.tables), service.db.tables, id, name, address, call, service.signedChar)
    ensures TouchesPair(old(service.db.tables), service.db.tables, id, name, address, service.signedChar)
    ensures dest == null ==> service.db.tables == old(service.db.tables)
  {
    if src == null || dest == null { return true; }
    accepted := ContactFound(service, src, dest, call);
  }

  /** A willing server accepts every contact call of a settled service.  `nobody` is true if the call would
      go on with a null pointer for the avatar named. */
  method ServeContact(service: ChatAvatarService, id: nat, name: Wide, address: Wide, call: ContactCall)
    returns (nobody: bool, accepted: bool, complete: bool)
    requires Good(service) && RefsClosed(service.avatarCache)
    requires Storable(name, service.signedChar) && Storable(address, service.signedChar)
    modifies service`avatarCache, service.avatarCache`friendList, service.avatarCache`ignoreList, service.db`tables
    ensures service.db.reliable ==> complete
    ensures service.db.willing && old(ClosedInStep(service.avatarCache)) ==> accepted
    ensures service.Valid() && Schema(service.db.tables)
    ensures complete && nobody ==> call.Unignore? && !RowExists(service.db.tables, name, address)
    ensures accepted && complete ==> Effect(service, Contact(id, name, address, call))
    ensures forall i :: 0 <= i < |service.avatarCache| ==>
              service.avatarCache[i] in old(service.avatarCache) || fresh(service.avatarCache[i])
    ensures complete ==> Good(service) && RefsClosed(service.avatarCache)
    ensures complete && accepted && CommentSurvives(call, service.signedChar) ==>
              old(ClosedInStep(service.avatarCache)) ==> ClosedInStep(service.avatarCache)
    ensures TouchesPair(old(service.db.tables), service.db.tables, id, name, address, service.signedChar)
    ensures complete && accepted && CommentSurvives(call, service.signedChar) ==>
              old(ClosedInStep(service.avatarCache)) ==>
                ContactTurn(old(service.db.tables), service.db.tables, id, name, address, call, service.signedChar)
    ensures complete && nobody ==> service.db.tables == old(service.db.tables)
    ensures old(service.avatarCache) <= service.avatarCache
  {
    var src, dest;
    accepted := true;
    src, dest, complete := FetchBoth(service, id, name, address);
    nobody := call.Unignore? && src != null && dest == null && src.ignoreList != [];
    if complete { accepted := ContactFetched(service, src, dest, id, name, address, call); }
  }

  lemma GetTurn(service: ChatAvatarService, a: Snapshot, cache: seq<ChatAvatar>, id: nat)
    requires cache <= service.avatarCache && a.cached == Keys(cache, IdOf)
    requires a.tables == service.db.tables && a.online == Keys(service.onlineAvatars, IdOf)
    requires Effect(service, Get(id))
    ensures Turn(a, Get(id), SnapshotOf(service), service.signedChar)
  {
    CachedStay(cache, service.avatarCache);
  }

  lemma LookupTurn(service: ChatAvatarService, a: Snapshot, cache: seq<ChatAvatar>, name: Wide, address: Wide)
    requires cache <= service.avatarCache && a.cached == Keys(cache, IdOf) && service.Valid()
    requires a.tables == service.db.tables && a.online == Keys(service.onlineAvatars, IdOf)
    requires Effect(service, Lookup(name, address))
    ensures Turn(a, Lookup(name, address), SnapshotOf(service), service.signedChar)
  {
    CachedStay(cache, service.avatarCache);
    if RowExists(service.db.tables, name, address) {
      var i :| 0 <= i < |service.avatarCache| && service.avatarCache[i].name == name &&
               service.avatarCache[i].address == address;
      CachedHasKey(service.avatarCache, service.avatarCache[i]);
      CachedCarries(service, service.avatarCache[i]);
    }
  }

  lemma CachedStay(before: seq<ChatAvatar>, after: seq<ChatAvatar>)
    requires before <= after
    ensures Keys(before, IdOf) <= Keys(after, IdOf)
  {
    forall id | HasKey(before, IdOf, id) ensures HasKey(after, IdOf, id) {
      var i :| 0 <= i < |before| && IdOf(before[i]) == id;
      assert IdOf(after[i]) == id;
    }
  }

  lemma ForgetTurn(service: ChatAvatarService, a: Snapshot, id: nat)
    requires Good(service) && RefsClosed(service.avatarCache) && ClosedInStep(service.avatarCache)
    requires OnlyRowsOfKeys(a.tables, service.db.tables, Keys(service.avatarCache, IdOf))
    requires OnlyNaming(a.tables, service.db.tables, id) && a.cached <= Keys(service.avatarCache, IdOf)
    requires a.online == Keys(service.onlineAvatars, IdOf) && !NamedIn(service.avatarCache, id)
    ensures Turn(a, Forget(id), SnapshotOf(service), service.signedChar)
  {
    SameAllInStep(service.avatarCache, service);
    ForgottenRows(service.db.tables, service.avatarCache, id, service.signedChar);
  }

  /** Whether the handler of a request is defined where the service stands. */
  predicate Servable(service: ChatAvatarService, request: Request, complete: bool)
    reads service, service.avatarCache`friendList, service.avatarCache`ignoreList
  {
    WalksLists(request) ==> complete && RefsClosed(service.avatarCache)
  }

  /** `defined` is false where the handler goes on with a null pointer, or behind a failed read. */
  method Serve(service: ChatAvatarService, request: Request) returns (accepted: bool, complete: bool, defined: bool)
    requires service.Valid() && Schema(service.db.tables) && NamesSurvive(request, service.signedChar)
    requires WalksLists(request) ==> Good(service) && RefsClosed(service.avatarCache)
    modifies service`avatarCache, service`onlineAvatars, service.db,
             service.avatarCache`isOnline, service.avatarCache`friendList, service.avatarCache`ignoreList
    ensures service.db.reliable ==> complete
    ensures service.db.willing && old(ClosedInStep(service.avatarCache)) ==> accepted
    ensures complete && accepted && defined ==> Effect(service, request)
    ensures complete && !defined ==> NamesNobody(service.db.tables, request)
    ensures service.Valid() && Schema(service.db.tables)
    ensures forall i :: 0 <= i < |service.avatarCache| ==>
              service.avatarCache[i] in old(service.avatarCache) || fresh(service.avatarCache[i])
    ensures complete && old(Good(service)) ==> Good(service)
    ensures complete && accepted && CommentSurvivesIn(request, service.signedChar) ==>
              old(Good(service) && ClosedInStep(service.avatarCache)) ==> ClosedInStep(service.avatarCache)
    ensures complete && old(Good(service) && RefsClosed(service.avatarCache)) ==>
              (RefsClosed(service.avatarCache) <==>
               request.Destroy? && accepted ==> !NamedIn(service.avatarCache, request.id))
    ensures complete && accepted && request.Forget? ==>
              && !NamedIn(service.avatarCache, request.id)
              && (HasKey(service.avatarCache, IdOf, request.id) || request.id !in service.db.tables.avatars)
    ensures complete && request.Destroy? ==>
              old(Good(service) && RefsClosed(service.avatarCache) && Forgotten(service, request.id)) ==>
                RefsClosed(service.avatarCache)
    ensures complete && accepted && defined && CommentSurvivesIn(request, service.signedChar) ==>
              old(Good(service) && ClosedInStep(service.avatarCache)) ==>
                Turn(old(SnapshotOf(service)), request, SnapshotOf(service), service.signedChar)
    ensures complete && !defined ==>
              service.db.tables == old(service.db.tables) && service.onlineAvatars == old(service.onlineAvatars)
  {
    accepted, defined := true, true;
    match request {
      case Destroy(id) => accepted, complete := ServeDestroy(service, id);
      case Forget(_) | Contact(_, _, _, _) => accepted, complete, defined := ServeLists(service, request);
      case _ => complete, defined := ServePresence(service, request);
    }
  }

  /** The requests that change contact lists. */
  method ServeLists(service: ChatAvatarService, request: Request)
    returns (accepted: bool, complete: bool, defined: bool)
    requires Good(service) && RefsClosed(service.avatarCache) && NamesSurvive(request, service.signedChar)
    requires request.Forget? || request.Contact?
    modifies service`avatarCache, service.avatarCache`friendList, service.avatarCache`ignoreList, service.db`tables
    ensures service.db.reliable ==> complete
    ensures service.db.willing && old(ClosedInStep(service.avatarCache)) ==> accepted
    ensures complete && accepted && defined ==> Effect(service, request)
    ensures complete && !defined ==> NamesNobody(service.db.tables, request)
    ensures service.Valid() && Schema(service.db.tables)
    ensures forall i :: 0 <= i < |service.avatarCache| ==>
              service.avatarCache[i] in old(service.avatarCache) || fresh(service.avatarCache[i])
    ensures complete ==> Good(service) && RefsClosed(service.avatarCache)
    ensures complete && accepted && CommentSurvivesIn(request, service.signedChar) ==>
              old(ClosedInStep(service.avatarCache)) ==> ClosedInStep(service.avatarCache)
    ensures complete && accepted && request.Forget? ==>
              HasKey(service.avatarCache, IdOf, request.id) || request.id !in service.db.tables.avatars
    ensures complete && accepted && defined && CommentSurvivesIn(request, service.signedChar) ==>
              old(ClosedInStep(service.avatarCache)) ==>
                Turn(old(SnapshotOf(service)), request, SnapshotOf(service), service.signedChar)
    ensures complete && !defined ==> service.db.tables == old(service.db.tables)
  {
    ghost var before, cache := SnapshotOf(service), service.avatarCache;
    match request {
      case Forget(id) =>
        accepted, complete := ServeForget(service, id);
        defined := complete;
        CachedStay(cache, service.avatarCache);
        if complete && accepted && ClosedInStep(service.avatarCache) { ForgetTurn(service, before, id); }
      case Contact(id, name, address, call) =>
        var nobody;
        nobody, accepted, complete := ServeContact(service, id, name, address, call);
        defined := complete && !nobody;
        CachedStay(cache, service.avatarCache);
    }
  }

  /** The requests that change no list and no row but that of a new avatar. */
  method ServePresence(service: ChatAvatarService, request: Request) returns (complete: bool, defined: bool)
    requires service.Valid() && Schema(service.db.tables) && NamesSurvive(request, service.signedChar)
    requires request.Get? || request.Lookup? || request.Login? || request.Logout?
    requires WalksLists(request) ==> Good(service)
    modifies service`avatarCache, service`onlineAvatars, service.db, service.avatarCache`isOnline
    ensures service.db.reliable ==> complete
    ensures complete && defined ==> Effect(service, request)
    ensures complete && !defined ==> NamesNobody(service.db.tables, request)
    ensures service.Valid() && Schema(service.db.tables)
    ensures forall i :: 0 <= i < |service.avatarCache| ==>
              service.avatarCache[i] in old(service.avatarCache) || fresh(service.avatarCache[i])
    ensures complete && old(Good(service)) ==> Good(service)
    ensures complete && old(Good(service) && ClosedInStep(service.avatarCache)) ==> ClosedInStep(service.avatarCache)
    ensures complete && old(Good(service) && RefsClosed(service.avatarCache)) ==> RefsClosed(service.avatarCache)
    ensures complete && defined ==>
              Turn(old(SnapshotOf(service)), request, SnapshotOf(service), service.signedChar)
    ensures complete && !defined ==>
              service.db.tables == old(service.db.tables) && service.onlineAvatars == old(service.onlineAvatars)
  {
    defined := true;
    ghost var before, cache := SnapshotOf(service), service.avatarCache;
    match request {
      case Get(id) =>
        var avatar;
        avatar, complete := Fetch(service, id);
        if avatar != null { CachedHasKey(service.avatarCache, avatar); }
        if complete { GetTurn(service, before, cache, id); }
      case Lookup(name, address) =>
        var avatar, ok;
        avatar, ok, complete := FetchNamed(service, name, address);
        if avatar != null {
          ghost var i :| 0 <= i < |service.avatarCache| && service.avatarCache[i] == avatar;
        }
        if complete { LookupTurn(service, before, cache, name, address); }
      case Login(name, address, userId, attributes) =>
        var avatar, told;
        avatar, told, complete := ServeLogin(service, name, address, userId, attributes);
        defined := complete || name == SYSTEM;
      case Logout(id) =>
        var avatar, told;
        avatar, told, complete := ServeLogout(service, id);
        defined := complete && avatar != null;
    }
  }

  /** Every destruction follows directly on a request to forget the same id. */
  predicate Paired(requests: seq<Request>) {
    forall k :: 0 <= k < |requests| && requests[k].Destroy? ==> k > 0 && requests[k - 1] == Forget(requests[k].id)
  }

  /** What holds before request `k` of a run, as long as no read has failed and no statement was refused:
      if the run began in step, the cache is in step where it is closed; if it began closed and pairs its
      destructions, the cache is closed, and whoever was to be forgotten last is. */
  ghost predicate Running(service: ChatAvatarService, requests: seq<Request>, k: nat, inStep: bool, paired: bool)
    requires k <= |requests|
    reads service, service.db, service.avatarCache`friendList, service.avatarCache`ignoreList,
          set i | 0 <= i < |service.avatarCache| :: service.avatarCache[i].avatarService.db
  {
    && (inStep ==> ClosedInStep(service.avatarCache))
    && (paired ==> RefsClosed(service.avatarCache)
                   && (k > 0 && requests[k - 1].Forget? ==> Forgotten(service, requests[k - 1].id)))
  }

  /** One turn of a run. */
  method ServeNext(service: ChatAvatarService, requests: seq<Request>, k: nat, ghost inStep: bool, ghost paired: bool)
    returns (accepted: bool, complete: bool, defined: bool)
    requires k < |requests| && service.Valid() && Schema(service.db.tables)
    requires NamesSurvive(requests[k], service.signedChar)
    requires WalksLists(requests[k]) ==> Good(service) && RefsClosed(service.avatarCache)
    requires inStep ==> CommentSurvivesIn(requests[k], service.signedChar)
    requires paired ==> Paired(requests)
    modifies service`avatarCache, service`onlineAvatars, service.db,
             service.avatarCache`isOnline, service.avatarCache`friendList, service.avatarCache`ignoreList
    ensures service.db.reliable ==> complete
    ensures complete && accepted && defined ==> Effect(service, requests[k])
    ensures complete && !defined ==> NamesNobody(service.db.tables, requests[k])
    ensures service.Valid() && Schema(service.db.tables)
    ensures forall i :: 0 <= i < |service.avatarCache| ==>
              service.avatarCache[i] in old(service.avatarCache) || fresh(service.avatarCache[i])
    ensures complete && old(Good(service)) ==> Good(service)
    ensures complete && accepted && old(Good(service) && Running(service, requests, k, inStep, paired)) ==>
              Running(service, requests, k + 1, inStep, paired)
    ensures inStep && service.db.willing && old(Running(service, requests, k, inStep, paired)) ==> accepted
    ensures complete && accepted && defined && old(Good(service) && Running(service, requests, k, inStep, paired)) ==>
              inStep ==> Turn(old(SnapshotOf(service)), requests[k], SnapshotOf(service), service.signedChar)
    ensures complete && !defined ==>
              service.db.tables == old(service.db.tables) && service.onlineAvatars == old(service.onlineAvatars)
  {
    accepted, complete, defined := Serve(service, requests[k]);
  }

  /** Serves requests as long as the handlers are defined; `served` of them were.  Whatever happens, the
      service stays valid and the tables obey the schema.  As long as no read has failed: whoever points to
      cached avatars only has lists that equal the stored rows, provided that no statement was refused and
      the comments survive storage; and if besides every destruction follows on forgetting, all contacts
      stay cached, so that all lists equal the stored rows.  `history` says what could be seen before and
      after each request served. */
  method Run(service: ChatAvatarService, requests: seq<Request>)
    returns (served: nat, accepted: bool, complete: bool, ghost history: seq<Snapshot>)
    requires Good(service) && forall k :: 0 <= k < |requests| ==> NamesSurvive(requests[k], service.signedChar)
    modifies service`avatarCache, service`onlineAvatars, service.db,
             service.avatarCache`isOnline, service.avatarCache`friendList, service.avatarCache`ignoreList
    ensures service.db.reliable ==> complete
    ensures service.db.willing && complete && old(ClosedInStep(service.avatarCache)) ==>
              CommentsSurvive(requests, service.signedChar) ==> accepted
    ensures service.Valid() && Schema(service.db.tables)
    ensures complete && accepted && 0 < served == |requests| ==> LastTook(service, requests)
    ensures served <= |requests|
    ensures served < |requests| && complete ==> Stopped(service, requests[served])
    ensures complete && RefsClosed(service.avatarCache) ==> Good(service)
    ensures complete && accepted && old(ClosedInStep(service.avatarCache)) ==>
              CommentsSurvive(requests, service.signedChar) ==> ClosedInStep(service.avatarCache)
    ensures complete && accepted && old(RefsClosed(service.avatarCache)) && Paired(requests) ==>
              RefsClosed(service.avatarCache)
    ensures complete && accepted && old(ClosedInStep(service.avatarCache)) ==>
              CommentsSurvive(requests, service.signedChar) ==>
                Recorded(service, requests, 0, served, history, old(SnapshotOf(service)))
  {
    served, accepted, complete, history := RunFrom(service, requests, 0,
      ClosedInStep(service.avatarCache) && CommentsSurvive(requests, service.signedChar),
      RefsClosed(service.avatarCache) && Paired(requests));
  }

  /** What a run from request `k` on comes to; `start` is what could be seen before, and `running` whether
      it began as `Running` says. */
  ghost predicate Outcome(service: ChatAvatarService, requests: seq<Request>, k: nat, inStep: bool, paired: bool,
                          running: bool, start: Snapshot,
                          served: nat, accepted: bool, complete: bool, history: seq<Snapshot>)
    reads service, service.db, service.avatarCache,
          set i | 0 <= i < |service.avatarCache| :: service.avatarCache[i].avatarService.db
  {
    && service.Valid() && Schema(service.db.tables) && (complete ==> Good(service))
    && k <= served <= |requests| && (service.db.reliable ==> complete)
    && (complete && inStep && service.db.willing && running ==> accepted)
    && (complete && served < |requests| ==> Stopped(service, requests[served]))
    && (complete && accepted && k < served == |requests| ==> LastTook(service, requests))
    && (complete && accepted && running ==>
          && (paired ==> RefsClosed(service.avatarCache))
          && (inStep ==> ClosedInStep(service.avatarCache) &&
                         Recorded(service, requests, k, served, history, start)))
  }

  /** The rest of a run from request `k` on, no read having failed before. */
  method RunFrom(service: ChatAvatarService, requests: seq<Request>, k: nat, ghost inStep: bool, ghost paired: bool)
    returns (served: nat, accepted: bool, complete: bool, ghost history: seq<Snapshot>)
    requires k <= |requests| && Good(service)
    requires forall i :: 0 <= i < |requests| ==> NamesSurvive(requests[i], service.signedChar)
    requires inStep ==> CommentsSurvive(requests, service.signedChar)
    requires paired ==> Paired(requests)
    modifies service`avatarCache, service`onlineAvatars, service.db,
             service.avatarCache`isOnline, service.avatarCache`friendList, service.avatarCache`ignoreList
    ensures Outcome(service, requests, k, inStep, paired, old(Running(service, requests, k, inStep, paired)),
                    old(SnapshotOf(service)), served, accepted, complete, history)
    decreases |requests| - k, 1
  {
    ghost var running, before := Running(service, requests, k, inStep, paired), SnapshotOf(service);
    served, accepted, complete, history := k, true, true, [before];
    if k == |requests| || !Servable(service, requests[k], true) {
      NothingServed(service, requests, k, inStep, paired);
      return;
    }
    var last;
    served, accepted, complete, last, history := RunOne(service, requests, k, inStep, paired);
    if last { return; }
    served, accepted, complete, history :=
      RunRest(service, requests, k, inStep, paired, running, before, accepted, complete);
  }

  /** What comes after request `k`, which went through if `taken` and `read`. */
  method RunRest(service: ChatAvatarService, requests: seq<Request>, k: nat, ghost inStep: bool, ghost paired: bool,
                 ghost running: bool, ghost before: Snapshot, taken: bool, read: bool)
    returns (served: nat, accepted: bool, complete: bool, ghost history: seq<Snapshot>)
    requires k + 1 < |requests| && service.Valid() && Schema(service.db.tables) && (read ==> Good(service))
    requires forall i :: 0 <= i < |requests| ==> NamesSurvive(requests[i], service.signedChar)
    requires inStep ==> CommentsSurvive(requests, service.signedChar)
    requires paired ==> Paired(requests)
    requires (service.db.reliable ==> read) && (inStep && service.db.willing && running ==> taken)
    requires read && taken && running ==>
               && Running(service, requests, k + 1, inStep, paired)
               && (inStep ==> Turn(before, requests[k], SnapshotOf(service), service.signedChar))
    modifies service`avatarCache, service`onlineAvatars, service.db,
             service.avatarCache`isOnline, service.avatarCache`friendList, service.avatarCache`ignoreList
    ensures Outcome(service, requests, k, inStep, paired, running, before, served, accepted, complete, history)
    decreases |requests| - k, 0
  {
    if !read {
      served := RunBlind(service, requests, k + 1);
      accepted, complete, history := taken, false, [before];
      BlindOutcome(service, requests, k, inStep, paired, running, before, served, accepted, history);
      return;
    }
    ghost var onward, after := Running(service, requests, k + 1, inStep, paired), SnapshotOf(service);
    served, accepted, complete, history := RunFrom(service, requests, k + 1, inStep, paired);
    OutcomeFrom(service, requests, k, inStep, paired, running, onward, before, after, taken,
                served, accepted, complete, history);
    accepted, history := taken && accepted, [before] + history;
  }

  /** One request of a run, which is the `last` one if it is undefined or no other follows. */
  method RunOne(service: ChatAvatarService, requests: seq<Request>, k: nat, ghost inStep: bool, ghost paired: bool)
    returns (served: nat, accepted: bool, complete: bool, last: bool, ghost history: seq<Snapshot>)
    requires k < |requests| && Good(service) && NamesSurvive(requests[k], service.signedChar)
    requires WalksLists(requests[k]) ==> RefsClosed(service.avatarCache)
    requires inStep ==> CommentSurvivesIn(requests[k], service.signedChar)
    requires paired ==> Paired(requests)
    modifies service`avatarCache, service`onlineAvatars, service.db,
             service.avatarCache`isOnline, service.avatarCache`friendList, service.avatarCache`ignoreList
    ensures forall i :: 0 <= i < |service.avatarCache| ==>
              service.avatarCache[i] in old(service.avatarCache) || fresh(service.avatarCache[i])
    ensures last ==>
              Outcome(service, requests, k, inStep, paired, old(Running(service, requests, k, inStep, paired)),
                      old(SnapshotOf(service)), served, accepted, complete, history)
    ensures !last ==>
              && k + 1 < |requests| && service.Valid() && Schema(service.db.tables) && (complete ==> Good(service))
              && (service.db.reliable ==> complete)
              && (inStep && service.db.willing && old(Running(service, requests, k, inStep, paired)) ==> accepted)
    ensures !last && complete && accepted && old(Running(service, requests, k, inStep, paired)) ==>
              && Running(service, requests, k + 1, inStep, paired)
              && (inStep ==> Turn(old(SnapshotOf(service)), requests[k], SnapshotOf(service), service.signedChar))
  {
    ghost var running, before := Running(service, requests, k, inStep, paired), SnapshotOf(service);
    var defined;
    accepted, complete, defined := ServeNext(service, requests, k, inStep, paired);
    last := !defined || k + 1 == |requests|;
    if defined {
      served, history := k + 1, [before, SnapshotOf(service)];
    } else {
      served, history := k, [before];
    }
    if last { LastOutcome(service, requests, k, inStep, paired, running, before, accepted, complete, defined); }
  }

  lemma NothingServed(service: ChatAvatarService, requests: seq<Request>, k: nat, inStep: bool, paired: bool)
    requires k <= |requests| && Good(service) && (k < |requests| ==> !Servable(service, requests[k], true))
    ensures Outcome(service, requests, k, inStep, paired, Running(service, requests, k, inStep, paired),
                    SnapshotOf(service), k, true, true, [SnapshotOf(service)])
  {
  }

  lemma LastOutcome(service: ChatAvatarService, requests: seq<Request>, k: nat, inStep: bool, paired: bool,
                    running: bool, before: Snapshot, accepted: bool, complete: bool, defined: bool)
    requires k < |requests| && (defined ==> k + 1 == |requests|)
    requires service.Valid() && Schema(service.db.tables) && (complete ==> Good(service))
    requires service.db.reliable ==> complete
    requires inStep && service.db.willing && running ==> accepted
    requires complete && accepted && defined ==> Effect(service, requests[k])
    requires complete && !defined ==>
               && NamesNobody(service.db.tables, requests[k])
               && before.tables == service.db.tables && before.online == Keys(service.onlineAvatars, IdOf)
    requires complete && accepted && running ==>
               && Running(service, requests, k + 1, inStep, paired)
               && (inStep && defined ==> Turn(before, requests[k], SnapshotOf(service), service.signedChar))
    ensures Outcome(service, requests, k, inStep, paired, running, before, if defined then k + 1 else k,
                    accepted, complete, if defined then [before, SnapshotOf(service)] else [before])
  {
  }

  lemma BlindOutcome(service: ChatAvatarService, requests: seq<Request>, k: nat, inStep: bool, paired: bool,
                     running: bool, before: Snapshot, served: nat, accepted: bool, history: seq<Snapshot>)
    requires service.Valid() && Schema(service.db.tables) && k <= served <= |requests| && !service.db.reliable
    ensures Outcome(service, requests, k, inStep, paired, running, before, served, accepted, false, history)
  {
  }

  lemma OutcomeFrom(service: ChatAvatarService, requests: seq<Request>, k: nat, inStep: bool, paired: bool,
                    running: bool, onward: bool, before: Snapshot, after: Snapshot, taken: bool,
                    served: nat, accepted: bool, complete: bool, history: seq<Snapshot>)
    requires k + 1 < |requests|
    requires Outcome(service, requests, k + 1, inStep, paired, onward, after, served, accepted, complete, history)
    requires taken && running ==> onward
    requires inStep && service.db.willing && running ==> taken
    requires taken && running && inStep ==> Turn(before, requests[k], after, service.signedChar)
    ensures Outcome(service, requests, k, inStep, paired, running, before, served, taken && accepted, complete,
                    [before] + history)
  {
    if complete && taken && accepted && running && inStep {
      FollowsFrom(before, history, requests, k, served, service.signedChar);
    }
  }

  /** Behind a failed read, requests are served up to the first that walks contact lists. */
  method RunBlind(service: ChatAvatarService, requests: seq<Request>, k: nat) returns (served: nat)
    requires k <= |requests| && service.Valid() && Schema(service.db.tables)
    requires forall i :: 0 <= i < |requests| ==> NamesSurvive(requests[i], service.signedChar)
    modifies service`avatarCache, service`onlineAvatars, service.db,
             service.avatarCache`isOnline, service.avatarCache`friendList, service.avatarCache`ignoreList
    ensures service.Valid() && Schema(service.db.tables) && k <= served <= |requests|
    decreases |requests| - k
  {
    served := k;
    if k < |requests| && Servable(service, requests[k], false) {
      var accepted, complete, defined := Serve(service, requests[k]);
      if defined { served := RunBlind(service, requests, k + 1); }
    }
  }

  /** The last request has taken effect; so did each one before, at the end of its turn. */
  ghost predicate LastTook(service: ChatAvatarService, requests: seq<Request>)
    reads service, service.db, service.avatarCache
  {
    exists k :: 0 <= k < |requests| && k == |requests| - 1 && Effect(service, requests[k])
  }

  /** A run from request `k` on went through these snapshots, and ended with the last of them (or with a
      request that has changed neither the tables nor who is online). */
  ghost predicate Recorded(service: ChatAvatarService, requests: seq<Request>, k: nat, served: nat,
                           history: seq<Snapshot>, start: Snapshot)
    reads service, service.db
  {
    && Follows(history, requests, k, served, service.signedChar) && history[0] == start
    && EndsWith(history, SnapshotOf(service), served == |requests|)
  }

  ghost predicate EndsWith(history: seq<Snapshot>, end: Snapshot, all: bool) {
    && history != []
    && var last := history[|history| - 1];
       last.tables == end.tables && last.online == end.online && (all ==> last == end)
  }

  /** Why a run goes no further. */
  ghost predicate Stopped(service: ChatAvatarService, request: Request)
    reads service, service.db, service.avatarCache`friendList, service.avatarCache`ignoreList
  {
    (WalksLists(request) && !RefsClosed(service.avatarCache)) || NamesNobody(service.db.tables, request)
  }

  predicate CommentsSurvive(requests: seq<Request>, signedChar: bool) {
    forall k :: 0 <= k < |requests| ==> CommentSurvivesIn(requests[k], signedChar)
  }

  /** A new service over tables that obey the schema and the friend-or-ignored rule.  On a server that
      answers all selects and refuses nothing the schema allows, and with comments that survive storage:
      lists are equal to the stored rows wherever they are closed; and if every destruction follows on
      forgetting, everywhere. */
  method RunFromStart(db: Database, signedChar: bool, requests: seq<Request>)
    returns (service: ChatAvatarService, served: nat, ghost history: seq<Snapshot>)
    requires Schema(db.tables) && forall id :: Disjoint(db.tables, id)
    requires forall k :: 0 <= k < |requests| ==> NamesSurvive(requests[k], signedChar)
    modifies db
    ensures service.Valid() && Schema(db.tables) && service.db == db && served <= |requests|
    ensures db.reliable ==>
              && (served < |requests| ==> Stopped(service, requests[served]))
              && (RefsClosed(service.avatarCache) ==> Good(service))
    ensures db.reliable && db.willing && CommentsSurvive(requests, signedChar) ==>
              && ClosedInStep(service.avatarCache) && (Paired(requests) ==> Settled(service))
              && (0 < served == |requests| ==> LastTook(service, requests))
              && Recorded(service, requests, 0, served, history, Snapshot(old(db.tables), {}, {}))
  {
    service := new ChatAvatarService(db, signedChar);
    var accepted, complete;
    served, accepted, complete, history := Run(service, requests);
  }
}
