/** Requests, and what each of them means for the stored tables, for who is online and who is cached.
    A request names avatars by id or by name and address, and looks them up when it is served. */
module ChatTurns {
  import opened ChatAvatarRuns
  import opened ChatAvatars
  import opened ChatContacts
  import opened ChatSchema
  import opened ChatTables
  import opened Text
  import opened Vectors

  datatype Request =
    | Get(id: nat)
    | Lookup(name: Wide, address: Wide)
    | Login(name: Wide, address: Wide, userId: nat, attributes: nat)
    | Logout(id: nat)
    | Destroy(id: nat)
    | Forget(id: nat)
    | Contact(id: nat, name: Wide, address: Wide, call: ContactCall)

  /** "SYSTEM" */
  const SYSTEM: Wide := [0x53, 0x59, 0x53, 0x54, 0x45, 0x4D]

  predicate NamesSurvive(request: Request, signedChar: bool) {
    request.Lookup? || request.Login? || request.Contact? ==>
      Storable(request.name, signedChar) && Storable(request.address, signedChar)
  }

  predicate CommentSurvivesIn(request: Request, signedChar: bool) {
    request.Contact? ==> CommentSurvives(request.call, signedChar)
  }

  /** Requests that follow the pointers in contact lists.  In a list that a failed read has left behind
      such a pointer may be null, and after an avatar was destroyed that others name it dangles. */
  predicate WalksLists(request: Request) {
    request.Forget? || request.Contact? || request.Logout? || (request.Login? && request.name != SYSTEM)
  }

  /** Requests that go on with a null pointer: logging out an avatar that does not exist, and taking one
      that does not exist off the ignored (where the handler checks the wrong pointer). */
  ghost predicate NamesNobody(t: Tables, request: Request) {
    || (request.Logout? && request.id !in t.avatars)
    || (request.Contact? && request.call.Unignore? && !RowExists(t, request.name, request.address))
  }

  /** What can be seen of a service without looking into contact lists. */
  datatype Snapshot = Snapshot(tables: Tables, online: set<nat>, cached: set<nat>)

  ghost function SnapshotOf(service: ChatAvatarService): Snapshot
    reads service, service.db
  {
    Snapshot(service.db.tables, Keys(service.onlineAvatars, IdOf), Keys(service.avatarCache, IdOf))
  }

  ghost predicate Carries(t: Tables, id: nat, name: Wide, address: Wide, signedChar: bool) {
    && id in t.avatars
    && ToWide(t.avatars[id].name, signedChar) == name && ToWide(t.avatars[id].address, signedChar) == address
  }

  /** One turn: how a request, all of whose reads and statements go through, changes what can be seen. */
  ghost predicate Turn(a: Snapshot, request: Request, b: Snapshot, signedChar: bool) {
    Remembers(a, request, b) &&
    match request
    case Get(id) => OnlyLoaded(a, b) && (id in b.tables.avatars ==> id in b.cached)
    case Lookup(name, address) =>
      && OnlyLoaded(a, b)
      && (RowExists(b.tables, name, address) ==>
            exists id :: id in b.cached && Carries(b.tables, id, name, address, signedChar))
    case Login(name, address, userId, attributes) =>
      || (exists id :: LoggedIn(a, id, name, address, userId, attributes, b, signedChar))
      || (b.tables == a.tables && b.online == a.online && !RowExists(b.tables, name, address))
    case Logout(id) => b.tables == a.tables && b.online == a.online - {id}
    case Destroy(id) => id !in b.cached && Destroyed(a, id, b)
    case Forget(id) =>
      && OnlyRowsOfKeys(a.tables, b.tables, b.cached) && b.online == a.online
      && UnnamedBy(b.tables, b.cached, id) && OnlyNaming(a.tables, b.tables, id)
    case Contact(id, name, address, call) =>
      b.online == a.online && ContactTurn(a.tables, b.tables, id, name, address, call, signedChar)
  }

  ghost predicate ContactTurn(a: Tables, b: Tables, id: nat, name: Wide, address: Wide, call: ContactCall,
                              signedChar: bool)
  {
    || ContactStored(a, b, id, name, address, call, signedChar)
    || (b == a && !(id in a.avatars && RowExists(a, name, address)))
  }

  /** Even a call that is refused touches no rows but those of its pair. */
  ghost predicate TouchesPair(a: Tables, b: Tables, id: nat, name: Wide, address: Wide, signedChar: bool) {
    b == a || exists dest :: Carries(a, dest, name, address, signedChar) && OnlyPair(a, b, id, dest)
  }

  /** The rows of the pair are as the call says, and no other row has changed. */
  ghost predicate ContactStored(a: Tables, b: Tables, id: nat, name: Wide, address: Wide, call: ContactCall,
                                signedChar: bool)
  {
    exists dest :: Carries(a, dest, name, address, signedChar) && StoredCall(a, b, id, dest, call, signedChar)
  }

  /** Only destroying an avatar takes it, and nobody else, out of the cache. */
  ghost predicate Remembers(a: Snapshot, request: Request, b: Snapshot) {
    if request.Destroy? then a.cached - {request.id} <= b.cached else a.cached <= b.cached
  }

  ghost predicate OnlyLoaded(a: Snapshot, b: Snapshot) {
    b.tables == a.tables && b.online == a.online
  }

  /** The avatar is online, and a row was stored for it only if none had its name. */
  ghost predicate LoggedIn(a: Snapshot, id: nat, name: Wide, address: Wide, userId: nat, attributes: nat, b: Snapshot,
                           signedChar: bool) {
    && b.online == a.online + {id} && Carries(b.tables, id, name, address, signedChar)
    && Gained(a.tables, id, name, address, userId, attributes, b.tables)
  }

  lemma LoginTurn(a: Snapshot, id: nat, name: Wide, address: Wide, userId: nat, attributes: nat, b: Snapshot,
                  signedChar: bool)
    requires b.online == a.online + {id} && Carries(b.tables, id, name, address, signedChar) && a.cached <= b.cached
    requires Gained(a.tables, id, name, address, userId, attributes, b.tables)
    ensures Turn(a, Login(name, address, userId, attributes), b, signedChar)
  {
    assert LoggedIn(a, id, name, address, userId, attributes, b, signedChar);
  }

  ghost predicate Gained(t: Tables, id: nat, name: Wide, address: Wide, userId: nat, attributes: nat, u: Tables) {
    || u == t
    || (id !in t.avatars && !RowExists(t, name, address) &&
        u == PlusAvatar(t, id, AvatarRow(userId, ToStorage(name), ToStorage(address), attributes)))
  }

  ghost predicate Destroyed(a: Snapshot, id: nat, b: Snapshot) {
    if id in a.tables.avatars then b.tables == WithoutAvatar(a.tables, id) && b.online == a.online - {id}
    else b.tables == a.tables && b.online == a.online
  }

  /** No row of a cached avatar names the id. */
  ghost predicate UnnamedBy(t: Tables, cached: set<nat>, id: nat) {
    && (forall r :: r in t.friends && r.avatarId in cached ==> r.friendId != id)
    && (forall r :: r in t.ignores && r.avatarId in cached ==> r.ignoreId != id)
  }

  /** If no list names the id and the lists equal the rows, no row of a cached avatar does. */
  lemma ForgottenRows(t: Tables, cache: seq<ChatAvatar>, id: nat, signedChar: bool)
    requires AllInStepWith(t, cache, signedChar) && UniqueFriends(t.friends) && UniqueIgnores(t.ignores)
    requires !NamedIn(cache, id)
    ensures UnnamedBy(t, Keys(cache, IdOf), id)
  {
    forall r | r in t.friends && HasKey(cache, IdOf, r.avatarId) ensures r.friendId != id {
      var i :| 0 <= i < |cache| && IdOf(cache[i]) == r.avatarId;
      ListedAsStored(t, cache[i].friendList, cache[i].avatarId, id, signedChar);
      assert !NamesId(cache[i], id);
    }
    forall r | r in t.ignores && HasKey(cache, IdOf, r.avatarId) ensures r.ignoreId != id {
      var i :| 0 <= i < |cache| && IdOf(cache[i]) == r.avatarId;
      IgnoredAsStored(t, cache[i].ignoreList, cache[i].avatarId, id);
      assert !NamesId(cache[i], id);
    }
  }

  /** Snapshots before and after requests `k` up to `end`. */
  ghost predicate Follows(history: seq<Snapshot>, requests: seq<Request>, k: nat, end: nat, signedChar: bool) {
    && k <= end <= |requests| && |history| == end - k + 1
    && forall i :: k <= i < end ==> Turn(history[i - k], requests[i], history[i - k + 1], signedChar)
  }

  lemma FollowsFrom(a: Snapshot, history: seq<Snapshot>, requests: seq<Request>, k: nat, end: nat, signedChar: bool)
    requires Follows(history, requests, k + 1, end, signedChar) && k < |requests|
    requires Turn(a, requests[k], history[0], signedChar)
    ensures Follows([a] + history, requests, k, end, signedChar)
  {
    forall i | k <= i < end
      ensures Turn(([a] + history)[i - k], requests[i], ([a] + history)[i - k + 1], signedChar)
    {
    }
  }
}
