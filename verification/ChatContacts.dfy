/** Contact calls on one avatar: what they do to its lists and to its rows, and what they leave alone. */
module ChatContacts {
  import opened ChatAvatars
  import opened ChatSchema
  import opened ChatTables
  import opened Text
  import opened Vectors

  datatype ContactCall =
    | Befriend(comment: Wide)
    | Unfriend
    | Comment(comment: Wide)
    | Ignore
    | Unignore

  predicate CommentSurvives(call: ContactCall, signedChar: bool) {
    (call.Befriend? || call.Comment?) ==> Storable(call.comment, signedChar)
  }

  /** What an accepted call has brought about. */
  ghost predicate Done(src: ChatAvatar, dest: ChatAvatar, call: ContactCall)
    reads src`friendList, src`ignoreList
  {
    match call
    case Befriend(_) => HasKey(src.friendList, FriendKey, dest.avatarId)
    case Unfriend => !HasKey(src.friendList, FriendKey, dest.avatarId)
    case Comment(comment) => forall c :: c in src.friendList && FriendKey(c) == dest.avatarId ==> c.comment == comment
    case Ignore => HasKey(src.ignoreList, IgnoreKey, dest.avatarId)
    case Unignore => !HasKey(src.ignoreList, IgnoreKey, dest.avatarId)
  }

  /** What a call that goes through makes of the lists: as for everybody but the avatar named, nothing. */
  ghost predicate Applied(before: Lists, after: Lists, id: nat, call: ContactCall) {
    && after.Without(id) == before.Without(id)
    && match call
       case Befriend(comment) =>
         && HasKey(after.friends, FriendKey, id) && !HasKey(after.ignores, IgnoreKey, id)
         && if HasKey(before.friends, FriendKey, id) then after == before else CommentIs(after.friends, id, comment)
       case Unfriend => !HasKey(after.friends, FriendKey, id) && after.ignores == before.ignores
       case Comment(comment) =>
         && (HasKey(after.friends, FriendKey, id) <==> HasKey(before.friends, FriendKey, id))
         && CommentIs(after.friends, id, comment) && after.ignores == before.ignores
       case Ignore =>
         && HasKey(after.ignores, IgnoreKey, id) && !HasKey(after.friends, FriendKey, id)
       case Unignore => !HasKey(after.ignores, IgnoreKey, id) && after.friends == before.friends
  }

  ghost predicate CommentIs(friends: seq<FriendContact>, id: nat, comment: Wide) {
    forall c :: c in friends && FriendKey(c) == id ==> c.comment == comment
  }

  /** What the methods compute. */
  ghost predicate Computed(before: Lists, after: Lists, dest: ChatAvatar, call: ContactCall, ok: bool) {
    var id := dest.avatarId;
    match call
    case Befriend(comment) =>
      if HasKey(before.friends, FriendKey, id) then after == before
      else
        && after.ignores == Kept(before.ignores, IgnoreKey, id)
        && (after.friends == before.friends + [FriendContact(dest, comment)] ||
            (!ok && after.friends == before.friends))
    case Unfriend => after == before.(friends := Kept(before.friends, FriendKey, id))
    case Comment(comment) => after == before.(friends := Recommented(before.friends, id, comment))
    case Ignore =>
      if HasKey(before.ignores, IgnoreKey, id) then after == before
      else
        && after.friends == Kept(before.friends, FriendKey, id)
        && (after.ignores == before.ignores + [IgnoreContact(dest)] || (!ok && after.ignores == before.ignores))
    case Unignore => after == before.(ignores := Kept(before.ignores, IgnoreKey, id))
  }

  lemma ComputedApplies(before: Lists, after: Lists, dest: ChatAvatar, call: ContactCall, ok: bool)
    requires before.Clean() && Computed(before, after, dest, call, ok)
    ensures after.Without(dest.avatarId) == before.Without(dest.avatarId)
    ensures ok ==> Applied(before, after, dest.avatarId, call)
  {
    var id := dest.avatarId;
    KeptKeys(before.friends, FriendKey, id);
    KeptKeys(before.ignores, IgnoreKey, id);
    KeptTwice(before.friends, FriendKey, id);
    KeptTwice(before.ignores, IgnoreKey, id);
    match call {
      case Befriend(comment) =>
        KeptAppended(before.friends, FriendKey, FriendContact(dest, comment));
        AppendKeys(before.friends, FriendKey, FriendContact(dest, comment));
        if !HasKey(before.friends, FriendKey, id) { NotAmong(before.friends, FriendKey, id); }
      case Ignore =>
        KeptAppended(before.ignores, IgnoreKey, IgnoreContact(dest));
        AppendKeys(before.ignores, IgnoreKey, IgnoreContact(dest));
      case Comment(comment) =>
        RecommentedOthers(before.friends, id, comment);
        RecommentedDone(before.friends, id, comment);
        RecommentedClean(before.friends, id, comment);
      case _ =>
    }
  }

  lemma NotAmong<T>(s: seq<T>, key: T -> nat, k: nat)
    requires !HasKey(s, key, k)
    ensures forall x :: x in s ==> key(x) != k
  {
    forall x | x in s ensures key(x) != k {
      var i :| 0 <= i < |s| && s[i] == x;
    }
  }

  lemma {:induction false} KeptTwice<T>(s: seq<T>, key: T -> nat, k: nat)
    ensures Kept(Kept(s, key, k), key, k) == Kept(s, key, k)
  {
    if s != [] { KeptTwice(s[1..], key, k); }
  }

  lemma {:induction false} KeptAppended<T>(s: seq<T>, key: T -> nat, x: T)
    ensures Kept(s + [x], key, key(x)) == Kept(s, key, key(x))
  {
    if s != [] {
      KeptAppended(s[1..], key, x);
      assert (s + [x])[1..] == s[1..] + [x];
    }
  }

  lemma {:induction false} RecommentedOthers(list: seq<FriendContact>, id: nat, comment: Wide)
    ensures Kept(Recommented(list, id, comment), FriendKey, id) == Kept(list, FriendKey, id)
  {
    if list != [] { RecommentedOthers(list[1..], id, comment); }
  }

  // The same for the rows

  predicate IsPair(r: FriendRow, src: nat, dest: nat) {
    r.avatarId == src && r.friendId == dest
  }

  ghost predicate RowCommentIs(t: Tables, src: nat, dest: nat, comment: Wide, signedChar: bool) {
    forall r :: r in t.friends && IsPair(r, src, dest) ==> ToWide(r.comment, signedChar) == comment
  }

  ghost predicate SameFriend(a: Tables, b: Tables, src: nat, dest: nat, signedChar: bool) {
    && (HasFriendRow(b.friends, src, dest) <==> HasFriendRow(a.friends, src, dest))
    && forall r, q :: r in a.friends && IsPair(r, src, dest) && q in b.friends && IsPair(q, src, dest) ==>
         ToWide(r.comment, signedChar) == ToWide(q.comment, signedChar)
  }

  ghost predicate SameIgnore(a: Tables, b: Tables, src: nat, dest: nat) {
    IgnoreRow(src, dest) in b.ignores <==> IgnoreRow(src, dest) in a.ignores
  }

  /** What a call that goes through makes of the tables: but for the rows of one pair, nothing. */
  ghost predicate StoredCall(a: Tables, b: Tables, src: nat, dest: nat, call: ContactCall, signedChar: bool) {
    && OnlyPair(a, b, src, dest)
    && match call
       case Befriend(comment) =>
         && HasFriendRow(b.friends, src, dest) && IgnoreRow(src, dest) !in b.ignores
         && if HasFriendRow(a.friends, src, dest) then SameFriend(a, b, src, dest, signedChar)
            else RowCommentIs(b, src, dest, comment, signedChar)
       case Unfriend => !HasFriendRow(b.friends, src, dest) && SameIgnore(a, b, src, dest)
       case Comment(comment) =>
         && (HasFriendRow(b.friends, src, dest) <==> HasFriendRow(a.friends, src, dest))
         && RowCommentIs(b, src, dest, comment, signedChar) && SameIgnore(a, b, src, dest)
       case Ignore => IgnoreRow(src, dest) in b.ignores && !HasFriendRow(b.friends, src, dest)
       case Unignore => IgnoreRow(src, dest) !in b.ignores && SameFriend(a, b, src, dest, signedChar)
  }

  ghost predicate ListsInStep(t: Tables, lists: Lists, src: nat, signedChar: bool) {
    && FriendsInStep(lists.friends, FriendRowsOf(t.friends, src), signedChar)
    && IgnoresInStep(lists.ignores, IgnoreRowsOf(t.ignores, src))
  }

  lemma ListedAsStored(t: Tables, friends: seq<FriendContact>, src: nat, id: nat, signedChar: bool)
    requires FriendsInStep(friends, FriendRowsOf(t.friends, src), signedChar) && UniqueFriends(t.friends)
    ensures HasKey(friends, FriendKey, id) <==> HasFriendRow(t.friends, src, id)
  {
    var mine := FriendRowsOf(t.friends, src);
    FriendRowsAreDistinct(t.friends, src);
    if HasKey(friends, FriendKey, id) {
      var j :| 0 <= j < |friends| && FriendKey(friends[j]) == id;
      assert mine[j] in mine;
    }
    if r :| r in t.friends && r.avatarId == src && r.friendId == id {
      var j :| 0 <= j < |mine| && mine[j] == r;
      assert FriendKey(friends[j]) == id;
    }
  }

  lemma IgnoredAsStored(t: Tables, ignores: seq<IgnoreContact>, src: nat, id: nat)
    requires IgnoresInStep(ignores, IgnoreRowsOf(t.ignores, src)) && UniqueIgnores(t.ignores)
    ensures HasKey(ignores, IgnoreKey, id) <==> IgnoreRow(src, id) in t.ignores
  {
    var mine := IgnoreRowsOf(t.ignores, src);
    IgnoreRowsAreDistinct(t.ignores, src);
    if HasKey(ignores, IgnoreKey, id) {
      var j :| 0 <= j < |ignores| && IgnoreKey(ignores[j]) == id;
      assert mine[j] in mine && mine[j] == IgnoreRow(src, id);
    }
    if IgnoreRow(src, id) in t.ignores {
      var j :| 0 <= j < |mine| && mine[j] == IgnoreRow(src, id);
      assert IgnoreKey(ignores[j]) == id;
    }
  }

  /** A list that equals its rows says with which comment a pair is stored. */
  lemma CommentAsStored(t: Tables, friends: seq<FriendContact>, src: nat, id: nat, signedChar: bool)
    requires FriendsInStep(friends, FriendRowsOf(t.friends, src), signedChar) && UniqueFriends(t.friends)
    ensures forall c, r :: c in friends && FriendKey(c) == id && r in t.friends && IsPair(r, src, id) ==>
              ToWide(r.comment, signedChar) == c.comment
  {
    var mine := FriendRowsOf(t.friends, src);
    FriendRowsAreDistinct(t.friends, src);
    forall c, r | c in friends && FriendKey(c) == id && r in t.friends && IsPair(r, src, id)
      ensures ToWide(r.comment, signedChar) == c.comment
    {
      var i :| 0 <= i < |friends| && friends[i] == c;
      var j :| 0 <= j < |mine| && mine[j] == r;
      assert mine[i].friendId == mine[j].friendId;
    }
  }

  lemma AnyListed(friends: seq<FriendContact>, id: nat) returns (c: FriendContact)
    requires HasKey(friends, FriendKey, id)
    ensures c in friends && FriendKey(c) == id
  {
    var i :| 0 <= i < |friends| && FriendKey(friends[i]) == id;
    c := friends[i];
  }

  lemma RowCommentListed(t: Tables, friends: seq<FriendContact>, src: nat, id: nat, comment: Wide, signedChar: bool)
    requires FriendsInStep(friends, FriendRowsOf(t.friends, src), signedChar) && UniqueFriends(t.friends)
    requires CommentIs(friends, id, comment)
    ensures RowCommentIs(t, src, id, comment, signedChar)
  {
    CommentAsStored(t, friends, src, id, signedChar);
    ListedAsStored(t, friends, src, id, signedChar);
    if HasKey(friends, FriendKey, id) {
      var c := AnyListed(friends, id);
    }
  }

  lemma SameFriendListed(a: Tables, b: Tables, friends: seq<FriendContact>, src: nat, id: nat, signedChar: bool)
    requires FriendsInStep(friends, FriendRowsOf(a.friends, src), signedChar) && UniqueFriends(a.friends)
    requires FriendsInStep(friends, FriendRowsOf(b.friends, src), signedChar) && UniqueFriends(b.friends)
    ensures SameFriend(a, b, src, id, signedChar)
  {
    CommentAsStored(a, friends, src, id, signedChar);
    CommentAsStored(b, friends, src, id, signedChar);
    ListedAsStored(a, friends, src, id, signedChar);
    ListedAsStored(b, friends, src, id, signedChar);
    if HasKey(friends, FriendKey, id) {
      var c := AnyListed(friends, id);
    }
  }

  /** What has been done to lists that equal their rows, before and after, has been done to the rows. */
  lemma AppliedIsStored(a: Tables, b: Tables, before: Lists, after: Lists, src: nat, id: nat, call: ContactCall,
                        signedChar: bool)
    requires ListsInStep(a, before, src, signedChar) && UniqueFriends(a.friends) && UniqueIgnores(a.ignores)
    requires ListsInStep(b, after, src, signedChar) && UniqueFriends(b.friends) && UniqueIgnores(b.ignores)
    requires OnlyPair(a, b, src, id) && Applied(before, after, id, call)
    ensures StoredCall(a, b, src, id, call, signedChar)
  {
    ListedAsStored(a, before.friends, src, id, signedChar);
    ListedAsStored(b, after.friends, src, id, signedChar);
    IgnoredAsStored(a, before.ignores, src, id);
    IgnoredAsStored(b, after.ignores, src, id);
    match call {
      case Befriend(comment) =>
        if HasKey(before.friends, FriendKey, id) {
          SameFriendListed(a, b, after.friends, src, id, signedChar);
        } else {
          RowCommentListed(b, after.friends, src, id, comment, signedChar);
        }
      case Comment(comment) => RowCommentListed(b, after.friends, src, id, comment, signedChar);
      case Unignore => SameFriendListed(a, b, after.friends, src, id, signedChar);
      case _ =>
    }
  }

  /** Whatever a contact call makes of a list, its contacts are old ones or the one named. */
  lemma ContactsAfter(lists: Lists, cache: seq<ChatAvatar>, dest: ChatAvatar, call: ContactCall)
    requires lists.Clean() && dest in cache
    ensures !HasKey(Kept(lists.friends, FriendKey, dest.avatarId), FriendKey, dest.avatarId)
    ensures !HasKey(Kept(lists.ignores, IgnoreKey, dest.avatarId), IgnoreKey, dest.avatarId)
    ensures call.Comment? ==>
              forall c ::
                c in Recommented(lists.friends, dest.avatarId, call.comment) && FriendKey(c) == dest.avatarId ==>
                  c.comment == call.comment
    ensures ListsIn([lists], cache) ==>
              && (forall c :: c in Kept(lists.friends, FriendKey, dest.avatarId) ==> c.frnd in cache)
              && (forall c :: c in Kept(lists.ignores, IgnoreKey, dest.avatarId) ==> c.ignored in cache)
              && (call.Comment? ==> forall c :: c in Recommented(lists.friends, dest.avatarId, call.comment) ==>
                  c.frnd in cache)
  {
    KeptKeys(lists.friends, FriendKey, dest.avatarId);
    KeptKeys(lists.ignores, IgnoreKey, dest.avatarId);
    KeptMembers(lists.friends, FriendKey, dest.avatarId);
    KeptMembers(lists.ignores, IgnoreKey, dest.avatarId);
    if call.Comment? {
      RecommentedFacts(lists.friends, dest.avatarId, call.comment);
      RecommentedDone(lists.friends, dest.avatarId, call.comment);
    }
    assert [lists][0] == lists;
  }

  lemma {:induction false} RecommentedDone(list: seq<FriendContact>, id: nat, comment: Wide)
    requires DistinctKeys(list, FriendKey)
    ensures forall c :: c in Recommented(list, id, comment) && FriendKey(c) == id ==> c.comment == comment
  {
    if list != [] {
      var rest := list[1..];
      assert list == [list[0]] + rest;
      ConsDistinct(list[0], rest, FriendKey);
      RecommentedDone(rest, id, comment);
      if FriendKey(list[0]) == id {
        forall c | c in rest ensures FriendKey(c) != id {
          var i :| 0 <= i < |rest| && rest[i] == c;
          assert !HasKey(rest, FriendKey, id);
        }
      }
    }
  }

  /** What a call leaves alone, and what it does if it goes through. */
  ghost predicate Called(a: Tables, b: Tables, before: Lists, after: Lists, src: nat, dest: nat, call: ContactCall,
                         ok: bool)
  {
    && OnlyPair(a, b, src, dest) && after.Without(dest) == before.Without(dest)
    && (ok ==> Applied(before, after, dest, call))
  }

  /** The call itself.  Whether it goes through or not, only one pair is touched. */
  method ApplyContact(service: ChatAvatarService, src: ChatAvatar, dest: ChatAvatar, call: ContactCall,
                      ghost cache: seq<ChatAvatar>)
    returns (ok: bool)
    requires src.Clean() && src.avatarService == service && dest in cache
    modifies src`friendList, src`ignoreList, service.db`tables
    ensures old(src.InStep()) && old(src.Storing(dest)) ==> ok
    ensures src.Clean() && (ok ==> Done(src, dest, call))
    ensures Called(old(service.db.tables), service.db.tables, old(ListsOf(src)), ListsOf(src), src.avatarId,
                   dest.avatarId, call, ok)
    ensures OnlyRowsOf(old(service.db.tables), service.db.tables, src.avatarId)
    ensures ok && CommentSurvives(call, service.signedChar) && old(src.InStep()) && old(Schema(service.db.tables)) ==>
              StoredCall(old(service.db.tables), service.db.tables, src.avatarId, dest.avatarId, call,
                         service.signedChar)
    ensures old(Schema(service.db.tables)) ==> Schema(service.db.tables)
    ensures ok && CommentSurvives(call, service.signedChar) && old(src.InStep()) ==> src.InStep()
    ensures old(ContactsIn(src, cache)) ==> ContactsIn(src, cache)
  {
    ghost var before, t, inStep := ListsOf(src), service.db.tables, src.InStep();
    ok := CallContact(service, src, dest, call, cache);
    PairRows(t, service.db.tables, src.avatarId, dest.avatarId);
    if ok && inStep && CommentSurvives(call, service.signedChar) && Schema(t) {
      AppliedIsStored(t, service.db.tables, before, ListsOf(src), src.avatarId, dest.avatarId, call,
                      service.signedChar);
    }
  }

  method CallContact(service: ChatAvatarService, src: ChatAvatar, dest: ChatAvatar, call: ContactCall,
                     ghost cache: seq<ChatAvatar>)
    returns (ok: bool)
    requires src.Clean() && src.avatarService == service && dest in cache
    modifies src`friendList, src`ignoreList, service.db`tables
    ensures old(src.InStep()) && old(src.Storing(dest)) ==> ok
    ensures src.Clean() && (ok ==> Done(src, dest, call))
    ensures Called(old(service.db.tables), service.db.tables, old(ListsOf(src)), ListsOf(src), src.avatarId,
                   dest.avatarId, call, ok)
    ensures old(Schema(service.db.tables)) ==> Schema(service.db.tables)
    ensures ok && CommentSurvives(call, service.signedChar) && old(src.InStep()) ==> src.InStep()
    ensures old(ContactsIn(src, cache)) ==> ContactsIn(src, cache)
  {
    ghost var before := ListsOf(src);
    ContactsAfter(before, cache, dest, call);
    match call {
      case Befriend(comment) => ok := src.AddFriend(dest, comment);
      case Unfriend => ok := src.RemoveFriend(dest);
      case Comment(comment) => ok := src.UpdateFriendComment(dest, comment);
      case Ignore => ok := src.AddIgnore(dest);
      case Unignore => ok := src.RemoveIgnore(dest);
    }
    ComputedApplies(before, ListsOf(src), dest, call, ok);
  }
}
