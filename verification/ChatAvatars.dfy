/** The avatar cache of the chat server: lazy loading of the stored friend/ignore graph, presence,
    creation and destruction, and the contact lists with their stored counterparts. */
module ChatAvatars {
  import opened ChatDatabase
  import opened ChatSchema
  import opened ChatTables
  import opened Text
  import opened Vectors
  import opened Wrappers

  datatype FriendContact = FriendContact(frnd: ChatAvatar?, comment: Wide)
  datatype IgnoreContact = IgnoreContact(ignored: ChatAvatar?)

  function FriendKey(c: FriendContact): nat { if c.frnd == null then 0 else c.frnd.avatarId }
  function IgnoreKey(c: IgnoreContact): nat { if c.ignored == null then 0 else c.ignored.avatarId }

  /** Stored friend rows say what a friend list says, in the same order. */
  ghost predicate FriendsInStep(list: seq<FriendContact>, rows: seq<FriendRow>, signedChar: bool) {
    && |list| == |rows|
    && forall j :: 0 <= j < |rows| ==>
         FriendKey(list[j]) == rows[j].friendId && list[j].comment == ToWide(rows[j].comment, signedChar)
  }

  ghost predicate IgnoresInStep(list: seq<IgnoreContact>, rows: seq<IgnoreRow>) {
    && |list| == |rows|
    && forall j :: 0 <= j < |rows| ==> IgnoreKey(list[j]) == rows[j].ignoreId
  }

  function Recommented(list: seq<FriendContact>, id: nat, comment: Wide): seq<FriendContact> {
    if list == [] then []
    else if FriendKey(list[0]) == id then [list[0].(comment := comment)] + list[1..]
    else [list[0]] + Recommented(list[1..], id, comment)
  }

  class ChatAvatar {
    const avatarService: ChatAvatarService
    const avatarId: nat
    const userId: nat
    const name: Wide
    const address: Wide
    var attributes: nat
    var isOnline: bool
    var friendList: seq<FriendContact>
    var ignoreList: seq<IgnoreContact>

    constructor (avatarService: ChatAvatarService, avatarId: nat, userId: nat, name: Wide, address: Wide,
                 attributes: nat)
      ensures this.avatarService == avatarService && this.avatarId == avatarId && this.userId == userId
      ensures this.name == name && this.address == address
      ensures this.attributes == attributes && !isOnline && friendList == [] && ignoreList == []
    {
      this.avatarService, this.avatarId, this.userId := avatarService, avatarId, userId;
      this.name, this.address := name, address;
      this.attributes, isOnline, friendList, ignoreList := attributes, false, [], [];
    }

    /** No contact is null, no id occurs twice in a list, and nobody is friend and ignored at once. */
    ghost predicate Clean()
      reads this`friendList, this`ignoreList
    {
      Lists(friendList, ignoreList).Clean()
    }

    /** Both lists agree with the stored tables. */
    ghost predicate InStep()
      reads this`friendList, this`ignoreList, avatarService.db
    {
      && FriendsInStep(friendList, FriendRowsOf(avatarService.db.tables.friends, avatarId), avatarService.signedChar)
      && IgnoresInStep(ignoreList, IgnoreRowsOf(avatarService.db.tables.ignores, avatarId))
    }

    /** The server is willing to store rows of this avatar that name the other. */
    ghost predicate Storing(avatar: ChatAvatar)
      reads avatarService.db
    {
      && avatarService.db.willing
      && avatarId in avatarService.db.tables.avatars && avatar.avatarId in avatarService.db.tables.avatars
    }

    /** `std::find_if` over the friend list; the length stands for `end()`. */
    method FindFriend(avatar: ChatAvatar) returns (i: nat)
      requires forall c :: c in friendList ==> c.frnd != null
      ensures i <= |friendList| && (i < |friendList| <==> HasKey(friendList, FriendKey, avatar.avatarId))
      ensures i < |friendList| ==> FriendKey(friendList[i]) == avatar.avatarId
      ensures forall j :: 0 <= j < i ==> FriendKey(friendList[j]) != avatar.avatarId
    {
      i := 0;
      while i < |friendList| && friendList[i].frnd.avatarId != avatar.avatarId
        invariant i <= |friendList|
        invariant forall j :: 0 <= j < i ==> FriendKey(friendList[j]) != avatar.avatarId
      {
        i := i + 1;
      }
      assert i < |friendList| ==> FriendKey(friendList[i]) == avatar.avatarId;
    }

    method IsFriend(avatar: ChatAvatar) returns (found: bool)
      requires forall c :: c in friendList ==> c.frnd != null
      ensures found <==> HasKey(friendList, FriendKey, avatar.avatarId)
    {
      var i := FindFriend(avatar);
      return i < |friendList|;
    }

    method IsIgnored(avatar: ChatAvatar) returns (found: bool)
      requires forall c :: c in ignoreList ==> c.ignored != null
      ensures found <==> HasKey(ignoreList, IgnoreKey, avatar.avatarId)
    {
      var i := 0;
      while i < |ignoreList|
        invariant 0 <= i <= |ignoreList|
        invariant forall j :: 0 <= j < i ==> IgnoreKey(ignoreList[j]) != avatar.avatarId
      {
        if ignoreList[i].ignored.avatarId == avatar.avatarId {
          assert IgnoreKey(ignoreList[i]) == avatar.avatarId;
          return true;
        }
        i := i + 1;
      }
      return false;
    }

    /** `ok` is false when the persistence call threw; the list has changed all the same. */
    method RemoveFriend(avatar: ChatAvatar) returns (ok: bool)
      requires Clean()
      modifies this`friendList, avatarService.db`tables
      ensures avatarService.db.willing ==> ok
      ensures OnlyPair(old(avatarService.db.tables), avatarService.db.tables, avatarId, avatar.avatarId)
      ensures Clean() && friendList == Kept(old(friendList), FriendKey, avatar.avatarId)
      ensures avatarService.db.tables ==
                if ok && HasKey(old(friendList), FriendKey, avatar.avatarId)
                then MinusFriend(old(avatarService.db.tables), avatarId, avatar.avatarId)
                else old(avatarService.db.tables)
      ensures !ok ==> HasKey(old(friendList), FriendKey, avatar.avatarId)
      ensures old(InStep()) ==> (InStep() <==> ok)
      ensures old(Schema(avatarService.db.tables)) ==> Schema(avatarService.db.tables)
    {
      ok := true;
      ghost var list, t := friendList, avatarService.db.tables;
      RemovalFacts(list, FriendKey, avatar.avatarId);
      if |Kept(friendList, FriendKey, avatar.avatarId)| < |friendList| {
        friendList := EraseOne(friendList, FriendKey, avatar.avatarId);
        ok := avatarService.RemoveFriend(avatarId, avatar.avatarId);
        PairAfterDelete(t, avatarId, avatar.avatarId);
        if FriendsInStep(list, FriendRowsOf(t.friends, avatarId), avatarService.signedChar) {
          FriendRemovedInStep(list, t.friends, avatarId, avatar.avatarId, avatarService.signedChar);
        }
      }
    }

    method RemoveIgnore(avatar: ChatAvatar) returns (ok: bool)
      requires Clean()
      modifies this`ignoreList, avatarService.db`tables
      ensures avatarService.db.willing ==> ok
      ensures OnlyPair(old(avatarService.db.tables), avatarService.db.tables, avatarId, avatar.avatarId)
      ensures Clean() && ignoreList == Kept(old(ignoreList), IgnoreKey, avatar.avatarId)
      ensures avatarService.db.tables ==
                if ok && HasKey(old(ignoreList), IgnoreKey, avatar.avatarId)
                then MinusIgnore(old(avatarService.db.tables), avatarId, avatar.avatarId)
                else old(avatarService.db.tables)
      ensures !ok ==> HasKey(old(ignoreList), IgnoreKey, avatar.avatarId)
      ensures old(InStep()) ==> (InStep() <==> ok)
      ensures old(Schema(avatarService.db.tables)) ==> Schema(avatarService.db.tables)
    {
      ok := true;
      ghost var list, t := ignoreList, avatarService.db.tables;
      RemovalFacts(list, IgnoreKey, avatar.avatarId);
      if |Kept(ignoreList, IgnoreKey, avatar.avatarId)| < |ignoreList| {
        ignoreList := EraseOne(ignoreList, IgnoreKey, avatar.avatarId);
        ok := avatarService.RemoveIgnore(avatarId, avatar.avatarId);
        PairAfterDelete(t, avatarId, avatar.avatarId);
        if IgnoresInStep(list, IgnoreRowsOf(t.ignores, avatarId)) {
          IgnoreRemovedInStep(list, t.ignores, avatarId, avatar.avatarId);
        }
      }
    }

    /** A willing server takes the row of a new friend if both avatars are stored. */
    method AddFriend(avatar: ChatAvatar, comment: Wide) returns (ok: bool)
      requires Clean()
      modifies this`friendList, this`ignoreList, avatarService.db`tables
      ensures old(InStep()) && old(Storing(avatar)) ==> ok
      ensures OnlyPair(old(avatarService.db.tables), avatarService.db.tables, avatarId, avatar.avatarId)
      ensures Clean()
      ensures HasKey(old(friendList), FriendKey, avatar.avatarId) ==>
                ok && friendList == old(friendList) && ignoreList == old(ignoreList) &&
                    avatarService.db.tables == old(avatarService.db.tables)
      ensures !HasKey(old(friendList), FriendKey, avatar.avatarId) ==>
                && ignoreList == Kept(old(ignoreList), IgnoreKey, avatar.avatarId)
                && (friendList == old(friendList) + [FriendContact(avatar, comment)] ||
                    (!ok && friendList == old(friendList)))
      ensures ok ==> HasKey(friendList, FriendKey, avatar.avatarId)
      ensures old(InStep()) ==>
                (InStep() <==>
                   ok && (HasKey(old(friendList), FriendKey, avatar.avatarId)
                          || Storable(comment, avatarService.signedChar)))
      ensures old(Schema(avatarService.db.tables)) ==> Schema(avatarService.db.tables)
    {
      var isFriend := IsFriend(avatar);
      if isFriend { return true; }
      var isIgnored := IsIgnored(avatar);
      KeptLength(ignoreList, IgnoreKey, avatar.avatarId);
      KeptMembers(ignoreList, IgnoreKey, avatar.avatarId);
      KeptKeys(ignoreList, IgnoreKey, avatar.avatarId);
      ok := true;
      if isIgnored {
        ok := RemoveIgnore(avatar);
        if !ok { return; }
      }
      ghost var list, t := friendList, avatarService.db.tables;
      ghost var wasInStep := InStep();
      AppendKeys(list, FriendKey, FriendContact(avatar, comment));
      if wasInStep { UnlistedFriend(list, t.friends, avatarId, avatar.avatarId, avatarService.signedChar); }
      friendList := friendList + [FriendContact(avatar, comment)];
      ok := avatarService.PersistFriend(avatarId, avatar.avatarId, comment);
      PairAfterInsert(t, FriendRow(avatarId, avatar.avatarId, ToStorage(comment)),
                        IgnoreRow(avatarId, avatar.avatarId));
      assert HasKey(friendList, FriendKey, avatar.avatarId) by {
        assert FriendKey(friendList[|list|]) == avatar.avatarId;
      }
      if wasInStep {
        FriendAddedInStep(list, t.friends, avatarId, avatar, comment, avatarService.signedChar);
      }
    }

    method AddIgnore(avatar: ChatAvatar) returns (ok: bool)
      requires Clean()
      modifies this`friendList, this`ignoreList, avatarService.db`tables
      ensures old(InStep()) && old(Storing(avatar)) ==> ok
      ensures OnlyPair(old(avatarService.db.tables), avatarService.db.tables, avatarId, avatar.avatarId)
      ensures Clean()
      ensures HasKey(old(ignoreList), IgnoreKey, avatar.avatarId) ==>
                ok && friendList == old(friendList) && ignoreList == old(ignoreList) &&
                    avatarService.db.tables == old(avatarService.db.tables)
      ensures !HasKey(old(ignoreList), IgnoreKey, avatar.avatarId) ==>
                && friendList == Kept(old(friendList), FriendKey, avatar.avatarId)
                && (ignoreList == old(ignoreList) + [IgnoreContact(avatar)] || (!ok && ignoreList == old(ignoreList)))
      ensures ok ==> HasKey(ignoreList, IgnoreKey, avatar.avatarId)
      ensures old(InStep()) ==> (InStep() <==> ok)
      ensures old(Schema(avatarService.db.tables)) ==> Schema(avatarService.db.tables)
    {
      var isIgnored := IsIgnored(avatar);
      if isIgnored { return true; }
      var isFriend := IsFriend(avatar);
      KeptMembers(friendList, FriendKey, avatar.avatarId);
      KeptKeys(friendList, FriendKey, avatar.avatarId);
      ok := true;
      if isFriend {
        ok := RemoveFriend(avatar);
        if !ok { return; }
      }
      ghost var list, t := ignoreList, avatarService.db.tables;
      ghost var wasInStep := InStep();
      AppendKeys(list, IgnoreKey, IgnoreContact(avatar));
      if wasInStep { UnlistedIgnore(list, t.ignores, avatarId, avatar.avatarId); }
      ignoreList := ignoreList + [IgnoreContact(avatar)];
      ok := avatarService.PersistIgnore(avatarId, avatar.avatarId);
      PairAfterInsert(t, FriendRow(avatarId, avatar.avatarId, []), IgnoreRow(avatarId, avatar.avatarId));
      assert HasKey(ignoreList, IgnoreKey, avatar.avatarId) by {
        assert IgnoreKey(ignoreList[|list|]) == avatar.avatarId;
      }
      if wasInStep {
        IgnoreAddedInStep(list, t.ignores, avatarId, avatar);
      }
    }

    method UpdateFriendComment(avatar: ChatAvatar, comment: Wide) returns (ok: bool)
      requires Clean()
      modifies this`friendList, avatarService.db`tables
      ensures avatarService.db.willing ==> ok
      ensures OnlyPair(old(avatarService.db.tables), avatarService.db.tables, avatarId, avatar.avatarId)
      ensures Clean() && friendList == Recommented(old(friendList), avatar.avatarId, comment)
      ensures old(InStep()) && ok ==>
                (InStep() <==>
                   !HasKey(old(friendList), FriendKey, avatar.avatarId) || Storable(comment, avatarService.signedChar))
      ensures old(InStep()) && !ok ==> (InStep() <==> friendList == old(friendList))
      ensures old(Schema(avatarService.db.tables)) ==> Schema(avatarService.db.tables)
    {
      ok := true;
      ghost var list, t := friendList, avatarService.db.tables;
      RecommentedFacts(list, avatar.avatarId, comment);
      var i := FindFriend(avatar);
      if i < |friendList| {
        RecommentedAt(list, avatar.avatarId, comment, i);
        friendList := friendList[i := friendList[i].(comment := comment)];
        RecommentedClean(list, avatar.avatarId, comment);
        ok := avatarService.UpdateFriendComment(avatarId, avatar.avatarId, comment);
        PairAfterComment(t, avatarId, avatar.avatarId, ToStorage(comment));
        if FriendsInStep(list, FriendRowsOf(t.friends, avatarId), avatarService.signedChar) {
          FriendCommentInStep(list, t.friends, avatarId, i, comment, avatarService.signedChar);
        }
      }
    }
  }

  lemma RemovalFacts<T>(s: seq<T>, key: T -> nat, k: nat)
    requires DistinctKeys(s, key)
    ensures |Kept(s, key, k)| < |s| <==> HasKey(s, key, k)
    ensures |Kept(s, key, k)| < |s| ==> EraseOne(s, key, k) == Kept(s, key, k)
    ensures !HasKey(s, key, k) ==> Kept(s, key, k) == s
    ensures DistinctKeys(Kept(s, key, k), key)
    ensures forall x :: x in Kept(s, key, k) ==> x in s
    ensures forall x :: HasKey(Kept(s, key, k), key, x) ==> HasKey(s, key, x) && x != k
  {
    EraseDefined(s, key, k);
    KeptMembers(s, key, k);
    KeptKeys(s, key, k);
    KeptDistinct(s, key, k);
    if HasKey(s, key, k) { EraseIsRemoval(s, key, k); }
  }

  lemma {:induction false} KeptFriendsInStep(list: seq<FriendContact>, rows: seq<FriendRow>, src: nat, dest: nat,
                                             signedChar: bool)
    requires FriendsInStep(list, rows, signedChar) && forall r :: r in rows ==> r.avatarId == src
    ensures FriendsInStep(Kept(list, FriendKey, dest), WithoutFriend(rows, src, dest), signedChar)
  {
    if rows != [] {
      KeptFriendsInStep(list[1..], rows[1..], src, dest, signedChar);
      assert rows[0] in rows;
      assert FriendKey(list[0]) == rows[0].friendId;
      var rest, restRows := Kept(list[1..], FriendKey, dest), WithoutFriend(rows[1..], src, dest);
      if FriendKey(list[0]) == dest {
        assert Kept(list, FriendKey, dest) == rest && WithoutFriend(rows, src, dest) == restRows;
      } else {
        assert Kept(list, FriendKey, dest) == [list[0]] + rest;
        assert WithoutFriend(rows, src, dest) == [rows[0]] + restRows;
      }
    }
  }

  lemma {:induction false} KeptIgnoresInStep(list: seq<IgnoreContact>, rows: seq<IgnoreRow>, src: nat, dest: nat)
    requires IgnoresInStep(list, rows) && forall r :: r in rows ==> r.avatarId == src
    ensures IgnoresInStep(Kept(list, IgnoreKey, dest), WithoutIgnore(rows, src, dest))
  {
    if rows != [] {
      KeptIgnoresInStep(list[1..], rows[1..], src, dest);
      assert rows[0] in rows;
      assert IgnoreKey(list[0]) == rows[0].ignoreId;
    }
  }

  lemma FriendRemovedInStep(list: seq<FriendContact>, rows: seq<FriendRow>, src: nat, dest: nat, signedChar: bool)
    requires FriendsInStep(list, FriendRowsOf(rows, src), signedChar)
    ensures FriendsInStep(Kept(list, FriendKey, dest), FriendRowsOf(WithoutFriend(rows, src, dest), src), signedChar)
  {
    RowsHaveOwner(rows, [], src);
    FriendRowsWithout(rows, src, dest, src);
    KeptFriendsInStep(list, FriendRowsOf(rows, src), src, dest, signedChar);
  }

  lemma IgnoreRemovedInStep(list: seq<IgnoreContact>, rows: seq<IgnoreRow>, src: nat, dest: nat)
    requires IgnoresInStep(list, IgnoreRowsOf(rows, src))
    ensures IgnoresInStep(Kept(list, IgnoreKey, dest), IgnoreRowsOf(WithoutIgnore(rows, src, dest), src))
  {
    RowsHaveOwner([], rows, src);
    IgnoreRowsWithout(rows, src, dest, src);
    KeptIgnoresInStep(list, IgnoreRowsOf(rows, src), src, dest);
  }

  /** Whoever is not in a list that is in step is not in the rows either. */
  lemma UnlistedFriend(list: seq<FriendContact>, rows: seq<FriendRow>, src: nat, dest: nat, signedChar: bool)
    requires FriendsInStep(list, FriendRowsOf(rows, src), signedChar) && !HasKey(list, FriendKey, dest)
    ensures !HasFriendRow(rows, src, dest)
  {
    RowsAreListed(rows, [], src);
    var mine := FriendRowsOf(rows, src);
    assert forall j :: 0 <= j < |mine| ==> FriendKey(list[j]) == mine[j].friendId;
  }

  lemma UnlistedIgnore(list: seq<IgnoreContact>, rows: seq<IgnoreRow>, src: nat, dest: nat)
    requires IgnoresInStep(list, IgnoreRowsOf(rows, src)) && !HasKey(list, IgnoreKey, dest)
    ensures IgnoreRow(src, dest) !in rows
  {
    RowsAreListed([], rows, src);
    var mine := IgnoreRowsOf(rows, src);
    assert forall j :: 0 <= j < |mine| ==> IgnoreKey(list[j]) == mine[j].ignoreId;
  }

  lemma FriendAddedInStep(list: seq<FriendContact>, rows: seq<FriendRow>, src: nat, avatar: ChatAvatar, comment: Wide,
                          signedChar: bool)
    requires FriendsInStep(list, FriendRowsOf(rows, src), signedChar)
    ensures !FriendsInStep(list + [FriendContact(avatar, comment)], FriendRowsOf(rows, src), signedChar)
    ensures FriendsInStep(list + [FriendContact(avatar, comment)],
              FriendRowsOf(rows + [FriendRow(src, avatar.avatarId, ToStorage(comment))], src), signedChar)
            <==> Storable(comment, signedChar)
  {
    var row := FriendRow(src, avatar.avatarId, ToStorage(comment));
    FriendRowAppended(rows, row, src);
    StorageRoundTrip(comment, signedChar);
    var after := FriendRowsOf(rows, src) + [row];
    assert after[|list|] == row;
  }

  lemma IgnoreAddedInStep(list: seq<IgnoreContact>, rows: seq<IgnoreRow>, src: nat, avatar: ChatAvatar)
    requires IgnoresInStep(list, IgnoreRowsOf(rows, src))
    ensures !IgnoresInStep(list + [IgnoreContact(avatar)], IgnoreRowsOf(rows, src))
    ensures IgnoresInStep(list + [IgnoreContact(avatar)], IgnoreRowsOf(rows + [IgnoreRow(src, avatar.avatarId)], src))
  {
    IgnoreRowAppended(rows, IgnoreRow(src, avatar.avatarId), src);
  }

  lemma RecommentedClean(list: seq<FriendContact>, id: nat, comment: Wide)
    requires DistinctKeys(list, FriendKey) && forall c :: c in list ==> c.frnd != null
    ensures DistinctKeys(Recommented(list, id, comment), FriendKey)
    ensures forall c :: c in Recommented(list, id, comment) ==> c.frnd != null
    ensures forall k :: HasKey(Recommented(list, id, comment), FriendKey, k) <==> HasKey(list, FriendKey, k)
  {
    RecommentedFacts(list, id, comment);
    var after := Recommented(list, id, comment);
    assert forall j :: 0 <= j < |list| ==> FriendKey(after[j]) == FriendKey(list[j]);
    forall k ensures HasKey(after, FriendKey, k) <==> HasKey(list, FriendKey, k) {
      if HasKey(list, FriendKey, k) {
        var j :| 0 <= j < |list| && FriendKey(list[j]) == k;
        assert FriendKey(after[j]) == k;
      }
    }
  }

  lemma {:induction false} RecommentedFacts(list: seq<FriendContact>, id: nat, comment: Wide)
    ensures |Recommented(list, id, comment)| == |list|
    ensures forall j :: 0 <= j < |list| ==>
              Recommented(list, id, comment)[j].frnd == list[j].frnd
    ensures !HasKey(list, FriendKey, id) ==> Recommented(list, id, comment) == list
  {
    if list != [] {
      TailHasKey(list, FriendKey, id);
      RecommentedFacts(list[1..], id, comment);
    }
  }

  lemma {:induction false} RecommentedAt(list: seq<FriendContact>, id: nat, comment: Wide, i: nat)
    requires i < |list| && FriendKey(list[i]) == id && forall j :: 0 <= j < i ==> FriendKey(list[j]) != id
    ensures Recommented(list, id, comment) == list[i := list[i].(comment := comment)]
  {
    if i > 0 {
      assert FriendKey(list[0]) != id;
      RecommentedAt(list[1..], id, comment, i - 1);
    }
  }

  lemma {:induction false} WithCommentAt(rows: seq<FriendRow>, src: nat, dest: nat, comment: CText)
    requires forall r :: r in rows ==> r.avatarId == src
    ensures |WithComment(rows, src, dest, comment)| == |rows|
    ensures forall j :: 0 <= j < |rows| ==>
              WithComment(rows, src, dest, comment)[j] ==
                  (if rows[j].friendId == dest then rows[j].(comment := comment) else rows[j])
  {
    if rows != [] {
      assert rows[0] in rows;
      WithCommentAt(rows[1..], src, dest, comment);
    }
  }

  lemma FriendCommentInStep(list: seq<FriendContact>, rows: seq<FriendRow>, src: nat, i: nat, comment: Wide,
                            signedChar: bool)
    requires FriendsInStep(list, FriendRowsOf(rows, src), signedChar) && i < |list| && DistinctKeys(list, FriendKey)
    ensures var after := list[i := list[i].(comment := comment)];
            && (FriendsInStep(after, FriendRowsOf(WithComment(rows, src, FriendKey(list[i]), ToStorage(comment)), src),
                              signedChar)
                <==> Storable(comment, signedChar))
            && (FriendsInStep(after, FriendRowsOf(rows, src), signedChar) <==> after == list)
  {
    var mine, dest := FriendRowsOf(rows, src), FriendKey(list[i]);
    RowsHaveOwner(rows, [], src);
    FriendRowsCommented(rows, src, dest, ToStorage(comment), src);
    WithCommentAt(mine, src, dest, ToStorage(comment));
    StorageRoundTrip(comment, signedChar);
    OneCommentInStep(list, mine, i, comment, signedChar, mine[i].comment);
    OneCommentInStep(list, mine, i, comment, signedChar, ToStorage(comment));
    var stored := WithComment(mine, src, dest, ToStorage(comment));
    assert stored == mine[i := mine[i].(comment := ToStorage(comment))];
    assert mine == mine[i := mine[i].(comment := mine[i].comment)];
    if comment == list[i].comment { assert list[i := list[i].(comment := comment)] == list; }
  }

  /** Changing one contact's comment and one row's comment keeps step exactly if the two agree. */
  lemma OneCommentInStep(list: seq<FriendContact>, mine: seq<FriendRow>, i: nat, comment: Wide, signedChar: bool,
                         stored: CText)
    requires FriendsInStep(list, mine, signedChar) && i < |list|
    ensures FriendsInStep(list[i := list[i].(comment := comment)], mine[i := mine[i].(comment := stored)], signedChar)
            <==> comment == ToWide(stored, signedChar)
  {
    var after, rows := list[i := list[i].(comment := comment)], mine[i := mine[i].(comment := stored)];
    assert after[i].comment == comment && rows[i].comment == stored;
  }

  function IdOf(a: ChatAvatar): nat { a.avatarId }

  ghost function Uncached(t: Tables, cache: seq<ChatAvatar>): set<nat> {
    t.avatars.Keys - Keys(cache, IdOf)
  }

  ghost function NewIds(before: seq<ChatAvatar>, after: seq<ChatAvatar>): set<nat> {
    Keys(after, IdOf) - Keys(before, IdOf)
  }

  /** A contact holds a cached object of the id its row names, or null if there is no such avatar. */
  ghost predicate Points(t: Tables, cache: seq<ChatAvatar>, p: ChatAvatar?, id: nat) {
    if p == null then id !in t.avatars && !HasKey(cache, IdOf, id)
    else p in cache && p.avatarId == id
  }

  ghost predicate FriendsMatch(t: Tables, cache: seq<ChatAvatar>, signedChar: bool,
                               list: seq<FriendContact>, rows: seq<FriendRow>)
  {
    && |list| == |rows|
    && forall j :: 0 <= j < |rows| ==>
         && Points(t, cache, list[j].frnd, rows[j].friendId)
         && list[j].comment == ToWide(rows[j].comment, signedChar)
  }

  ghost predicate IgnoresMatch(t: Tables, cache: seq<ChatAvatar>, list: seq<IgnoreContact>, rows: seq<IgnoreRow>) {
    && |list| == |rows|
    && forall j :: 0 <= j < |rows| ==> Points(t, cache, list[j].ignored, rows[j].ignoreId)
  }

  /** The identifying fields and the owner of an avatar agree with its stored row. */
  ghost predicate FieldsMatch(t: Tables, signedChar: bool, a: ChatAvatar) {
    && a.avatarId in t.avatars
    && var row := t.avatars[a.avatarId];
       && a.name == ToWide(row.name, signedChar) && a.address == ToWide(row.address, signedChar)
       && a.userId == row.userId
  }

  /** An offline avatar of the service that describes its row; its lists may be incomplete. */
  ghost predicate Newcomer(t: Tables, service: ChatAvatarService, a: ChatAvatar)
    reads a
  {
    && a.avatarService == service && FieldsMatch(t, service.signedChar, a)
    && a.attributes == t.avatars[a.avatarId].attributes && !a.isOnline
  }

  /** An avatar exactly as its rows describe it, with both lists complete and in row order. */
  ghost predicate Loaded(t: Tables, cache: seq<ChatAvatar>, service: ChatAvatarService, a: ChatAvatar)
    reads a
  {
    && Newcomer(t, service, a)
    && FriendsMatch(t, cache, service.signedChar, a.friendList, FriendRowsOf(t.friends, a.avatarId))
    && IgnoresMatch(t, cache, a.ignoreList, IgnoreRowsOf(t.ignores, a.avatarId))
  }

  /** A newcomer, which is loaded if no select has failed. */
  ghost predicate Arrived(t: Tables, cache: seq<ChatAvatar>, service: ChatAvatarService, a: ChatAvatar, complete: bool)
    reads a
  {
    Newcomer(t, service, a) && (complete ==> Loaded(t, cache, service, a))
  }

  /** The cache has only been extended, by stored ids that were missing, each of them once. */
  ghost predicate Grown(t: Tables, before: seq<ChatAvatar>, after: seq<ChatAvatar>) {
    && before <= after
    && (forall i :: |before| <= i < |after| ==> after[i].avatarId in Uncached(t, before))
    && forall i, j :: |before| <= i < j < |after| ==> after[i].avatarId != after[j].avatarId
  }

  /** Every id in `xs` can be reached from one of `sources` through `within`. */
  ghost predicate Reached(t: Tables, within: set<nat>, sources: seq<nat>, xs: set<nat>) {
    forall x :: x in xs ==> exists s :: s in sources && Reach(t, within, s, x)
  }

  lemma PrefixKeys(before: seq<ChatAvatar>, after: seq<ChatAvatar>, x: nat)
    requires before <= after
    ensures HasKey(after, IdOf, x) <==>
              HasKey(before, IdOf, x) || exists i :: |before| <= i < |after| && after[i].avatarId == x
  {
    if HasKey(before, IdOf, x) {
      var i :| 0 <= i < |before| && IdOf(before[i]) == x;
      assert IdOf(after[i]) == x;
    }
    if i :| |before| <= i < |after| && after[i].avatarId == x {
      assert IdOf(after[i]) == x;
    }
    if HasKey(after, IdOf, x) {
      var i :| 0 <= i < |after| && IdOf(after[i]) == x;
      assert i < |before| ==> IdOf(before[i]) == x;
    }
  }

  /** The new ids are those of the new objects; distinct ids stay distinct. */
  lemma GrownKeys(t: Tables, before: seq<ChatAvatar>, after: seq<ChatAvatar>)
    requires Grown(t, before, after)
    ensures Keys(before, IdOf) <= Keys(after, IdOf) && NewIds(before, after) <= Uncached(t, before)
    ensures forall i :: |before| <= i < |after| ==> after[i].avatarId in NewIds(before, after)
    ensures forall x :: x in NewIds(before, after) ==> exists i :: |before| <= i < |after| && after[i].avatarId == x
    ensures DistinctKeys(before, IdOf) <==> DistinctKeys(after, IdOf)
  {
    forall x ensures x in Keys(after, IdOf) <==> x in Keys(before, IdOf) || x in NewIds(before, after)
      ensures x in NewIds(before, after) ==> exists i :: |before| <= i < |after| && after[i].avatarId == x
      ensures x in Keys(before, IdOf) ==> x in Keys(after, IdOf)
    {
      PrefixKeys(before, after, x);
    }
    forall i | |before| <= i < |after| ensures after[i].avatarId in NewIds(before, after) {
      PrefixKeys(before, after, after[i].avatarId);
    }
    GrownDistinct(t, before, after);
  }

  lemma GrownDistinct(t: Tables, before: seq<ChatAvatar>, after: seq<ChatAvatar>)
    requires Grown(t, before, after)
    ensures DistinctKeys(before, IdOf) <==> DistinctKeys(after, IdOf)
  {
    if DistinctKeys(after, IdOf) {
      forall i, j | 0 <= i < j < |before| ensures IdOf(before[i]) != IdOf(before[j]) {
        assert IdOf(after[i]) != IdOf(after[j]);
      }
    }
    if DistinctKeys(before, IdOf) {
      forall i, j | 0 <= i < j < |after| ensures IdOf(after[i]) != IdOf(after[j]) {
        if j < |before| {
          assert IdOf(before[i]) != IdOf(before[j]);
        } else if i < |before| {
          assert IdOf(before[i]) in Keys(before, IdOf);
        }
      }
    }
  }

  lemma GrownTrans(t: Tables, a: seq<ChatAvatar>, b: seq<ChatAvatar>, c: seq<ChatAvatar>)
    requires Grown(t, a, b) && Grown(t, b, c)
    ensures Grown(t, a, c)
    ensures NewIds(a, c) == NewIds(a, b) + NewIds(b, c)
    ensures Uncached(t, c) <= Uncached(t, b) <= Uncached(t, a)
  {
    GrownKeys(t, a, b);
    GrownKeys(t, b, c);
    forall i | |a| <= i < |c| ensures c[i].avatarId in Uncached(t, a) {
      assert i < |b| ==> c[i] == b[i];
    }
    forall i, j | |a| <= i < j < |c| ensures c[i].avatarId != c[j].avatarId {
      if j < |b| {
        assert b[i].avatarId != b[j].avatarId;
      } else if i < |b| {
        assert b[i].avatarId in Keys(b, IdOf);
      }
    }
  }

  lemma UncachedShrinks(t: Tables, before: seq<ChatAvatar>, after: seq<ChatAvatar>)
    requires Grown(t, before, after)
    ensures Uncached(t, after) <= Uncached(t, before)
  {
    GrownKeys(t, before, after);
  }

  /** Caching one more avatar. */
  lemma GrownByOne(t: Tables, cache: seq<ChatAvatar>, a: ChatAvatar)
    requires a.avatarId in Uncached(t, cache)
    ensures Grown(t, cache, cache + [a]) && Uncached(t, cache + [a]) == Uncached(t, cache) - {a.avatarId}
    ensures NewIds(cache, cache + [a]) == {a.avatarId}
  {
    AppendKeys(cache, IdOf, a);
  }

  /** Contacts stay right as the cache grows. */
  lemma PointsStable(t: Tables, before: seq<ChatAvatar>, after: seq<ChatAvatar>, p: ChatAvatar?, id: nat)
    requires Grown(t, before, after) && Points(t, before, p, id)
    ensures Points(t, after, p, id)
  {
    PrefixKeys(before, after, id);
  }

  lemma ArrivedStable(t: Tables, before: seq<ChatAvatar>, after: seq<ChatAvatar>, service: ChatAvatarService,
                      a: ChatAvatar, complete: bool)
    requires Grown(t, before, after) && Arrived(t, before, service, a, complete)
    ensures Arrived(t, after, service, a, complete)
  {
    if complete {
      FriendsStable(t, before, after, service.signedChar, a.friendList, FriendRowsOf(t.friends, a.avatarId));
      IgnoresStable(t, before, after, a.ignoreList, IgnoreRowsOf(t.ignores, a.avatarId));
    }
  }

  /** All objects from position `from` on have arrived. */
  ghost predicate AllArrived(t: Tables, cache: seq<ChatAvatar>, service: ChatAvatarService, from: nat, complete: bool)
    reads cache
  {
    forall i :: from <= i < |cache| ==> Arrived(t, cache, service, cache[i], complete)
  }

  lemma AllArrivedStable(t: Tables, c0: seq<ChatAvatar>, c1: seq<ChatAvatar>, c2: seq<ChatAvatar>,
                         service: ChatAvatarService, first: bool, second: bool)
    requires Grown(t, c0, c1) && Grown(t, c1, c2)
    requires AllArrived(t, c1, service, |c0|, first) && AllArrived(t, c2, service, |c1|, second)
    ensures AllArrived(t, c2, service, |c0|, first && second)
  {
    forall i | |c0| <= i < |c2| ensures Arrived(t, c2, service, c2[i], first && second) {
      if i < |c1| { ArrivedStable(t, c1, c2, service, c1[i], first); }
    }
  }

  lemma FriendsStable(t: Tables, before: seq<ChatAvatar>, after: seq<ChatAvatar>, signedChar: bool,
                      list: seq<FriendContact>, rows: seq<FriendRow>)
    requires Grown(t, before, after) && FriendsMatch(t, before, signedChar, list, rows)
    ensures FriendsMatch(t, after, signedChar, list, rows)
  {
    forall j | 0 <= j < |rows| ensures Points(t, after, list[j].frnd, rows[j].friendId) {
      PointsStable(t, before, after, list[j].frnd, rows[j].friendId);
    }
  }

  lemma IgnoresStable(t: Tables, before: seq<ChatAvatar>, after: seq<ChatAvatar>,
                      list: seq<IgnoreContact>, rows: seq<IgnoreRow>)
    requires Grown(t, before, after) && IgnoresMatch(t, before, list, rows)
    ensures IgnoresMatch(t, after, list, rows)
  {
    forall j | 0 <= j < |rows| ensures Points(t, after, list[j].ignored, rows[j].ignoreId) {
      PointsStable(t, before, after, list[j].ignored, rows[j].ignoreId);
    }
  }

  /** A loaded avatar leaves no stored neighbour uncached. */
  lemma LoadedCloses(t: Tables, cache: seq<ChatAvatar>, service: ChatAvatarService, a: ChatAvatar, y: nat)
    requires Loaded(t, cache, service, a) && Edge(t, a.avatarId, y) && y in t.avatars
    ensures y in Keys(cache, IdOf)
  {
    var friends, ignores := FriendRowsOf(t.friends, a.avatarId), IgnoreRowsOf(t.ignores, a.avatarId);
    var p: ChatAvatar?;
    if y in FriendIds(friends) {
      var j :| 0 <= j < |friends| && FriendIds(friends)[j] == y;
      p := a.friendList[j].frnd;
      assert Points(t, cache, p, friends[j].friendId);
    } else {
      var j :| 0 <= j < |ignores| && IgnoreIds(ignores)[j] == y;
      p := a.ignoreList[j].ignored;
      assert Points(t, cache, p, ignores[j].ignoreId);
    }
    assert Points(t, cache, p, y);
    var i :| 0 <= i < |cache| && cache[i] == p;
    assert IdOf(cache[i]) == y;
  }

  /** What `GetAvatar` newly caches is all that can be reached through uncached avatars. */
  lemma ExactlyReached(t: Tables, before: seq<ChatAvatar>, after: seq<ChatAvatar>, service: ChatAvatarService, id: nat)
    requires Grown(t, before, after) && id in NewIds(before, after) && AllArrived(t, after, service, |before|, true)
    requires forall x :: x in NewIds(before, after) ==> Reach(t, Uncached(t, before), id, x)
    ensures forall x :: x in NewIds(before, after) <==> Reach(t, Uncached(t, before), id, x)
  {
    var within, closed := Uncached(t, before), NewIds(before, after);
    GrownKeys(t, before, after);
    forall x, y | x in closed && Edge(t, x, y) && y in within ensures y in closed {
      var i :| |before| <= i < |after| && after[i].avatarId == x;
      assert Arrived(t, after, service, after[i], true);
      LoadedCloses(t, after, service, after[i], y);
    }
    forall x | Reach(t, within, id, x) ensures x in closed {
      ClosedContainsReach(t, within, closed, id, x);
    }
  }

  /** The avatar just cached, what its friend rows brought in and what its ignore rows brought in. */
  lemma ReachedThroughRows(t: Tables, c0: seq<ChatAvatar>, a: ChatAvatar, c2: seq<ChatAvatar>, c3: seq<ChatAvatar>)
    requires a.avatarId in Uncached(t, c0) && Grown(t, c0 + [a], c2) && Grown(t, c2, c3)
    requires Reached(t, Uncached(t, c0 + [a]), FriendIds(FriendRowsOf(t.friends, a.avatarId)), NewIds(c0 + [a], c2))
    requires Reached(t, Uncached(t, c2), IgnoreIds(IgnoreRowsOf(t.ignores, a.avatarId)), NewIds(c2, c3))
    ensures Grown(t, c0, c3) && a.avatarId in NewIds(c0, c3)
    ensures forall x :: x in NewIds(c0, c3) ==> Reach(t, Uncached(t, c0), a.avatarId, x)
  {
    var id, c1, u0 := a.avatarId, c0 + [a], Uncached(t, c0);
    GrownByOne(t, c0, a);
    GrownTrans(t, c0, c1, c2);
    GrownTrans(t, c0, c2, c3);
    forall x | x in NewIds(c0, c3) ensures Reach(t, u0, id, x) {
      if x == id {
        ReachSelf(t, u0, id);
      } else if x in NewIds(c1, c2) {
        var s :| s in FriendIds(FriendRowsOf(t.friends, id)) && Reach(t, Uncached(t, c1), s, x);
        ReachWider(t, Uncached(t, c1), u0, s, x);
        ReachStep(t, u0, id, s, x);
      } else {
        var s :| s in IgnoreIds(IgnoreRowsOf(t.ignores, id)) && Reach(t, Uncached(t, c2), s, x);
        ReachWider(t, Uncached(t, c2), u0, s, x);
        ReachStep(t, u0, id, s, x);
      }
    }
  }

  /** One more row of a list: what the call for it reached joins what earlier rows reached. */
  lemma ReachedMore(t: Tables, c0: seq<ChatAvatar>, c1: seq<ChatAvatar>, c2: seq<ChatAvatar>, sources: seq<nat>, s: nat)
    requires Grown(t, c0, c1) && Grown(t, c1, c2) && s in sources
    requires Reached(t, Uncached(t, c0), sources, NewIds(c0, c1))
    requires forall x :: x in NewIds(c1, c2) ==> Reach(t, Uncached(t, c1), s, x)
    ensures Grown(t, c0, c2) && Reached(t, Uncached(t, c0), sources, NewIds(c0, c2))
  {
    GrownTrans(t, c0, c1, c2);
    forall x | x in NewIds(c1, c2) ensures exists s' :: s' in sources && Reach(t, Uncached(t, c0), s', x) {
      ReachWider(t, Uncached(t, c1), Uncached(t, c0), s, x);
    }
  }

  lemma ReachedFromMore(t: Tables, within: set<nat>, few: seq<nat>, many: seq<nat>, xs: set<nat>)
    requires Reached(t, within, few, xs) && forall s :: s in few ==> s in many
    ensures Reached(t, within, many, xs)
  {
    forall x | x in xs ensures exists s :: s in many && Reach(t, within, s, x) {
      var s :| s in few && Reach(t, within, s, x);
      assert s in many;
    }
  }

  /** Delivered rows name nobody the stored rows do not name. */
  lemma DeliveredIds(friends: seq<FriendRow>, allFriends: seq<FriendRow>, ignores: seq<IgnoreRow>,
                     allIgnores: seq<IgnoreRow>)
    requires (forall r :: r in friends ==> r in allFriends) && (forall r :: r in ignores ==> r in allIgnores)
    ensures forall s :: s in FriendIds(friends) ==> s in FriendIds(allFriends)
    ensures forall s :: s in IgnoreIds(ignores) ==> s in IgnoreIds(allIgnores)
  {
    forall s | s in FriendIds(friends) ensures s in FriendIds(allFriends) {
      var i :| 0 <= i < |friends| && FriendIds(friends)[i] == s;
      assert friends[i] in friends;
      var j :| 0 <= j < |allFriends| && allFriends[j] == friends[i];
      assert FriendIds(allFriends)[j] == s;
    }
    forall s | s in IgnoreIds(ignores) ensures s in IgnoreIds(allIgnores) {
      var i :| 0 <= i < |ignores| && IgnoreIds(ignores)[i] == s;
      assert ignores[i] in ignores;
      var j :| 0 <= j < |allIgnores| && allIgnores[j] == ignores[i];
      assert IgnoreIds(allIgnores)[j] == s;
    }
  }

  lemma ListsLoaded(t: Tables, c1: seq<ChatAvatar>, c2: seq<ChatAvatar>, c3: seq<ChatAvatar>,
                    service: ChatAvatarService,
                    avatar: ChatAvatar, first: bool, second: bool)
    requires Grown(t, c1, c2) && Grown(t, c2, c3) && Newcomer(t, service, avatar)
    requires AllArrived(t, c2, service, |c1|, first) && AllArrived(t, c3, service, |c2|, second)
    requires first ==> FriendsMatch(t, c2, service.signedChar, avatar.friendList,
                                    FriendRowsOf(t.friends, avatar.avatarId))
    requires second ==> IgnoresMatch(t, c3, avatar.ignoreList, IgnoreRowsOf(t.ignores, avatar.avatarId))
    ensures Grown(t, c1, c3) && AllArrived(t, c3, service, |c1|, first && second)
    ensures Arrived(t, c3, service, avatar, first && second)
  {
    GrownTrans(t, c1, c2, c3);
    AllArrivedStable(t, c1, c2, c3, service, first, second);
    if first {
      FriendsStable(t, c2, c3, service.signedChar, avatar.friendList, FriendRowsOf(t.friends, avatar.avatarId));
    }
  }

  lemma LoadingFinished(t: Tables, c0: seq<ChatAvatar>, c2: seq<ChatAvatar>, c3: seq<ChatAvatar>,
                        service: ChatAvatarService, a: ChatAvatar, complete: bool)
    requires a.avatarId in Uncached(t, c0) && Grown(t, c0 + [a], c2) && Grown(t, c2, c3)
    requires Reached(t, Uncached(t, c0 + [a]), FriendIds(FriendRowsOf(t.friends, a.avatarId)), NewIds(c0 + [a], c2))
    requires Reached(t, Uncached(t, c2), IgnoreIds(IgnoreRowsOf(t.ignores, a.avatarId)), NewIds(c2, c3))
    requires AllArrived(t, c3, service, |c0 + [a]|, complete) && Arrived(t, c3, service, a, complete)
    ensures Grown(t, c0, c3) && a in c3 && AllArrived(t, c3, service, |c0|, complete)
    ensures forall x :: x in NewIds(c0, c3) ==> Reach(t, Uncached(t, c0), a.avatarId, x)
    ensures complete ==> forall x :: x in NewIds(c0, c3) <==> Reach(t, Uncached(t, c0), a.avatarId, x)
  {
    ReachedThroughRows(t, c0, a, c2, c3);
    assert c3[|c0|] == a;
    forall i | |c0| <= i < |c3| ensures Arrived(t, c3, service, c3[i], complete) {
      assert i == |c0| || |c0 + [a]| <= i;
    }
    if complete { ExactlyReached(t, c0, c3, service, a.avatarId); }
  }

  lemma SecondObject(before: seq<ChatAvatar>, after: seq<ChatAvatar>, a: ChatAvatar)
    requires before <= after && |before| < |after| && after[|before|] == a && HasKey(before, IdOf, a.avatarId)
    ensures !DistinctKeys(after, IdOf)
  {
    var i :| 0 <= i < |before| && IdOf(before[i]) == a.avatarId;
    assert IdOf(after[i]) == IdOf(after[|before|]);
  }

  ghost predicate CachedNamed(cache: seq<ChatAvatar>, name: Wide, address: Wide) {
    exists i :: 0 <= i < |cache| && cache[i].name == name && cache[i].address == address
  }

  /** What a text becomes on its way through storage. */
  function Stored(w: Wide, signedChar: bool): Wide {
    ToWide(ToStorage(w), signedChar)
  }

  ghost predicate RowExists(t: Tables, name: Wide, address: Wide) {
    exists id :: id in t.avatars && RowNamed(t.avatars[id], name, address)
  }

  /** The row a name selects is cached if and only if some cached avatar carries the name as storage
      gives it back; which need not be the name that was asked for. */
  lemma NamedRowIsCached(t: Tables, cache: seq<ChatAvatar>, service: ChatAvatarService, name: Wide, address: Wide,
                         id: nat)
    requires Described(t, cache, service) && UniqueNames(t) && id in t.avatars && RowNamed(t.avatars[id], name, address)
    ensures HasKey(cache, IdOf, id) <==>
              CachedNamed(cache, Stored(name, service.signedChar), Stored(address, service.signedChar))
  {
    if HasKey(cache, IdOf, id) {
      var i :| 0 <= i < |cache| && IdOf(cache[i]) == id;
      assert FieldsMatch(t, service.signedChar, cache[i]);
    }
    if CachedNamed(cache, Stored(name, service.signedChar), Stored(address, service.signedChar)) {
      var i := CarrierOfName(t, cache, service, name, address);
      assert SameName(t.avatars[cache[i].avatarId], t.avatars[id]);
      assert IdOf(cache[i]) == id;
    }
  }

  /** A cached avatar that carries the stored form of a name belongs to a row with that name. */
  lemma CarrierOfName(t: Tables, cache: seq<ChatAvatar>, service: ChatAvatarService, name: Wide, address: Wide)
    returns (i: nat)
    requires Described(t, cache, service)
    requires CachedNamed(cache, Stored(name, service.signedChar), Stored(address, service.signedChar))
    ensures i < |cache| && cache[i].avatarId in t.avatars && RowNamed(t.avatars[cache[i].avatarId], name, address)
  {
    i :| 0 <= i < |cache| && cache[i].name == Stored(name, service.signedChar)
         && cache[i].address == Stored(address, service.signedChar);
    assert FieldsMatch(t, service.signedChar, cache[i]);
    var row := t.avatars[cache[i].avatarId];
    ToWideInjective(row.name, ToStorage(name), service.signedChar);
    ToWideInjective(row.address, ToStorage(address), service.signedChar);
  }

  lemma FriendRowDone(t: Tables, c0: seq<ChatAvatar>, c1: seq<ChatAvatar>, c2: seq<ChatAvatar>, signedChar: bool,
                      rows: seq<FriendRow>, k: nat, list: seq<FriendContact>, frnd: ChatAvatar?, complete: bool)
    requires k < |rows| && Grown(t, c0, c1) && Grown(t, c1, c2)
    requires Reached(t, Uncached(t, c0), FriendIds(rows), NewIds(c0, c1))
    requires forall x :: x in NewIds(c1, c2) ==> Reach(t, Uncached(t, c1), rows[k].friendId, x)
    requires complete ==> FriendsMatch(t, c1, signedChar, list, rows[..k]) && Points(t, c2, frnd, rows[k].friendId)
    ensures Grown(t, c0, c2) && Reached(t, Uncached(t, c0), FriendIds(rows), NewIds(c0, c2))
    ensures complete ==>
              FriendsMatch(t, c2, signedChar, list + [FriendContact(frnd, ToWide(rows[k].comment, signedChar))],
                           rows[..k + 1])
  {
    assert FriendIds(rows)[k] == rows[k].friendId;
    ReachedMore(t, c0, c1, c2, FriendIds(rows), rows[k].friendId);
    if complete { FriendsStable(t, c1, c2, signedChar, list, rows[..k]); }
  }

  lemma IgnoreRowDone(t: Tables, c0: seq<ChatAvatar>, c1: seq<ChatAvatar>, c2: seq<ChatAvatar>,
                      rows: seq<IgnoreRow>, k: nat, list: seq<IgnoreContact>, ignored: ChatAvatar?, complete: bool)
    requires k < |rows| && Grown(t, c0, c1) && Grown(t, c1, c2)
    requires Reached(t, Uncached(t, c0), IgnoreIds(rows), NewIds(c0, c1))
    requires forall x :: x in NewIds(c1, c2) ==> Reach(t, Uncached(t, c1), rows[k].ignoreId, x)
    requires complete ==> IgnoresMatch(t, c1, list, rows[..k]) && Points(t, c2, ignored, rows[k].ignoreId)
    ensures Grown(t, c0, c2) && Reached(t, Uncached(t, c0), IgnoreIds(rows), NewIds(c0, c2))
    ensures complete ==> IgnoresMatch(t, c2, list + [IgnoreContact(ignored)], rows[..k + 1])
  {
    assert IgnoreIds(rows)[k] == rows[k].ignoreId;
    ReachedMore(t, c0, c1, c2, IgnoreIds(rows), rows[k].ignoreId);
    if complete { IgnoresStable(t, c1, c2, list, rows[..k]); }
  }

  class ChatAvatarService {
    const db: Database
    const signedChar: bool
    var avatarCache: seq<ChatAvatar>
    var onlineAvatars: seq<ChatAvatar>

    constructor (db: Database, signedChar: bool)
      ensures this.db == db && this.signedChar == signedChar && avatarCache == [] && onlineAvatars == []
    {
      this.db, this.signedChar, avatarCache, onlineAvatars := db, signedChar, [], [];
    }

    method PersistFriend(src: nat, dest: nat, comment: Wide) returns (ok: bool)
      modifies db`tables
      ensures db.willing && old(CanInsertFriend(db.tables, FriendRow(src, dest, ToStorage(comment)))) ==> ok
      ensures db.tables ==
                if ok then PlusFriend(old(db.tables), FriendRow(src, dest, ToStorage(comment))) else old(db.tables)
      ensures old(Schema(db.tables)) ==> Schema(db.tables)
    {
      ok := db.InsertFriend(FriendRow(src, dest, ToStorage(comment)));
    }

    method PersistIgnore(src: nat, dest: nat) returns (ok: bool)
      modifies db`tables
      ensures db.willing && old(CanInsertIgnore(db.tables, IgnoreRow(src, dest))) ==> ok
      ensures db.tables == if ok then PlusIgnore(old(db.tables), IgnoreRow(src, dest)) else old(db.tables)
      ensures old(Schema(db.tables)) ==> Schema(db.tables)
    {
      ok := db.InsertIgnore(IgnoreRow(src, dest));
    }

    method RemoveFriend(src: nat, dest: nat) returns (ok: bool)
      modifies db`tables
      ensures db.willing ==> ok
      ensures db.tables == if ok then MinusFriend(old(db.tables), src, dest) else old(db.tables)
      ensures old(Schema(db.tables)) ==> Schema(db.tables)
    {
      ok := db.DeleteFriend(src, dest);
    }

    method RemoveIgnore(src: nat, dest: nat) returns (ok: bool)
      modifies db`tables
      ensures db.willing ==> ok
      ensures db.tables == if ok then MinusIgnore(old(db.tables), src, dest) else old(db.tables)
      ensures old(Schema(db.tables)) ==> Schema(db.tables)
    {
      ok := db.DeleteIgnore(src, dest);
    }

    method UpdateFriendComment(src: nat, dest: nat, comment: Wide) returns (ok: bool)
      modifies db`tables
      ensures db.willing ==> ok
      ensures db.tables == if ok then Commented(old(db.tables), src, dest, ToStorage(comment)) else old(db.tables)
      ensures old(Schema(db.tables)) ==> Schema(db.tables)
    {
      ok := db.UpdateComment(src, dest, ToStorage(comment));
    }

    method GetCachedAvatar(id: nat) returns (avatar: ChatAvatar?)
      ensures avatar == null ==> !HasKey(avatarCache, IdOf, id)
      ensures avatar != null ==> avatar in avatarCache && avatar.avatarId == id
    {
      var i := 0;
      while i < |avatarCache|
        invariant 0 <= i <= |avatarCache|
        invariant forall j :: 0 <= j < i ==> IdOf(avatarCache[j]) != id
      {
        if avatarCache[i].avatarId == id { return avatarCache[i]; }
        i := i + 1;
      }
      return null;
    }

    /** Null for an id that is not stored, and also if the select ends early; an exception if it fails. */
    method LoadStoredAvatar(id: nat) returns (avatar: ChatAvatar?, ok: bool, complete: bool)
      ensures db.reliable ==> complete
      ensures complete ==> ok && (id in db.tables.avatars ==> avatar != null)
      ensures avatar != null ==> ok && Fresh(avatar) && fresh(avatar) && avatar.avatarId == id
    {
      avatar := null;
      var row;
      row, ok, complete := db.SelectAvatar(id);
      if row.Some? { avatar := NewAvatar(id, row.value); }
    }

    /** An avatar object that describes its row and has no contacts yet. */
    ghost predicate Fresh(avatar: ChatAvatar)
      reads this, db, avatar
    {
      Newcomer(db.tables, this, avatar) && avatar.friendList == [] && avatar.ignoreList == []
    }

    method NewAvatar(id: nat, row: AvatarRow) returns (avatar: ChatAvatar)
      requires id in db.tables.avatars && db.tables.avatars[id] == row
      ensures Fresh(avatar) && fresh(avatar) && avatar.avatarId == id
    {
      avatar := new ChatAvatar(this, id, row.userId, ToWide(row.name, signedChar), ToWide(row.address, signedChar),
                               row.attributes);
    }

    /** `ok` is false if an exception came out of a select.  `complete` says that no select failed, as none
        does on a reliable server. */
    method GetAvatar(id: nat) returns (avatar: ChatAvatar?, ok: bool, complete: bool)
      modifies this`avatarCache
      ensures db.reliable ==> complete
      ensures Grown(db.tables, old(avatarCache), avatarCache)
      ensures avatar != null ==> ok && avatar in avatarCache && avatar.avatarId == id
      ensures old(HasKey(avatarCache, IdOf, id)) ==> complete && avatar != null && avatarCache == old(avatarCache)
      ensures id !in db.tables.avatars ==> avatarCache == old(avatarCache)
      ensures forall x :: x in NewIds(old(avatarCache), avatarCache) ==>
                Reach(db.tables, Uncached(db.tables, old(avatarCache)), id, x)
      ensures AllArrived(db.tables, avatarCache, this, |old(avatarCache)|, complete)
      ensures forall i :: |old(avatarCache)| <= i < |avatarCache| ==> fresh(avatarCache[i])
      ensures complete ==> ok && Points(db.tables, avatarCache, avatar, id)
      ensures complete ==> forall x :: x in NewIds(old(avatarCache), avatarCache) <==>
                Reach(db.tables, Uncached(db.tables, old(avatarCache)), id, x)
      ensures old(Valid()) ==> Valid()
      decreases Uncached(db.tables, avatarCache), 2
    {
      avatar := GetCachedAvatar(id);
      ok, complete := true, true;
      if avatar == null {
        avatar, ok, complete := GetUncached(id);
      } else {
        CachedHasKey(avatarCache, avatar);
        NothingReached(db.tables, avatarCache, id);
      }
    }

    /** The lookup after a miss in the cache. */
    method GetUncached(id: nat) returns (avatar: ChatAvatar?, ok: bool, complete: bool)
      requires !HasKey(avatarCache, IdOf, id)
      modifies this`avatarCache
      ensures db.reliable ==> complete
      ensures Grown(db.tables, old(avatarCache), avatarCache)
      ensures avatar != null ==> ok && avatar in avatarCache && avatar.avatarId == id
      ensures forall x :: x in NewIds(old(avatarCache), avatarCache) ==>
                Reach(db.tables, Uncached(db.tables, old(avatarCache)), id, x)
      ensures AllArrived(db.tables, avatarCache, this, |old(avatarCache)|, complete)
      ensures forall i :: |old(avatarCache)| <= i < |avatarCache| ==> fresh(avatarCache[i])
      ensures id !in db.tables.avatars ==> avatar == null && avatarCache == old(avatarCache)
      ensures complete ==> ok && Points(db.tables, avatarCache, avatar, id)
      ensures complete ==> forall x :: x in NewIds(old(avatarCache), avatarCache) <==>
                Reach(db.tables, Uncached(db.tables, old(avatarCache)), id, x)
      ensures old(Valid()) ==> Valid()
      decreases Uncached(db.tables, avatarCache), 1
    {
      var loaded;
      loaded, ok, complete := LoadStoredAvatar(id);
      avatar := null;
      if loaded == null {
        if complete { NothingReached(db.tables, avatarCache, id); }
        return;
      }
      var done;
      ok, done := LoadNewAvatar(loaded);
      complete := complete && done;
      if ok { avatar := loaded; }
      StillValid(old(avatarCache), onlineAvatars);
    }

    /** The part both `GetAvatar`s share: cache first, then load the two lists. */
    method LoadNewAvatar(avatar: ChatAvatar) returns (ok: bool, complete: bool)
      requires avatar.avatarId in Uncached(db.tables, avatarCache) && Fresh(avatar)
      modifies this`avatarCache, avatar`friendList, avatar`ignoreList
      ensures db.reliable ==> complete
      ensures avatar in avatarCache && (complete ==> ok)
      ensures Grown(db.tables, old(avatarCache), avatarCache)
      ensures forall x :: x in NewIds(old(avatarCache), avatarCache) ==>
                Reach(db.tables, Uncached(db.tables, old(avatarCache)), avatar.avatarId, x)
      ensures AllArrived(db.tables, avatarCache, this, |old(avatarCache)|, complete)
      ensures forall i :: |old(avatarCache)| <= i < |avatarCache| ==> avatarCache[i] == avatar || fresh(avatarCache[i])
      ensures complete ==> forall x :: x in NewIds(old(avatarCache), avatarCache) <==>
                Reach(db.tables, Uncached(db.tables, old(avatarCache)), avatar.avatarId, x)
      decreases Uncached(db.tables, avatarCache), 0
    {
      ghost var c0, c2, valid := avatarCache, [], Valid();
      avatarCache := avatarCache + [avatar];
      GrownByOne(db.tables, c0, avatar);
      ok, complete, c2 := LoadLists(avatar);
      LoadingFinished(db.tables, c0, c2, avatarCache, this, avatar, complete);
    }

    /** The same lines in the lookup by name.  A row whose id is cached already gets a second object. */
    method LoadNamedAvatar(avatar: ChatAvatar) returns (ok: bool, complete: bool)
      requires Fresh(avatar)
      modifies this`avatarCache, avatar`friendList, avatar`ignoreList
      ensures db.reliable ==> complete
      ensures avatar in avatarCache && old(avatarCache) <= avatarCache && (complete ==> ok)
      ensures avatar.avatarId in Keys(old(avatarCache), IdOf) ==> !DistinctKeys(avatarCache, IdOf)
      ensures avatar.avatarId !in Keys(old(avatarCache), IdOf) && old(Valid()) ==> Valid()
      ensures avatar.avatarId !in Keys(old(avatarCache), IdOf) ==>
                && Grown(db.tables, old(avatarCache), avatarCache)
                && AllArrived(db.tables, avatarCache, this, |old(avatarCache)|, complete)
                && (complete ==> forall x :: x in NewIds(old(avatarCache), avatarCache) <==>
                      Reach(db.tables, Uncached(db.tables, old(avatarCache)), avatar.avatarId, x))
      ensures forall i :: |old(avatarCache)| <= i < |avatarCache| ==> avatarCache[i] == avatar || fresh(avatarCache[i])
    {
      ghost var c0, c2, valid := avatarCache, [], Valid();
      avatarCache := avatarCache + [avatar];
      ok, complete, c2 := LoadLists(avatar);
      assert avatarCache[|c0|] == avatar;
      assert valid ==> PresenceOf(c0, onlineAvatars) && Described(db.tables, c0, this);
      if HasKey(c0, IdOf, avatar.avatarId) {
        SecondObject(c0, avatarCache, avatar);
      } else {
        LoadingFinished(db.tables, c0, c2, avatarCache, this, avatar, complete);
        StillValid(c0, onlineAvatars);
      }
    }

    /** Both lists of an avatar that has just been cached in the last place. */
    method LoadLists(avatar: ChatAvatar) returns (ok: bool, complete: bool, ghost c2: seq<ChatAvatar>)
      requires Fresh(avatar)
      modifies this`avatarCache, avatar`friendList, avatar`ignoreList
      ensures db.reliable ==> complete
      ensures complete ==> ok
      ensures Grown(db.tables, old(avatarCache), c2) && Grown(db.tables, c2, avatarCache) &&
              Grown(db.tables, old(avatarCache), avatarCache)
      ensures Reached(db.tables, Uncached(db.tables, old(avatarCache)),
                FriendIds(FriendRowsOf(db.tables.friends, avatar.avatarId)), NewIds(old(avatarCache), c2))
      ensures Reached(db.tables, Uncached(db.tables, c2),
                IgnoreIds(IgnoreRowsOf(db.tables.ignores, avatar.avatarId)), NewIds(c2, avatarCache))
      ensures AllArrived(db.tables, avatarCache, this, |old(avatarCache)|, complete)
      ensures forall i :: |old(avatarCache)| <= i < |avatarCache| ==> fresh(avatarCache[i])
      ensures Arrived(db.tables, avatarCache, this, avatar, complete)
      decreases Uncached(db.tables, avatarCache), 5
    {
      ghost var c1 := avatarCache;
      ok, complete := LoadFriendList(avatar);
      c2 := avatarCache;
      UncachedShrinks(db.tables, c1, c2);
      if ok {
        var done;
        ok, done := LoadIgnoreList(avatar);
        ListsLoaded(db.tables, c1, c2, avatarCache, this, avatar, complete, done);
        complete := complete && done;
      } else {
        GrownTrans(db.tables, c1, c2, c2);
      }
    }

    method GetCachedAvatarNamed(name: Wide, address: Wide) returns (avatar: ChatAvatar?)
      ensures avatar == null <==> !CachedNamed(avatarCache, name, address)
      ensures avatar != null ==> avatar in avatarCache && avatar.name == name && avatar.address == address
    {
      for i := 0 to |avatarCache|
        invariant forall j :: 0 <= j < i ==> avatarCache[j].name != name || avatarCache[j].address != address
      {
        if avatarCache[i].name == name && avatarCache[i].address == address { return avatarCache[i]; }
      }
      return null;
    }

    method LoadStoredAvatarNamed(name: Wide, address: Wide) returns (avatar: ChatAvatar?, ok: bool, complete: bool)
      ensures db.reliable ==> complete
      ensures complete ==> ok && (RowExists(db.tables, name, address) ==> avatar != null)
      ensures avatar != null ==>
                ok && Fresh(avatar) && fresh(avatar) && RowNamed(db.tables.avatars[avatar.avatarId], name, address)
    {
      avatar := null;
      var found;
      found, ok, complete := db.SelectAvatarNamed(ToStorage(name), ToStorage(address));
      if found.Some? { avatar := NewAvatar(found.value, db.tables.avatars[found.value]); }
    }

    /** The lookup by name.  The cache is searched for the text as asked for, the database for its narrow
        form: if only the stored form of the text is cached, the row found gets a second object. */
    method GetAvatarNamed(name: Wide, address: Wide) returns (avatar: ChatAvatar?, ok: bool, complete: bool)
      requires Valid() && UniqueNames(db.tables)
      modifies this`avatarCache
      ensures db.reliable ==> complete
      ensures old(avatarCache) <= avatarCache && (complete ==> ok) && (avatar != null ==> avatar in avatarCache)
      ensures forall i :: |old(avatarCache)| <= i < |avatarCache| ==> fresh(avatarCache[i])
      ensures old(CachedNamed(avatarCache, name, address)) ==>
                complete && avatarCache == old(avatarCache) && avatar != null && avatar.name == name &&
                    avatar.address == address
      ensures old(!CachedNamed(avatarCache, name, address)) && avatar != null ==>
                && avatar.avatarId in db.tables.avatars && RowNamed(db.tables.avatars[avatar.avatarId], name, address)
                && avatar.name == Stored(name, signedChar) && avatar.address == Stored(address, signedChar)
      ensures complete && avatar == null ==> avatarCache == old(avatarCache) && !RowExists(db.tables, name, address)
      ensures old(!Doubles(name, address)) ==>
                && Valid() && Grown(db.tables, old(avatarCache), avatarCache)
                && AllArrived(db.tables, avatarCache, this, |old(avatarCache)|, complete)
                && (complete && avatar != null ==> forall x :: x in NewIds(old(avatarCache), avatarCache) <==>
                      Reach(db.tables, Uncached(db.tables, old(avatarCache)), avatar.avatarId, x))
      ensures complete && old(Doubles(name, address)) ==> !DistinctKeys(avatarCache, IdOf)
    {
      avatar := GetCachedAvatarNamed(name, address);
      ok, complete := true, true;
      if avatar != null {
        CachedHasKey(avatarCache, avatar);
        NothingReached(db.tables, avatarCache, avatar.avatarId);
        return;
      }
      avatar, ok, complete := GetUncachedNamed(name, address);
    }

    /** The lookup after a miss in the cache. */
    method GetUncachedNamed(name: Wide, address: Wide) returns (avatar: ChatAvatar?, ok: bool, complete: bool)
      requires Valid() && UniqueNames(db.tables) && !CachedNamed(avatarCache, name, address)
      modifies this`avatarCache
      ensures db.reliable ==> complete
      ensures old(avatarCache) <= avatarCache && (complete ==> ok) && (avatar != null ==> avatar in avatarCache)
      ensures forall i :: |old(avatarCache)| <= i < |avatarCache| ==> fresh(avatarCache[i])
      ensures avatar != null ==>
                && avatar.avatarId in db.tables.avatars && RowNamed(db.tables.avatars[avatar.avatarId], name, address)
                && avatar.name == Stored(name, signedChar) && avatar.address == Stored(address, signedChar)
      ensures complete && avatar == null ==> avatarCache == old(avatarCache) && !RowExists(db.tables, name, address)
      ensures old(!Doubles(name, address)) ==>
                && Valid() && Grown(db.tables, old(avatarCache), avatarCache)
                && AllArrived(db.tables, avatarCache, this, |old(avatarCache)|, complete)
                && (complete && avatar != null ==> forall x :: x in NewIds(old(avatarCache), avatarCache) <==>
                      Reach(db.tables, Uncached(db.tables, old(avatarCache)), avatar.avatarId, x))
      ensures complete && old(Doubles(name, address)) ==> !DistinctKeys(avatarCache, IdOf)
    {
      avatar := null;
      var loaded;
      loaded, ok, complete := LoadStoredAvatarNamed(name, address);
      if CachedNamed(avatarCache, Stored(name, signedChar), Stored(address, signedChar)) {
        ghost var i := CarrierOfName(db.tables, avatarCache, this, name, address);
      }
      if loaded != null {
        NamedRowIsCached(db.tables, avatarCache, this, name, address, loaded.avatarId);
        var done;
        ok, done := LoadNamedAvatar(loaded);
        complete := complete && done;
        if ok { avatar := loaded; }
      }
    }

    /** The text asked for is not cached, but what storage makes of it is. */
    ghost predicate Doubles(name: Wide, address: Wide)
      reads this
    {
      && !CachedNamed(avatarCache, name, address)
      && CachedNamed(avatarCache, Stored(name, signedChar), Stored(address, signedChar))
    }

    /** Where the loop over friend rows stands after `k` of them, since the cache was `c0`. */
    ghost predicate FriendsSoFar(c0: seq<ChatAvatar>, avatar: ChatAvatar, rows: seq<FriendRow>, k: nat, complete: bool)
      requires k <= |rows|
      reads this, avatar, db
    {
      && Grown(db.tables, c0, avatarCache)
      && Reached(db.tables, Uncached(db.tables, c0), FriendIds(rows), NewIds(c0, avatarCache))
      && (complete ==> FriendsMatch(db.tables, avatarCache, signedChar, avatar.friendList, rows[..k]))
    }

    method LoadFriendList(avatar: ChatAvatar) returns (ok: bool, complete: bool)
      requires avatar.friendList == []
      modifies this`avatarCache, avatar`friendList
      ensures db.reliable ==> complete
      ensures Grown(db.tables, old(avatarCache), avatarCache)
      ensures Reached(db.tables, Uncached(db.tables, old(avatarCache)),
                FriendIds(FriendRowsOf(db.tables.friends, avatar.avatarId)), NewIds(old(avatarCache), avatarCache))
      ensures AllArrived(db.tables, avatarCache, this, |old(avatarCache)|, complete)
      ensures forall i :: |old(avatarCache)| <= i < |avatarCache| ==> fresh(avatarCache[i])
      ensures complete ==> ok && FriendsMatch(db.tables, avatarCache, signedChar, avatar.friendList,
                                              FriendRowsOf(db.tables.friends, avatar.avatarId))
      decreases Uncached(db.tables, avatarCache), 4
    {
      var rows;
      rows, ok, complete := db.SelectFriends(avatar.avatarId);
      ghost var c0 := avatarCache;
      var k := 0;
      while ok && k < |rows|
        invariant 0 <= k <= |rows| && FriendsSoFar(c0, avatar, rows, k, complete)
        invariant db.reliable ==> complete
        invariant complete ==> ok && rows == FriendRowsOf(db.tables.friends, avatar.avatarId)
        invariant AllArrived(db.tables, avatarCache, this, |c0|, complete)
        invariant forall i :: |c0| <= i < |avatarCache| ==> fresh(avatarCache[i])
      {
        UncachedShrinks(db.tables, c0, avatarCache);
        ok, complete := LoadFriendRow(avatar, rows, k, c0, complete);
        k := k + 1;
      }
      assert rows[..|rows|] == rows;
      DeliveredIds(rows, FriendRowsOf(db.tables.friends, avatar.avatarId), [], []);
      ReachedFromMore(db.tables, Uncached(db.tables, c0), FriendIds(rows),
                      FriendIds(FriendRowsOf(db.tables.friends, avatar.avatarId)), NewIds(c0, avatarCache));
    }

    /** One round of the loop in `LoadFriendList`. */
    method LoadFriendRow(avatar: ChatAvatar, rows: seq<FriendRow>, k: nat, ghost c0: seq<ChatAvatar>, before: bool)
      returns (ok: bool, complete: bool)
      requires k < |rows| && FriendsSoFar(c0, avatar, rows, k, before) &&
               AllArrived(db.tables, avatarCache, this, |c0|, before)
      requires forall i :: |c0| <= i < |avatarCache| ==> avatarCache[i] != avatar
      modifies this`avatarCache, avatar`friendList
      ensures db.reliable && before ==> complete
      ensures FriendsSoFar(c0, avatar, rows, k + 1, complete) && (complete ==> ok && before)
      ensures AllArrived(db.tables, avatarCache, this, |c0|, complete)
      ensures old(avatarCache) <= avatarCache
      ensures forall i :: |old(avatarCache)| <= i < |avatarCache| ==> fresh(avatarCache[i])
      decreases Uncached(db.tables, avatarCache), 3
    {
      ghost var t, c1, list := db.tables, avatarCache, avatar.friendList;
      var frnd;
      frnd, ok, complete := GetAvatar(rows[k].friendId);
      AllArrivedStable(t, c0, c1, avatarCache, this, before, complete);
      FriendRowDone(t, c0, c1, avatarCache, signedChar, rows, k, list, frnd, before && complete);
      complete := before && complete;
      if ok {
        avatar.friendList := avatar.friendList + [FriendContact(frnd, ToWide(rows[k].comment, signedChar))];
      }
    }

    /** Where the loop over ignore rows stands after `k` of them, since the cache was `c0`. */
    ghost predicate IgnoresSoFar(c0: seq<ChatAvatar>, avatar: ChatAvatar, rows: seq<IgnoreRow>, k: nat, complete: bool)
      requires k <= |rows|
      reads this, avatar, db
    {
      && Grown(db.tables, c0, avatarCache)
      && Reached(db.tables, Uncached(db.tables, c0), IgnoreIds(rows), NewIds(c0, avatarCache))
      && (complete ==> IgnoresMatch(db.tables, avatarCache, avatar.ignoreList, rows[..k]))
    }

    method LoadIgnoreList(avatar: ChatAvatar) returns (ok: bool, complete: bool)
      requires avatar.ignoreList == []
      modifies this`avatarCache, avatar`ignoreList
      ensures db.reliable ==> complete
      ensures Grown(db.tables, old(avatarCache), avatarCache)
      ensures Reached(db.tables, Uncached(db.tables, old(avatarCache)),
                IgnoreIds(IgnoreRowsOf(db.tables.ignores, avatar.avatarId)), NewIds(old(avatarCache), avatarCache))
      ensures AllArrived(db.tables, avatarCache, this, |old(avatarCache)|, complete)
      ensures forall i :: |old(avatarCache)| <= i < |avatarCache| ==> fresh(avatarCache[i])
      ensures complete ==> ok && IgnoresMatch(db.tables, avatarCache, avatar.ignoreList,
                                              IgnoreRowsOf(db.tables.ignores, avatar.avatarId))
      decreases Uncached(db.tables, avatarCache), 4
    {
      var rows;
      rows, ok, complete := db.SelectIgnores(avatar.avatarId);
      ghost var c0 := avatarCache;
      var k := 0;
      while ok && k < |rows|
        invariant 0 <= k <= |rows| && IgnoresSoFar(c0, avatar, rows, k, complete)
        invariant db.reliable ==> complete
        invariant complete ==> ok && rows == IgnoreRowsOf(db.tables.ignores, avatar.avatarId)
        invariant AllArrived(db.tables, avatarCache, this, |c0|, complete)
        invariant forall i :: |c0| <= i < |avatarCache| ==> fresh(avatarCache[i])
      {
        UncachedShrinks(db.tables, c0, avatarCache);
        ok, complete := LoadIgnoreRow(avatar, rows, k, c0, complete);
        k := k + 1;
      }
      assert rows[..|rows|] == rows;
      DeliveredIds([], [], rows, IgnoreRowsOf(db.tables.ignores, avatar.avatarId));
      ReachedFromMore(db.tables, Uncached(db.tables, c0), IgnoreIds(rows),
                      IgnoreIds(IgnoreRowsOf(db.tables.ignores, avatar.avatarId)), NewIds(c0, avatarCache));
    }

    /** One round of the loop in `LoadIgnoreList`. */
    method LoadIgnoreRow(avatar: ChatAvatar, rows: seq<IgnoreRow>, k: nat, ghost c0: seq<ChatAvatar>, before: bool)
      returns (ok: bool, complete: bool)
      requires k < |rows| && IgnoresSoFar(c0, avatar, rows, k, before) &&
               AllArrived(db.tables, avatarCache, this, |c0|, before)
      requires forall i :: |c0| <= i < |avatarCache| ==> avatarCache[i] != avatar
      modifies this`avatarCache, avatar`ignoreList
      ensures db.reliable && before ==> complete
      ensures IgnoresSoFar(c0, avatar, rows, k + 1, complete) && (complete ==> ok && before)
      ensures AllArrived(db.tables, avatarCache, this, |c0|, complete)
      ensures old(avatarCache) <= avatarCache
      ensures forall i :: |old(avatarCache)| <= i < |avatarCache| ==> fresh(avatarCache[i])
      decreases Uncached(db.tables, avatarCache), 3
    {
      ghost var t, c1, list := db.tables, avatarCache, avatar.ignoreList;
      var ignored;
      ignored, ok, complete := GetAvatar(rows[k].ignoreId);
      AllArrivedStable(t, c0, c1, avatarCache, this, before, complete);
      IgnoreRowDone(t, c0, c1, avatarCache, rows, k, list, ignored, before && complete);
      complete := before && complete;
      if ok {
        avatar.ignoreList := avatar.ignoreList + [IgnoreContact(ignored)];
      }
    }

    ghost predicate Presence()
      reads this, avatarCache`isOnline
    {
      PresenceOf(avatarCache, onlineAvatars)
    }

    /** Presence is right and every cached avatar describes its stored row. */
    ghost predicate Valid()
      reads this, db, avatarCache
    {
      && Presence()
      && Described(db.tables, avatarCache, this)
    }

    /** Newcomers are offline and describe their rows, so they leave presence and description alone. */
    lemma StillValid(before: seq<ChatAvatar>, online: seq<ChatAvatar>)
      requires Grown(db.tables, before, avatarCache) && AllArrived(db.tables, avatarCache, this, |before|, false)
      requires online == onlineAvatars
      ensures PresenceOf(before, online) && Described(db.tables, before, this) ==> Valid()
    {
      GrownDistinct(db.tables, before, avatarCache);
      if PresenceOf(before, online) && Described(db.tables, before, this) {
        forall i | 0 <= i < |avatarCache| ensures avatarCache[i].isOnline <==> avatarCache[i] in online {
          if i < |before| {
            assert avatarCache[i] == before[i];
          } else {
            assert Arrived(db.tables, avatarCache, this, avatarCache[i], false);
            NewIsNotOld(db.tables, before, avatarCache, i);
          }
        }
        forall i | 0 <= i < |avatarCache|
          ensures FieldsMatch(db.tables, signedChar, avatarCache[i]) && avatarCache[i].avatarService == this
        {
          if i < |before| {
            assert avatarCache[i] == before[i];
          } else {
            assert Arrived(db.tables, avatarCache, this, avatarCache[i], false);
          }
        }
      }
    }

    method IsOnline(avatar: ChatAvatar) returns (online: bool)
      ensures online <==> HasKey(onlineAvatars, IdOf, avatar.avatarId)
    {
      for i := 0 to |onlineAvatars|
        invariant forall j :: 0 <= j < i ==> IdOf(onlineAvatars[j]) != avatar.avatarId
      {
        if onlineAvatars[i].avatarId == avatar.avatarId {
          assert IdOf(onlineAvatars[i]) == avatar.avatarId;
          return true;
        }
      }
      return false;
    }

    method LoginAvatar(avatar: ChatAvatar)
      requires Presence() && avatar in avatarCache
      modifies this`onlineAvatars, avatar`isOnline
      ensures Presence() && (old(Valid()) ==> Valid())
      ensures avatar.isOnline
      ensures onlineAvatars == if old(avatar.isOnline) then old(onlineAvatars) else old(onlineAvatars) + [avatar]
      ensures Keys(onlineAvatars, IdOf) == old(Keys(onlineAvatars, IdOf)) + {avatar.avatarId}
    {
      SameIdSameAvatar(avatarCache, onlineAvatars, avatar);
      avatar.isOnline := true;
      var online := IsOnline(avatar);
      if !online {
        AppendKeys(onlineAvatars, IdOf, avatar);
        onlineAvatars := onlineAvatars + [avatar];
      }
    }

    method LogoutAvatar(avatar: ChatAvatar)
      requires Presence() && avatar in avatarCache
      modifies this`onlineAvatars, avatar`isOnline
      ensures Presence() && (old(Valid()) ==> Valid())
      ensures !avatar.isOnline
      ensures onlineAvatars == Kept(old(onlineAvatars), IdOf, avatar.avatarId)
    {
      SameIdSameAvatar(avatarCache, onlineAvatars, avatar);
      RemovalFacts(onlineAvatars, IdOf, avatar.avatarId);
      if !avatar.isOnline { return; }
      avatar.isOnline := false;
      KeptMembers(onlineAvatars, IdOf, avatar.avatarId);
      CacheIdsUnique(avatarCache, avatar);
      onlineAvatars := EraseOne(onlineAvatars, IdOf, avatar.avatarId);
    }

    /** An avatar as it is constructed from what a request says. */
    ghost predicate Created(avatar: ChatAvatar, name: Wide, address: Wide, userId: nat, attributes: nat)
      reads avatar
    {
      && avatar.avatarService == this && avatar.name == name && avatar.address == address && avatar.userId == userId
      && avatar.attributes == attributes && !avatar.isOnline && avatar.friendList == [] && avatar.ignoreList == []
    }

    /** What is said of contact lists does not depend on anything else about their owners. */
    twostate lemma SameLists(cache: seq<ChatAvatar>)
      requires forall i :: 0 <= i < |cache| ==> cache[i].avatarService == this
      requires forall i :: 0 <= i < |cache| ==> cache[i].friendList == old(cache[i].friendList)
      requires forall i :: 0 <= i < |cache| ==> cache[i].ignoreList == old(cache[i].ignoreList)
      ensures AllClean(cache) <==> old(AllClean(cache))
      ensures RefsClosed(cache) <==> old(RefsClosed(cache))
      ensures ClosedInStepWith(old(db.tables), cache, signedChar) <==> old(ClosedInStep(cache))
      ensures db.tables == old(db.tables) ==>
                (AllInStep(cache) <==> old(AllInStep(cache))) && (ClosedInStep(cache) <==> old(ClosedInStep(cache)))
      ensures forall id :: NamedIn(cache, id) <==> old(NamedIn(cache, id))
    {
    }

    /** The schema has room for the avatar. */
    ghost predicate CanCreate(name: Wide, address: Wide, userId: nat, attributes: nat)
      reads db
    {
      CanInsertAvatar(db.tables, db.nextId, NewRow(name, address, userId, attributes))
    }

    /** A refused insert throws before anything is cached.  An accepted one leaves the cache in step
        with the tables exactly if name and address survive storage. */
    method CreateAvatar(name: Wide, address: Wide, userId: nat, attributes: nat) returns (avatar: ChatAvatar?)
      requires Valid()
      modifies this`avatarCache, db
      ensures db.willing && old(CanCreate(name, address, userId, attributes)) ==> avatar != null
      ensures avatar == null ==> Valid() && avatarCache == old(avatarCache) && db.tables == old(db.tables)
      ensures avatar != null ==> (Valid() <==> Storable(name, signedChar) && Storable(address, signedChar))
      ensures avatar != null ==>
        && fresh(avatar) && Created(avatar, name, address, userId, attributes)
        && avatarCache == old(avatarCache) + [avatar] && DistinctKeys(avatarCache, IdOf)
        && avatar.avatarId !in old(db.tables.avatars)
        && db.tables == PlusAvatar(old(db.tables), avatar.avatarId, NewRow(name, address, userId, attributes))
      ensures old(AllClean(avatarCache)) ==> AllClean(avatarCache)
      ensures old(RefsClosed(avatarCache)) ==> RefsClosed(avatarCache)
      ensures old(Schema(db.tables)) ==> Schema(db.tables)
    {
      ghost var t := db.tables;
      avatar := InsertAvatar(name, address, userId, attributes);
      if avatar == null { return; }
      CacheCreated(avatar, t, NewRow(name, address, userId, attributes));
    }

    method InsertAvatar(name: Wide, address: Wide, userId: nat, attributes: nat) returns (avatar: ChatAvatar?)
      modifies db
      ensures db.willing && old(CanCreate(name, address, userId, attributes)) ==> avatar != null
      ensures avatar == null ==> db.tables == old(db.tables)
      ensures avatar != null ==>
        && fresh(avatar) && Created(avatar, name, address, userId, attributes)
        && avatar.avatarId !in old(db.tables.avatars)
        && db.tables == PlusAvatar(old(db.tables), avatar.avatarId, NewRow(name, address, userId, attributes))
      ensures AllClean(avatarCache) <==> old(AllClean(avatarCache))
      ensures RefsClosed(avatarCache) <==> old(RefsClosed(avatarCache))
      ensures old(Schema(db.tables)) ==> Schema(db.tables)
    {
      avatar := null;
      var id, ok := db.InsertAvatar(NewRow(name, address, userId, attributes));
      if ok {
        avatar := new ChatAvatar(this, id, userId, name, address, attributes);
      }
    }

    /** The created avatar, whose row has joined the tables `t`, joins the cache. */
    method CacheCreated(avatar: ChatAvatar, ghost t: Tables, ghost row: AvatarRow)
      requires PresenceOf(avatarCache, onlineAvatars) && Described(t, avatarCache, this) &&
               avatar.avatarId !in t.avatars
      requires avatar.avatarService == this && !avatar.isOnline && avatar !in avatarCache && row.userId == avatar.userId
      requires row.name == ToStorage(avatar.name) && row.address == ToStorage(avatar.address)
      requires db.tables == t.(avatars := t.avatars[avatar.avatarId := row])
      requires avatar.friendList == [] && avatar.ignoreList == []
      modifies this`avatarCache
      ensures avatarCache == old(avatarCache) + [avatar] && DistinctKeys(avatarCache, IdOf)
      ensures Valid() <==> Storable(avatar.name, signedChar) && Storable(avatar.address, signedChar)
      ensures old(AllClean(avatarCache)) ==> AllClean(avatarCache)
      ensures old(RefsClosed(avatarCache)) ==> RefsClosed(avatarCache)
    {
      EmptyListsFit(avatarCache, avatar);
      CreatedIsCached(t, avatarCache, onlineAvatars, this, avatar, row);
      ghost var after := avatarCache + [avatar];
      ghost var present := PresenceOf(after, onlineAvatars);
      avatarCache := avatarCache + [avatar];
      assert PresenceOf(after, onlineAvatars) == present;
    }

    method RemoveCachedAvatar(avatarId: nat)
      requires DistinctKeys(avatarCache, IdOf)
      modifies this`avatarCache
      ensures avatarCache == Kept(old(avatarCache), IdOf, avatarId)
    {
      RemovalFacts(avatarCache, IdOf, avatarId);
      if |Kept(avatarCache, IdOf, avatarId)| < |avatarCache| {
        avatarCache := EraseOne(avatarCache, IdOf, avatarId);
      }
    }

    /** Destroying an avatar leaves no dangling contact exactly when nobody else names it. */
    method DestroyAvatar(avatar: ChatAvatar) returns (ok: bool)
      requires Valid() && avatar in avatarCache
      modifies this`avatarCache, this`onlineAvatars, avatar`isOnline, db`tables
      ensures Valid()
      ensures !ok ==> avatarCache == old(avatarCache) && onlineAvatars == old(onlineAvatars)
                      && avatar.isOnline == old(avatar.isOnline) && db.tables == old(db.tables)
      ensures ok ==> avatarCache == Kept(old(avatarCache), IdOf, avatar.avatarId)
                     && onlineAvatars == Kept(old(onlineAvatars), IdOf, avatar.avatarId)
                     && !avatar.isOnline && db.tables == WithoutAvatar(old(db.tables), avatar.avatarId)
      ensures ok ==> (NamedIn(avatarCache, avatar.avatarId) <==> old(NamedByOthers(avatarCache, avatar)))
      ensures old(RefsClosed(avatarCache)) ==>
                (RefsClosed(avatarCache) <==> !ok || !old(NamedByOthers(avatarCache, avatar)))
      ensures old(AllInStep(avatarCache)) ==>
                (AllInStep(avatarCache) <==> !ok || !old(NamedByOthers(avatarCache, avatar)))
      ensures old(ClosedInStep(avatarCache)) ==> ClosedInStep(avatarCache)
      ensures old(AllClean(avatarCache)) ==> AllClean(avatarCache)
      ensures old(Schema(db.tables)) ==> Schema(db.tables)
      ensures db.willing ==> ok
    {
      ghost var t := db.tables;
      ok := DeleteAvatar(avatar);
      if ok { EvictDeleted(avatar, t); }
    }

    /** Contact lists do not notice that a row goes. */
    method DeleteAvatar(avatar: ChatAvatar) returns (ok: bool)
      requires AllOf(avatarCache, this)
      modifies db`tables
      ensures db.willing ==> ok
      ensures db.tables == if ok then WithoutAvatar(old(db.tables), avatar.avatarId) else old(db.tables)
      ensures NamedByOthers(avatarCache, avatar) <==> old(NamedByOthers(avatarCache, avatar))
      ensures RefsClosed(avatarCache) <==> old(RefsClosed(avatarCache))
      ensures AllClean(avatarCache) <==> old(AllClean(avatarCache))
      ensures AllInStepWith(old(db.tables), avatarCache, signedChar) <==> old(AllInStep(avatarCache))
      ensures ClosedInStepWith(old(db.tables), avatarCache, signedChar) <==> old(ClosedInStep(avatarCache))
      ensures !ok ==> (AllInStep(avatarCache) <==> old(AllInStep(avatarCache)))
      ensures !ok ==> (ClosedInStep(avatarCache) <==> old(ClosedInStep(avatarCache)))
      ensures old(Schema(db.tables)) ==> Schema(db.tables)
    {
      ghost var t := db.tables;
      SameAllInStep(avatarCache, this);
      ok := db.DeleteAvatar(avatar.avatarId);
      assert AllInStepWith(t, avatarCache, signedChar) <==> old(AllInStepWith(t, avatarCache, signedChar));
      assert ClosedInStepWith(t, avatarCache, signedChar) <==> old(ClosedInStepWith(t, avatarCache, signedChar));
      SameAllInStep(avatarCache, this);
    }

    /** The row has gone from the tables `t`; the cache follows. */
    method EvictDeleted(avatar: ChatAvatar, ghost t: Tables)
      requires Presence() && Described(t, avatarCache, this) && avatar in avatarCache
      requires db.tables == WithoutAvatar(t, avatar.avatarId)
      modifies this`avatarCache, this`onlineAvatars, avatar`isOnline
      ensures Valid() && !avatar.isOnline
      ensures avatarCache == Kept(old(avatarCache), IdOf, avatar.avatarId)
      ensures onlineAvatars == Kept(old(onlineAvatars), IdOf, avatar.avatarId)
      ensures old(RefsClosed(avatarCache)) ==> (RefsClosed(avatarCache) <==> !old(NamedByOthers(avatarCache, avatar)))
      ensures old(AllInStepWith(t, avatarCache, signedChar)) ==>
                (AllInStep(avatarCache) <==> !old(NamedByOthers(avatarCache, avatar)))
      ensures old(ClosedInStepWith(t, avatarCache, signedChar)) ==> ClosedInStep(avatarCache)
      ensures old(AllClean(avatarCache)) ==> AllClean(avatarCache)
      ensures NamedIn(avatarCache, avatar.avatarId) <==> old(NamedByOthers(avatarCache, avatar))
    {
      WithoutDeleted(t, avatarCache, this, avatar);
      EvictKeepingLists(avatar, Kept(avatarCache, IdOf, avatar.avatarId));
    }

    /** Contact lists do not notice that an avatar leaves the cache. */
    method EvictKeepingLists(avatar: ChatAvatar, ghost rest: seq<ChatAvatar>)
      requires Presence() && AllOf(rest, this) && avatar in avatarCache
      requires rest == Kept(avatarCache, IdOf, avatar.avatarId)
      modifies this`avatarCache, this`onlineAvatars, avatar`isOnline
      ensures PresenceOf(rest, onlineAvatars) && !avatar.isOnline && avatarCache == rest
      ensures onlineAvatars == Kept(old(onlineAvatars), IdOf, avatar.avatarId)
      ensures AllInStep(rest) <==> old(AllInStep(rest))
      ensures ClosedInStep(rest) <==> old(ClosedInStep(rest))
      ensures AllClean(rest) <==> old(AllClean(rest))
      ensures RefsClosed(rest) <==> old(RefsClosed(rest))
      ensures NamedIn(rest, avatar.avatarId) <==> old(NamedIn(rest, avatar.avatarId))
    {
      Evict(avatar);
      SameLists(rest);
    }

    /** The in-memory half of `DestroyAvatar`. */
    method Evict(avatar: ChatAvatar)
      requires Presence() && avatar in avatarCache
      modifies this`avatarCache, this`onlineAvatars, avatar`isOnline
      ensures Presence() && !avatar.isOnline
      ensures avatarCache == Kept(old(avatarCache), IdOf, avatar.avatarId)
      ensures onlineAvatars == Kept(old(onlineAvatars), IdOf, avatar.avatarId)
    {
      ghost var cache := avatarCache;
      LogoutAvatar(avatar);
      RemoveCachedAvatar(avatar.avatarId);
      assert forall i :: 0 <= i < |cache| ==> (cache[i].isOnline <==> cache[i] in onlineAvatars);
      PresenceWithout(cache, onlineAvatars, avatar);
    }

    /** Drops the avatar from every cached list; stops where a persistence call throws.  Even then lists
        have only shrunk, and rows of avatars that are not cached are as before. */
    method RemoveAsFriendOrIgnoreFromAll(avatar: ChatAvatar) returns (ok: bool)
      requires DistinctKeys(avatarCache, IdOf) && AllClean(avatarCache) && AllOf(avatarCache, this)
      modifies db`tables, avatarCache`friendList, avatarCache`ignoreList
      ensures db.willing ==> ok
      ensures AllClean(avatarCache) && AllShrunk(avatarCache, old(AllLists(avatarCache)))
      ensures ok ==> Forgotten(avatarCache, old(AllLists(avatarCache)), avatar.avatarId, |avatarCache|)
      ensures ok ==> !NamedIn(avatarCache, avatar.avatarId) && !NamedByOthers(avatarCache, avatar)
      ensures ok && old(AllInStep(avatarCache)) ==> AllInStep(avatarCache)
      ensures OnlyRowsOfKeys(old(db.tables), db.tables, Keys(avatarCache, IdOf))
      ensures OnlyNaming(old(db.tables), db.tables, avatar.avatarId)
      ensures old(Schema(db.tables)) ==> Schema(db.tables)
      ensures old(Valid()) ==> Valid()
      ensures old(RefsClosed(avatarCache)) ==> RefsClosed(avatarCache)
    {
      ghost var lists, refsClosed := AllLists(avatarCache), RefsClosed(avatarCache);
      if refsClosed { ClosedLists(avatarCache); }
      ok := ForgetEverywhere(avatar);
      assert PresenceOf(avatarCache, onlineAvatars) <==> old(PresenceOf(avatarCache, onlineAvatars));
      ShrunkStaysClosed(avatarCache, lists);
      if ok { NobodyNames(avatarCache, lists, avatar); }
    }

    /** The loop itself. */
    method ForgetEverywhere(avatar: ChatAvatar) returns (ok: bool)
      requires DistinctKeys(avatarCache, IdOf) && AllClean(avatarCache) && AllOf(avatarCache, this)
      modifies db`tables, avatarCache`friendList, avatarCache`ignoreList
      ensures db.willing ==> ok
      ensures AllClean(avatarCache) && AllShrunk(avatarCache, old(AllLists(avatarCache)))
      ensures ok ==> Forgotten(avatarCache, old(AllLists(avatarCache)), avatar.avatarId, |avatarCache|)
      ensures ok && old(AllInStep(avatarCache)) ==> AllInStep(avatarCache)
      ensures OnlyRowsOfKeys(old(db.tables), db.tables, Keys(avatarCache, IdOf))
      ensures OnlyNaming(old(db.tables), db.tables, avatar.avatarId)
      ensures old(Schema(db.tables)) ==> Schema(db.tables)
    {
      ghost var lists := AllLists(avatarCache);
      var i := 0;
      ok := true;
      while ok && i < |avatarCache|
        invariant 0 <= i <= |avatarCache| && AllClean(avatarCache) && AllShrunk(avatarCache, lists)
        invariant db.willing ==> ok
        invariant ok ==> Forgotten(avatarCache, lists, avatar.avatarId, i)
        invariant ok && old(AllInStep(avatarCache)) ==> AllInStep(avatarCache)
        invariant OnlyRowsOfKeys(old(db.tables), db.tables, Keys(avatarCache, IdOf))
        invariant OnlyNaming(old(db.tables), db.tables, avatar.avatarId)
        invariant old(Schema(db.tables)) ==> Schema(db.tables)
      {
        CachedHasKey(avatarCache, avatarCache[i]);
        ok := ForgetAt(avatarCache[i], i, avatar, lists);
        i := i + 1;
      }
    }

    /** One round of the loop: the other avatars' lists and rows do not move. */
    method ForgetAt(cached: ChatAvatar, ghost i: nat, avatar: ChatAvatar, ghost lists: seq<Lists>) returns (ok: bool)
      requires i < |avatarCache| && avatarCache[i] == cached
      requires DistinctKeys(avatarCache, IdOf) && AllClean(avatarCache) && AllOf(avatarCache, this)
      requires Forgotten(avatarCache, lists, avatar.avatarId, i)
      modifies db`tables, cached`friendList, cached`ignoreList
      ensures db.willing ==> ok
      ensures AllClean(avatarCache) && AllShrunk(avatarCache, lists)
      ensures ok ==> Forgotten(avatarCache, lists, avatar.avatarId, i + 1)
      ensures ok && old(AllInStep(avatarCache)) ==> AllInStep(avatarCache)
      ensures OnlyRowsOf(old(db.tables), db.tables, cached.avatarId)
      ensures OnlyNaming(old(db.tables), db.tables, avatar.avatarId)
      ensures old(Schema(db.tables)) ==> Schema(db.tables)
    {
      DistinctElements(avatarCache, i);
      OthersAreShrunk(avatarCache, lists, avatar.avatarId, i);
      assert forall j :: 0 <= j < |avatarCache| && j != i ==> IdOf(avatarCache[j]) != IdOf(avatarCache[i]);
      ghost var t := db.tables;
      ok := ForgetIn(cached, avatar);
      PairRows(t, db.tables, cached.avatarId, avatar.avatarId);
    }

    /** The body of that round. */
    method ForgetIn(cached: ChatAvatar, avatar: ChatAvatar) returns (ok: bool)
      requires cached.Clean() && cached.avatarService == this
      modifies db`tables, cached`friendList, cached`ignoreList
      ensures db.willing ==> ok
      ensures cached.Clean() && Shrunk(cached, old(ListsOf(cached)))
      ensures ok ==> ListsOf(cached) == old(ListsOf(cached)).Without(avatar.avatarId)
      ensures ok && old(cached.InStep()) ==> cached.InStep()
      ensures OnlyPair(old(db.tables), db.tables, cached.avatarId, avatar.avatarId)
      ensures old(Schema(db.tables)) ==> Schema(db.tables)
    {
      ok := true;
      KeptMembers(cached.friendList, FriendKey, avatar.avatarId);
      KeptMembers(cached.ignoreList, IgnoreKey, avatar.avatarId);
      var isFriend := cached.IsFriend(avatar);
      if isFriend {
        ok := cached.RemoveFriend(avatar);
        if !ok { return; }
      }
      var isIgnored := cached.IsIgnored(avatar);
      if isIgnored {
        ok := cached.RemoveIgnore(avatar);
      }
    }

    /** Forgetting an avatar before destroying it leaves nothing dangling and all lists in step. */
    method ForgetAndDestroy(avatar: ChatAvatar) returns (ok: bool)
      requires Valid() && avatar in avatarCache && AllClean(avatarCache)
      modifies this`avatarCache, this`onlineAvatars, avatar`isOnline, db`tables, avatarCache`friendList,
                 avatarCache`ignoreList
      ensures db.willing ==> ok
      ensures Valid() && AllClean(avatarCache)
      ensures old(RefsClosed(avatarCache)) ==> RefsClosed(avatarCache)
      ensures avatarCache == if ok then Kept(old(avatarCache), IdOf, avatar.avatarId) else old(avatarCache)
      ensures ok ==> avatar.avatarId !in db.tables.avatars
      ensures old(Schema(db.tables)) ==> Schema(db.tables)
      ensures ok && old(AllInStep(avatarCache)) ==> AllInStep(avatarCache)
    {
      ok := RemoveAsFriendOrIgnoreFromAll(avatar);
      if ok { ok := DestroyAvatar(avatar); }
    }
  }

  /** The two contact lists of an avatar at one moment. */
  datatype Lists = Lists(friends: seq<FriendContact>, ignores: seq<IgnoreContact>) {
    ghost predicate Clean() {
      && (forall c :: c in friends ==> c.frnd != null)
      && (forall c :: c in ignores ==> c.ignored != null)
      && DistinctKeys(friends, FriendKey)
      && DistinctKeys(ignores, IgnoreKey)
      && forall id :: HasKey(friends, FriendKey, id) ==> !HasKey(ignores, IgnoreKey, id)
    }

    ghost function Without(id: nat): Lists {
      Lists(Kept(friends, FriendKey, id), Kept(ignores, IgnoreKey, id))
    }
  }

  ghost function ListsOf(a: ChatAvatar): Lists
    reads a`friendList, a`ignoreList
  {
    Lists(a.friendList, a.ignoreList)
  }

  ghost function AllLists(cache: seq<ChatAvatar>): (lists: seq<Lists>)
    reads cache`friendList, cache`ignoreList
    ensures |lists| == |cache| && forall i :: 0 <= i < |cache| ==> lists[i] == ListsOf(cache[i])
  {
    if cache == [] then [] else [ListsOf(cache[0])] + AllLists(cache[1..])
  }

  /** The lists hold nothing that they did not hold. */
  ghost predicate Shrunk(a: ChatAvatar, before: Lists)
    reads a`friendList, a`ignoreList
  {
    (forall c :: c in a.friendList ==> c in before.friends) && (forall c :: c in a.ignoreList ==> c in before.ignores)
  }

  ghost predicate AllShrunk(cache: seq<ChatAvatar>, before: seq<Lists>)
    reads cache`friendList, cache`ignoreList
  {
    |before| == |cache| && forall i :: 0 <= i < |cache| ==> Shrunk(cache[i], before[i])
  }

  /** The first `k` avatars have lost `id` from their lists; the others are as they were. */
  ghost predicate Forgotten(cache: seq<ChatAvatar>, before: seq<Lists>, id: nat, k: nat)
    reads cache`friendList, cache`ignoreList
  {
    && |before| == |cache|
    && forall i :: 0 <= i < |cache| ==> ListsOf(cache[i]) == if i < k then before[i].Without(id) else before[i]
  }

  lemma OthersAreShrunk(cache: seq<ChatAvatar>, before: seq<Lists>, id: nat, k: nat)
    requires Forgotten(cache, before, id, k)
    ensures AllShrunk(cache, before)
  {
    forall i | 0 <= i < |cache| ensures Shrunk(cache[i], before[i]) {
      KeptMembers(before[i].friends, FriendKey, id);
      KeptMembers(before[i].ignores, IgnoreKey, id);
    }
  }

  lemma NobodyNames(cache: seq<ChatAvatar>, before: seq<Lists>, avatar: ChatAvatar)
    requires Forgotten(cache, before, avatar.avatarId, |cache|)
    ensures !NamedIn(cache, avatar.avatarId) && !NamedByOthers(cache, avatar) && AllShrunk(cache, before)
  {
    OthersAreShrunk(cache, before, avatar.avatarId, |cache|);
    forall i | 0 <= i < |cache| ensures !Names(cache[i], avatar) {
      assert ListsOf(cache[i]) == before[i].Without(avatar.avatarId);
      KeptKeys(before[i].friends, FriendKey, avatar.avatarId);
      KeptKeys(before[i].ignores, IgnoreKey, avatar.avatarId);
    }
  }

  ghost predicate ListsIn(lists: seq<Lists>, cache: seq<ChatAvatar>) {
    forall i :: 0 <= i < |lists| ==>
      && (forall c :: c in lists[i].friends ==> c.frnd in cache)
      && (forall c :: c in lists[i].ignores ==> c.ignored in cache)
  }

  lemma ClosedLists(cache: seq<ChatAvatar>)
    requires RefsClosed(cache)
    ensures ListsIn(AllLists(cache), cache)
  {
    forall i | 0 <= i < |cache|
      ensures forall c :: c in AllLists(cache)[i].friends ==> c.frnd in cache
      ensures forall c :: c in AllLists(cache)[i].ignores ==> c.ignored in cache
    {
      assert ContactsIn(cache[i], cache);
    }
  }

  /** Shrinking keeps every contact inside the cache. */
  lemma ShrunkStaysClosed(cache: seq<ChatAvatar>, before: seq<Lists>)
    requires AllShrunk(cache, before)
    ensures ListsIn(before, cache) ==> RefsClosed(cache)
  {
    if ListsIn(before, cache) {
      forall i | 0 <= i < |cache| ensures ContactsIn(cache[i], cache) {
        assert Shrunk(cache[i], before[i]);
      }
    }
  }

  ghost predicate AllClean(cache: seq<ChatAvatar>)
    reads cache`friendList, cache`ignoreList
  {
    forall i :: 0 <= i < |cache| ==> cache[i].Clean()
  }

  ghost predicate AllOf(cache: seq<ChatAvatar>, service: ChatAvatarService) {
    forall i :: 0 <= i < |cache| ==> cache[i].avatarService == service
  }

  ghost predicate NamesId(a: ChatAvatar, id: nat)
    reads a`friendList, a`ignoreList
  {
    HasKey(a.friendList, FriendKey, id) || HasKey(a.ignoreList, IgnoreKey, id)
  }

  /** Some cached avatar has the id in one of its lists. */
  ghost predicate NamedIn(cache: seq<ChatAvatar>, id: nat)
    reads cache`friendList, cache`ignoreList
  {
    exists i :: 0 <= i < |cache| && NamesId(cache[i], id)
  }

  ghost predicate Names(a: ChatAvatar, avatar: ChatAvatar)
    reads a`friendList, a`ignoreList
  {
    NamesId(a, avatar.avatarId)
  }

  /** Some other cached avatar still has `avatar` in one of its lists. */
  ghost predicate NamedByOthers(cache: seq<ChatAvatar>, avatar: ChatAvatar)
    reads cache`friendList, cache`ignoreList
  {
    exists i :: 0 <= i < |cache| && cache[i] != avatar && Names(cache[i], avatar)
  }

  predicate ContactsIn(a: ChatAvatar, cache: seq<ChatAvatar>)
    reads a`friendList, a`ignoreList
  {
    && (forall c :: c in a.friendList ==> c.frnd in cache)
    && (forall c :: c in a.ignoreList ==> c.ignored in cache)
  }

  ghost predicate AllInStep(cache: seq<ChatAvatar>)
    reads cache`friendList, cache`ignoreList, set i | 0 <= i < |cache| :: cache[i].avatarService.db
  {
    forall i :: 0 <= i < |cache| ==> cache[i].InStep()
  }

  /** Whoever points to cached avatars only has lists that agree with the stored tables. */
  ghost predicate ClosedInStep(cache: seq<ChatAvatar>)
    reads cache`friendList, cache`ignoreList, set i | 0 <= i < |cache| :: cache[i].avatarService.db
  {
    forall i :: 0 <= i < |cache| ==> ContactsIn(cache[i], cache) ==> cache[i].InStep()
  }

  /** Every contact of every cached avatar is itself a cached avatar. */
  predicate RefsClosed(cache: seq<ChatAvatar>)
    reads cache`friendList, cache`ignoreList
  {
    forall i :: 0 <= i < |cache| ==> ContactsIn(cache[i], cache)
  }

  /** Taking one avatar out of a closed cache leaves it closed exactly when nobody else named it. */
  lemma ClosedWithout(cache: seq<ChatAvatar>, avatar: ChatAvatar)
    requires DistinctKeys(cache, IdOf) && avatar in cache && RefsClosed(cache)
    ensures RefsClosed(Kept(cache, IdOf, avatar.avatarId)) <==> !NamedByOthers(cache, avatar)
  {
    var rest := Kept(cache, IdOf, avatar.avatarId);
    KeptMembers(cache, IdOf, avatar.avatarId);
    CacheIdsUnique(cache, avatar);
    forall i | 0 <= i < |cache| && cache[i] != avatar
      ensures cache[i] in rest && (ContactsIn(cache[i], rest) <==> !Names(cache[i], avatar))
    {
      ContactsInRest(cache[i], cache, rest, avatar);
    }
    if RefsClosed(rest) {
      forall i | 0 <= i < |cache| && cache[i] != avatar ensures !Names(cache[i], avatar) {
        var j :| 0 <= j < |rest| && rest[j] == cache[i];
      }
    } else {
      var j :| 0 <= j < |rest| && !ContactsIn(rest[j], rest);
      var i :| 0 <= i < |cache| && cache[i] == rest[j];
    }
  }

  /** `InStep` for a given state of the tables. */
  ghost predicate InStepWith(t: Tables, a: ChatAvatar, signedChar: bool)
    reads a`friendList, a`ignoreList
  {
    && FriendsInStep(a.friendList, FriendRowsOf(t.friends, a.avatarId), signedChar)
    && IgnoresInStep(a.ignoreList, IgnoreRowsOf(t.ignores, a.avatarId))
  }

  ghost predicate AllInStepWith(t: Tables, cache: seq<ChatAvatar>, signedChar: bool)
    reads cache`friendList, cache`ignoreList
  {
    forall i :: 0 <= i < |cache| ==> InStepWith(t, cache[i], signedChar)
  }

  ghost predicate ClosedInStepWith(t: Tables, cache: seq<ChatAvatar>, signedChar: bool)
    reads cache`friendList, cache`ignoreList
  {
    forall i :: 0 <= i < |cache| ==> ContactsIn(cache[i], cache) ==> InStepWith(t, cache[i], signedChar)
  }

  lemma SameAllInStep(cache: seq<ChatAvatar>, service: ChatAvatarService)
    requires AllOf(cache, service)
    ensures AllInStep(cache) <==> AllInStepWith(service.db.tables, cache, service.signedChar)
    ensures ClosedInStep(cache) <==> ClosedInStepWith(service.db.tables, cache, service.signedChar)
  {
  }

  lemma KeptStaysClean(cache: seq<ChatAvatar>, id: nat)
    requires AllClean(cache)
    ensures AllClean(Kept(cache, IdOf, id))
  {
    KeptMembers(cache, IdOf, id);
  }

  /** The cascade takes rows from exactly those who name the destroyed avatar, so they are out of step. */
  lemma InStepWithout(t: Tables, cache: seq<ChatAvatar>, service: ChatAvatarService, avatar: ChatAvatar)
    requires DistinctKeys(cache, IdOf) && avatar in cache && AllOf(cache, service)
    requires AllInStepWith(t, cache, service.signedChar)
    requires service.db.tables == WithoutAvatar(t, avatar.avatarId)
    ensures AllInStep(Kept(cache, IdOf, avatar.avatarId)) <==> !NamedByOthers(cache, avatar)
  {
    var rest := Kept(cache, IdOf, avatar.avatarId);
    KeptMembers(cache, IdOf, avatar.avatarId);
    CacheIdsUnique(cache, avatar);
    forall i | 0 <= i < |cache| && cache[i] != avatar
      ensures cache[i] in rest && (cache[i].InStep() <==> !Names(cache[i], avatar))
    {
      InStepUnlessNaming(t, cache[i], avatar, service.signedChar);
    }
    if AllInStep(rest) {
      forall i | 0 <= i < |cache| && cache[i] != avatar ensures !Names(cache[i], avatar) {
        var j :| 0 <= j < |rest| && rest[j] == cache[i];
        assert rest[j].InStep();
      }
    } else {
      var j :| 0 <= j < |rest| && !rest[j].InStep();
      var i :| 0 <= i < |cache| && cache[i] == rest[j];
    }
  }

  /** Whoever still points to cached avatars only did so before and does not name the destroyed one. */
  lemma ClosedInStepWithout(t: Tables, cache: seq<ChatAvatar>, service: ChatAvatarService, avatar: ChatAvatar)
    requires DistinctKeys(cache, IdOf) && avatar in cache && AllOf(cache, service)
    requires ClosedInStepWith(t, cache, service.signedChar)
    requires service.db.tables == WithoutAvatar(t, avatar.avatarId)
    ensures ClosedInStep(Kept(cache, IdOf, avatar.avatarId))
  {
    var rest := Kept(cache, IdOf, avatar.avatarId);
    KeptMembers(cache, IdOf, avatar.avatarId);
    forall j | 0 <= j < |rest| && ContactsIn(rest[j], rest) ensures rest[j].InStep() {
      var i :| 0 <= i < |cache| && cache[i] == rest[j];
      assert ContactsIn(cache[i], cache);
      ContactsInRest(cache[i], cache, rest, avatar);
      InStepUnlessNaming(t, cache[i], avatar, service.signedChar);
    }
  }

  /** What is left of a cache without the destroyed avatar. */
  lemma WithoutDeleted(t: Tables, cache: seq<ChatAvatar>, service: ChatAvatarService, avatar: ChatAvatar)
    requires DistinctKeys(cache, IdOf) && avatar in cache && Described(t, cache, service)
    requires service.db.tables == WithoutAvatar(t, avatar.avatarId)
    ensures var rest := Kept(cache, IdOf, avatar.avatarId);
            && Described(service.db.tables, rest, service)
            && (NamedIn(rest, avatar.avatarId) <==> NamedByOthers(cache, avatar))
            && (RefsClosed(cache) ==> (RefsClosed(rest) <==> !NamedByOthers(cache, avatar)))
            && (AllInStepWith(t, cache, service.signedChar) ==> (AllInStep(rest) <==> !NamedByOthers(cache, avatar)))
            && (ClosedInStepWith(t, cache, service.signedChar) ==> ClosedInStep(rest))
            && (AllClean(cache) ==> AllClean(rest))
  {
    NamedInRest(cache, avatar);
    if AllInStepWith(t, cache, service.signedChar) { InStepWithout(t, cache, service, avatar); }
    if ClosedInStepWith(t, cache, service.signedChar) { ClosedInStepWithout(t, cache, service, avatar); }
    if AllClean(cache) { KeptStaysClean(cache, avatar.avatarId); }
    if RefsClosed(cache) { ClosedWithout(cache, avatar); }
    DescribedWithout(t, cache, service, avatar);
  }

  lemma InStepUnlessNaming(t: Tables, a: ChatAvatar, avatar: ChatAvatar, signedChar: bool)
    requires InStepWith(t, a, signedChar) && a.avatarId != avatar.avatarId
    ensures InStepWith(WithoutAvatar(t, avatar.avatarId), a, signedChar) <==> !Names(a, avatar)
  {
    var id, friends, ignores := avatar.avatarId, FriendRowsOf(t.friends, a.avatarId),
        IgnoreRowsOf(t.ignores, a.avatarId);
    RowsHaveOwner(t.friends, [], a.avatarId);
    RowsHaveOwner([], t.ignores, a.avatarId);
    FriendRowsCascaded(t.friends, id, a.avatarId);
    IgnoreRowsCascaded(t.ignores, id, a.avatarId);
    FriendsCascadeLength(friends, id);
    IgnoresCascadeLength(ignores, id);
    NamesAreRows(a, friends, ignores, signedChar, id);
  }

  lemma NamesAreRows(a: ChatAvatar, friends: seq<FriendRow>, ignores: seq<IgnoreRow>, signedChar: bool, id: nat)
    requires FriendsInStep(a.friendList, friends, signedChar) && IgnoresInStep(a.ignoreList, ignores)
    ensures HasKey(a.friendList, FriendKey, id) <==> exists j :: 0 <= j < |friends| && friends[j].friendId == id
    ensures HasKey(a.ignoreList, IgnoreKey, id) <==> exists j :: 0 <= j < |ignores| && ignores[j].ignoreId == id
  {
    if HasKey(a.friendList, FriendKey, id) {
      var j :| 0 <= j < |friends| && FriendKey(a.friendList[j]) == id;
      assert friends[j].friendId == id;
    }
    if HasKey(a.ignoreList, IgnoreKey, id) {
      var j :| 0 <= j < |ignores| && IgnoreKey(a.ignoreList[j]) == id;
      assert ignores[j].ignoreId == id;
    }
  }

  /** Seen from the cache that is left, others named the avatar if somebody there names its id. */
  lemma NamedInRest(cache: seq<ChatAvatar>, avatar: ChatAvatar)
    requires DistinctKeys(cache, IdOf) && avatar in cache
    ensures NamedIn(Kept(cache, IdOf, avatar.avatarId), avatar.avatarId) <==> NamedByOthers(cache, avatar)
  {
    var rest := Kept(cache, IdOf, avatar.avatarId);
    KeptMembers(cache, IdOf, avatar.avatarId);
    CacheIdsUnique(cache, avatar);
    if NamedIn(rest, avatar.avatarId) {
      var j :| 0 <= j < |rest| && NamesId(rest[j], avatar.avatarId);
      var i :| 0 <= i < |cache| && cache[i] == rest[j];
      assert cache[i] != avatar && Names(cache[i], avatar);
    }
    if i :| 0 <= i < |cache| && cache[i] != avatar && Names(cache[i], avatar) {
      var j :| 0 <= j < |rest| && rest[j] == cache[i];
      assert NamesId(rest[j], avatar.avatarId);
    }
  }

  /** In a closed cache nobody names an id that is not cached. */
  lemma ClosedNamesCached(cache: seq<ChatAvatar>, id: nat)
    requires RefsClosed(cache) && !HasKey(cache, IdOf, id)
    ensures !NamedIn(cache, id)
  {
    forall i | 0 <= i < |cache| ensures !NamesId(cache[i], id) {
      var a := cache[i];
      assert ContactsIn(a, cache);
      forall j | 0 <= j < |a.friendList| ensures FriendKey(a.friendList[j]) != id {
        assert a.friendList[j] in a.friendList;
        CachedHasKey(cache, a.friendList[j].frnd);
      }
      forall j | 0 <= j < |a.ignoreList| ensures IgnoreKey(a.ignoreList[j]) != id {
        assert a.ignoreList[j] in a.ignoreList;
        CachedHasKey(cache, a.ignoreList[j].ignored);
      }
    }
  }

  lemma ContactsInRest(a: ChatAvatar, cache: seq<ChatAvatar>, rest: seq<ChatAvatar>, avatar: ChatAvatar)
    requires ContactsIn(a, cache)
    requires rest == Kept(cache, IdOf, avatar.avatarId)
    ensures ContactsIn(a, rest) <==> !Names(a, avatar)
  {
    KeptMembers(cache, IdOf, avatar.avatarId);
    if HasKey(a.friendList, FriendKey, avatar.avatarId) {
      var i :| 0 <= i < |a.friendList| && FriendKey(a.friendList[i]) == avatar.avatarId;
      assert a.friendList[i] in a.friendList;
    } else if HasKey(a.ignoreList, IgnoreKey, avatar.avatarId) {
      var i :| 0 <= i < |a.ignoreList| && IgnoreKey(a.ignoreList[i]) == avatar.avatarId;
      assert a.ignoreList[i] in a.ignoreList;
    } else {
      forall c | c in a.friendList ensures c.frnd in rest {
        var i :| 0 <= i < |a.friendList| && a.friendList[i] == c;
        assert FriendKey(a.friendList[i]) != avatar.avatarId;
      }
      forall c | c in a.ignoreList ensures c.ignored in rest {
        var i :| 0 <= i < |a.ignoreList| && a.ignoreList[i] == c;
        assert IgnoreKey(a.ignoreList[i]) != avatar.avatarId;
      }
    }
  }

  /** Cached ids are distinct, and exactly the cached avatars marked online are in the online list. */
  ghost predicate PresenceOf(cache: seq<ChatAvatar>, online: seq<ChatAvatar>)
    reads cache`isOnline
  {
    && DistinctKeys(cache, IdOf)
    && DistinctKeys(online, IdOf)
    && (forall i :: 0 <= i < |online| ==> online[i] in cache)
    && forall i :: 0 <= i < |cache| ==> (cache[i].isOnline <==> cache[i] in online)
  }

  /** Every cached avatar belongs to the service and describes its stored row. */
  ghost predicate Described(t: Tables, cache: seq<ChatAvatar>, service: ChatAvatarService) {
    forall i :: 0 <= i < |cache| ==> FieldsMatch(t, service.signedChar, cache[i]) && cache[i].avatarService == service
  }

  lemma DescribedWithout(t: Tables, cache: seq<ChatAvatar>, service: ChatAvatarService, avatar: ChatAvatar)
    requires Described(t, cache, service)
    ensures Described(WithoutAvatar(t, avatar.avatarId), Kept(cache, IdOf, avatar.avatarId), service)
  {
    KeptMembers(cache, IdOf, avatar.avatarId);
  }

  lemma PresenceWithout(cache: seq<ChatAvatar>, online: seq<ChatAvatar>, avatar: ChatAvatar)
    requires PresenceOf(cache, online) && avatar in cache && !avatar.isOnline
    ensures PresenceOf(Kept(cache, IdOf, avatar.avatarId), online)
  {
    KeptMembers(cache, IdOf, avatar.avatarId);
    KeptDistinct(cache, IdOf, avatar.avatarId);
    CacheIdsUnique(cache, avatar);
  }

  lemma DistinctElements(s: seq<ChatAvatar>, i: nat)
    requires i < |s| && DistinctKeys(s, IdOf)
    ensures forall j :: 0 <= j < |s| && j != i ==> s[j] != s[i]
  {
    forall j | 0 <= j < |s| && j != i ensures s[j] != s[i] {
      assert IdOf(s[j]) != IdOf(s[i]);
    }
  }

  /** Among cached avatars an id stands for one object. */
  lemma CacheIdsUnique(cache: seq<ChatAvatar>, avatar: ChatAvatar)
    requires DistinctKeys(cache, IdOf) && avatar in cache
    ensures forall i :: 0 <= i < |cache| && cache[i].avatarId == avatar.avatarId ==> cache[i] == avatar
  {
    forall i | 0 <= i < |cache| && cache[i].avatarId == avatar.avatarId ensures cache[i] == avatar {
      var j :| 0 <= j < |cache| && cache[j] == avatar;
      assert IdOf(cache[i]) == IdOf(cache[j]);
    }
  }

  lemma SameIdSameAvatar(cache: seq<ChatAvatar>, part: seq<ChatAvatar>, avatar: ChatAvatar)
    requires DistinctKeys(cache, IdOf) && avatar in cache && forall a :: a in part ==> a in cache
    ensures HasKey(part, IdOf, avatar.avatarId) <==> avatar in part
  {
    CacheIdsUnique(cache, avatar);
    if HasKey(part, IdOf, avatar.avatarId) {
      var i :| 0 <= i < |part| && IdOf(part[i]) == avatar.avatarId;
      assert part[i] in part;
    }
    if avatar in part {
      var i :| 0 <= i < |part| && part[i] == avatar;
      assert IdOf(part[i]) == avatar.avatarId;
    }
  }

  function NewRow(name: Wide, address: Wide, userId: nat, attributes: nat): AvatarRow {
    AvatarRow(userId, ToStorage(name), ToStorage(address), attributes)
  }

  predicate RowNamed(row: AvatarRow, name: Wide, address: Wide) {
    row.name == ToStorage(name) && row.address == ToStorage(address)
  }

  /** The created avatar joins a cache that did not know its id. */
  lemma CreatedIsCached(t: Tables, cache: seq<ChatAvatar>, online: seq<ChatAvatar>, service: ChatAvatarService,
                        a: ChatAvatar, row: AvatarRow)
    requires PresenceOf(cache, online) && Described(t, cache, service) && a.avatarId !in t.avatars
    requires a.avatarService == service && !a.isOnline && a !in cache && row.userId == a.userId
    requires row.name == ToStorage(a.name) && row.address == ToStorage(a.address)
    ensures PresenceOf(cache + [a], online)
    ensures Described(t.(avatars := t.avatars[a.avatarId := row]), cache + [a], service) <==>
              Storable(a.name, service.signedChar) && Storable(a.address, service.signedChar)
  {
    var after := t.(avatars := t.avatars[a.avatarId := row]);
    forall i | 0 <= i < |cache| ensures IdOf(cache[i]) != a.avatarId &&
        FieldsMatch(after, service.signedChar, cache[i]) {
      assert FieldsMatch(t, service.signedChar, cache[i]);
    }
    AppendKeys(cache, IdOf, a);
    StorageRoundTrip(a.name, service.signedChar);
    StorageRoundTrip(a.address, service.signedChar);
    assert (cache + [a])[|cache|] == a;
    assert forall i :: 0 <= i < |cache| ==> (cache + [a])[i] == cache[i];
  }

  lemma EmptyListsFit(cache: seq<ChatAvatar>, a: ChatAvatar)
    requires a.friendList == [] && a.ignoreList == []
    ensures AllClean(cache) ==> AllClean(cache + [a])
    ensures RefsClosed(cache) ==> RefsClosed(cache + [a])
  {
    assert forall i :: 0 <= i < |cache| ==> (cache + [a])[i] == cache[i];
    if RefsClosed(cache) {
      forall i | 0 <= i < |cache| ensures ContactsIn(cache[i], cache + [a]) {
        assert ContactsIn(cache[i], cache);
      }
    }
  }

  lemma NewIsNotOld(t: Tables, before: seq<ChatAvatar>, after: seq<ChatAvatar>, i: nat)
    requires Grown(t, before, after) && |before| <= i < |after|
    ensures after[i] !in before
  {
    if after[i] in before { CachedHasKey(before, after[i]); }
  }

  lemma CachedHasKey(cache: seq<ChatAvatar>, a: ChatAvatar)
    requires a in cache
    ensures HasKey(cache, IdOf, a.avatarId)
  {
    var i :| 0 <= i < |cache| && cache[i] == a;
    assert IdOf(cache[i]) == a.avatarId;
  }

  /** Nothing is reached from an id that is already cached or not stored. */
  lemma NothingReached(t: Tables, cache: seq<ChatAvatar>, id: nat)
    requires id !in Uncached(t, cache)
    ensures forall x :: !Reach(t, Uncached(t, cache), id, x)
  {
  }
}
