/** The keys of the stored tables, and that every statement respects them. */
module ChatSchema {
  import opened ChatTables
  import opened Text

  /** No two avatars share name and address. */
  ghost predicate UniqueNames(t: Tables) {
    forall x, y :: x in t.avatars && y in t.avatars && SameName(t.avatars[x], t.avatars[y]) ==> x == y
  }

  predicate SameName(a: AvatarRow, b: AvatarRow) {
    a.name == b.name && a.address == b.address
  }

  ghost predicate HasFriendRow(rows: seq<FriendRow>, src: nat, dest: nat) {
    exists r :: r in rows && r.avatarId == src && r.friendId == dest
  }

  /** No pair is stored twice. */
  ghost predicate UniqueFriends(rows: seq<FriendRow>) {
    rows == [] || (!HasFriendRow(rows[1..], rows[0].avatarId, rows[0].friendId) && UniqueFriends(rows[1..]))
  }

  ghost predicate UniqueIgnores(rows: seq<IgnoreRow>) {
    rows == [] || (rows[0] !in rows[1..] && UniqueIgnores(rows[1..]))
  }

  ghost predicate FriendsStored(t: Tables) {
    forall r :: r in t.friends ==> r.avatarId in t.avatars && r.friendId in t.avatars
  }

  ghost predicate IgnoresStored(t: Tables) {
    forall r :: r in t.ignores ==> r.avatarId in t.avatars && r.ignoreId in t.avatars
  }

  /** What the keys of the database guarantee. */
  ghost predicate Schema(t: Tables) {
    UniqueNames(t) && FriendsStored(t) && IgnoresStored(t) && UniqueFriends(t.friends) && UniqueIgnores(t.ignores)
  }

  lemma {:induction false} UniqueFriendsAppended(rows: seq<FriendRow>, row: FriendRow)
    requires UniqueFriends(rows) && !HasFriendRow(rows, row.avatarId, row.friendId)
    ensures UniqueFriends(rows + [row])
  {
    if rows != [] {
      assert rows[0] in rows && forall r :: r in rows[1..] ==> r in rows;
      assert (rows + [row])[1..] == rows[1..] + [row];
      UniqueFriendsAppended(rows[1..], row);
    }
  }

  lemma {:induction false} UniqueIgnoresAppended(rows: seq<IgnoreRow>, row: IgnoreRow)
    requires UniqueIgnores(rows) && row !in rows
    ensures UniqueIgnores(rows + [row])
  {
    if rows != [] {
      assert rows[0] in rows && forall r :: r in rows[1..] ==> r in rows;
      assert (rows + [row])[1..] == rows[1..] + [row];
      UniqueIgnoresAppended(rows[1..], row);
    }
  }

  lemma {:induction false} WithoutFriendRows(rows: seq<FriendRow>, src: nat, dest: nat)
    ensures forall r :: r in WithoutFriend(rows, src, dest) <==> r in rows && !(r.avatarId == src && r.friendId == dest)
    ensures UniqueFriends(rows) ==> UniqueFriends(WithoutFriend(rows, src, dest))
  {
    if rows != [] {
      WithoutFriendRows(rows[1..], src, dest);
      assert rows == [rows[0]] + rows[1..];
    }
  }

  lemma {:induction false} WithoutIgnoreRows(rows: seq<IgnoreRow>, src: nat, dest: nat)
    ensures forall r :: r in WithoutIgnore(rows, src, dest) <==> r in rows && !(r.avatarId == src && r.ignoreId == dest)
    ensures UniqueIgnores(rows) ==> UniqueIgnores(WithoutIgnore(rows, src, dest))
  {
    if rows != [] {
      WithoutIgnoreRows(rows[1..], src, dest);
      assert rows == [rows[0]] + rows[1..];
    }
  }

  lemma {:induction false} FriendsCascadeRows(rows: seq<FriendRow>, id: nat)
    ensures forall r :: r in FriendsCascade(rows, id) <==> r in rows && r.avatarId != id && r.friendId != id
    ensures UniqueFriends(rows) ==> UniqueFriends(FriendsCascade(rows, id))
  {
    if rows != [] {
      FriendsCascadeRows(rows[1..], id);
      assert rows == [rows[0]] + rows[1..];
    }
  }

  lemma {:induction false} IgnoresCascadeRows(rows: seq<IgnoreRow>, id: nat)
    ensures forall r :: r in IgnoresCascade(rows, id) <==> r in rows && r.avatarId != id && r.ignoreId != id
    ensures UniqueIgnores(rows) ==> UniqueIgnores(IgnoresCascade(rows, id))
  {
    if rows != [] {
      IgnoresCascadeRows(rows[1..], id);
      assert rows == [rows[0]] + rows[1..];
    }
  }

  lemma {:induction false} WithCommentRows(rows: seq<FriendRow>, src: nat, dest: nat, comment: CText)
    ensures forall a, f :: HasFriendRow(WithComment(rows, src, dest, comment), a, f) <==> HasFriendRow(rows, a, f)
    ensures forall r :: r in WithComment(rows, src, dest, comment) ==> HasFriendRow(rows, r.avatarId, r.friendId)
    ensures UniqueFriends(rows) ==> UniqueFriends(WithComment(rows, src, dest, comment))
  {
    if rows != [] {
      var all, rest := WithComment(rows, src, dest, comment), WithComment(rows[1..], src, dest, comment);
      WithCommentRows(rows[1..], src, dest, comment);
      assert all == [all[0]] + rest && rows == [rows[0]] + rows[1..];
      forall a, f ensures HasFriendRow(all, a, f) <==> HasFriendRow(rows, a, f) {
        HasFriendRowCons(all[0], rest, a, f);
        HasFriendRowCons(rows[0], rows[1..], a, f);
      }
    }
  }

  lemma HasFriendRowCons(row: FriendRow, rest: seq<FriendRow>, a: nat, f: nat)
    ensures HasFriendRow([row] + rest, a, f) <==> (row.avatarId == a && row.friendId == f) || HasFriendRow(rest, a, f)
  {
    if HasFriendRow([row] + rest, a, f) {
      var r :| r in [row] + rest && r.avatarId == a && r.friendId == f;
      assert r == row || r in rest;
    }
    if HasFriendRow(rest, a, f) {
      var r :| r in rest && r.avatarId == a && r.friendId == f;
      assert r in [row] + rest;
    }
    assert row in [row] + rest;
  }

  // The inserts that the schema allows

  predicate CanInsertAvatar(t: Tables, id: nat, row: AvatarRow) {
    id < 0x1_0000_0000 && id !in t.avatars && forall x :: x in t.avatars ==> !SameName(t.avatars[x], row)
  }

  ghost predicate CanInsertFriend(t: Tables, row: FriendRow) {
    row.avatarId in t.avatars && row.friendId in t.avatars && !HasFriendRow(t.friends, row.avatarId, row.friendId)
  }

  predicate CanInsertIgnore(t: Tables, row: IgnoreRow) {
    row.avatarId in t.avatars && row.ignoreId in t.avatars && row !in t.ignores
  }

  // Every statement the server accepts keeps the schema

  lemma SchemaWithoutFriend(t: Tables, src: nat, dest: nat)
    requires Schema(t)
    ensures Schema(t.(friends := WithoutFriend(t.friends, src, dest)))
  {
    WithoutFriendRows(t.friends, src, dest);
  }

  lemma SchemaWithoutIgnore(t: Tables, src: nat, dest: nat)
    requires Schema(t)
    ensures Schema(t.(ignores := WithoutIgnore(t.ignores, src, dest)))
  {
    WithoutIgnoreRows(t.ignores, src, dest);
  }

  lemma SchemaWithComment(t: Tables, src: nat, dest: nat, comment: CText)
    requires Schema(t)
    ensures Schema(t.(friends := WithComment(t.friends, src, dest, comment)))
  {
    WithCommentRows(t.friends, src, dest, comment);
  }

  lemma SchemaWithoutAvatar(t: Tables, id: nat)
    requires Schema(t)
    ensures Schema(WithoutAvatar(t, id))
  {
    FriendsCascadeRows(t.friends, id);
    IgnoresCascadeRows(t.ignores, id);
  }

  lemma SchemaWithFriend(t: Tables, row: FriendRow)
    requires Schema(t) && row.avatarId in t.avatars && row.friendId in t.avatars
    requires !HasFriendRow(t.friends, row.avatarId, row.friendId)
    ensures Schema(t.(friends := t.friends + [row]))
  {
    UniqueFriendsAppended(t.friends, row);
  }

  lemma SchemaWithIgnore(t: Tables, row: IgnoreRow)
    requires Schema(t) && row.avatarId in t.avatars && row.ignoreId in t.avatars && row !in t.ignores
    ensures Schema(t.(ignores := t.ignores + [row]))
  {
    UniqueIgnoresAppended(t.ignores, row);
  }

  lemma SchemaWithAvatar(t: Tables, id: nat, row: AvatarRow)
    requires Schema(t) && id !in t.avatars && forall x :: x in t.avatars ==> !SameName(t.avatars[x], row)
    ensures Schema(t.(avatars := t.avatars[id := row]))
  {
  }

  /** Under the schema an avatar's own rows name stored avatars, and none twice. */
  lemma {:induction false} FriendRowsAreDistinct(rows: seq<FriendRow>, id: nat)
    requires UniqueFriends(rows)
    ensures forall r :: r in FriendRowsOf(rows, id) <==> r in rows && r.avatarId == id
    ensures forall i, j :: 0 <= i < j < |FriendRowsOf(rows, id)| ==>
              FriendRowsOf(rows, id)[i].friendId != FriendRowsOf(rows, id)[j].friendId
  {
    if rows != [] {
      FriendRowsAreDistinct(rows[1..], id);
      assert rows == [rows[0]] + rows[1..];
      var mine, rest := FriendRowsOf(rows, id), FriendRowsOf(rows[1..], id);
      if rows[0].avatarId == id {
        forall j | 0 <= j < |rest| ensures rest[j].friendId != rows[0].friendId {
          assert rest[j] in rest;
        }
      }
    }
  }

  lemma {:induction false} IgnoreRowsAreDistinct(rows: seq<IgnoreRow>, id: nat)
    requires UniqueIgnores(rows)
    ensures forall r :: r in IgnoreRowsOf(rows, id) <==> r in rows && r.avatarId == id
    ensures forall i, j :: 0 <= i < j < |IgnoreRowsOf(rows, id)| ==>
              IgnoreRowsOf(rows, id)[i].ignoreId != IgnoreRowsOf(rows, id)[j].ignoreId
  {
    if rows != [] {
      IgnoreRowsAreDistinct(rows[1..], id);
      assert rows == [rows[0]] + rows[1..];
      var mine, rest := IgnoreRowsOf(rows, id), IgnoreRowsOf(rows[1..], id);
      if rows[0].avatarId == id {
        forall j | 0 <= j < |rest| ensures rest[j].ignoreId != rows[0].ignoreId {
          assert rest[j] in rest;
        }
      }
    }
  }

  /** Rows that do not name the avatar are stored before exactly if they are after. */
  ghost predicate OnlyNaming(before: Tables, after: Tables, id: nat) {
    && before.avatars == after.avatars
    && (forall r: FriendRow :: r.friendId != id ==> (r in before.friends <==> r in after.friends))
    && (forall r: IgnoreRow :: r.ignoreId != id ==> (r in before.ignores <==> r in after.ignores))
  }

  lemma PairRows(before: Tables, after: Tables, src: nat, dest: nat)
    requires OnlyPair(before, after, src, dest)
    ensures forall r: FriendRow ::
              r.avatarId != src || r.friendId != dest ==> (r in before.friends <==> r in after.friends)
    ensures forall r: IgnoreRow ::
              r.avatarId != src || r.ignoreId != dest ==> (r in before.ignores <==> r in after.ignores)
    ensures OnlyNaming(before, after, dest) && OnlyRowsOf(before, after, src)
  {
    WithoutFriendRows(before.friends, src, dest);
    WithoutFriendRows(after.friends, src, dest);
    WithoutIgnoreRows(before.ignores, src, dest);
    WithoutIgnoreRows(after.ignores, src, dest);
    forall x | x != src
      ensures FriendRowsOf(before.friends, x) == FriendRowsOf(after.friends, x)
      ensures IgnoreRowsOf(before.ignores, x) == IgnoreRowsOf(after.ignores, x)
    {
      FriendRowsWithout(before.friends, src, dest, x);
      FriendRowsWithout(after.friends, src, dest, x);
      IgnoreRowsWithout(before.ignores, src, dest, x);
      IgnoreRowsWithout(after.ignores, src, dest, x);
    }
  }
}
