/** The stored tables behind the avatar service, and the graph their friend and ignore rows draw. */
module ChatTables {
  import opened Text

  datatype AvatarRow = AvatarRow(userId: nat, name: CText, address: CText, attributes: nat)
  datatype FriendRow = FriendRow(avatarId: nat, friendId: nat, comment: CText)
  datatype IgnoreRow = IgnoreRow(avatarId: nat, ignoreId: nat)
  datatype Tables = Tables(avatars: map<nat, AvatarRow>, friends: seq<FriendRow>, ignores: seq<IgnoreRow>)

  function PlusAvatar(t: Tables, id: nat, row: AvatarRow): Tables {
    t.(avatars := t.avatars[id := row])
  }

  function PlusFriend(t: Tables, row: FriendRow): Tables {
    t.(friends := t.friends + [row])
  }

  function PlusIgnore(t: Tables, row: IgnoreRow): Tables {
    t.(ignores := t.ignores + [row])
  }

  function MinusFriend(t: Tables, src: nat, dest: nat): Tables {
    t.(friends := WithoutFriend(t.friends, src, dest))
  }

  function MinusIgnore(t: Tables, src: nat, dest: nat): Tables {
    t.(ignores := WithoutIgnore(t.ignores, src, dest))
  }

  function Commented(t: Tables, src: nat, dest: nat, comment: CText): Tables {
    t.(friends := WithComment(t.friends, src, dest, comment))
  }

  /** `SELECT ... FROM friend WHERE avatar_id = id` */
  function FriendRowsOf(rows: seq<FriendRow>, id: nat): seq<FriendRow> {
    if rows == [] then []
    else if rows[0].avatarId == id then [rows[0]] + FriendRowsOf(rows[1..], id)
    else FriendRowsOf(rows[1..], id)
  }

  /** `SELECT ... FROM ignore WHERE avatar_id = id` */
  function IgnoreRowsOf(rows: seq<IgnoreRow>, id: nat): seq<IgnoreRow> {
    if rows == [] then []
    else if rows[0].avatarId == id then [rows[0]] + IgnoreRowsOf(rows[1..], id)
    else IgnoreRowsOf(rows[1..], id)
  }

  function FriendIds(rows: seq<FriendRow>): (ids: seq<nat>)
    ensures |ids| == |rows| && forall i :: 0 <= i < |rows| ==> ids[i] == rows[i].friendId
  {
    seq(|rows|, i requires 0 <= i < |rows| => rows[i].friendId)
  }

  function IgnoreIds(rows: seq<IgnoreRow>): (ids: seq<nat>)
    ensures |ids| == |rows| && forall i :: 0 <= i < |rows| ==> ids[i] == rows[i].ignoreId
  {
    seq(|rows|, i requires 0 <= i < |rows| => rows[i].ignoreId)
  }

  /** The avatars an avatar's stored rows name. */
  ghost predicate Edge(t: Tables, from: nat, to: nat) {
    to in FriendIds(FriendRowsOf(t.friends, from)) || to in IgnoreIds(IgnoreRowsOf(t.ignores, from))
  }

  /** A walk along stored rows that stays inside `within`. */
  ghost predicate IsPath(t: Tables, within: set<nat>, p: seq<nat>) {
    && p != []
    && (forall i :: 0 <= i < |p| ==> p[i] in within)
    && forall i, j :: 0 <= i < |p| - 1 && j == i + 1 ==> Edge(t, p[i], p[j])
  }

  ghost predicate Reach(t: Tables, within: set<nat>, src: nat, dst: nat) {
    exists p :: IsPath(t, within, p) && p[0] == src && p[|p| - 1] == dst
  }

  lemma ReachSelf(t: Tables, within: set<nat>, src: nat)
    requires src in within
    ensures Reach(t, within, src, src)
  {
    assert IsPath(t, within, [src]);
  }

  lemma ReachWider(t: Tables, small: set<nat>, large: set<nat>, src: nat, dst: nat)
    requires small <= large && Reach(t, small, src, dst)
    ensures Reach(t, large, src, dst)
  {
    var p :| IsPath(t, small, p) && p[0] == src && p[|p| - 1] == dst;
    assert IsPath(t, large, p);
  }

  lemma ReachStep(t: Tables, within: set<nat>, src: nat, mid: nat, dst: nat)
    requires src in within && Edge(t, src, mid) && Reach(t, within, mid, dst)
    ensures Reach(t, within, src, dst)
  {
    var p :| IsPath(t, within, p) && p[0] == mid && p[|p| - 1] == dst;
    PathStep(t, within, src, p);
    var q := [src] + p;
    assert q[0] == src && q[|q| - 1] == dst;
  }

  lemma PathStep(t: Tables, within: set<nat>, src: nat, p: seq<nat>)
    requires IsPath(t, within, p) && src in within && Edge(t, src, p[0])
    ensures IsPath(t, within, [src] + p)
  {
    var q := [src] + p;
    forall i, j | 0 <= i < |q| - 1 && j == i + 1 ensures Edge(t, q[i], q[j]) {
      if i > 0 { assert Edge(t, p[i - 1], p[j - 1]); }
    }
  }

  /** White-path argument: a set that contains the source and every unvisited neighbour of its
      members contains all that can be reached through unvisited nodes. */
  lemma ClosedContainsReach(t: Tables, within: set<nat>, closed: set<nat>, src: nat, dst: nat)
    requires src in closed && Reach(t, within, src, dst)
    requires forall x, y :: x in closed && Edge(t, x, y) && y in within ==> y in closed
    ensures dst in closed
  {
    var p :| IsPath(t, within, p) && p[0] == src && p[|p| - 1] == dst;
    PathStaysClosed(t, within, closed, p, |p| - 1);
  }

  lemma {:induction false} PathStaysClosed(t: Tables, within: set<nat>, closed: set<nat>, p: seq<nat>, k: nat)
    requires IsPath(t, within, p) && p[0] in closed && k < |p|
    requires forall x, y :: x in closed && Edge(t, x, y) && y in within ==> y in closed
    ensures p[k] in closed
  {
    if k > 0 {
      PathStaysClosed(t, within, closed, p, k - 1);
      assert Edge(t, p[k - 1], p[k]);
    }
  }

  /** `DELETE FROM friend WHERE avatar_id = src AND friend_avatar_id = dest` */
  function WithoutFriend(rows: seq<FriendRow>, src: nat, dest: nat): seq<FriendRow> {
    if rows == [] then []
    else if rows[0].avatarId == src && rows[0].friendId == dest then WithoutFriend(rows[1..], src, dest)
    else [rows[0]] + WithoutFriend(rows[1..], src, dest)
  }

  /** `DELETE FROM ignore WHERE avatar_id = src AND ignore_avatar_id = dest` */
  function WithoutIgnore(rows: seq<IgnoreRow>, src: nat, dest: nat): seq<IgnoreRow> {
    if rows == [] then []
    else if rows[0].avatarId == src && rows[0].ignoreId == dest then WithoutIgnore(rows[1..], src, dest)
    else [rows[0]] + WithoutIgnore(rows[1..], src, dest)
  }

  /** `UPDATE friend SET comment = ... WHERE avatar_id = src AND friend_avatar_id = dest` */
  function WithComment(rows: seq<FriendRow>, src: nat, dest: nat, comment: CText): seq<FriendRow> {
    if rows == [] then []
    else [if rows[0].avatarId == src && rows[0].friendId == dest then rows[0].(comment := comment) else rows[0]]
         + WithComment(rows[1..], src, dest, comment)
  }

  /** Rows that survive `ON DELETE CASCADE` when avatar `id` goes. */
  function FriendsCascade(rows: seq<FriendRow>, id: nat): seq<FriendRow> {
    if rows == [] then []
    else if rows[0].avatarId == id || rows[0].friendId == id then FriendsCascade(rows[1..], id)
    else [rows[0]] + FriendsCascade(rows[1..], id)
  }

  function IgnoresCascade(rows: seq<IgnoreRow>, id: nat): seq<IgnoreRow> {
    if rows == [] then []
    else if rows[0].avatarId == id || rows[0].ignoreId == id then IgnoresCascade(rows[1..], id)
    else [rows[0]] + IgnoresCascade(rows[1..], id)
  }

  function WithoutAvatar(t: Tables, id: nat): Tables {
    Tables(t.avatars - {id}, FriendsCascade(t.friends, id), IgnoresCascade(t.ignores, id))
  }

  /** Rows of one avatar after a row is appended. */
  lemma {:induction false} FriendRowAppended(rows: seq<FriendRow>, row: FriendRow, id: nat)
    ensures FriendRowsOf(rows + [row], id) == FriendRowsOf(rows, id) + if row.avatarId == id then [row] else []
  {
    if rows != [] {
      assert (rows + [row])[1..] == rows[1..] + [row];
      FriendRowAppended(rows[1..], row, id);
    }
  }

  lemma {:induction false} IgnoreRowAppended(rows: seq<IgnoreRow>, row: IgnoreRow, id: nat)
    ensures IgnoreRowsOf(rows + [row], id) == IgnoreRowsOf(rows, id) + if row.avatarId == id then [row] else []
  {
    if rows != [] {
      assert (rows + [row])[1..] == rows[1..] + [row];
      IgnoreRowAppended(rows[1..], row, id);
    }
  }

  lemma {:induction false} FriendRowsWithout(rows: seq<FriendRow>, src: nat, dest: nat, id: nat)
    ensures FriendRowsOf(WithoutFriend(rows, src, dest), id) ==
              if id == src then WithoutFriend(FriendRowsOf(rows, id), src, dest) else FriendRowsOf(rows, id)
  {
    if rows != [] {
      var rest, all := WithoutFriend(rows[1..], src, dest), WithoutFriend(rows, src, dest);
      FriendRowsWithout(rows[1..], src, dest, id);
      assert all == rest || all == [all[0]] + rest;
      assert all == rest
          || FriendRowsOf(all, id) == (if all[0].avatarId == id then [all[0]] else []) + FriendRowsOf(rest, id);
    }
  }

  lemma {:induction false} IgnoreRowsWithout(rows: seq<IgnoreRow>, src: nat, dest: nat, id: nat)
    ensures IgnoreRowsOf(WithoutIgnore(rows, src, dest), id) ==
              if id == src then WithoutIgnore(IgnoreRowsOf(rows, id), src, dest) else IgnoreRowsOf(rows, id)
  {
    if rows != [] {
      var rest, all := WithoutIgnore(rows[1..], src, dest), WithoutIgnore(rows, src, dest);
      IgnoreRowsWithout(rows[1..], src, dest, id);
      assert all == rest || all == [all[0]] + rest;
      assert all == rest
          || IgnoreRowsOf(all, id) == (if all[0].avatarId == id then [all[0]] else []) + IgnoreRowsOf(rest, id);
    }
  }

  lemma {:induction false} FriendRowsCommented(rows: seq<FriendRow>, src: nat, dest: nat, comment: CText, id: nat)
    ensures FriendRowsOf(WithComment(rows, src, dest, comment), id) ==
              if id == src then WithComment(FriendRowsOf(rows, id), src, dest, comment) else FriendRowsOf(rows, id)
  {
    if rows != [] {
      var rest, all := WithComment(rows[1..], src, dest, comment), WithComment(rows, src, dest, comment);
      FriendRowsCommented(rows[1..], src, dest, comment, id);
      assert all == rest || all == [all[0]] + rest;
      assert all == rest
          || FriendRowsOf(all, id) == (if all[0].avatarId == id then [all[0]] else []) + FriendRowsOf(rest, id);
    }
  }

  lemma {:induction false} RowsHaveOwner(friends: seq<FriendRow>, ignores: seq<IgnoreRow>, id: nat)
    ensures forall r :: r in FriendRowsOf(friends, id) ==> r.avatarId == id
    ensures forall r :: r in IgnoreRowsOf(ignores, id) ==> r.avatarId == id
    decreases |friends| + |ignores|
  {
    if friends != [] { RowsHaveOwner(friends[1..], ignores, id); }
    else if ignores != [] { RowsHaveOwner(friends, ignores[1..], id); }
  }

  /** What the cascade leaves of the rows of another avatar. */
  lemma {:induction false} FriendRowsCascaded(rows: seq<FriendRow>, id: nat, x: nat)
    ensures FriendRowsOf(FriendsCascade(rows, id), x) == if x == id then []
              else FriendsCascade(FriendRowsOf(rows, x), id)
  {
    if rows != [] {
      var rest, all := FriendsCascade(rows[1..], id), FriendsCascade(rows, id);
      FriendRowsCascaded(rows[1..], id, x);
      assert all == rest || all == [all[0]] + rest;
    }
  }

  lemma {:induction false} IgnoreRowsCascaded(rows: seq<IgnoreRow>, id: nat, x: nat)
    ensures IgnoreRowsOf(IgnoresCascade(rows, id), x) == if x == id then []
              else IgnoresCascade(IgnoreRowsOf(rows, x), id)
  {
    if rows != [] {
      var rest, all := IgnoresCascade(rows[1..], id), IgnoresCascade(rows, id);
      IgnoreRowsCascaded(rows[1..], id, x);
      assert all == rest || all == [all[0]] + rest;
    }
  }

  lemma {:induction false} FriendsCascadeLength(rows: seq<FriendRow>, id: nat)
    requires forall j :: 0 <= j < |rows| ==> rows[j].avatarId != id
    ensures |FriendsCascade(rows, id)| <= |rows|
    ensures (forall j :: 0 <= j < |rows| ==> rows[j].friendId != id) ==> FriendsCascade(rows, id) == rows
    ensures (exists j :: 0 <= j < |rows| && rows[j].friendId == id) ==> |FriendsCascade(rows, id)| < |rows|
  {
    if rows != [] {
      var rest := rows[1..];
      assert rows == [rows[0]] + rest && forall j :: 0 <= j < |rest| ==> rest[j] == rows[j + 1];
      FriendsCascadeLength(rest, id);
      if j :| 0 <= j < |rows| && rows[j].friendId == id {
        assert j > 0 ==> rest[j - 1].friendId == id;
      }
    }
  }

  lemma {:induction false} IgnoresCascadeLength(rows: seq<IgnoreRow>, id: nat)
    requires forall j :: 0 <= j < |rows| ==> rows[j].avatarId != id
    ensures |IgnoresCascade(rows, id)| <= |rows|
    ensures (forall j :: 0 <= j < |rows| ==> rows[j].ignoreId != id) ==> IgnoresCascade(rows, id) == rows
    ensures (exists j :: 0 <= j < |rows| && rows[j].ignoreId == id) ==> |IgnoresCascade(rows, id)| < |rows|
  {
    if rows != [] {
      var rest := rows[1..];
      assert rows == [rows[0]] + rest && forall j :: 0 <= j < |rest| ==> rest[j] == rows[j + 1];
      IgnoresCascadeLength(rest, id);
      if j :| 0 <= j < |rows| && rows[j].ignoreId == id {
        assert j > 0 ==> rest[j - 1].ignoreId == id;
      }
    }
  }

  /** Every row is among those of its owner. */
  lemma {:induction false} RowsAreListed(friends: seq<FriendRow>, ignores: seq<IgnoreRow>, id: nat)
    ensures forall r :: r in friends && r.avatarId == id ==> r in FriendRowsOf(friends, id)
    ensures forall r :: r in ignores && r.avatarId == id ==> r in IgnoreRowsOf(ignores, id)
    decreases |friends| + |ignores|
  {
    if friends != [] {
      RowsAreListed(friends[1..], ignores, id);
      assert friends == [friends[0]] + friends[1..];
    } else if ignores != [] {
      RowsAreListed(friends, ignores[1..], id);
      assert ignores == [ignores[0]] + ignores[1..];
    }
  }

  /** Only rows owned by `id` differ between two table states. */
  ghost predicate OnlyRowsOf(before: Tables, after: Tables, id: nat) {
    && before.avatars == after.avatars
    && forall x :: x != id ==>
         && FriendRowsOf(before.friends, x) == FriendRowsOf(after.friends, x)
         && IgnoreRowsOf(before.ignores, x) == IgnoreRowsOf(after.ignores, x)
  }

  /** Only rows owned by one of `ids` differ. */
  ghost predicate OnlyRowsOfKeys(before: Tables, after: Tables, ids: set<nat>) {
    && before.avatars == after.avatars
    && forall x :: x !in ids ==>
         && FriendRowsOf(before.friends, x) == FriendRowsOf(after.friends, x)
         && IgnoreRowsOf(before.ignores, x) == IgnoreRowsOf(after.ignores, x)
  }

  /** Apart from the rows of `src` that name `dest`, nothing differs, not even the order. */
  ghost predicate OnlyPair(before: Tables, after: Tables, src: nat, dest: nat) {
    && before.avatars == after.avatars
    && WithoutFriend(before.friends, src, dest) == WithoutFriend(after.friends, src, dest)
    && WithoutIgnore(before.ignores, src, dest) == WithoutIgnore(after.ignores, src, dest)
  }

  lemma PairAfterInsert(t: Tables, f: FriendRow, g: IgnoreRow)
    ensures OnlyPair(t, PlusFriend(t, f), f.avatarId, f.friendId)
    ensures OnlyPair(t, PlusIgnore(t, g), g.avatarId, g.ignoreId)
  {
    WithoutAppended(t.friends, f);
    WithoutIgnoreAppended(t.ignores, g);
  }

  lemma {:induction false} WithoutAppended(rows: seq<FriendRow>, row: FriendRow)
    ensures WithoutFriend(rows + [row], row.avatarId, row.friendId) == WithoutFriend(rows, row.avatarId, row.friendId)
  {
    if rows != [] {
      WithoutAppended(rows[1..], row);
      assert (rows + [row])[1..] == rows[1..] + [row];
    }
  }

  lemma {:induction false} WithoutIgnoreAppended(rows: seq<IgnoreRow>, row: IgnoreRow)
    ensures WithoutIgnore(rows + [row], row.avatarId, row.ignoreId) == WithoutIgnore(rows, row.avatarId, row.ignoreId)
  {
    if rows != [] {
      WithoutIgnoreAppended(rows[1..], row);
      assert (rows + [row])[1..] == rows[1..] + [row];
    }
  }

  lemma PairAfterDelete(t: Tables, src: nat, dest: nat)
    ensures OnlyPair(t, MinusFriend(t, src, dest), src, dest)
    ensures OnlyPair(t, MinusIgnore(t, src, dest), src, dest)
  {
    WithoutTwice(t.friends, src, dest);
    WithoutIgnoreTwice(t.ignores, src, dest);
  }

  lemma {:induction false} WithoutTwice(rows: seq<FriendRow>, src: nat, dest: nat)
    ensures WithoutFriend(WithoutFriend(rows, src, dest), src, dest) == WithoutFriend(rows, src, dest)
  {
    if rows != [] { WithoutTwice(rows[1..], src, dest); }
  }

  lemma {:induction false} WithoutIgnoreTwice(rows: seq<IgnoreRow>, src: nat, dest: nat)
    ensures WithoutIgnore(WithoutIgnore(rows, src, dest), src, dest) == WithoutIgnore(rows, src, dest)
  {
    if rows != [] { WithoutIgnoreTwice(rows[1..], src, dest); }
  }

  lemma PairAfterComment(t: Tables, src: nat, dest: nat, comment: CText)
    ensures OnlyPair(t, Commented(t, src, dest, comment), src, dest)
  {
    WithoutCommented(t.friends, src, dest, comment);
  }

  lemma {:induction false} WithoutCommented(rows: seq<FriendRow>, src: nat, dest: nat, comment: CText)
    ensures WithoutFriend(WithComment(rows, src, dest, comment), src, dest) == WithoutFriend(rows, src, dest)
  {
    if rows != [] { WithoutCommented(rows[1..], src, dest, comment); }
  }
}
