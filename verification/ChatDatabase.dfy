/** The database server behind the avatar service. */
module ChatDatabase {
  import opened ChatSchema
  import opened ChatTables
  import opened Text
  import opened Wrappers

  /** The server turns down statements that break the schema; a `willing` one turns down no others.  A
      select may fail before its first row (`ok` is false: the caller gets an exception), may end early,
      and may start over when the connection is replaced; `complete` marks one that did none of this, as
      all selects of a `reliable` server do. */
  class Database {
    const reliable: bool
    const willing: bool
    var tables: Tables
    var nextId: nat

    constructor (tables: Tables, nextId: nat, reliable: bool, willing: bool)
      ensures this.tables == tables && this.nextId == nextId && this.reliable == reliable && this.willing == willing
    {
      this.tables, this.nextId, this.reliable, this.willing := tables, nextId, reliable, willing;
    }

    method SelectAvatar(id: nat) returns (row: Option<AvatarRow>, ok: bool, complete: bool)
      ensures row.Some? ==> ok && id in tables.avatars && row.value == tables.avatars[id]
      ensures reliable ==> complete
      ensures complete ==> ok && (id in tables.avatars ==> row.Some?)
    {
      var answered: bool := *;
      answered := answered || reliable;
      ok, complete := *, answered;
      if answered { ok := true; }
      row := if answered && id in tables.avatars then Some(tables.avatars[id]) else None;
    }

    /** The id of an avatar with this name and address. */
    method SelectAvatarNamed(name: CText, address: CText) returns (found: Option<nat>, ok: bool, complete: bool)
      ensures found.Some? ==> ok && found.value in tables.avatars
                              && tables.avatars[found.value].name == name &&
                                  tables.avatars[found.value].address == address
      ensures reliable ==> complete
      ensures complete ==> ok
      ensures complete && found.None? ==>
                forall id :: id in tables.avatars ==>
                    tables.avatars[id].name != name || tables.avatars[id].address != address
    {
      var answered: bool := *;
      answered := answered || reliable;
      ok, complete, found := *, answered, None;
      if answered {
        ok := true;
        if id :| id in tables.avatars && tables.avatars[id].name == name && tables.avatars[id].address == address {
          found := Some(id);
        }
      }
    }

    method SelectFriends(id: nat) returns (rows: seq<FriendRow>, ok: bool, complete: bool)
      ensures forall r :: r in rows ==> r in FriendRowsOf(tables.friends, id)
      ensures reliable ==> complete
      ensures complete ==> ok && rows == FriendRowsOf(tables.friends, id)
    {
      var all := FriendRowsOf(tables.friends, id);
      var answered: bool := *;
      answered := answered || reliable;
      complete := answered;
      if answered { return all, true, true; }
      rows, ok := [], *;
      var deliveries: int := *;
      while deliveries > 0
        invariant forall r :: r in rows ==> r in all
      {
        var k: int := *;
        if 0 <= k < |all| { rows := rows + [all[k]]; }
        deliveries := deliveries - 1;
      }
    }

    method SelectIgnores(id: nat) returns (rows: seq<IgnoreRow>, ok: bool, complete: bool)
      ensures forall r :: r in rows ==> r in IgnoreRowsOf(tables.ignores, id)
      ensures reliable ==> complete
      ensures complete ==> ok && rows == IgnoreRowsOf(tables.ignores, id)
    {
      var all := IgnoreRowsOf(tables.ignores, id);
      var answered: bool := *;
      answered := answered || reliable;
      complete := answered;
      if answered { return all, true, true; }
      rows, ok := [], *;
      var deliveries: int := *;
      while deliveries > 0
        invariant forall r :: r in rows ==> r in all
      {
        var k: int := *;
        if 0 <= k < |all| { rows := rows + [all[k]]; }
        deliveries := deliveries - 1;
      }
    }

    method InsertAvatar(row: AvatarRow) returns (id: nat, ok: bool)
      modifies this
      ensures ok ==>
        && id == old(nextId) && id < 0x1_0000_0000 && id !in old(tables.avatars) && nextId == id + 1
        && tables == PlusAvatar(old(tables), id, row)
        && forall x :: x in old(tables.avatars) ==> !SameName(old(tables.avatars[x]), row)
      ensures !ok ==> tables == old(tables) && nextId == old(nextId)
      ensures willing && old(CanInsertAvatar(tables, nextId, row)) ==> ok
      ensures old(Schema(tables)) ==> Schema(tables)
    {
      id, ok := nextId, *;
      ok := (ok || willing) && id < 0x1_0000_0000 && id !in tables.avatars
        && forall x :: x in tables.avatars ==> !SameName(tables.avatars[x], row);
      if ok {
        if Schema(tables) { SchemaWithAvatar(tables, id, row); }
        tables, nextId := tables.(avatars := tables.avatars[id := row]), id + 1;
      }
    }

    /** Rows that name the avatar go with it. */
    method DeleteAvatar(id: nat) returns (ok: bool)
      modifies this`tables
      ensures willing ==> ok
      ensures tables == if ok then WithoutAvatar(old(tables), id) else old(tables)
      ensures old(Schema(tables)) ==> Schema(tables)
    {
      ok := *;
      ok := ok || willing;
      if ok {
        if Schema(tables) { SchemaWithoutAvatar(tables, id); }
        tables := WithoutAvatar(tables, id);
      }
    }

    method InsertFriend(row: FriendRow) returns (ok: bool)
      modifies this`tables
      ensures ok ==> row.avatarId in tables.avatars && row.friendId in tables.avatars
      ensures willing && old(CanInsertFriend(tables, row)) ==> ok
      ensures tables == if ok then PlusFriend(old(tables), row) else old(tables)
      ensures old(Schema(tables)) ==> Schema(tables)
    {
      ok := *;
      ok := (ok || willing) && row.avatarId in tables.avatars && row.friendId in tables.avatars
        && forall r :: r in tables.friends ==> r.avatarId != row.avatarId || r.friendId != row.friendId;
      if ok {
        if Schema(tables) { SchemaWithFriend(tables, row); }
        tables := tables.(friends := tables.friends + [row]);
      }
    }

    method InsertIgnore(row: IgnoreRow) returns (ok: bool)
      modifies this`tables
      ensures ok ==> row.avatarId in tables.avatars && row.ignoreId in tables.avatars
      ensures willing && old(CanInsertIgnore(tables, row)) ==> ok
      ensures tables == if ok then PlusIgnore(old(tables), row) else old(tables)
      ensures old(Schema(tables)) ==> Schema(tables)
    {
      ok := *;
      ok := (ok || willing) && CanInsertIgnore(tables, row);
      if ok {
        if Schema(tables) { SchemaWithIgnore(tables, row); }
        tables := tables.(ignores := tables.ignores + [row]);
      }
    }

    method DeleteFriend(src: nat, dest: nat) returns (ok: bool)
      modifies this`tables
      ensures willing ==> ok
      ensures tables == if ok then MinusFriend(old(tables), src, dest)
                else old(tables)
      ensures old(Schema(tables)) ==> Schema(tables)
    {
      ok := *;
      ok := ok || willing;
      if ok {
        if Schema(tables) { SchemaWithoutFriend(tables, src, dest); }
        tables := tables.(friends := WithoutFriend(tables.friends, src, dest));
      }
    }

    method DeleteIgnore(src: nat, dest: nat) returns (ok: bool)
      modifies this`tables
      ensures willing ==> ok
      ensures tables == if ok then MinusIgnore(old(tables), src, dest)
                else old(tables)
      ensures old(Schema(tables)) ==> Schema(tables)
    {
      ok := *;
      ok := ok || willing;
      if ok {
        if Schema(tables) { SchemaWithoutIgnore(tables, src, dest); }
        tables := tables.(ignores := WithoutIgnore(tables.ignores, src, dest));
      }
    }

    method UpdateComment(src: nat, dest: nat, comment: CText) returns (ok: bool)
      modifies this`tables
      ensures willing ==> ok
      ensures tables == if ok then Commented(old(tables), src, dest, comment)
                        else old(tables)
      ensures old(Schema(tables)) ==> Schema(tables)
    {
      ok := *;
      ok := ok || willing;
      if ok {
        if Schema(tables) { SchemaWithComment(tables, src, dest, comment); }
        tables := tables.(friends := WithComment(tables.friends, src, dest, comment));
      }
    }
  }
}
