/** The stream the `read` and `write` overloads work on. */
module WireStream {
  import opened Text
  import Vectors
  import opened WireFormat
  import opened WireLayout
  import opened WireRecords

  /** A `std::stringstream`: what has been put, how far it has been got, and whether an operation has
      failed; from then on every operation does nothing. */
  class Stream {
    var data: Bytes
    var got: nat
    var good: bool

    constructor ()
      ensures data == [] && got == 0 && good
    {
      data, got, good := [], 0, true;
    }

    ghost predicate Valid()
      reads this
    {
      got <= |data|
    }

    /** What is left to get. */
    function Rest(): Bytes
      requires Valid()
      reads this
    {
      data[got..]
    }

    method Put(b: Bytes)
      modifies this`data
      ensures data == if good then old(data) + b else old(data)
    {
      if good { data := data + b; }
    }

    /** `istream.read`: a short stream is drained and fails. */
    method Get(n: nat) returns (b: Bytes)
      requires Valid()
      modifies this`got, this`good
      ensures Valid()
      ensures !old(good) ==> got == old(got)
      ensures good <==> old(good) && n <= |old(Rest())|
      ensures good ==> got == old(got) + n
      ensures good ==> Take(n, old(Rest())) == Read(b, Rest())
      ensures old(good) && !good ==> got == |data|
    {
      if !good { return []; }
      if n <= |data| - got {
        b := data[got..got + n];
        assert data[got..][..n] == b && data[got..][n..] == data[got + n..];
        got := got + n;
      } else {
        b := data[got..];
        got, good := |data|, false;
      }
    }

    // Writing

    method WriteInteger(n: nat, width: nat)
      requires n < Span(width)
      modifies this`data
      ensures data == if good then old(data) + Encode(Unsigned(width, n)) else old(data)
    {
      Put(LittleEndian(n, width));
    }

    method WriteSigned(v: int, width: nat)
      requires Typed(Signed(width, v))
      modifies this`data
      ensures data == if good then old(data) + Encode(Signed(width, v)) else old(data)
    {
      Put(LittleEndian(if v < 0 then v + Span(width) else v, width));
    }

    method WriteBool(value: bool)
      modifies this`data
      ensures data == if good then old(data) + Encode(Flag(value)) else old(data)
    {
      Spans();
      var boolAsInt := if value then 1 else 0;
      assert LittleEndian(boolAsInt, 1) == [boolAsInt];
      WriteInteger(boolAsInt, 1);
    }

    method WriteString(value: Narrow)
      modifies this`data
      ensures data == if good then old(data) + Encode(Str(value)) else old(data)
    {
      Spans();
      var length := |value| % SHORT_SPAN;
      WriteInteger(length, 2);
      Put(value[..length]);
    }

    method WriteWideString(value: Wide)
      modifies this`data
      ensures data == if good then old(data) + Encode(WideStr(value)) else old(data)
    {
      Spans();
      var length := |value| % WORD_SPAN;
      WriteInteger(length, 4);
      PutUnits(value, length);
    }

    method PutUnits(value: Wide, length: nat)
      requires length <= |value|
      modifies this`data
      ensures data == if good then old(data) + UnitBytes(value[..length]) else old(data)
    {
      ghost var front := data;
      var i := 0;
      while i < length
        invariant 0 <= i <= length
        invariant data == if good then front + UnitBytes(value[..i]) else front
      {
        UnitBytesStep(value, i);
        Put([value[i] % 256, value[i] / 256]);
        i := i + 1;
      }
    }

    /** Overload resolution. */
    method Write(item: Item)
      requires Typed(item)
      modifies this`data
      ensures data == if good then old(data) + Encode(item) else old(data)
    {
      match item {
        case Unsigned(width, n) => WriteInteger(n, width);
        case Signed(width, v) => WriteSigned(v, width);
        case Flag(b) => WriteBool(b);
        case Str(s) => WriteString(s);
        case WideStr(w) => WriteWideString(w);
      }
    }

    /** The first `k` of `items` have gone out behind `start`. */
    ghost predicate Sent(start: Bytes, items: seq<Item>, k: nat)
      requires k <= |items| && AllTyped(items)
      reads this
    {
      data == if good then start + EncodeAll(items[..k]) else start
    }

    method WriteNext(ghost start: Bytes, ghost items: seq<Item>, ghost k: nat, item: Item)
      requires k < |items| && AllTyped(items) && items[k] == item && Sent(start, items, k)
      modifies this`data
      ensures Sent(start, items, k + 1)
    {
      Write(item);
      SentStep(start, items, k);
    }

    method WriteAvatar(a: AvatarRecord)
      modifies this`data
      ensures data == if good then old(data) + EncodeAll(AvatarItems(a)) else old(data)
      ensures good ==> AvatarReads(data[|old(data)|..], a)
    {
      ghost var start, items := data, AvatarItems(a);
      WriteIdentity(start, items, a);
      WriteLocation(start, items, a);
      assert items[..10] == items;
      AvatarLayout(a);
      Behind(start, EncodeAll(items));
    }

    method WriteLocation(ghost start: Bytes, ghost items: seq<Item>, a: AvatarRecord)
      requires items == AvatarItems(a) && Sent(start, items, 5)
      modifies this`data
      ensures Sent(start, items, 10)
    {
      WriteNext(start, items, 5, WideStr(a.loginLocation));
      WriteNext(start, items, 6, WideStr(a.server));
      WriteNext(start, items, 7, WideStr(a.gateway));
      WriteNext(start, items, 8, U32(a.serverId));
      WriteNext(start, items, 9, U32(a.gatewayId));
    }

    method WriteIdentity(ghost start: Bytes, ghost items: seq<Item>, a: AvatarRecord)
      requires items == AvatarItems(a) && data == start
      modifies this`data
      ensures Sent(start, items, 5)
    {
      WriteNext(start, items, 0, U32(a.avatarId));
      WriteNext(start, items, 1, U32(a.userId));
      WriteNext(start, items, 2, WideStr(a.name));
      WriteNext(start, items, 3, WideStr(a.address));
      WriteNext(start, items, 4, U32(a.attributes));
    }

    method WriteFriend(f: FriendRecord)
      modifies this`data
      ensures data == if good then old(data) + EncodeAll(FriendItems(f)) else old(data)
      ensures good ==> FriendReads(data[|old(data)|..], f)
    {
      FriendLayout(f);
      Behind(data, EncodeAll(FriendItems(f)));
      WriteFriendItems(f);
    }

    method WriteFriendItems(f: FriendRecord)
      modifies this`data
      ensures data == if good then old(data) + EncodeAll(FriendItems(f)) else old(data)
    {
      Spans();
      ghost var start, items := data, FriendItems(f);
      WriteNext(start, items, 0, WideStr(f.frnd.name));
      WriteNext(start, items, 1, WideStr(f.frnd.address));
      WriteNext(start, items, 2, WideStr(f.comment));
      WriteNext(start, items, 3, Signed(2, if f.frnd.isOnline then 1 else 0));
      assert items[..4] == items;
    }

    method WriteIgnore(ignored: AvatarRecord)
      modifies this`data
      ensures data == if good then old(data) + EncodeAll(IgnoreItems(ignored)) else old(data)
      ensures good ==> IgnoreReads(data[|old(data)|..], ignored)
    {
      EncodeTwo(data, WideStr(ignored.name), WideStr(ignored.address));
      WriteWideString(ignored.name);
      WriteWideString(ignored.address);
      IgnoreLayout(ignored);
      Behind(old(data), EncodeAll(IgnoreItems(ignored)));
    }

    method WriteRecord(ghost front: Bytes, ghost records: seq<seq<Item>>, avatars: seq<AvatarRecord>, i: nat)
      requires i < |avatars| && records == ListItems(avatars)
      requires data == if good then front + EncodeRecords(records[..i]) else front
      modifies this`data
      ensures data == if good then front + EncodeRecords(records[..i + 1]) else front
    {
      EncodeRecordsStep(front, records, i);
      WriteAvatar(avatars[i]);
    }

    method WriteRecords(avatars: seq<AvatarRecord>)
      modifies this`data
      ensures data == if good then old(data) + EncodeRecords(ListItems(avatars)) else old(data)
    {
      ghost var front, records := data, ListItems(avatars);
      assert front + EncodeRecords(records[..0]) == front;
      var i := 0;
      while i < |avatars|
        invariant 0 <= i <= |avatars|
        invariant data == if good then front + EncodeRecords(records[..i]) else front
      {
        WriteRecord(front, records, avatars, i);
        i := i + 1;
      }
      assert records[..i] == records;
    }

    /** The count is a 32-bit cast of the length; the loop goes over all. */
    method WriteAvatars(avatars: seq<AvatarRecord>)
      modifies this`data
      ensures data == if good then old(data) + EncodeList(ListItems(avatars)) else old(data)
    {
      Spans();
      WriteInteger(|avatars| % WORD_SPAN, 4);
      WriteRecords(avatars);
    }

    ghost predicate ListsSent(start: Bytes, lists: seq<seq<AvatarRecord>>, k: nat)
      requires k <= |lists|
      reads this
    {
      data == if good then start + EncodeLists(lists[..k]) else start
    }

    method WriteNextList(ghost start: Bytes, ghost lists: seq<seq<AvatarRecord>>, ghost k: nat,
                         avatars: seq<AvatarRecord>)
      requires k < |lists| && lists[k] == avatars && ListsSent(start, lists, k)
      modifies this`data
      ensures ListsSent(start, lists, k + 1)
    {
      WriteAvatars(avatars);
      EncodeListsStep(start, lists, k);
    }

    method WriteRoom(r: RoomRecord)
      modifies this`data
      ensures data == if good then old(data) + EncodeRoom(r) else old(data)
      ensures good && ListsFit(r) ==> RoomReads(data[|old(data)|..], r)
    {
      WriteRoomFields(r);
      Vectors.Regroup(old(data), EncodeAll(RoomItems(r)), EncodeLists(RoomLists(r)));
      WriteRoomLists(r);
      if ListsFit(r) { RoomLayout(r); }
      Behind(old(data), EncodeRoom(r));
    }

    method WriteRoomLists(r: RoomRecord)
      modifies this`data
      ensures data == if good then old(data) + EncodeLists(RoomLists(r)) else old(data)
    {
      ghost var start, lists := data, RoomLists(r);
      WriteStaff(start, lists, r);
      WriteOthers(start, lists, r);
      assert lists[..7] == lists;
    }

    method WriteStaff(ghost start: Bytes, ghost lists: seq<seq<AvatarRecord>>, r: RoomRecord)
      requires lists == RoomLists(r) && data == start
      modifies this`data
      ensures ListsSent(start, lists, 4)
    {
      assert start + EncodeLists(lists[..0]) == start;
      WriteNextList(start, lists, 0, r.avatars);
      WriteNextList(start, lists, 1, r.administrators);
      WriteNextList(start, lists, 2, r.moderators);
      WriteNextList(start, lists, 3, r.tempModerators);
    }

    method WriteOthers(ghost start: Bytes, ghost lists: seq<seq<AvatarRecord>>, r: RoomRecord)
      requires lists == RoomLists(r) && ListsSent(start, lists, 4)
      modifies this`data
      ensures ListsSent(start, lists, 7)
    {
      WriteNextList(start, lists, 4, r.banned);
      WriteNextList(start, lists, 5, r.invited);
      WriteNextList(start, lists, 6, r.voice);
    }

    method WriteRoomFields(r: RoomRecord)
      modifies this`data
      ensures data == if good then old(data) + EncodeAll(RoomItems(r)) else old(data)
    {
      ghost var start, items := data, RoomItems(r);
      WriteRoomOrigin(start, items, r);
      WriteRoomTexts(start, items, r);
      WriteRoomAccess(start, items, r);
      WriteRoomNumbers(start, items, r);
      assert items[..13] == items;
    }

    method WriteRoomOrigin(ghost start: Bytes, ghost items: seq<Item>, r: RoomRecord)
      requires items == RoomItems(r) && data == start
      modifies this`data
      ensures Sent(start, items, 3)
    {
      WriteNext(start, items, 0, WideStr(r.creatorName));
      WriteNext(start, items, 1, WideStr(r.creatorAddress));
      WriteNext(start, items, 2, U32(r.creatorId));
    }

    method WriteRoomTexts(ghost start: Bytes, ghost items: seq<Item>, r: RoomRecord)
      requires items == RoomItems(r) && Sent(start, items, 3)
      modifies this`data
      ensures Sent(start, items, 6)
    {
      assert items[3] == WideStr(r.roomName) && items[4] == WideStr(r.roomTopic) && items[5] == WideStr(r.roomPrefix);
      WriteNext(start, items, 3, WideStr(r.roomName));
      WriteNext(start, items, 4, WideStr(r.roomTopic));
      WriteNext(start, items, 5, WideStr(r.roomPrefix));
    }

    method WriteRoomAccess(ghost start: Bytes, ghost items: seq<Item>, r: RoomRecord)
      requires items == RoomItems(r) && Sent(start, items, 6)
      modifies this`data
      ensures Sent(start, items, 9)
    {
      WriteNext(start, items, 6, WideStr(r.roomAddress));
      WriteNext(start, items, 7, WideStr(r.roomPassword));
      WriteNext(start, items, 8, U32(r.roomAttributes));
    }

    method WriteRoomNumbers(ghost start: Bytes, ghost items: seq<Item>, r: RoomRecord)
      requires items == RoomItems(r) && Sent(start, items, 9)
      modifies this`data
      ensures Sent(start, items, 13)
    {
      WriteNext(start, items, 9, U32(r.maxRoomSize));
      WriteNext(start, items, 10, U32(r.roomId));
      WriteNext(start, items, 11, U32(r.createTime));
      WriteNext(start, items, 12, U32(r.nodeLevel));
    }

    // Reading

    method ReadInteger(width: nat) returns (n: nat)
      requires Valid()
      modifies this`got, this`good
      ensures Valid() && Obeys(UnsignedKind(width), Unsigned(width, n), old(Rest()), old(good))
      ensures got == if good then old(got) + width else if old(good) then |data| else old(got)
    {
      var b := Get(width);
      n := Magnitude(b);
    }

    method ReadSigned(width: nat) returns (v: int)
      requires Valid()
      modifies this`got, this`good
      ensures Valid() && Obeys(SignedKind(width), Signed(width, v), old(Rest()), old(good))
    {
      var b := Get(width);
      var m := Magnitude(b);
      v := if 2 * m >= Span(width) then m - Span(width) else m;
    }

    method ReadBool() returns (value: bool)
      requires Valid()
      modifies this`got, this`good
      ensures Valid() && Obeys(FlagKind, Flag(value), old(Rest()), old(good))
    {
      var boolAsInt := ReadInteger(1);
      OneByte(old(Rest()));
      value := boolAsInt != 0;
    }

    method ReadString() returns (value: Narrow)
      requires Valid()
      modifies this`got, this`good
      ensures Valid() && Obeys(StrKind, Str(value), old(Rest()), old(good))
    {
      var length := ReadInteger(2);
      value := Get(length);
    }

    method ReadWideString() returns (value: Wide)
      requires Valid()
      modifies this`got, this`good
      ensures Valid() && Obeys(WideStrKind, WideStr(value), old(Rest()), old(good))
    {
      var length := ReadInteger(4);
      value := GetUnits(length);
    }

    method GetUnits(length: nat) returns (value: Wide)
      requires Valid()
      modifies this`got, this`good
      ensures Valid()
      ensures good <==> old(good) && Units(length, old(Rest())).Read?
      ensures good ==> Units(length, old(Rest())) == Read(value, Rest())
    {
      value := [];
      ghost var start, wasGood := Rest(), good;
      PrependNothing(Units(length, start));
      var i := 0;
      while i < length
        invariant 0 <= i <= length && Valid()
        invariant good ==> wasGood && Prepend(value, Units(length - i, Rest())) == Units(length, start)
        invariant !good ==> !wasGood || Units(length, start).Short?
      {
        ghost var before := Rest();
        var tmp := Get(2);
        UnitsNext(length - i, before, value);
        if good { value := value + [tmp[0] as int + 256 * tmp[1] as int]; }
        i := i + 1;
      }
      assert value + [] == value;
    }

    /** Reads at an offset; the reading position ends up behind the value. */
    method ReadIntegerAt(offset: nat, width: nat) returns (n: nat)
      requires Valid()
      modifies this`got, this`good
      ensures Valid()
      ensures good <==> old(good) && offset + width <= |data|
      ensures good ==> n == Magnitude(data[offset..offset + width]) && got == offset + width
      ensures !old(good) ==> got == old(got)
    {
      Seek(offset);
      ghost var before := Rest();
      n := ReadInteger(width);
      assert good ==> before[..width] == data[offset..offset + width];
    }

    method Seek(offset: nat)
      requires Valid()
      modifies this`got, this`good
      ensures Valid()
      ensures good <==> old(good) && offset <= |data|
      ensures got == if good then offset else old(got)
    {
      if good {
        if offset <= |data| { got := offset; } else { good := false; }
      }
    }

    /** Peeking keeps the reading position exactly if the value is there (or the stream had failed before). */
    method PeekInteger(offset: nat, width: nat) returns (n: nat)
      requires Valid()
      modifies this`got, this`good
      ensures Valid()
      ensures good <==> old(good) && offset + width <= |data|
      ensures good ==> n == Magnitude(data[offset..offset + width])
      ensures got == old(got) && good == old(good) <==> !old(good) || offset + width <= |data|
    {
      var pos := got;
      n := ReadIntegerAt(offset, width);
      Seek(pos);
    }

    /** The stream behaved as the decoder says: it succeeds exactly if the bytes suffice, and then
        gives the decoder's value and leaves the decoder's rest. */
    ghost predicate Obeys(kind: Kind, item: Item, before: Bytes, wasGood: bool)
      requires Valid()
      reads this
    {
      && (good <==> wasGood && Decode(kind, before).Read?)
      && (good ==> Decode(kind, before) == Read(item, Rest()))
    }
  }

  lemma {:induction false} UnitBytesStep(w: Wide, i: nat)
    requires i < |w|
    ensures UnitBytes(w[..i + 1]) == UnitBytes(w[..i]) + [w[i] % 256, w[i] / 256]
  {
    if i > 0 {
      UnitBytesStep(w[1..], i - 1);
      assert w[..i + 1][1..] == w[1..][..i] && w[..i][1..] == w[1..][..i - 1];
    }
  }

  lemma {:induction false} EncodeAllStep(items: seq<Item>, k: nat)
    requires k < |items| && AllTyped(items)
    ensures EncodeAll(items[..k + 1]) == EncodeAll(items[..k]) + Encode(items[k])
  {
    if k == 0 {
      assert EncodeAll(items[..1][1..]) == [];
    } else {
      var tail := items[1..];
      EncodeAllStep(tail, k - 1);
      assert items[..k + 1][1..] == tail[..k] && items[..k][1..] == tail[..k - 1];
      Vectors.Regroup(Encode(items[0]), EncodeAll(tail[..k - 1]), Encode(items[k]));
    }
  }

  lemma EncodeTwo(start: Bytes, a: Item, b: Item)
    requires Typed(a) && Typed(b)
    ensures start + EncodeAll([a, b]) == start + Encode(a) + Encode(b)
  {
    assert [a, b][1..] == [b] && [b][1..] == [];
    assert EncodeAll([b]) == Encode(b) + [] == Encode(b);
    Vectors.Regroup(start, Encode(a), Encode(b));
  }

  lemma SentStep(start: Bytes, items: seq<Item>, k: nat)
    requires k < |items| && AllTyped(items)
    ensures start + EncodeAll(items[..k + 1]) == start + EncodeAll(items[..k]) + Encode(items[k])
  {
    EncodeAllStep(items, k);
    Vectors.Regroup(start, EncodeAll(items[..k]), Encode(items[k]));
  }

  lemma {:induction false} EncodeRecordsAppend(records: seq<seq<Item>>, k: nat)
    requires k < |records| && forall i :: 0 <= i < |records| ==> AllTyped(records[i])
    ensures EncodeRecords(records[..k + 1]) == EncodeRecords(records[..k]) + EncodeAll(records[k])
  {
    if k == 0 {
      assert EncodeRecords(records[..1][1..]) == [];
    } else {
      var tail := records[1..];
      EncodeRecordsAppend(tail, k - 1);
      assert records[..k + 1][1..] == tail[..k] && records[..k][1..] == tail[..k - 1];
      Vectors.Regroup(EncodeAll(records[0]), EncodeRecords(tail[..k - 1]), EncodeAll(records[k]));
    }
  }

  lemma EncodeRecordsStep(front: Bytes, records: seq<seq<Item>>, k: nat)
    requires k < |records| && forall i :: 0 <= i < |records| ==> AllTyped(records[i])
    ensures front + EncodeRecords(records[..k + 1]) == front + EncodeRecords(records[..k]) + EncodeAll(records[k])
  {
    EncodeRecordsAppend(records, k);
    Vectors.Regroup(front, EncodeRecords(records[..k]), EncodeAll(records[k]));
  }

  lemma {:induction false} EncodeListsAppend(lists: seq<seq<AvatarRecord>>, k: nat)
    requires k < |lists|
    ensures EncodeLists(lists[..k + 1]) == EncodeLists(lists[..k]) + EncodeList(ListItems(lists[k]))
  {
    if k == 0 {
      assert EncodeLists(lists[..1][1..]) == [];
    } else {
      var tail := lists[1..];
      EncodeListsAppend(tail, k - 1);
      assert lists[..k + 1][1..] == tail[..k] && lists[..k][1..] == tail[..k - 1];
      Vectors.Regroup(EncodeList(ListItems(lists[0])), EncodeLists(tail[..k - 1]), EncodeList(ListItems(lists[k])));
    }
  }

  lemma EncodeListsStep(start: Bytes, lists: seq<seq<AvatarRecord>>, k: nat)
    requires k < |lists|
    ensures start + EncodeLists(lists[..k + 1]) == start + EncodeLists(lists[..k]) + EncodeList(ListItems(lists[k]))
  {
    EncodeListsAppend(lists, k);
    Vectors.Regroup(start, EncodeLists(lists[..k]), EncodeList(ListItems(lists[k])));
  }

  function Prepend(w: Wide, d: Decoded<Wide>): Decoded<Wide> {
    match d
    case Short => Short
    case Read(v, rest) => Read(w + v, rest)
  }

  lemma PrependNothing(d: Decoded<Wide>)
    ensures Prepend([], d) == d
  {
    if d.Read? { assert [] + d.value == d.value; }
  }

  lemma UnitsNext(n: nat, b: Bytes, w: Wide)
    requires n > 0
    ensures |b| < 2 ==> Units(n, b).Short?
    ensures |b| >= 2 ==> Prepend(w, Units(n, b)) == Prepend(w + [b[0] as int + 256 * b[1] as int], Units(n - 1, b[2..]))
  {
    if |b| >= 2 && Units(n - 1, b[2..]).Read? {
      var u, v := b[0] as int + 256 * b[1] as int, Units(n - 1, b[2..]).value;
      assert w + ([u] + v) == w + [u] + v;
    }
  }

  lemma OneByte(b: Bytes)
    ensures b != [] ==> Magnitude(b[..1]) == b[0] as int
  {
    if b != [] { assert b[..1][1..] == []; }
  }

  lemma Behind(start: Bytes, b: Bytes)
    ensures (start + b)[|start|..] == b
  {
  }
}
