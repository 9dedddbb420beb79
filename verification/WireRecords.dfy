/** The records the server sends: avatars, contacts and rooms, field by field. */
module WireRecords {
  import opened Text
  import Vectors
  import opened WireFormat

  type Word = x: nat | x < 0x1_0000_0000

  /** What the getters of an avatar return when it is written. */
  datatype AvatarRecord =
    AvatarRecord(avatarId: Word, userId: Word, name: Wide, address: Wide, attributes: Word, loginLocation: Wide,
                 server: Wide, gateway: Wide, serverId: Word, gatewayId: Word, isOnline: bool)

  datatype FriendRecord = FriendRecord(frnd: AvatarRecord, comment: Wide)

  datatype RoomRecord =
    RoomRecord(creatorName: Wide, creatorAddress: Wide, creatorId: Word, roomName: Wide, roomTopic: Wide,
               roomPrefix: Wide,
               roomAddress: Wide, roomPassword: Wide, roomAttributes: Word, maxRoomSize: Word, roomId: Word,
               createTime: Word, nodeLevel: Word,
               avatars: seq<AvatarRecord>, administrators: seq<AvatarRecord>, moderators: seq<AvatarRecord>,
               tempModerators: seq<AvatarRecord>, banned: seq<AvatarRecord>, invited: seq<AvatarRecord>,
               voice: seq<AvatarRecord>)

  function U32(n: Word): (item: Item)
    ensures Typed(item) && Fits(item)
  {
    Unsigned(4, n)
  }

  /** The ten fields of an avatar on the wire; whether it is online is not among them. */
  function AvatarItems(a: AvatarRecord): (items: seq<Item>)
    ensures |items| == 10 && AllTyped(items)
  {
    [U32(a.avatarId), U32(a.userId), WideStr(a.name), WideStr(a.address), U32(a.attributes),
     WideStr(a.loginLocation), WideStr(a.server), WideStr(a.gateway), U32(a.serverId), U32(a.gatewayId)]
  }

  function FriendItems(f: FriendRecord): (items: seq<Item>)
    ensures |items| == 4 && AllTyped(items)
  {
    [WideStr(f.frnd.name), WideStr(f.frnd.address), WideStr(f.comment), Signed(2, if f.frnd.isOnline then 1 else 0)]
  }

  function IgnoreItems(ignored: AvatarRecord): (items: seq<Item>)
    ensures |items| == 2 && AllTyped(items)
  {
    [WideStr(ignored.name), WideStr(ignored.address)]
  }

  function RoomItems(r: RoomRecord): (items: seq<Item>)
    ensures |items| == 13 && AllTyped(items)
  {
    [WideStr(r.creatorName), WideStr(r.creatorAddress), U32(r.creatorId), WideStr(r.roomName), WideStr(r.roomTopic),
     WideStr(r.roomPrefix), WideStr(r.roomAddress), WideStr(r.roomPassword), U32(r.roomAttributes), U32(r.maxRoomSize),
     U32(r.roomId), U32(r.createTime), U32(r.nodeLevel)]
  }

  function RoomLists(r: RoomRecord): (lists: seq<seq<AvatarRecord>>)
    ensures |lists| == 7
  {
    [r.avatars, r.administrators, r.moderators, r.tempModerators, r.banned, r.invited, r.voice]
  }

  function ListItems(avatars: seq<AvatarRecord>): (records: seq<seq<Item>>)
    ensures |records| == |avatars| && forall i :: 0 <= i < |avatars| ==> records[i] == AvatarItems(avatars[i])
  {
    if avatars == [] then [] else [AvatarItems(avatars[0])] + ListItems(avatars[1..])
  }

  function EncodeLists(lists: seq<seq<AvatarRecord>>): Bytes {
    if lists == [] then [] else EncodeList(ListItems(lists[0])) + EncodeLists(lists[1..])
  }

  function EncodeRoom(r: RoomRecord): Bytes {
    EncodeAll(RoomItems(r)) + EncodeLists(RoomLists(r))
  }

  const AVATAR_KINDS: seq<Kind> :=
    [UnsignedKind(4), UnsignedKind(4), WideStrKind, WideStrKind, UnsignedKind(4),
     WideStrKind, WideStrKind, WideStrKind, UnsignedKind(4), UnsignedKind(4)]

  const ROOM_KINDS: seq<Kind> :=
    [WideStrKind, WideStrKind, UnsignedKind(4), WideStrKind, WideStrKind, WideStrKind, WideStrKind, WideStrKind,
     UnsignedKind(4), UnsignedKind(4), UnsignedKind(4), UnsignedKind(4), UnsignedKind(4)]

  function DecodeLists(n: nat, b: Bytes): Decoded<seq<seq<seq<Item>>>> {
    if n == 0 then Read([], b)
    else match DecodeList(AVATAR_KINDS, b)
         case Short => Short
         case Read(list, rest) =>
           match DecodeLists(n - 1, rest)
           case Short => Short
           case Read(lists, after) => Read([list] + lists, after)
  }

  datatype RoomFields = RoomFields(items: seq<Item>, lists: seq<seq<seq<Item>>>)

  /** A reader that knows nothing but the order of the fields. */
  function DecodeRoom(b: Bytes): Decoded<RoomFields> {
    match DecodeAll(ROOM_KINDS, b)
    case Short => Short
    case Read(items, rest) =>
      match DecodeLists(7, rest)
      case Short => Short
      case Read(lists, after) => Read(RoomFields(items, lists), after)
  }

  predicate ListFits(avatars: seq<AvatarRecord>) {
    |avatars| < WORD_SPAN && forall i :: 0 <= i < |avatars| ==> AllFit(AvatarItems(avatars[i]))
  }

  /** No text and no list is longer than its 32-bit count can say. */
  predicate RoomFits(r: RoomRecord) {
    AllFit(RoomItems(r)) && forall i :: 0 <= i < 7 ==> ListFits(RoomLists(r)[i])
  }

  lemma {:induction false} KindsAt(items: seq<Item>)
    ensures |KindsOf(items)| == |items| && forall i :: 0 <= i < |items| ==> KindsOf(items)[i] == KindOf(items[i])
  {
    if items != [] { KindsAt(items[1..]); }
  }

  lemma AvatarKinds(a: AvatarRecord)
    ensures KindsOf(AvatarItems(a)) == AVATAR_KINDS
  {
    KindsAt(AvatarItems(a));
  }

  lemma RoomKinds(r: RoomRecord)
    ensures KindsOf(RoomItems(r)) == ROOM_KINDS
  {
    KindsAt(RoomItems(r));
  }

  lemma ListShaped(avatars: seq<AvatarRecord>)
    ensures Shaped(AVATAR_KINDS, ListItems(avatars))
  {
    forall i | 0 <= i < |avatars| ensures KindsOf(ListItems(avatars)[i]) == AVATAR_KINDS {
      AvatarKinds(avatars[i]);
    }
  }

  lemma AvatarListReadsBack(avatars: seq<AvatarRecord>, rest: Bytes)
    requires |avatars| < WORD_SPAN
    ensures DecodeList(AVATAR_KINDS, EncodeList(ListItems(avatars)) + rest) ==
              Read(CutRecords(ListItems(avatars)), rest)
  {
    ListShaped(avatars);
    WholeListReadsBack(AVATAR_KINDS, ListItems(avatars), rest);
  }

  function AllListItems(lists: seq<seq<AvatarRecord>>): (r: seq<seq<seq<Item>>>)
    ensures |r| == |lists| && forall i :: 0 <= i < |lists| ==> r[i] == ListItems(lists[i])
  {
    if lists == [] then [] else [ListItems(lists[0])] + AllListItems(lists[1..])
  }

  lemma DecodeListsStep(n: nat, b: Bytes, list: seq<seq<Item>>, rest: Bytes, lists: seq<seq<seq<Item>>>, after: Bytes)
    requires DecodeList(AVATAR_KINDS, b) == Read(list, rest) && DecodeLists(n, rest) == Read(lists, after)
    ensures DecodeLists(n + 1, b) == Read([list] + lists, after)
  {
  }

  /** What reading the lists gives back: over-long texts come cut. */
  function CutLists(lists: seq<seq<AvatarRecord>>): (r: seq<seq<seq<Item>>>)
    ensures |r| == |lists| && forall i :: 0 <= i < |lists| ==> r[i] == CutRecords(ListItems(lists[i]))
  {
    if lists == [] then [] else [CutRecords(ListItems(lists[0]))] + CutLists(lists[1..])
  }

  lemma {:induction false} ListsReadBack(lists: seq<seq<AvatarRecord>>, rest: Bytes)
    requires forall i :: 0 <= i < |lists| ==> |lists[i]| < WORD_SPAN
    ensures DecodeLists(|lists|, EncodeLists(lists) + rest) == Read(CutLists(lists), rest)
  {
    if lists == [] {
      assert EncodeLists(lists) + rest == rest;
    } else {
      var tail := lists[1..];
      var back := EncodeLists(tail) + rest;
      Vectors.Regroup(EncodeList(ListItems(lists[0])), EncodeLists(tail), rest);
      AvatarListReadsBack(lists[0], back);
      ListsReadBack(tail, rest);
      DecodeListsStep(|tail|, EncodeList(ListItems(lists[0])) + back, CutRecords(ListItems(lists[0])), back,
                      CutLists(tail), rest);
    }
  }

  /** No list is longer than its 32-bit count can say. */
  predicate ListsFit(r: RoomRecord) {
    forall i :: 0 <= i < 7 ==> |RoomLists(r)[i]| < WORD_SPAN
  }

  /** A room record reads back by field order alone, whatever follows it; only over-long texts come cut. */
  lemma RoomReadsBack(r: RoomRecord, rest: Bytes)
    requires ListsFit(r)
    ensures DecodeRoom(EncodeRoom(r) + rest) == Read(RoomFields(CutAll(RoomItems(r)), CutLists(RoomLists(r))), rest)
  {
    var lists := EncodeLists(RoomLists(r));
    RoomKinds(r);
    Vectors.Regroup(EncodeAll(RoomItems(r)), lists, rest);
    RecordReadsBack(RoomItems(r), lists + rest);
    ListsReadBack(RoomLists(r), rest);
  }

  /** Without over-long texts it reads back whole. */
  lemma FittingRoomReadsBack(r: RoomRecord, rest: Bytes)
    requires RoomFits(r)
    ensures DecodeRoom(EncodeRoom(r) + rest) == Read(RoomFields(RoomItems(r), AllListItems(RoomLists(r))), rest)
  {
    RoomReadsBack(r, rest);
    FittingItemsStay(RoomItems(r));
    forall i | 0 <= i < 7 ensures CutLists(RoomLists(r))[i] == AllListItems(RoomLists(r))[i] {
      FittingRecordsStay(ListItems(RoomLists(r)[i]));
    }
    assert CutLists(RoomLists(r)) == AllListItems(RoomLists(r));
  }

  /** Of an avatar, a record holds everything but the online mark. */
  predicate SameOnWire(a: AvatarRecord, b: AvatarRecord) {
    a == b.(isOnline := a.isOnline)
  }

  lemma AvatarItemsSay(a: AvatarRecord, b: AvatarRecord)
    ensures AvatarItems(a) == AvatarItems(b) <==> SameOnWire(a, b)
  {
    var x, y := AvatarItems(a), AvatarItems(b);
    if x == y {
      assert x[0] == y[0] && x[1] == y[1] && x[2] == y[2] && x[3] == y[3] && x[4] == y[4];
      assert x[5] == y[5] && x[6] == y[6] && x[7] == y[7] && x[8] == y[8] && x[9] == y[9];
    }
  }

  predicate SameLists(a: seq<AvatarRecord>, b: seq<AvatarRecord>) {
    |a| == |b| && forall i :: 0 <= i < |a| ==> SameOnWire(a[i], b[i])
  }

  lemma ListItemsSay(a: seq<AvatarRecord>, b: seq<AvatarRecord>)
    requires ListItems(a) == ListItems(b)
    ensures SameLists(a, b)
  {
    forall i | 0 <= i < |a| ensures SameOnWire(a[i], b[i]) {
      assert ListItems(a)[i] == ListItems(b)[i];
      AvatarItemsSay(a[i], b[i]);
    }
  }

  /** Room `b` with the lists of room `a`. */
  function WithLists(b: RoomRecord, a: RoomRecord): RoomRecord {
    b.(avatars := a.avatars, administrators := a.administrators, moderators := a.moderators,
       tempModerators := a.tempModerators, banned := a.banned, invited := a.invited, voice := a.voice)
  }

  lemma RoomItemsSay(a: RoomRecord, b: RoomRecord)
    requires RoomItems(a) == RoomItems(b)
    ensures a == WithLists(b, a)
  {
    var x, y := RoomItems(a), RoomItems(b);
    assert x[0] == y[0] && x[1] == y[1] && x[2] == y[2] && x[3] == y[3] && x[4] == y[4] && x[5] == y[5] && x[6] == y[6];
    assert x[7] == y[7] && x[8] == y[8] && x[9] == y[9] && x[10] == y[10] && x[11] == y[11] && x[12] == y[12];
  }

  /** Two rooms that look alike on the wire, whatever follows them, are alike in every field and list. */
  lemma RoomsAreUnambiguous(a: RoomRecord, b: RoomRecord, restA: Bytes, restB: Bytes)
    requires RoomFits(a) && RoomFits(b) && EncodeRoom(a) + restA == EncodeRoom(b) + restB
    ensures restA == restB && a == WithLists(b, a)
    ensures forall i :: 0 <= i < 7 ==> SameLists(RoomLists(a)[i], RoomLists(b)[i])
  {
    FittingRoomReadsBack(a, restA);
    FittingRoomReadsBack(b, restB);
    RoomItemsSay(a, b);
    forall i | 0 <= i < 7 ensures SameLists(RoomLists(a)[i], RoomLists(b)[i]) {
      assert AllListItems(RoomLists(a))[i] == AllListItems(RoomLists(b))[i];
      ListItemsSay(RoomLists(a)[i], RoomLists(b)[i]);
    }
  }
}
