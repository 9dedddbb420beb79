/** Where each field stands in a record, as a reader that knows only the kinds of the fields gets them. */
module WireLayout {
  import opened Text
  import opened WireFormat
  import opened WireRecords

  const FRIEND_KINDS: seq<Kind> := [WideStrKind, WideStrKind, WideStrKind, SignedKind(2)]

  const IGNORE_KINDS: seq<Kind> := [WideStrKind, WideStrKind]

  /** A text as it arrives: cut if its length does not fit 32 bits. */
  function Arrived(w: Wide): Item {
    WideStr(w[..|w| % WORD_SPAN])
  }

  /** Avatar id, user id, name, address, attributes, login location, server, gateway and the ids of both. */
  predicate AvatarSays(items: seq<Item>, a: AvatarRecord) {
    && |items| == 10
    && items[0] == Unsigned(4, a.avatarId) && items[1] == Unsigned(4, a.userId)
    && items[2] == Arrived(a.name) && items[3] == Arrived(a.address)
    && items[4] == Unsigned(4, a.attributes) && items[5] == Arrived(a.loginLocation)
    && items[6] == Arrived(a.server) && items[7] == Arrived(a.gateway)
    && items[8] == Unsigned(4, a.serverId) && items[9] == Unsigned(4, a.gatewayId)
  }

  /** Name, address, comment, and 1 or 0 for online or not. */
  predicate FriendSays(items: seq<Item>, f: FriendRecord) {
    && |items| == 4
    && items[0] == Arrived(f.frnd.name) && items[1] == Arrived(f.frnd.address) && items[2] == Arrived(f.comment)
    && items[3] == Signed(2, if f.frnd.isOnline then 1 else 0)
  }

  predicate IgnoreSays(items: seq<Item>, ignored: AvatarRecord) {
    |items| == 2 && items[0] == Arrived(ignored.name) && items[1] == Arrived(ignored.address)
  }

  predicate ListSays(records: seq<seq<Item>>, avatars: seq<AvatarRecord>) {
    |records| == |avatars| && forall i :: 0 <= i < |avatars| ==> AvatarSays(records[i], avatars[i])
  }

  /** Creator, names and addresses, attributes and numbers of a room. */
  predicate FieldsSay(items: seq<Item>, r: RoomRecord) {
    && |items| == 13
    && items[0] == Arrived(r.creatorName) && items[1] == Arrived(r.creatorAddress)
    && items[2] == Unsigned(4, r.creatorId)
    && items[3] == Arrived(r.roomName) && items[4] == Arrived(r.roomTopic) && items[5] == Arrived(r.roomPrefix)
    && items[6] == Arrived(r.roomAddress) && items[7] == Arrived(r.roomPassword)
    && items[8] == Unsigned(4, r.roomAttributes) && items[9] == Unsigned(4, r.maxRoomSize)
    && items[10] == Unsigned(4, r.roomId) && items[11] == Unsigned(4, r.createTime)
    && items[12] == Unsigned(4, r.nodeLevel)
  }

  /** Occupants, administrators, moderators, temporary moderators, banned, invited, and who has voice. */
  predicate ListsSay(lists: seq<seq<seq<Item>>>, r: RoomRecord) {
    && |lists| == 7
    && ListSays(lists[0], r.avatars) && ListSays(lists[1], r.administrators) && ListSays(lists[2], r.moderators)
    && ListSays(lists[3], r.tempModerators) && ListSays(lists[4], r.banned) && ListSays(lists[5], r.invited)
    && ListSays(lists[6], r.voice)
  }

  // The same of bytes

  predicate AvatarReads(b: Bytes, a: AvatarRecord) {
    var d := DecodeAll(AVATAR_KINDS, b);
    d.Read? && d.rest == [] && AvatarSays(d.value, a)
  }

  predicate FriendReads(b: Bytes, f: FriendRecord) {
    var d := DecodeAll(FRIEND_KINDS, b);
    d.Read? && d.rest == [] && FriendSays(d.value, f)
  }

  predicate IgnoreReads(b: Bytes, ignored: AvatarRecord) {
    var d := DecodeAll(IGNORE_KINDS, b);
    d.Read? && d.rest == [] && IgnoreSays(d.value, ignored)
  }

  predicate RoomReads(b: Bytes, r: RoomRecord) {
    var d := DecodeRoom(b);
    d.Read? && d.rest == [] && FieldsSay(d.value.items, r) && ListsSay(d.value.lists, r)
  }

  lemma {:induction false} CutAt(items: seq<Item>)
    ensures |CutAll(items)| == |items| && forall i :: 0 <= i < |items| ==> CutAll(items)[i] == Cut(items[i])
  {
    if items != [] { CutAt(items[1..]); }
  }

  lemma CutAvatarSays(a: AvatarRecord)
    ensures AvatarSays(CutAll(AvatarItems(a)), a)
  {
    CutAt(AvatarItems(a));
  }

  lemma AvatarLayout(a: AvatarRecord)
    ensures AvatarReads(EncodeAll(AvatarItems(a)), a)
  {
    var b := EncodeAll(AvatarItems(a));
    AvatarKinds(a);
    RecordReadsBack(AvatarItems(a), []);
    assert b + [] == b;
    CutAvatarSays(a);
  }

  lemma FriendLayout(f: FriendRecord)
    ensures FriendReads(EncodeAll(FriendItems(f)), f)
  {
    var b := EncodeAll(FriendItems(f));
    KindsAt(FriendItems(f));
    assert KindsOf(FriendItems(f)) == FRIEND_KINDS;
    RecordReadsBack(FriendItems(f), []);
    assert b + [] == b;
    CutAt(FriendItems(f));
  }

  lemma IgnoreLayout(ignored: AvatarRecord)
    ensures IgnoreReads(EncodeAll(IgnoreItems(ignored)), ignored)
  {
    var b := EncodeAll(IgnoreItems(ignored));
    KindsAt(IgnoreItems(ignored));
    assert KindsOf(IgnoreItems(ignored)) == IGNORE_KINDS;
    RecordReadsBack(IgnoreItems(ignored), []);
    assert b + [] == b;
    CutAt(IgnoreItems(ignored));
  }

  lemma {:induction false} CutRecordsAt(records: seq<seq<Item>>)
    ensures |CutRecords(records)| == |records|
    ensures forall i :: 0 <= i < |records| ==> CutRecords(records)[i] == CutAll(records[i])
  {
    if records != [] { CutRecordsAt(records[1..]); }
  }

  lemma CutListSays(avatars: seq<AvatarRecord>)
    ensures ListSays(CutRecords(ListItems(avatars)), avatars)
  {
    CutRecordsAt(ListItems(avatars));
    forall i | 0 <= i < |avatars| ensures AvatarSays(CutRecords(ListItems(avatars))[i], avatars[i]) {
      CutAvatarSays(avatars[i]);
    }
  }

  lemma CutFieldsSay(r: RoomRecord)
    ensures FieldsSay(CutAll(RoomItems(r)), r)
  {
    CutAt(RoomItems(r));
  }

  lemma CutListsSay(r: RoomRecord)
    ensures ListsSay(CutLists(RoomLists(r)), r)
  {
    CutListsSayEach(RoomLists(r));
  }

  lemma CutListsSayEach(lists: seq<seq<AvatarRecord>>)
    ensures |CutLists(lists)| == |lists|
    ensures forall i :: 0 <= i < |lists| ==> ListSays(CutLists(lists)[i], lists[i])
  {
    forall i | 0 <= i < |lists| ensures ListSays(CutLists(lists)[i], lists[i]) {
      CutListSays(lists[i]);
    }
  }

  /** Every field and every list of a room arrives in its place. */
  lemma RoomLayout(r: RoomRecord)
    requires ListsFit(r)
    ensures RoomReads(EncodeRoom(r), r)
  {
    RoomReadsBack(r, []);
    assert EncodeRoom(r) + [] == EncodeRoom(r);
    CutFieldsSay(r);
    CutListsSay(r);
  }
}
