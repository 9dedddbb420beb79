/** Chat rooms as kept in memory: lists of avatars searched and erased by id. */
module ChatRooms {
  import opened ChatAvatars
  import opened Text
  import opened Vectors
  import R = RoomRules

  /** The role tables, as pairs of avatar and room.  The server may turn any statement down. */
  class ChatRoomService {
    var banRows: set<(nat, nat)>
    var administratorRows: set<(nat, nat)>
    var moderatorRows: set<(nat, nat)>

    method PersistBanned(bannedId: nat, roomId: nat, accepts: bool) returns (ok: bool)
      modifies this`banRows
      ensures ok == accepts && banRows == if ok then old(banRows) + {(bannedId, roomId)} else old(banRows)
    {
      ok := accepts;
      if ok { banRows := banRows + {(bannedId, roomId)}; }
    }

    method DeleteBanned(bannedId: nat, roomId: nat, accepts: bool) returns (ok: bool)
      modifies this`banRows
      ensures ok == accepts && banRows == if ok then old(banRows) - {(bannedId, roomId)} else old(banRows)
    {
      ok := accepts;
      if ok { banRows := banRows - {(bannedId, roomId)}; }
    }

    method DeleteAdministrator(administratorId: nat, roomId: nat, accepts: bool) returns (ok: bool)
      modifies this`administratorRows
      ensures ok == accepts
      ensures administratorRows == if ok then old(administratorRows) - {(administratorId, roomId)}
                else old(administratorRows)
    {
      ok := accepts;
      if ok { administratorRows := administratorRows - {(administratorId, roomId)}; }
    }

    method DeleteModerator(moderatorId: nat, roomId: nat, accepts: bool) returns (ok: bool)
      modifies this`moderatorRows
      ensures ok == accepts
      ensures moderatorRows == if ok then old(moderatorRows) - {(moderatorId, roomId)} else old(moderatorRows)
    {
      ok := accepts;
      if ok { moderatorRows := moderatorRows - {(moderatorId, roomId)}; }
    }
  }

  ghost function RowsOf(rows: set<(nat, nat)>, roomId: nat): (ids: set<nat>)
    ensures forall a :: a in ids <==> (a, roomId) in rows
  {
    set p | p in rows && p.1 == roomId :: p.0
  }

  method Finds(list: seq<ChatAvatar>, id: nat) returns (found: bool)
    ensures found <==> HasKey(list, IdOf, id)
  {
    var i := 0;
    while i < |list|
      invariant 0 <= i <= |list|
      invariant forall j :: 0 <= j < i ==> IdOf(list[j]) != id
    {
      if IdOf(list[i]) == id { return true; }
      i := i + 1;
    }
    return false;
  }

  /** Rows of other rooms are left alone. */
  ghost predicate SameElsewhere(before: set<(nat, nat)>, after: set<(nat, nat)>, roomId: nat) {
    forall a, r :: r != roomId ==> ((a, r) in before <==> (a, r) in after)
  }

  lemma PushedKeys(list: seq<ChatAvatar>, a: ChatAvatar)
    requires DistinctKeys(list, IdOf) && !HasKey(list, IdOf, a.avatarId)
    ensures DistinctKeys(list + [a], IdOf) && Keys(list + [a], IdOf) == Keys(list, IdOf) + {a.avatarId}
  {
    AppendKeys(list, IdOf, a);
  }

  lemma ErasedKeys(list: seq<ChatAvatar>, id: nat)
    requires DistinctKeys(list, IdOf)
    ensures |Kept(list, IdOf, id)| < |list| <==> HasKey(list, IdOf, id)
    ensures |Kept(list, IdOf, id)| < |list| ==> EraseOne(list, IdOf, id) == Kept(list, IdOf, id)
    ensures !HasKey(list, IdOf, id) ==> Kept(list, IdOf, id) == list
    ensures DistinctKeys(Kept(list, IdOf, id), IdOf) && Keys(Kept(list, IdOf, id), IdOf) == Keys(list, IdOf) - {id}
  {
    RemovalFacts(list, IdOf, id);
    KeptKeys(list, IdOf, id);
  }

  /** Two checks and a statement, in this order: the first that fails says how the call ends. */
  ghost predicate Ends(outcome: R.Outcome, allowed: bool, denial: R.Code, sensible: bool, objection: R.Code,
                       turnedDown: bool)
  {
    && (outcome == R.Refused(denial) <==> !allowed)
    && (outcome == R.Refused(objection) <==> allowed && !sensible)
    && (outcome == R.DatabaseFailed <==> allowed && sensible && turnedDown)
    && (outcome == R.Done <==> allowed && sensible && !turnedDown)
  }

  class ChatRoom {
    const roomService: ChatRoomService
    const roomId: nat
    const creatorId: nat
    const creatorAddress: Wide
    const roomPassword: Wide
    const roomAttributes: nat
    var avatars: seq<ChatAvatar>
    var administrators: seq<ChatAvatar>
    var moderators: seq<ChatAvatar>
    var banned: seq<ChatAvatar>
    var invited: seq<ChatAvatar>

    constructor (roomService: ChatRoomService, roomId: nat, creator: ChatAvatar, roomPassword: Wide,
                 roomAttributes: nat)
      ensures this.roomService == roomService && this.roomId == roomId && creatorId == creator.avatarId
      ensures creatorAddress == creator.address && this.roomPassword == roomPassword &&
              this.roomAttributes == roomAttributes
      ensures Valid() && View() == R.Created(Rules(), RowsOf(roomService.banRows, roomId))
      ensures administrators == [creator] && moderators == [creator] && avatars == [] && banned == [] && invited == []
    {
      this.roomService, this.roomId, creatorId, creatorAddress := roomService, roomId, creator.avatarId,
          creator.address;
      this.roomPassword, this.roomAttributes := roomPassword, roomAttributes;
      avatars, administrators, moderators, banned, invited := [], [creator], [creator], [], [];
      new;
      assert Keys([creator], IdOf) == {creator.avatarId} by {
        assert IdOf([creator][0]) == creator.avatarId;
      }
    }

    predicate IsPrivate() { roomAttributes % 2 == 1 }

    predicate IsPersistent() { roomAttributes / 4 % 2 == 1 }

    ghost function Rules(): R.Rules {
      R.Rules(creatorId, roomPassword, IsPrivate(), IsPersistent())
    }

    /** No list holds an id twice, so erasing one matching iterator removes the avatar. */
    ghost predicate Valid()
      reads this
    {
      && DistinctKeys(avatars, IdOf) && DistinctKeys(administrators, IdOf) && DistinctKeys(moderators, IdOf)
      && DistinctKeys(banned, IdOf) && DistinctKeys(invited, IdOf)
    }

    /** The room as sets of ids. */
    ghost function View(): R.Room
      reads this, roomService
    {
      R.Room(Keys(avatars, IdOf), Keys(administrators, IdOf), Keys(moderators, IdOf), Keys(banned, IdOf),
             Keys(invited, IdOf), RowsOf(roomService.banRows, roomId))
    }

    /** The call ended as the rules say, and left the room as they say. */
    ghost predicate Obeys(before: R.Room, op: R.Op, accepts: bool, outcome: R.Outcome)
      reads this, roomService
    {
      var step := R.Step(op, accepts);
      Valid() && outcome == R.OutcomeOf(Rules(), before, step) && View() == R.After(Rules(), before, step)
    }

    method IsInRoom(avatarId: nat) returns (found: bool)
      ensures found <==> avatarId in View().occupants
    {
      found := Finds(avatars, avatarId);
    }

    method IsModerator(avatarId: nat) returns (found: bool)
      ensures found <==> avatarId in View().moderators
    {
      found := Finds(moderators, avatarId);
    }

    method IsAdministrator(avatarId: nat) returns (found: bool)
      ensures found <==> avatarId in View().administrators
    {
      found := Finds(administrators, avatarId);
    }

    method IsBanned(avatarId: nat) returns (found: bool)
      ensures found <==> avatarId in View().banned
    {
      found := Finds(banned, avatarId);
    }

    method IsInvited(avatarId: nat) returns (found: bool)
      ensures found <==> avatarId in View().invited
    {
      found := Finds(invited, avatarId);
    }

    method EnterRoom(avatar: ChatAvatar, password: Wide) returns (outcome: R.Outcome)
      requires Valid()
      modifies this`avatars
      ensures forall accepts :: Obeys(old(View()), R.Enter(avatar.avatarId, password), accepts, outcome)
      ensures avatars == if outcome == R.Done then old(avatars) + [avatar] else old(avatars)
      ensures var id, right := avatar.avatarId, roomPassword == [] || roomPassword == password;
              var isBanned, isInside := HasKey(banned, IdOf, id), HasKey(old(avatars), IdOf, id);
              var isWelcome := !IsPrivate() || id == creatorId || HasKey(invited, IdOf, id);
              && (outcome == R.Refused(R.PrivateRoom) <==> !right || (!isBanned && !isInside && !isWelcome))
              && (outcome == R.Refused(R.BannedAvatar) <==> right && isBanned)
              && (outcome == R.Refused(R.AlreadyInRoom) <==> right && !isBanned && isInside)
              && (outcome == R.Done <==> right && !isBanned && !isInside && isWelcome)
    {
      if roomPassword != [] && roomPassword != password { return R.Refused(R.PrivateRoom); }
      var isBanned := IsBanned(avatar.avatarId);
      if isBanned { return R.Refused(R.BannedAvatar); }
      var isInRoom := IsInRoom(avatar.avatarId);
      if isInRoom { return R.Refused(R.AlreadyInRoom); }
      var isInvited := IsInvited(avatar.avatarId);
      if IsPrivate() && avatar.avatarId != creatorId && !isInvited { return R.Refused(R.PrivateRoom); }
      PushedKeys(avatars, avatar);
      avatars := avatars + [avatar];
      return R.Done;
    }

    method LeaveRoom(avatar: ChatAvatar)
      requires Valid()
      modifies this`avatars
      ensures forall accepts :: Obeys(old(View()), R.Leave(avatar.avatarId), accepts, R.Done)
      ensures avatars == Kept(old(avatars), IdOf, avatar.avatarId)
    {
      ErasedKeys(avatars, avatar.avatarId);
      if |Kept(avatars, IdOf, avatar.avatarId)| < |avatars| {
        avatars := EraseOne(avatars, IdOf, avatar.avatarId);
      }
    }

    method KickAvatar(srcAvatarId: nat, destAvatar: ChatAvatar) returns (outcome: R.Outcome)
      requires Valid()
      modifies this`avatars
      ensures forall accepts :: Obeys(old(View()), R.Kick(srcAvatarId, destAvatar.avatarId), accepts, outcome)
      ensures avatars == if outcome == R.Done then Kept(old(avatars), IdOf, destAvatar.avatarId) else old(avatars)
      ensures Ends(outcome, HasKey(moderators, IdOf, srcAvatarId), R.NoPrivileges,
                   HasKey(old(avatars), IdOf, destAvatar.avatarId), R.NotInRoom, false)
    {
      var isModerator := IsModerator(srcAvatarId);
      if !isModerator { return R.Refused(R.NoPrivileges); }
      var isInRoom := IsInRoom(destAvatar.avatarId);
      if !isInRoom { return R.Refused(R.NotInRoom); }
      ghost var before := View();
      LeaveRoom(destAvatar);
      assert Obeys(before, R.Leave(destAvatar.avatarId), true, R.Done);
      return R.Done;
    }

    method AddAdministrator(srcAvatarId: nat, administrator: ChatAvatar, accepts: bool) returns (outcome: R.Outcome)
      requires Valid()
      modifies this`administrators, roomService`banRows
      ensures Obeys(old(View()), R.AddAdministrator(srcAvatarId, administrator.avatarId), accepts, outcome)
      ensures administrators == if outcome.Refused? || HasKey(old(administrators), IdOf, administrator.avatarId)
                                then old(administrators) else old(administrators) + [administrator]
      ensures SameElsewhere(old(roomService.banRows), roomService.banRows, roomId)
      ensures outcome == R.Refused(R.NoPrivileges) <==> srcAvatarId != creatorId
      ensures outcome == R.DatabaseFailed <==>
                && srcAvatarId == creatorId && !HasKey(old(administrators), IdOf, administrator.avatarId)
                && IsPersistent() && !accepts
      ensures outcome.Refused? ==> outcome.code == R.NoPrivileges
    {
      if srcAvatarId != creatorId { return R.Refused(R.NoPrivileges); }
      var isAdministrator := IsAdministrator(administrator.avatarId);
      if !isAdministrator {
        PushedKeys(administrators, administrator);
        administrators := administrators + [administrator];
        if IsPersistent() {
          var ok := roomService.PersistBanned(administrator.avatarId, roomId, accepts);
          if !ok { return R.DatabaseFailed; }
        }
      }
      return R.Done;
    }

    method AddModerator(srcAvatarId: nat, moderator: ChatAvatar, accepts: bool) returns (outcome: R.Outcome)
      requires Valid()
      modifies this`moderators, roomService`banRows
      ensures Obeys(old(View()), R.AddModerator(srcAvatarId, moderator.avatarId), accepts, outcome)
      ensures moderators == if outcome.Refused? then old(moderators) else old(moderators) + [moderator]
      ensures SameElsewhere(old(roomService.banRows), roomService.banRows, roomId)
      ensures Ends(outcome, srcAvatarId == creatorId, R.NoPrivileges,
                   !HasKey(old(moderators), IdOf, moderator.avatarId), R.DuplicateModerator, IsPersistent() && !accepts)
    {
      if srcAvatarId != creatorId { return R.Refused(R.NoPrivileges); }
      var isModerator := IsModerator(moderator.avatarId);
      if isModerator { return R.Refused(R.DuplicateModerator); }
      PushedKeys(moderators, moderator);
      moderators := moderators + [moderator];
      if IsPersistent() {
        var ok := roomService.PersistBanned(moderator.avatarId, roomId, accepts);
        if !ok { return R.DatabaseFailed; }
      }
      return R.Done;
    }

    method AddBanned(srcAvatarId: nat, avatar: ChatAvatar, accepts: bool) returns (outcome: R.Outcome)
      requires Valid()
      modifies this`banned, roomService`banRows
      ensures Obeys(old(View()), R.AddBanned(srcAvatarId, avatar.avatarId), accepts, outcome)
      ensures banned == if outcome.Refused? then old(banned) else old(banned) + [avatar]
      ensures SameElsewhere(old(roomService.banRows), roomService.banRows, roomId)
      ensures Ends(outcome, HasKey(moderators, IdOf, srcAvatarId), R.NoPrivileges,
                   !HasKey(old(banned), IdOf, avatar.avatarId), R.DuplicateBan, IsPersistent() && !accepts)
    {
      var isModerator := IsModerator(srcAvatarId);
      if !isModerator { return R.Refused(R.NoPrivileges); }
      var isBanned := IsBanned(avatar.avatarId);
      if isBanned { return R.Refused(R.DuplicateBan); }
      PushedKeys(banned, avatar);
      banned := banned + [avatar];
      if IsPersistent() {
        var ok := roomService.PersistBanned(avatar.avatarId, roomId, accepts);
        if !ok { return R.DatabaseFailed; }
      }
      return R.Done;
    }

    method AddInvite(srcAvatarId: nat, avatar: ChatAvatar) returns (outcome: R.Outcome)
      requires Valid()
      modifies this`invited
      ensures forall accepts :: Obeys(old(View()), R.AddInvite(srcAvatarId, avatar.avatarId), accepts, outcome)
      ensures invited == if outcome.Refused? then old(invited) else old(invited) + [avatar]
      ensures Ends(outcome, HasKey(moderators, IdOf, srcAvatarId), R.NoPrivileges,
                   !HasKey(old(invited), IdOf, avatar.avatarId), R.DuplicateInvite, false)
    {
      var isModerator := IsModerator(srcAvatarId);
      if !isModerator { return R.Refused(R.NoPrivileges); }
      var isInvited := IsInvited(avatar.avatarId);
      if isInvited { return R.Refused(R.DuplicateInvite); }
      PushedKeys(invited, avatar);
      invited := invited + [avatar];
      return R.Done;
    }

    /** Nothing looks for the administrator before the erase: it has to be there. */
    method RemoveAdministrator(srcAvatarId: nat, avatarId: nat, accepts: bool) returns (outcome: R.Outcome)
      requires Valid() && R.Defined(Rules(), View(), R.RemoveAdministrator(srcAvatarId, avatarId))
      modifies this`administrators, roomService`administratorRows
      ensures Obeys(old(View()), R.RemoveAdministrator(srcAvatarId, avatarId), accepts, outcome)
      ensures administrators == if outcome.Refused? then old(administrators)
                else Kept(old(administrators), IdOf, avatarId)
      ensures roomService.administratorRows ==
                if outcome == R.Done && IsPersistent() && old(administrators) != []
                then old(roomService.administratorRows) - {(avatarId, roomId)} else old(roomService.administratorRows)
      ensures outcome == R.Refused(R.NoPrivileges) <==> srcAvatarId != creatorId
      ensures outcome == R.DatabaseFailed <==>
                srcAvatarId == creatorId && old(administrators) != [] && IsPersistent() && !accepts
      ensures outcome.Refused? ==> outcome.code == R.NoPrivileges
    {
      if srcAvatarId != creatorId { return R.Refused(R.NoPrivileges); }
      if administrators == [] { return R.Done; }
      assert IdOf(administrators[0]) in View().administrators;
      ErasedKeys(administrators, avatarId);
      administrators := EraseOne(administrators, IdOf, avatarId);
      if IsPersistent() {
        var ok := roomService.DeleteAdministrator(avatarId, roomId, accepts);
        if !ok { return R.DatabaseFailed; }
      }
      return R.Done;
    }

    method RemoveModerator(srcAvatarId: nat, avatarId: nat, accepts: bool) returns (outcome: R.Outcome)
      requires Valid()
      modifies this`moderators, roomService`moderatorRows
      ensures Obeys(old(View()), R.RemoveModerator(srcAvatarId, avatarId), accepts, outcome)
      ensures moderators == if outcome.Refused? then old(moderators) else Kept(old(moderators), IdOf, avatarId)
      ensures roomService.moderatorRows ==
                if outcome == R.Done && IsPersistent()
                then old(roomService.moderatorRows) - {(avatarId, roomId)} else old(roomService.moderatorRows)
      ensures Ends(outcome, srcAvatarId == creatorId, R.NoPrivileges,
                   HasKey(old(moderators), IdOf, avatarId), R.DestAvatarNotModerator, IsPersistent() && !accepts)
    {
      if srcAvatarId != creatorId { return R.Refused(R.NoPrivileges); }
      var isModerator := IsModerator(avatarId);
      if moderators == [] || !isModerator { return R.Refused(R.DestAvatarNotModerator); }
      ErasedKeys(moderators, avatarId);
      moderators := EraseOne(moderators, IdOf, avatarId);
      if IsPersistent() {
        var ok := roomService.DeleteModerator(avatarId, roomId, accepts);
        if !ok { return R.DatabaseFailed; }
      }
      return R.Done;
    }

    method RemoveBanned(srcAvatarId: nat, avatarId: nat, accepts: bool) returns (outcome: R.Outcome)
      requires Valid()
      modifies this`banned, roomService`banRows
      ensures Obeys(old(View()), R.RemoveBanned(srcAvatarId, avatarId), accepts, outcome)
      ensures banned == if outcome.Refused? then old(banned) else Kept(old(banned), IdOf, avatarId)
      ensures SameElsewhere(old(roomService.banRows), roomService.banRows, roomId)
      ensures Ends(outcome, HasKey(moderators, IdOf, srcAvatarId), R.NoPrivileges,
                   HasKey(old(banned), IdOf, avatarId), R.DestAvatarNotBanned, IsPersistent() && !accepts)
    {
      var isModerator := IsModerator(srcAvatarId);
      if !isModerator { return R.Refused(R.NoPrivileges); }
      var isBanned := IsBanned(avatarId);
      if banned == [] || !isBanned { return R.Refused(R.DestAvatarNotBanned); }
      ErasedKeys(banned, avatarId);
      banned := EraseOne(banned, IdOf, avatarId);
      if IsPersistent() {
        var ok := roomService.DeleteBanned(avatarId, roomId, accepts);
        if !ok { return R.DatabaseFailed; }
      }
      return R.Done;
    }

    method RemoveInvite(srcAvatarId: nat, avatarId: nat) returns (outcome: R.Outcome)
      requires Valid()
      modifies this`invited
      ensures forall accepts :: Obeys(old(View()), R.RemoveInvite(srcAvatarId, avatarId), accepts, outcome)
      ensures invited == if outcome.Refused? then old(invited) else Kept(old(invited), IdOf, avatarId)
      ensures Ends(outcome, HasKey(moderators, IdOf, srcAvatarId), R.NoPrivileges,
                   HasKey(old(invited), IdOf, avatarId), R.DestAvatarNotInvited, false)
    {
      var isModerator := IsModerator(srcAvatarId);
      if !isModerator { return R.Refused(R.NoPrivileges); }
      var isInvited := IsInvited(avatarId);
      if invited == [] || !isInvited { return R.Refused(R.DestAvatarNotInvited); }
      ErasedKeys(invited, avatarId);
      invited := EraseOne(invited, IdOf, avatarId);
      return R.Done;
    }

    /** One call of a history; its target is given as the avatar itself. */
    method Apply(step: R.Step, avatar: ChatAvatar) returns (outcome: R.Outcome)
      requires Valid() && avatar.avatarId == step.op.avatar && R.Defined(Rules(), View(), step.op)
      modifies this, roomService
      ensures Obeys(old(View()), step.op, step.accepts, outcome)
    {
      match step.op {
        case Enter(_, password) => outcome := EnterRoom(avatar, password);
        case Leave(_) => LeaveRoom(avatar); outcome := R.Done;
        case Kick(src, _) => outcome := KickAvatar(src, avatar);
        case AddAdministrator(src, _) => outcome := AddAdministrator(src, avatar, step.accepts);
        case AddModerator(src, _) => outcome := AddModerator(src, avatar, step.accepts);
        case AddBanned(src, _) => outcome := AddBanned(src, avatar, step.accepts);
        case AddInvite(src, _) => outcome := AddInvite(src, avatar);
        case RemoveAdministrator(src, a) => outcome := RemoveAdministrator(src, a, step.accepts);
        case RemoveModerator(src, a) => outcome := RemoveModerator(src, a, step.accepts);
        case RemoveBanned(src, a) => outcome := RemoveBanned(src, a, step.accepts);
        case RemoveInvite(src, a) => outcome := RemoveInvite(src, a);
      }
    }

    method ApplyNext(ghost rows: set<nat>, steps: seq<R.Step>, i: nat, avatar: ChatAvatar) returns (outcome: R.Outcome)
      requires i < |steps| && avatar.avatarId == steps[i].op.avatar && R.AllDefined(Rules(), rows, steps)
      requires Valid() && View() == R.At(Rules(), rows, steps, i)
      modifies this, roomService
      ensures Valid() && View() == R.At(Rules(), rows, steps, i + 1)
      ensures outcome == R.OutcomeOf(Rules(), R.At(Rules(), rows, steps, i), steps[i])
    {
      outcome := Apply(steps[i], avatar);
    }

    /** The ids of occupants that do not ignore `src`, in the order of the occupants. */
    method GetAvatarIds(src: ChatAvatar) returns (ids: seq<nat>)
      requires forall i :: 0 <= i < |avatars| ==> forall c :: c in avatars[i].ignoreList ==> c.ignored != null
      ensures ids == IdsOf(Listening(avatars, src.avatarId))
    {
      ids := [];
      var i := 0;
      while i < |avatars|
        invariant 0 <= i <= |avatars|
        invariant ids + ListeningFrom(avatars, i, src.avatarId) == IdsOf(Listening(avatars, src.avatarId))
      {
        var isIgnored := avatars[i].IsIgnored(src);
        ListeningStep(ids, avatars, i, src.avatarId);
        if !isIgnored { ids := ids + [avatars[i].avatarId]; }
        i := i + 1;
      }
    }

    /** The address of every occupant once, in the order of first occurrence. */
    method GetConnectedAddresses() returns (addresses: seq<Wide>)
      ensures addresses == FirstOccurrences(AddressesOf(avatars))
    {
      addresses := [];
      var i := 0;
      while i < |avatars|
        invariant 0 <= i <= |avatars|
        invariant addresses == FirstOccurrences(AddressesOf(avatars[..i]))
      {
        AddressesStep(avatars, i);
        if avatars[i].address !in addresses { addresses := addresses + [avatars[i].address]; }
        i := i + 1;
      }
      assert avatars[..i] == avatars;
    }

    /** The same without the address of the creator. */
    method GetRemoteAddresses() returns (addresses: seq<Wide>)
      ensures addresses == Except(FirstOccurrences(AddressesOf(avatars)), creatorAddress)
    {
      addresses := [];
      var i := 0;
      while i < |avatars|
        invariant 0 <= i <= |avatars|
        invariant addresses == Except(FirstOccurrences(AddressesOf(avatars[..i])), creatorAddress)
      {
        AddressesStep(avatars, i);
        ExceptStep(FirstOccurrences(AddressesOf(avatars[..i])), creatorAddress, avatars[i].address);
        if creatorAddress != avatars[i].address && avatars[i].address !in addresses {
          addresses := addresses + [avatars[i].address];
        }
        i := i + 1;
      }
      assert avatars[..i] == avatars;
    }
  }

  /** A room from its creation through any history the code defines: its lists are the sets that the
      rules reach, and every call ended as the rules say. */
  method RunRoom(service: ChatRoomService, roomId: nat, creator: ChatAvatar, password: Wide, attributes: nat,
                 steps: seq<R.Step>, targets: seq<ChatAvatar>)
    returns (room: ChatRoom, outcomes: seq<R.Outcome>)
    requires |targets| == |steps| && forall i :: 0 <= i < |steps| ==> targets[i].avatarId == steps[i].op.avatar
    requires R.AllDefined(R.Rules(creator.avatarId, password, attributes % 2 == 1, attributes / 4 % 2 == 1),
                          RowsOf(service.banRows, roomId), steps)
    modifies service
    ensures fresh(room) && room.Valid()
    ensures room.View() == R.At(room.Rules(), old(RowsOf(service.banRows, roomId)), steps, |steps|)
    ensures outcomes == R.Outcomes(room.Rules(), old(RowsOf(service.banRows, roomId)), steps, |steps|)
  {
    ghost var rows := RowsOf(service.banRows, roomId);
    room := new ChatRoom(service, roomId, creator, password, attributes);
    outcomes := [];
    var i := 0;
    while i < |steps|
      invariant 0 <= i <= |steps| && fresh(room) && room.roomService == service
      invariant room.Valid() && room.View() == R.At(room.Rules(), rows, steps, i)
      invariant outcomes == R.Outcomes(room.Rules(), rows, steps, i)
    {
      var outcome := room.ApplyNext(rows, steps, i, targets[i]);
      outcomes := outcomes + [outcome];
      i := i + 1;
    }
  }

  // Who hears, and where

  function Ignores(a: ChatAvatar, id: nat): bool
    reads a
  {
    HasKey(a.ignoreList, IgnoreKey, id)
  }

  function Listening(list: seq<ChatAvatar>, id: nat): seq<ChatAvatar>
    reads list
  {
    if list == [] then []
    else if Ignores(list[0], id) then Listening(list[1..], id)
    else [list[0]] + Listening(list[1..], id)
  }

  function IdsOf(list: seq<ChatAvatar>): (ids: seq<nat>)
    ensures |ids| == |list| && forall i :: 0 <= i < |ids| ==> ids[i] == list[i].avatarId
  {
    if list == [] then [] else [list[0].avatarId] + IdsOf(list[1..])
  }

  function AddressesOf(list: seq<ChatAvatar>): (addresses: seq<Wide>)
    ensures |addresses| == |list| && forall i :: 0 <= i < |addresses| ==> addresses[i] == list[i].address
  {
    if list == [] then [] else AddressesOf(list[..|list| - 1]) + [list[|list| - 1].address]
  }

  /** Every element once, where it occurs first. */
  function FirstOccurrences<T(==)>(s: seq<T>): seq<T> {
    if s == [] then []
    else
      var front := FirstOccurrences(s[..|s| - 1]);
      if s[|s| - 1] in front then front else front + [s[|s| - 1]]
  }

  function Except<T(==)>(s: seq<T>, x: T): seq<T> {
    if s == [] then []
    else if s[|s| - 1] == x then Except(s[..|s| - 1], x)
    else Except(s[..|s| - 1], x) + [s[|s| - 1]]
  }

  lemma AddressesStep(list: seq<ChatAvatar>, i: nat)
    requires i < |list|
    ensures
      var before, after := FirstOccurrences(AddressesOf(list[..i])), FirstOccurrences(AddressesOf(list[..i + 1]));
      after == if list[i].address in before then before else before + [list[i].address]
  {
    var longer := list[..i + 1];
    assert longer[..i] == list[..i];
    assert AddressesOf(longer)[..i] == AddressesOf(list[..i]);
  }

  lemma {:induction false} ExceptMembers<T>(s: seq<T>, x: T)
    ensures forall y :: y in Except(s, x) <==> y in s && y != x
  {
    if s != [] {
      ExceptMembers(s[..|s| - 1], x);
      assert s == s[..|s| - 1] + [s[|s| - 1]];
    }
  }

  /** What is left of a list without `x` is what stands at the other places, from front to back. */
  lemma {:induction false} ExceptInOrder<T>(s: seq<T>, x: T) returns (places: seq<nat>)
    ensures Ascending(places, |s|) && |places| == |Except(s, x)|
    ensures forall j :: 0 <= j < |places| ==> Except(s, x)[j] == s[places[j]]
    ensures forall i :: 0 <= i < |s| ==> (i in places <==> s[i] != x)
  {
    places := [];
    if s != [] {
      places := ExceptInOrder(s[..|s| - 1], x);
      if s[|s| - 1] != x { places := places + [|s| - 1]; }
    }
  }

  lemma ExceptStep<T>(s: seq<T>, x: T, y: T)
    ensures y in Except(s, x) <==> y in s && y != x
    ensures Except(s + [y], x) == if y == x then Except(s, x) else Except(s, x) + [y]
  {
    ExceptMembers(s, x);
    assert (s + [y])[..|s|] == s;
  }

  ghost function ListeningFrom(list: seq<ChatAvatar>, i: nat, id: nat): seq<nat>
    requires i <= |list|
    reads list
  {
    IdsOf(Listening(list[i..], id))
  }

  lemma ListeningStep(ids: seq<nat>, list: seq<ChatAvatar>, i: nat, id: nat)
    requires i < |list|
    ensures ids + ListeningFrom(list, i, id) ==
              (if Ignores(list[i], id) then ids else ids + [list[i].avatarId]) + ListeningFrom(list, i + 1, id)
  {
    assert list[i..][1..] == list[i + 1..];
    var rest := Listening(list[i + 1..], id);
    assert IdsOf([list[i]] + rest) == [list[i].avatarId] + IdsOf(rest);
  }

  lemma {:induction false} ListeningKeys(list: seq<ChatAvatar>, id: nat, k: nat)
    ensures HasKey(Listening(list, id), IdOf, k) ==> HasKey(list, IdOf, k)
  {
    if list != [] {
      ListeningKeys(list[1..], id, k);
      TailHasKey(list, IdOf, k);
      if !Ignores(list[0], id) {
        assert Listening(list, id)[1..] == Listening(list[1..], id);
        TailHasKey(Listening(list, id), IdOf, k);
      }
    }
  }

  /** They are the occupants at certain places, from front to back: at those that do not ignore. */
  lemma ListeningInOrder(list: seq<ChatAvatar>, id: nat) returns (places: seq<nat>)
    ensures Ascending(places, |list|) && |places| == |Listening(list, id)|
    ensures forall j :: 0 <= j < |places| ==> Listening(list, id)[j] == list[places[j]]
    ensures forall i :: 0 <= i < |list| ==> (i in places <==> !Ignores(list[i], id))
  {
    places := ListeningBehind(list, 0, id);
    assert list[0..] == list;
  }

  lemma {:induction false} ListeningBehind(list: seq<ChatAvatar>, from: nat, id: nat) returns (places: seq<nat>)
    requires from <= |list|
    ensures Ascending(places, |list|) && |places| == |Listening(list[from..], id)|
    ensures forall j :: 0 <= j < |places| ==> from <= places[j] && Listening(list[from..], id)[j] == list[places[j]]
    ensures forall i :: from <= i < |list| ==> (i in places <==> !Ignores(list[i], id))
    decreases |list| - from
  {
    places := [];
    if from < |list| {
      assert list[from..][1..] == list[from + 1..];
      places := ListeningBehind(list, from + 1, id);
      if !Ignores(list[from], id) { places := [from] + places; }
    }
  }

  /** An id is told exactly if its avatar is inside and not ignoring, and nobody is told twice. */
  lemma {:induction false} ListeningIds(list: seq<ChatAvatar>, id: nat)
    ensures forall i :: 0 <= i < |Listening(list, id)| ==>
              Listening(list, id)[i] in list && !Ignores(Listening(list, id)[i], id)
    ensures forall i :: 0 <= i < |list| && !Ignores(list[i], id) ==> list[i] in Listening(list, id)
    ensures DistinctKeys(list, IdOf) ==> DistinctKeys(Listening(list, id), IdOf)
  {
    if list != [] {
      var rest := list[1..];
      ListeningIds(rest, id);
      assert list == [list[0]] + rest;
      ConsDistinct(list[0], rest, IdOf);
      ConsDistinct(list[0], Listening(rest, id), IdOf);
      ListeningKeys(rest, id, list[0].avatarId);
    }
  }

  /** `FirstOccurrences` keeps every element exactly once, and in the order in which they first occur. */
  lemma {:induction false} FirstOccurrencesFacts<T>(s: seq<T>)
    ensures forall x :: x in FirstOccurrences(s) <==> x in s
    ensures forall i, j :: 0 <= i < j < |FirstOccurrences(s)| ==>
              FirstOccurrences(s)[i] != FirstOccurrences(s)[j] &&
                  Before(s, FirstOccurrences(s)[i], FirstOccurrences(s)[j])
  {
    if s != [] {
      var front, last := s[..|s| - 1], s[|s| - 1];
      FirstOccurrencesFacts(front);
      assert s == front + [last];
      var d := FirstOccurrences(front);
      forall i, j | 0 <= i < j < |FirstOccurrences(s)|
        ensures FirstOccurrences(s)[i] != FirstOccurrences(s)[j] &&
                Before(s, FirstOccurrences(s)[i], FirstOccurrences(s)[j])
      {
        if j < |d| {
          assert Before(front, d[i], d[j]);
          BeforeLonger(front, last, d[i], d[j]);
        } else {
          assert d[i] in d;
          assert Before(s, d[i], last);
        }
      }
    }
  }

  /** Some occurrence of `x` has no `y` at or in front of it. */
  ghost predicate Before<T>(s: seq<T>, x: T, y: T) {
    exists i :: 0 <= i < |s| && s[i] == x && y !in s[..i + 1]
  }

  lemma BeforeLonger<T>(s: seq<T>, last: T, x: T, y: T)
    requires Before(s, x, y)
    ensures Before(s + [last], x, y)
  {
    var i :| 0 <= i < |s| && s[i] == x && y !in s[..i + 1];
    assert (s + [last])[i] == x && (s + [last])[..i + 1] == s[..i + 1];
  }
}
