/** The rules of a chat room over sets of avatar ids, and what they imply over whole histories. */
module RoomRules {
  import opened Text

  datatype Rules = Rules(creatorId: nat, password: Wide, isPrivate: bool, isPersistent: bool)

  /** The five lists of a room as sets, and the avatars its stored ban rows name. */
  datatype Room = Room(occupants: set<nat>, administrators: set<nat>, moderators: set<nat>,
                       banned: set<nat>, invited: set<nat>, banRows: set<nat>)

  datatype Op =
    | Enter(avatar: nat, password: Wide)
    | Leave(avatar: nat)
    | Kick(src: nat, avatar: nat)
    | AddAdministrator(src: nat, avatar: nat)
    | AddModerator(src: nat, avatar: nat)
    | AddBanned(src: nat, avatar: nat)
    | AddInvite(src: nat, avatar: nat)
    | RemoveAdministrator(src: nat, avatar: nat)
    | RemoveModerator(src: nat, avatar: nat)
    | RemoveBanned(src: nat, avatar: nat)
    | RemoveInvite(src: nat, avatar: nat)

  /** One call, and whether the database would accept a statement sent by it. */
  datatype Step = Step(op: Op, accepts: bool)

  datatype Code =
    | BannedAvatar | PrivateRoom | NotInRoom | NoPrivileges | DestAvatarNotModerator | DestAvatarNotInvited
    | DestAvatarNotBanned | DuplicateBan | DuplicateModerator | DuplicateInvite | AlreadyInRoom

  /** A call returns, throws a chat result, or throws because the database turned a statement down. */
  datatype Outcome = Done | Refused(code: Code) | DatabaseFailed

  function Created(r: Rules, rows: set<nat>): Room {
    Room({}, {r.creatorId}, {r.creatorId}, {}, {}, rows)
  }

  /** Why a call is refused, if it is. */
  function Refusal(r: Rules, s: Room, op: Op): Outcome {
    match op
    case Enter(a, password) =>
      if r.password != [] && r.password != password then Refused(PrivateRoom)
      else if a in s.banned then Refused(BannedAvatar)
      else if a in s.occupants then Refused(AlreadyInRoom)
      else if r.isPrivate && a != r.creatorId && a !in s.invited then Refused(PrivateRoom)
      else Done
    case Leave(_) => Done
    case Kick(src, a) =>
      if src !in s.moderators then Refused(NoPrivileges) else if a !in s.occupants then Refused(NotInRoom) else Done
    case AddAdministrator(src, _) => if src != r.creatorId then Refused(NoPrivileges) else Done
    case AddModerator(src, a) =>
      if src != r.creatorId then Refused(NoPrivileges) else if a in s.moderators then Refused(DuplicateModerator)
          else Done
    case AddBanned(src, a) =>
      if src !in s.moderators then Refused(NoPrivileges) else if a in s.banned then Refused(DuplicateBan) else Done
    case AddInvite(src, a) =>
      if src !in s.moderators then Refused(NoPrivileges) else if a in s.invited then Refused(DuplicateInvite) else Done
    case RemoveAdministrator(src, _) => if src != r.creatorId then Refused(NoPrivileges) else Done
    case RemoveModerator(src, a) =>
      if src != r.creatorId then Refused(NoPrivileges) else if a !in s.moderators then Refused(DestAvatarNotModerator)
          else Done
    case RemoveBanned(src, a) =>
      if src !in s.moderators then Refused(NoPrivileges) else if a !in s.banned then Refused(DestAvatarNotBanned)
          else Done
    case RemoveInvite(src, a) =>
      if src !in s.moderators then Refused(NoPrivileges) else if a !in s.invited then Refused(DestAvatarNotInvited)
          else Done
  }

  /** A check, and what a call that fails it is told. */
  datatype Check = Check(fails: bool, code: Code)

  /** The checks of a call in the order in which they are made. */
  function Checks(r: Rules, s: Room, op: Op): seq<Check> {
    match op
    case Enter(a, password) =>
      [Check(r.password != [] && r.password != password, PrivateRoom), Check(a in s.banned, BannedAvatar),
       Check(a in s.occupants, AlreadyInRoom),
       Check(r.isPrivate && a != r.creatorId && a !in s.invited, PrivateRoom)]
    case Leave(_) => []
    case Kick(src, a) => [Check(src !in s.moderators, NoPrivileges), Check(a !in s.occupants, NotInRoom)]
    case AddAdministrator(src, _) => [Check(src != r.creatorId, NoPrivileges)]
    case AddModerator(src, a) =>
      [Check(src != r.creatorId, NoPrivileges), Check(a in s.moderators, DuplicateModerator)]
    case AddBanned(src, a) => [Check(src !in s.moderators, NoPrivileges), Check(a in s.banned, DuplicateBan)]
    case AddInvite(src, a) => [Check(src !in s.moderators, NoPrivileges), Check(a in s.invited, DuplicateInvite)]
    case RemoveAdministrator(src, _) => [Check(src != r.creatorId, NoPrivileges)]
    case RemoveModerator(src, a) =>
      [Check(src != r.creatorId, NoPrivileges), Check(a !in s.moderators, DestAvatarNotModerator)]
    case RemoveBanned(src, a) => [Check(src !in s.moderators, NoPrivileges), Check(a !in s.banned, DestAvatarNotBanned)]
    case RemoveInvite(src, a) =>
      [Check(src !in s.moderators, NoPrivileges), Check(a !in s.invited, DestAvatarNotInvited)]
  }

  /** The first check that fails. */
  predicate FailsFirst(checks: seq<Check>, i: nat) {
    i < |checks| && checks[i].fails && forall j :: 0 <= j < i ==> !checks[j].fails
  }

  /** A call is refused for the first check that fails, and not if none does. */
  lemma FirstCheckDecides(r: Rules, s: Room, op: Op)
    ensures var checks := Checks(r, s, op);
            && (forall i :: 0 <= i < |checks| && FailsFirst(checks, i) ==> Refusal(r, s, op) == Refused(checks[i].code))
            && ((forall i :: 0 <= i < |checks| ==> !checks[i].fails) ==> Refusal(r, s, op) == Done)
  {
    var checks := Checks(r, s, op);
    forall i | 0 <= i < |checks| && FailsFirst(checks, i) ensures Refusal(r, s, op) == Refused(checks[i].code) {
      assert i > 0 ==> !checks[0].fails;
      assert i > 1 ==> !checks[1].fails;
      assert i > 2 ==> !checks[2].fails;
    }
    if forall i :: 0 <= i < |checks| ==> !checks[i].fails {
      assert checks != [] ==> !checks[0].fails;
      assert |checks| > 1 ==> !checks[1].fails;
      assert |checks| > 2 ==> !checks[2].fails && !checks[3].fails;
    }
  }

  /** Removing an absent administrator erases the end of the list: undefined, unless the list is empty. */
  predicate Defined(r: Rules, s: Room, op: Op) {
    op.RemoveAdministrator? && Refusal(r, s, op) == Done && s.administrators != {} ==> op.avatar in s.administrators
  }

  /** Whether a call that is not refused sends a statement to the database. */
  predicate Sends(r: Rules, s: Room, op: Op) {
    r.isPersistent &&
    match op
    case AddAdministrator(_, a) => a !in s.administrators
    case RemoveAdministrator(_, a) => s.administrators != {}
    case AddModerator(_, _) | AddBanned(_, _) | RemoveModerator(_, _) | RemoveBanned(_, _) => true
    case _ => false
  }

  function OutcomeOf(r: Rules, s: Room, step: Step): Outcome {
    if Refusal(r, s, step.op).Refused? then Refusal(r, s, step.op)
    else if Sends(r, s, step.op) && !step.accepts then DatabaseFailed
    else Done
  }

  /** The lists change before the database is asked, and stay changed if it says no. */
  function After(r: Rules, s: Room, step: Step): Room {
    var stored := Sends(r, s, step.op) && step.accepts;
    if Refusal(r, s, step.op).Refused? then s
    else
      match step.op
      case Enter(a, _) => s.(occupants := s.occupants + {a})
      case Leave(a) => s.(occupants := s.occupants - {a})
      case Kick(_, a) => s.(occupants := s.occupants - {a})
      case AddAdministrator(_, a) =>
        s.(administrators := s.administrators + {a}, banRows := if stored then s.banRows + {a} else s.banRows)
      case AddModerator(_, a) =>
        s.(moderators := s.moderators + {a}, banRows := if stored then s.banRows + {a} else s.banRows)
      case AddBanned(_, a) =>
        s.(banned := s.banned + {a}, banRows := if stored then s.banRows + {a} else s.banRows)
      case AddInvite(_, a) => s.(invited := s.invited + {a})
      case RemoveAdministrator(_, a) => s.(administrators := s.administrators - {a})
      case RemoveModerator(_, a) => s.(moderators := s.moderators - {a})
      case RemoveBanned(_, a) =>
        s.(banned := s.banned - {a}, banRows := if stored then s.banRows - {a} else s.banRows)
      case RemoveInvite(_, a) => s.(invited := s.invited - {a})
  }

  /** The room after the first `n` calls of a history. */
  function At(r: Rules, rows: set<nat>, steps: seq<Step>, n: nat): Room
    requires n <= |steps|
  {
    if n == 0 then Created(r, rows) else After(r, At(r, rows, steps, n - 1), steps[n - 1])
  }

  /** How the first `n` calls of a history ended. */
  function Outcomes(r: Rules, rows: set<nat>, steps: seq<Step>, n: nat): (outcomes: seq<Outcome>)
    requires n <= |steps|
    ensures |outcomes| == n && forall i :: 0 <= i < n ==> outcomes[i] == OutcomeOf(r, At(r, rows, steps, i), steps[i])
  {
    if n == 0 then [] else Outcomes(r, rows, steps, n - 1) + [OutcomeOf(r, At(r, rows, steps, n - 1), steps[n - 1])]
  }

  /** No call of the history erases an administrator that is not there. */
  predicate AllDefined(r: Rules, rows: set<nat>, steps: seq<Step>) {
    forall i :: 0 <= i < |steps| ==> Defined(r, At(r, rows, steps, i), steps[i].op)
  }

  // Who may gain and lose what, and by whose hand

  datatype Role = Occupant | Administrator | Moderator | Ban | Invite | BanRow

  function Members(s: Room, role: Role): set<nat> {
    match role
    case Occupant => s.occupants
    case Administrator => s.administrators
    case Moderator => s.moderators
    case Ban => s.banned
    case Invite => s.invited
    case BanRow => s.banRows
  }

  /** The checks at the door. */
  predicate Admitted(r: Rules, s: Room, a: nat, password: Wide) {
    && (r.password == [] || r.password == password)
    && a !in s.banned
    && (r.isPrivate ==> a == r.creatorId || a in s.invited)
  }

  /** The call gives `a` a role it lacked, and the caller may give it. */
  predicate Grants(r: Rules, s: Room, op: Op, role: Role, a: nat) {
    op.avatar == a && a !in Members(s, role) &&
    match role
    case Occupant => op.Enter? && Admitted(r, s, a, op.password)
    case Administrator => op.AddAdministrator? && op.src == r.creatorId
    case Moderator => op.AddModerator? && op.src == r.creatorId
    case Ban => op.AddBanned? && op.src in s.moderators
    case Invite => op.AddInvite? && op.src in s.moderators
    case BanRow => false
  }

  /** A ban row is written for a ban, and also for a new administrator and for a new moderator. */
  predicate StoresBan(r: Rules, s: Room, step: Step, a: nat) {
    && r.isPersistent && step.accepts
    && (Grants(r, s, step.op, Ban, a) || Grants(r, s, step.op, Administrator, a) || Grants(r, s, step.op, Moderator, a))
  }

  predicate Gives(r: Rules, s: Room, step: Step, role: Role, a: nat) {
    if role == BanRow then a !in s.banRows && StoresBan(r, s, step, a) else Grants(r, s, step.op, role, a)
  }

  /** The call takes a role `a` had, and the caller may take it. */
  predicate Takes(r: Rules, s: Room, step: Step, role: Role, a: nat) {
    var op := step.op;
    op.avatar == a &&
    match role
    case Occupant => a in s.occupants && (op.Leave? || (op.Kick? && op.src in s.moderators))
    case Administrator => a in s.administrators && op.RemoveAdministrator? && op.src == r.creatorId
    case Moderator => a in s.moderators && op.RemoveModerator? && op.src == r.creatorId
    case Ban => a in s.banned && op.RemoveBanned? && op.src in s.moderators
    case Invite => a in s.invited && op.RemoveInvite? && op.src in s.moderators
    case BanRow => a in s.banned && op.RemoveBanned? && op.src in s.moderators && r.isPersistent && step.accepts
  }

  /** Nothing else changes a role. */
  lemma RoleStep(r: Rules, s: Room, step: Step, role: Role, a: nat)
    ensures a in Members(After(r, s, step), role) <==>
              Gives(r, s, step, role, a) || (a in Members(s, role) && !Takes(r, s, step, role, a))
  {
  }

  predicate Given(r: Rules, rows: set<nat>, steps: seq<Step>, i: nat, role: Role, a: nat)
    requires i < |steps|
  {
    Gives(r, At(r, rows, steps, i), steps[i], role, a)
  }

  predicate Taken(r: Rules, rows: set<nat>, steps: seq<Step>, i: nat, role: Role, a: nat)
    requires i < |steps|
  {
    Takes(r, At(r, rows, steps, i), steps[i], role, a)
  }

  /** `a` has not lost the role in calls `from` to `n`. */
  ghost predicate Kept(r: Rules, rows: set<nat>, steps: seq<Step>, from: nat, n: nat, role: Role, a: nat)
    requires n <= |steps|
  {
    forall j :: from <= j < n ==> !Taken(r, rows, steps, j, role, a)
  }

  /** Some call gave `a` the role and no later call took it. */
  ghost predicate GivenAndKept(r: Rules, rows: set<nat>, steps: seq<Step>, n: nat, role: Role, a: nat)
    requires n <= |steps|
  {
    exists i :: 0 <= i < n && Given(r, rows, steps, i, role, a) && Kept(r, rows, steps, i, n, role, a)
  }

  lemma {:induction false} History(r: Rules, rows: set<nat>, steps: seq<Step>, n: nat, role: Role, a: nat)
    requires n <= |steps|
    ensures a in Members(At(r, rows, steps, n), role) <==>
              || GivenAndKept(r, rows, steps, n, role, a)
              || (a in Members(Created(r, rows), role) && Kept(r, rows, steps, 0, n, role, a))
  {
    if n > 0 {
      var last := n - 1;
      History(r, rows, steps, last, role, a);
      RoleStep(r, At(r, rows, steps, last), steps[last], role, a);
      forall i | 0 <= i <= last
        ensures Kept(r, rows, steps, i, n, role, a) <==>
                  Kept(r, rows, steps, i, last, role, a) && !Taken(r, rows, steps, last, role, a)
      {
      }
      if Given(r, rows, steps, last, role, a) {
        assert Kept(r, rows, steps, last, n, role, a);
      }
    }
  }

  // What follows

  /** A refused call changes nothing. */
  lemma RefusedChangesNothing(r: Rules, s: Room, step: Step)
    ensures OutcomeOf(r, s, step).Refused? ==> After(r, s, step) == s
  {
  }

  /** An avatar is inside exactly when an entry of its met the checks at the door, as they stood
      then, and it has not left or been kicked since. */
  lemma OccupantsMetTheChecks(r: Rules, rows: set<nat>, steps: seq<Step>, n: nat, a: nat)
    requires n <= |steps|
    ensures a in At(r, rows, steps, n).occupants <==>
              exists i :: 0 <= i < n && EnteredAt(r, rows, steps, i, a) && Kept(r, rows, steps, i, n, Occupant, a)
  {
    History(r, rows, steps, n, Occupant, a);
    if GivenAndKept(r, rows, steps, n, Occupant, a) {
      var i :| 0 <= i < n && Given(r, rows, steps, i, Occupant, a) && Kept(r, rows, steps, i, n, Occupant, a);
      assert EnteredAt(r, rows, steps, i, a);
    }
    if i :| 0 <= i < n && EnteredAt(r, rows, steps, i, a) && Kept(r, rows, steps, i, n, Occupant, a) {
      StaysIn(r, rows, steps, i, n, a);
    }
  }

  predicate EnteredAt(r: Rules, rows: set<nat>, steps: seq<Step>, i: nat, a: nat)
    requires i < |steps|
  {
    var op := steps[i].op;
    op.Enter? && op.avatar == a && Admitted(r, At(r, rows, steps, i), a, op.password)
  }

  lemma {:induction false} StaysIn(r: Rules, rows: set<nat>, steps: seq<Step>, i: nat, n: nat, a: nat)
    requires i < n <= |steps| && EnteredAt(r, rows, steps, i, a) && Kept(r, rows, steps, i, n, Occupant, a)
    ensures a in At(r, rows, steps, n).occupants
  {
    var last := n - 1;
    RoleStep(r, At(r, rows, steps, last), steps[last], Occupant, a);
    assert !Taken(r, rows, steps, last, Occupant, a);
    if i < last {
      StaysIn(r, rows, steps, i, last, a);
    }
  }

  /** Whoever moderates is the creator or was made moderator by the creator, not undone since; so
      every kick, ban, invitation and pardon traces back to the creator. */
  lemma AuthorityComesFromTheCreator(r: Rules, rows: set<nat>, steps: seq<Step>, i: nat)
    requires i < |steps| && !Refusal(r, At(r, rows, steps, i), steps[i].op).Refused?
    ensures
      var op := steps[i].op;
      op.Kick? || op.AddBanned? || op.AddInvite? || op.RemoveBanned? || op.RemoveInvite? ==>
        || (op.src == r.creatorId && Kept(r, rows, steps, 0, i, Moderator, op.src))
        || (exists j ::
              0 <= j < i && steps[j].op == AddModerator(r.creatorId, op.src)
              && Kept(r, rows, steps, j, i, Moderator, op.src))
  {
    var op := steps[i].op;
    if op.Kick? || op.AddBanned? || op.AddInvite? || op.RemoveBanned? || op.RemoveInvite? {
      History(r, rows, steps, i, Moderator, op.src);
      if GivenAndKept(r, rows, steps, i, Moderator, op.src) {
        var j :| 0 <= j < i && Given(r, rows, steps, j, Moderator, op.src) &&
            Kept(r, rows, steps, j, i, Moderator, op.src);
        assert steps[j].op == AddModerator(r.creatorId, op.src);
      }
    }
  }

  /** A ban does not evict, but whoever is banned and outside stays outside until pardoned. */
  lemma {:induction false} BannedStaysOut(r: Rules, rows: set<nat>, steps: seq<Step>, i: nat, n: nat, a: nat)
    requires i <= n <= |steps|
    requires a in At(r, rows, steps, i).banned && a !in At(r, rows, steps, i).occupants
    requires Kept(r, rows, steps, i, n, Ban, a)
    ensures a in At(r, rows, steps, n).banned && a !in At(r, rows, steps, n).occupants
  {
    if i < n {
      var last := n - 1;
      BannedStaysOut(r, rows, steps, i, last, a);
      assert !Taken(r, rows, steps, last, Ban, a);
    }
  }

  lemma BanningDoesNotEvict(r: Rules, s: Room, src: nat, a: nat, accepts: bool)
    ensures After(r, s, Step(AddBanned(src, a), accepts)).occupants == s.occupants
  {
  }

  // The stored ban table

  /** An effective appointment, which also writes a ban row. */
  predicate StrayRow(r: Rules, s: Room, op: Op, a: nat) {
    Grants(r, s, op, Administrator, a) || Grants(r, s, op, Moderator, a)
  }

  /** In a persistent room whose table matched its bans, a call keeps the match exactly if no ban or
      pardon is turned down by the database and no appointment of somebody not banned goes through. */
  lemma BanRowsStep(r: Rules, s: Room, step: Step)
    requires r.isPersistent && s.banRows == s.banned
    ensures
      var a, after := step.op.avatar, After(r, s, step);
      after.banRows == after.banned <==>
        if step.accepts then !(StrayRow(r, s, step.op, a) && a !in s.banned)
        else !Grants(r, s, step.op, Ban, a) && !Takes(r, s, step, Ban, a)
  {
    var a, after := step.op.avatar, After(r, s, step);
    RoleStep(r, s, step, Ban, a);
    RoleStep(r, s, step, BanRow, a);
    if a in after.banRows <==> a in after.banned {
      forall x ensures x in after.banRows <==> x in after.banned {
        RoleStep(r, s, step, Ban, x);
        RoleStep(r, s, step, BanRow, x);
      }
    }
  }

  predicate StrayAt(r: Rules, rows: set<nat>, steps: seq<Step>, i: nat, a: nat)
    requires i < |steps|
  {
    StrayRow(r, At(r, rows, steps, i), steps[i].op, a)
  }

  /** `a` was appointed by some call and no ban of `a` has been lifted since. */
  ghost predicate Stray(r: Rules, rows: set<nat>, steps: seq<Step>, n: nat, a: nat)
    requires n <= |steps|
  {
    exists i :: 0 <= i < n && StrayAt(r, rows, steps, i, a) && Kept(r, rows, steps, i, n, Ban, a)
  }

  /** The ban table of a persistent room holds the bans and, beside them, exactly the appointed. */
  lemma {:induction false} BanRowsHistory(r: Rules, steps: seq<Step>, n: nat, a: nat)
    requires r.isPersistent && n <= |steps| && forall i :: 0 <= i < n ==> steps[i].accepts
    ensures a in At(r, {}, steps, n).banRows <==> a in At(r, {}, steps, n).banned || Stray(r, {}, steps, n, a)
  {
    if n > 0 {
      var last := n - 1;
      var s := At(r, {}, steps, last);
      BanRowsHistory(r, steps, last, a);
      RoleStep(r, s, steps[last], Ban, a);
      RoleStep(r, s, steps[last], BanRow, a);
      forall i | 0 <= i <= last
        ensures Kept(r, {}, steps, i, n, Ban, a) <==>
                  Kept(r, {}, steps, i, last, Ban, a) && !Taken(r, {}, steps, last, Ban, a)
      {
      }
      if StrayAt(r, {}, steps, last, a) {
        assert Kept(r, {}, steps, last, n, Ban, a);
      }
    }
  }

  /** It equals the bans exactly when every such appointee is banned, so in particular on every
      history without appointments. */
  lemma BanRowsMatch(r: Rules, steps: seq<Step>, n: nat)
    requires r.isPersistent && n <= |steps| && forall i :: 0 <= i < n ==> steps[i].accepts
    ensures At(r, {}, steps, n).banned <= At(r, {}, steps, n).banRows
    ensures At(r, {}, steps, n).banRows == At(r, {}, steps, n).banned <==>
              forall a :: Stray(r, {}, steps, n, a) ==> a in At(r, {}, steps, n).banned
  {
    forall a ensures a in At(r, {}, steps, n).banRows <==>
        a in At(r, {}, steps, n).banned || Stray(r, {}, steps, n, a) {
      BanRowsHistory(r, steps, n, a);
    }
  }

  /** The least history in which it does not: the creator appoints somebody who was never banned. */
  lemma AppointmentWritesBanRow(password: Wide)
    ensures var r, steps := Rules(1, password, false, true), [Step(AddModerator(1, 2), true)];
            At(r, {}, steps, 1).banRows == {2} && At(r, {}, steps, 1).banned == {}
  {
    var r, steps := Rules(1, password, false, true), [Step(AddModerator(1, 2), true)];
    assert At(r, {}, steps, 0) == Created(r, {});
  }

  /** The least undefined removal: the creator takes the role from somebody who never had it. */
  lemma AbsentAdministrator(password: Wide)
    ensures var r := Rules(1, password, false, false);
            && Refusal(r, Created(r, {}), RemoveAdministrator(1, 2)) == Done
            && !Defined(r, Created(r, {}), RemoveAdministrator(1, 2))
  {
    var r := Rules(1, password, false, false);
    assert 1 in Created(r, {}).administrators;
  }
}
