/**
 Group membership as a state machine: the store's three tables (group rows, member rows
 and the mirrored per-user index) and the service operations on them.
 */
module GroupModel {
  import opened OrderedKeys

  datatype ErrorCode = OK | INVALID_PARAM | GROUP_MEMBERS_TOO_FEW | INTERNAL_ERROR | GROUP_NOT_FOUND
    | NOT_GROUP_OWNER | NOT_GROUP_MEMBER | PERMISSION_DENIED | KICK_NOT_ALLOWED | OWNER_CANNOT_LEAVE
    | CONVERSATION_PRIVATE_CANNOT_DELETE

  const ROLE_OWNER := 0
  const ROLE_MEMBER := 1
  const ROLE_ADMIN := 2
  const MIN_GROUP_MEMBERS := 3

  datatype GroupData = GroupData(
    groupId: string, name: string, avatar: string, ownerId: string, memberCount: int,
    announcement: string, createdAt: int, updatedAt: int, status: int)

  datatype Member = Member(userId: string, role: int, nickname: string, joinedAt: int)

  /** `members` is keyed by (group, user), `userGroups` holds (user, group). */
  datatype Tables = Tables(groups: map<string, GroupData>, members: map<(string, string), Member>,
      userGroups: set<(string, string)>)

  // ---------- store operations ----------

  predicate IsMember(s: Tables, g: string, u: string) {
    g != "" && u != "" && (g, u) in s.members
  }

  predicate CanAdd(s: Tables, g: string, m: Member) {
    g != "" && m.userId != "" && (g, m.userId) !in s.members && g in s.groups
  }

  function AddMember(s: Tables, g: string, m: Member): Tables {
    if !CanAdd(s, g, m) then s
    else
      var d := s.groups[g];
      Tables(s.groups[g := d.(memberCount := d.memberCount + 1, updatedAt := 0)],
             s.members[(g, m.userId) := m], s.userGroups + {(m.userId, g)})
  }

  predicate CanRemove(s: Tables, g: string, u: string) {
    IsMember(s, g, u) && g in s.groups
  }

  function Max(a: int, b: int): int { if a < b then b else a }

  function RemoveMember(s: Tables, g: string, u: string): Tables {
    if !CanRemove(s, g, u) then s
    else
      var d := s.groups[g];
      Tables(s.groups[g := d.(memberCount := Max(0, d.memberCount - 1))], s.members - {(g, u)}, s.userGroups - {(u, g)})
  }

  function UpdateRole(s: Tables, g: string, u: string, role: int): Tables {
    if IsMember(s, g, u) then s.(members := s.members[(g, u) := s.members[(g, u)].(role := role)]) else s
  }

  function Rows(s: Tables, g: string): set<string> {
    set k | k in s.members && k.0 == g :: k.1
  }

  /** Both index rows of every member of `g` go in one batch. */
  function DropMembers(s: Tables, g: string): Tables {
    s.(members := map k | k in s.members && k.0 != g :: s.members[k],
       userGroups := set p | p in s.userGroups && !(p.1 == g && (g, p.0) in s.members))
  }

  function DeleteGroup(s: Tables, g: string): Tables {
    var s' := DropMembers(s, g);
    s'.(groups := s.groups - {g})
  }

  function DissolveGroup(s: Tables, g: string): Tables {
    if g == "" || g !in s.groups || s.groups[g].status == 1 then s
    else
      var s' := DropMembers(s, g);
      s'.(groups := s.groups[g := s.groups[g].(status := 1, memberCount := 0)])
  }

  // ---------- service operations ----------

  datatype Op =
    | Create(g: string, creator: string, name: string, avatar: string, ids: seq<string>, now: int)
    | Dismiss(g: string, user: string)
    | Update(g: string, user: string, name: string, avatar: string, announcement: string, now: int)
    | Invite(g: string, user: string, ids: seq<string>, now: int)
    | Kick(g: string, user: string, target: string)
    | Leave(g: string, user: string)
    | Transfer(g: string, user: string, target: string)
    | SetRole(g: string, user: string, target: string, role: int)
    | Dissolve(g: string, user: string)

  /** Adds each id that is not empty and not yet a member, as an ordinary member. */
  function AddAll(s: Tables, g: string, ids: seq<string>, now: int): Tables
    decreases |ids|
  {
    if ids == [] then s else AddAll(AddMember(s, g, Member(ids[0], ROLE_MEMBER, "", now)), g, ids[1..], now)
  }

  /** The creator and the distinct non-empty invitees. */
  function Founders(creator: string, ids: seq<string>): set<string> {
    {creator} + set id | id in ids && id != ""
  }

  function NewGroup(op: Op, size: nat): GroupData
    requires op.Create?
  {
    GroupData(op.g, if op.name == "" then "群聊" else op.name, op.avatar, op.creator, size, "", op.now, op.now, 0)
  }

  /** The fresh group row with its owner as first member. */
  function Founded(s: Tables, op: Op, size: nat): Tables
    requires op.Create?
  {
    AddMember(s.(groups := s.groups[op.g := NewGroup(op, size)]), op.g, Member(op.creator, ROLE_OWNER, "", op.now))
  }

  ghost function CreateGroup(s: Tables, op: Op): (Tables, ErrorCode)
    requires op.Create?
  {
    if op.creator == "" then (s, INVALID_PARAM)
    else
      var unique := Founders(op.creator, op.ids);
      if |unique| < MIN_GROUP_MEMBERS then (s, GROUP_MEMBERS_TOO_FEW)
      else if op.g == "" || op.g in s.groups then (s, INTERNAL_ERROR)
      else
        if (op.g, op.creator) in s.members then (DeleteGroup(s, op.g), INTERNAL_ERROR)
        else (AddAll(Founded(s, op, |unique|), op.g, SortedOf(unique - {op.creator}), op.now), OK)
  }

  function Kicked(s: Tables, g: string, user: string, target: string): (Tables, ErrorCode) {
    if g == "" || user == "" || target == "" then (s, INVALID_PARAM)
    else if g !in s.groups then (s, GROUP_NOT_FOUND)
    else if !IsMember(s, g, target) || !IsMember(s, g, user) then (s, NOT_GROUP_MEMBER)
    else
      var op, t := s.members[(g, user)], s.members[(g, target)];
      if t.role == ROLE_OWNER then (s, KICK_NOT_ALLOWED)
      else if op.role != ROLE_OWNER && op.role != ROLE_ADMIN then (s, PERMISSION_DENIED)
      else if op.role == ROLE_ADMIN && t.role == ROLE_ADMIN then (s, KICK_NOT_ALLOWED)
      else (RemoveMember(s, g, target), OK)
  }

  function Left(s: Tables, g: string, user: string): (Tables, ErrorCode) {
    if g == "" || user == "" then (s, INVALID_PARAM)
    else if g !in s.groups then (s, GROUP_NOT_FOUND)
    else if s.groups[g].ownerId == user then (s, OWNER_CANNOT_LEAVE)
    else if !IsMember(s, g, user) then (s, NOT_GROUP_MEMBER)
    else (RemoveMember(s, g, user), OK)
  }

  function Transferred(s: Tables, g: string, user: string, target: string): (Tables, ErrorCode) {
    if g == "" || user == "" || target == "" then (s, INVALID_PARAM)
    else if g !in s.groups then (s, GROUP_NOT_FOUND)
    else if s.groups[g].ownerId != user then (s, NOT_GROUP_OWNER)
    else if !IsMember(s, g, target) then (s, NOT_GROUP_MEMBER)
    else if !IsMember(s, g, user) then (s, INTERNAL_ERROR)
    else
      var s' := UpdateRole(UpdateRole(s, g, user, ROLE_MEMBER), g, target, ROLE_OWNER);
      (s'.(groups := s.groups[g := s.groups[g].(ownerId := target)]), OK)
  }

  function RoleSet(s: Tables, g: string, user: string, target: string, role: int): (Tables, ErrorCode) {
    if g == "" || user == "" || target == "" then (s, INVALID_PARAM)
    else if g !in s.groups then (s, GROUP_NOT_FOUND)
    else if s.groups[g].ownerId != user then (s, NOT_GROUP_OWNER)
    else if !IsMember(s, g, target) then (s, NOT_GROUP_MEMBER)
    else if s.members[(g, target)].role == ROLE_OWNER then (s, PERMISSION_DENIED)
    else (UpdateRole(s, g, target, role), OK)
  }

  /** Empty names and avatars leave the old ones in place; the announcement is always replaced. */
  function Edited(d: GroupData, name: string, avatar: string, announcement: string, now: int): GroupData {
    d.(name := if name == "" then d.name else name, avatar := if avatar == "" then d.avatar else avatar,
       announcement := announcement, updatedAt := if now != 0 then now else d.updatedAt)
  }

  function Updated(s: Tables, op: Op): (Tables, ErrorCode)
    requires op.Update?
  {
    if op.g == "" || op.user == "" then (s, INVALID_PARAM)
    else if op.g !in s.groups then (s, GROUP_NOT_FOUND)
    else
      var d := s.groups[op.g];
      if d.ownerId != op.user && !(IsMember(s, op.g, op.user) && s.members[(op.g, op.user)].role == ROLE_ADMIN)
      then (s, PERMISSION_DENIED)
      else
        (s.(groups := s.groups[op.g := Edited(d, op.name, op.avatar, op.announcement, op.now)]), OK)
  }

  function Invited(s: Tables, g: string, user: string, ids: seq<string>, now: int): (Tables, ErrorCode) {
    if g == "" || user == "" then (s, INVALID_PARAM)
    else if g !in s.groups then (s, GROUP_NOT_FOUND)
    else if !IsMember(s, g, user) then (s, NOT_GROUP_MEMBER)
    else (AddAll(s, g, ids, now), OK)
  }

  /** Only the owner may remove the group, for good or by dissolving it. */
  function OwnerOnly(s: Tables, g: string, user: string, s': Tables): (Tables, ErrorCode) {
    if g == "" || user == "" then (s, INVALID_PARAM)
    else if g !in s.groups then (s, GROUP_NOT_FOUND)
    else if s.groups[g].ownerId != user then (s, NOT_GROUP_OWNER)
    else (s', OK)
  }

  ghost function Apply(s: Tables, op: Op): (Tables, ErrorCode) {
    match op
    case Create(_, _, _, _, _, _) => CreateGroup(s, op)
    case Dismiss(g, user) => OwnerOnly(s, g, user, DeleteGroup(s, g))
    case Update(_, _, _, _, _, _) => Updated(s, op)
    case Invite(g, user, ids, now) => Invited(s, g, user, ids, now)
    case Kick(g, user, target) => Kicked(s, g, user, target)
    case Leave(g, user) => Left(s, g, user)
    case Transfer(g, user, target) => Transferred(s, g, user, target)
    case SetRole(g, user, target, role) => RoleSet(s, g, user, target, role)
    case Dissolve(g, user) => OwnerOnly(s, g, user, DissolveGroup(s, g))
  }

  // ---------- what every operation keeps ----------

  /** The two indexes mirror each other. */
  ghost predicate Mirrored(s: Tables) {
    forall g, u :: (g, u) in s.members <==> (u, g) in s.userGroups
  }

  ghost predicate WellKeyed(s: Tables) {
    && (forall g :: g in s.groups ==> g != "" && s.groups[g].groupId == g)
    && (forall k :: k in s.members ==> k.0 in s.groups && k.1 != "" && s.members[k].userId == k.1)
  }

  /** A live group's owner pointer names a member with the owner role; a dissolved group has
      no members. */
  ghost predicate OwnerIn(s: Tables, g: string)
    requires g in s.groups
  {
    var d := s.groups[g];
    if d.status == 1 then forall u :: (g, u) !in s.members
    else (g, d.ownerId) in s.members && s.members[(g, d.ownerId)].role == ROLE_OWNER
  }

  ghost predicate Owned(s: Tables) {
    forall g :: g in s.groups ==> OwnerIn(s, g)
  }

  ghost predicate Inv(s: Tables) {
    Mirrored(s) && WellKeyed(s) && Owned(s)
  }

  lemma AddKeeps(s: Tables, g: string, m: Member)
    requires Mirrored(s) && WellKeyed(s)
    ensures Mirrored(AddMember(s, g, m)) && WellKeyed(AddMember(s, g, m))
    ensures Owned(s) && (g in s.groups ==> s.groups[g].status != 1) ==> Owned(AddMember(s, g, m))
  {
    var s' := AddMember(s, g, m);
    if Owned(s) && (g in s.groups ==> s.groups[g].status != 1) {
      forall h | h in s'.groups ensures OwnerIn(s', h) { assert OwnerIn(s, h); }
    }
  }

  lemma {:induction false} AddAllKeeps(s: Tables, g: string, ids: seq<string>, now: int)
    requires Inv(s) && g in s.groups && s.groups[g].status != 1
    ensures Inv(AddAll(s, g, ids, now))
    decreases |ids|
  {
    if ids != [] {
      var m := Member(ids[0], ROLE_MEMBER, "", now);
      AddKeeps(s, g, m);
      AddAllKeeps(AddMember(s, g, m), g, ids[1..], now);
    }
  }

  lemma RemoveKeeps(s: Tables, g: string, u: string)
    requires Inv(s) && (g in s.groups && s.groups[g].status != 1 ==> s.groups[g].ownerId != u)
    ensures Inv(RemoveMember(s, g, u))
  {
    var s' := RemoveMember(s, g, u);
    forall h | h in s'.groups ensures OwnerIn(s', h) { assert OwnerIn(s, h); }
  }

  lemma DropKeeps(s: Tables, g: string)
    requires Mirrored(s)
    ensures Mirrored(DropMembers(s, g))
    ensures forall h, u :: (h, u) in DropMembers(s, g).members <==> (h, u) in s.members && h != g
  {
  }

  lemma DeleteKeeps(s: Tables, g: string)
    requires Inv(s)
    ensures Inv(DeleteGroup(s, g))
  {
    DropKeeps(s, g);
    var s' := DeleteGroup(s, g);
    forall h | h in s'.groups ensures OwnerIn(s', h) { assert OwnerIn(s, h); }
  }

  lemma DissolveKeeps(s: Tables, g: string)
    requires Inv(s)
    ensures Inv(DissolveGroup(s, g))
  {
    DropKeeps(s, g);
    var s' := DissolveGroup(s, g);
    forall h | h in s'.groups ensures OwnerIn(s', h) { assert OwnerIn(s, h); }
  }

  lemma FoundedKeeps(s: Tables, op: Op, size: nat)
    requires Inv(s) && op.Create? && op.g != "" && op.creator != "" && op.g !in s.groups
    ensures Inv(Founded(s, op, size)) && op.g in Founded(s, op, size).groups
    ensures Founded(s, op, size).groups[op.g].status == 0
  {
    var s1 := s.(groups := s.groups[op.g := NewGroup(op, size)]);
    AddKeeps(s1, op.g, Member(op.creator, ROLE_OWNER, "", op.now));
    var s2 := Founded(s, op, size);
    forall h | h in s2.groups ensures OwnerIn(s2, h) {
      if h != op.g { assert OwnerIn(s, h); }
    }
  }

  lemma CreateKeeps(s: Tables, op: Op)
    requires Inv(s) && op.Create?
    ensures Inv(CreateGroup(s, op).0)
  {
    if CreateGroup(s, op).1 == OK {
      var unique := Founders(op.creator, op.ids);
      FoundedKeeps(s, op, |unique|);
      AddAllKeeps(Founded(s, op, |unique|), op.g, SortedOf(unique - {op.creator}), op.now);
    }
  }

  lemma RoleKeeps(s: Tables, g: string, user: string, target: string, role: int)
    requires Inv(s)
    ensures Inv(RoleSet(s, g, user, target, role).0)
  {
    var s' := RoleSet(s, g, user, target, role).0;
    forall h | h in s'.groups ensures OwnerIn(s', h) { assert OwnerIn(s, h); }
  }

  lemma TransferKeeps(s: Tables, g: string, user: string, target: string)
    requires Inv(s)
    ensures Inv(Transferred(s, g, user, target).0)
  {
    var s' := Transferred(s, g, user, target).0;
    forall h | h in s'.groups ensures OwnerIn(s', h) { assert OwnerIn(s, h); }
  }

  lemma UpdateKeeps(s: Tables, op: Op)
    requires Inv(s) && op.Update?
    ensures Inv(Updated(s, op).0)
  {
    var s' := Updated(s, op).0;
    forall h | h in s'.groups ensures OwnerIn(s', h) { assert OwnerIn(s, h); }
  }

  /** Every service operation keeps the mirror, the keys and the owner. */
  lemma StepKeepsInv(s: Tables, op: Op)
    requires Inv(s)
    ensures Inv(Apply(s, op).0)
  {
    match op
    case Create(_, _, _, _, _, _) => CreateKeeps(s, op);
    case Dismiss(g, _) => DeleteKeeps(s, g);
    case Update(_, _, _, _, _, _) => UpdateKeeps(s, op);
    case Invite(g, user, ids, now) =>
      if Invited(s, g, user, ids, now).1 == OK {
        assert OwnerIn(s, g);
        AddAllKeeps(s, g, ids, now);
      }
    case Kick(g, user, target) =>
      if Kicked(s, g, user, target).1 == OK {
        assert OwnerIn(s, g);
        RemoveKeeps(s, g, target);
      }
    case Leave(g, user) => if Left(s, g, user).1 == OK { RemoveKeeps(s, g, user); }
    case Transfer(g, user, target) => TransferKeeps(s, g, user, target);
    case SetRole(g, user, target, role) => RoleKeeps(s, g, user, target, role);
    case Dissolve(g, _) => DissolveKeeps(s, g);
  }

  // ---------- whole runs ----------

  const EMPTY := Tables(map[], map[], {})

  ghost function Run(s: Tables, ops: seq<Op>): Tables
    decreases |ops|
  {
    if ops == [] then s else Run(Apply(s, ops[0]).0, ops[1..])
  }

  /** Over every run the member rows and the per-user index mirror each other, every member
      row belongs to a stored group, and every live group's owner is a member with the owner
      role, through invites, kicks, departures, transfers and role changes. */
  lemma {:induction false} RunKeepsInv(s: Tables, ops: seq<Op>)
    requires Inv(s)
    ensures Inv(Run(s, ops))
    decreases |ops|
  {
    if ops != [] {
      StepKeepsInv(s, ops[0]);
      RunKeepsInv(Apply(s, ops[0]).0, ops[1..]);
    }
  }

  lemma EveryRunFromEmpty(ops: seq<Op>)
    ensures Inv(Run(EMPTY, ops))
  {
    RunKeepsInv(EMPTY, ops);
  }

  // ---------- when the owner row is unique ----------

  ghost predicate SingleOwner(s: Tables) {
    forall k :: k in s.members && k.0 in s.groups && s.members[k].role == ROLE_OWNER ==> s.groups[k.0].ownerId == k.1
  }

  /** The owner gives a member who is not an owner the owner role, without handing over. */
  ghost predicate GrantsOwnerRole(s: Tables, op: Op) {
    && op.SetRole? && op.role == ROLE_OWNER && op.g in s.groups
    && op.user != "" && op.user == s.groups[op.g].ownerId
    && (op.g, op.target) in s.members && s.members[(op.g, op.target)].role != ROLE_OWNER
  }

  lemma {:induction false} AddAllSingle(s: Tables, g: string, ids: seq<string>, now: int)
    requires SingleOwner(s)
    ensures SingleOwner(AddAll(s, g, ids, now))
    decreases |ids|
  {
    if ids != [] {
      AddAllSingle(AddMember(s, g, Member(ids[0], ROLE_MEMBER, "", now)), g, ids[1..], now);
    }
  }

  /** A group keeps a single owner row through an operation if and only if the operation does
      not grant the owner role. */
  lemma SingleOwnerExact(s: Tables, op: Op)
    requires Inv(s) && SingleOwner(s)
    ensures SingleOwner(Apply(s, op).0) <==> !GrantsOwnerRole(s, op)
  {
    match op
    case SetRole(_, _, _, _) => SetRoleSingle(s, op);
    case Create(_, _, _, _, _, _) => CreateSingle(s, op);
    case Invite(_, _, _, _) => InviteSingle(s, op);
    case Transfer(_, _, _) => TransferSingle(s, op);
    case Dismiss(_, _) => RemovalSingle(s, op);
    case Dissolve(_, _) => RemovalSingle(s, op);
    case Kick(_, _, _) => RemovalSingle(s, op);
    case Leave(_, _) => RemovalSingle(s, op);
    case Update(_, _, _, _, _, _) => UpdateSingle(s, op);
  }

  lemma SetRoleSingle(s: Tables, op: Op)
    requires Inv(s) && SingleOwner(s) && op.SetRole?
    ensures SingleOwner(Apply(s, op).0) <==> !GrantsOwnerRole(s, op)
  {
    var s' := Apply(s, op).0;
    if GrantsOwnerRole(s, op) {
      assert OwnerIn(s, op.g) && (op.g, op.target).1 != "";
      assert (op.g, op.target) in s'.members && s'.members[(op.g, op.target)].role == ROLE_OWNER;
    }
  }

  lemma CreateSingle(s: Tables, op: Op)
    requires Inv(s) && SingleOwner(s) && op.Create?
    ensures SingleOwner(Apply(s, op).0)
  {
    if CreateGroup(s, op).1 == OK {
      var unique := Founders(op.creator, op.ids);
      assert SingleOwner(Founded(s, op, |unique|));
      AddAllSingle(Founded(s, op, |unique|), op.g, SortedOf(unique - {op.creator}), op.now);
    }
  }

  lemma InviteSingle(s: Tables, op: Op)
    requires SingleOwner(s) && op.Invite?
    ensures SingleOwner(Apply(s, op).0)
  {
    AddAllSingle(s, op.g, op.ids, op.now);
  }

  lemma RemovalSingle(s: Tables, op: Op)
    requires SingleOwner(s) && (op.Dismiss? || op.Dissolve? || op.Kick? || op.Leave?)
    ensures SingleOwner(Apply(s, op).0)
  {
  }

  lemma UpdateSingle(s: Tables, op: Op)
    requires SingleOwner(s) && op.Update?
    ensures SingleOwner(Apply(s, op).0)
  {
  }

  lemma TransferSingle(s: Tables, op: Op)
    requires Inv(s) && SingleOwner(s) && op.Transfer?
    ensures SingleOwner(Apply(s, op).0)
  {
  }

  // ---------- who joins, leaves and rules ----------

  lemma {:induction false} AddAllMembers(s: Tables, g: string, ids: seq<string>, now: int, k: (string, string))
    requires g != "" && g in s.groups
    ensures k in AddAll(s, g, ids, now).members <==> k in s.members || (k.0 == g && k.1 != "" && k.1 in ids)
    decreases |ids|
  {
    if ids != [] {
      AddAllMembers(AddMember(s, g, Member(ids[0], ROLE_MEMBER, "", now)), g, ids[1..], now, k);
      assert k.1 in ids <==> k.1 == ids[0] || k.1 in ids[1..];
    }
  }

  lemma FoundedMembers(s: Tables, op: Op, k: (string, string))
    requires Inv(s) && op.Create? && CreateGroup(s, op).1 == OK
    ensures k in CreateGroup(s, op).0.members
        <==> k in s.members || (k.0 == op.g && k.1 in Founders(op.creator, op.ids))
  {
    var unique := Founders(op.creator, op.ids);
    AddAllMembers(Founded(s, op, |unique|), op.g, SortedOf(unique - {op.creator}), op.now, k);
  }

  predicate Founds(s: Tables, op: Op, u: string)
    requires op.Create?
  {
    && op.creator != "" && |Founders(op.creator, op.ids)| >= MIN_GROUP_MEMBERS
    && op.g != "" && op.g !in s.groups && (u == op.creator || u in op.ids)
  }

  /** The creator counts among the founders, and so does every name in the list, once. */
  lemma FoundersExact(creator: string, ids: seq<string>, u: string)
    ensures u in Founders(creator, ids) <==> u == creator || (u != "" && u in ids)
  {
  }

  predicate Joins(s: Tables, op: Op, g: string, u: string) {
    && op.g == g && u != ""
    && ((op.Create? && Founds(s, op, u)) || (op.Invite? && op.user != "" && (g, op.user) in s.members && u in op.ids))
  }

  lemma CreateJoins(s: Tables, op: Op, g: string, u: string)
    requires Inv(s) && op.Create? && (g, u) !in s.members
    ensures (g, u) in Apply(s, op).0.members <==> Joins(s, op, g, u)
  {
    assert (op.g, op.creator) in s.members ==> (op.g, op.creator).0 in s.groups;
    if CreateGroup(s, op).1 == OK { FoundedMembers(s, op, (g, u)); }
  }

  lemma InviteJoins(s: Tables, op: Op, g: string, u: string)
    requires Inv(s) && op.Invite? && (g, u) !in s.members
    ensures (g, u) in Apply(s, op).0.members <==> Joins(s, op, g, u)
  {
    assert (op.g, op.user) in s.members ==> (op.g, op.user).0 in s.groups;
    if Apply(s, op).1 == OK { AddAllMembers(s, op.g, op.ids, op.now, (g, u)); }
  }

  lemma NobodyElseJoins(s: Tables, op: Op)
    requires !op.Create? && !op.Invite?
    ensures Apply(s, op).0.members.Keys <= s.members.Keys
  {
  }

  /** Someone becomes a member exactly by founding the group or by a member's invitation. */
  lemma JoinExact(s: Tables, op: Op, g: string, u: string)
    requires Inv(s) && (g, u) !in s.members
    ensures (g, u) in Apply(s, op).0.members <==> Joins(s, op, g, u)
  {
    if op.Create? {
      CreateJoins(s, op, g, u);
    } else if op.Invite? {
      InviteJoins(s, op, g, u);
    } else {
      NobodyElseJoins(s, op);
    }
  }

  predicate Outranks(s: Tables, g: string, user: string, target: string) {
    && user != "" && (g, user) in s.members && (g, target) in s.members
    && var boss, t := s.members[(g, user)].role, s.members[(g, target)].role;
       t != ROLE_OWNER && (boss == ROLE_OWNER || (boss == ROLE_ADMIN && t != ROLE_ADMIN))
  }

  predicate Parts(s: Tables, op: Op, g: string, u: string)
    requires g in s.groups
  {
    && op.g == g
    && ((op.Kick? && op.target == u && Outranks(s, g, op.user, u))
        || (op.Leave? && op.user == u && s.groups[g].ownerId != u)
        || ((op.Dismiss? || op.Dissolve?) && op.user != "" && op.user == s.groups[g].ownerId))
  }

  lemma JoiningKeepsMembers(s: Tables, op: Op)
    requires Inv(s) && (op.Create? || op.Invite?)
    ensures s.members.Keys <= Apply(s, op).0.members.Keys
  {
    if Apply(s, op).1 == OK {
      forall k | k in s.members ensures k in Apply(s, op).0.members {
        if op.Create? { FoundedMembers(s, op, k); } else { AddAllMembers(s, op.g, op.ids, op.now, k); }
      }
    } else if op.Create? {
      assert (op.g, op.creator) in s.members ==> (op.g, op.creator).0 in s.groups;
    }
  }

  lemma ClosingParts(s: Tables, op: Op, g: string, u: string)
    requires Inv(s) && (g, u) in s.members && g in s.groups && (op.Dismiss? || op.Dissolve?)
    ensures (g, u) !in Apply(s, op).0.members <==> Parts(s, op, g, u)
  {
    assert OwnerIn(s, g);
  }

  lemma RemovalParts(s: Tables, op: Op, g: string, u: string)
    requires Inv(s) && (g, u) in s.members && g in s.groups && (op.Kick? || op.Leave?)
    ensures (g, u) !in Apply(s, op).0.members <==> Parts(s, op, g, u)
  {
    assert (g, u).1 != "";
  }

  lemma NobodyElseParts(s: Tables, op: Op)
    requires op.Update? || op.Transfer? || op.SetRole?
    ensures Apply(s, op).0.members.Keys == s.members.Keys
  {
  }

  /** A member goes exactly by leaving without being the owner, by the hand of someone of
      higher rank, or when the owner closes the group. */
  lemma PartExact(s: Tables, op: Op, g: string, u: string)
    requires Inv(s) && (g, u) in s.members
    ensures g in s.groups
    ensures (g, u) !in Apply(s, op).0.members <==> Parts(s, op, g, u)
  {
    assert (g, u).0 in s.groups;
    if op.Create? || op.Invite? {
      JoiningKeepsMembers(s, op);
    } else if op.Dismiss? || op.Dissolve? {
      ClosingParts(s, op, g, u);
    } else if op.Kick? || op.Leave? {
      RemovalParts(s, op, g, u);
    } else {
      NobodyElseParts(s, op);
    }
  }

  lemma {:induction false} AddAllOwner(s: Tables, g: string, ids: seq<string>, now: int, h: string)
    requires h in s.groups
    ensures h in AddAll(s, g, ids, now).groups && AddAll(s, g, ids, now).groups[h].ownerId == s.groups[h].ownerId
    ensures AddAll(s, g, ids, now).groups[h].status == s.groups[h].status
    decreases |ids|
  {
    if ids != [] { AddAllOwner(AddMember(s, g, Member(ids[0], ROLE_MEMBER, "", now)), g, ids[1..], now, h); }
  }

  ghost predicate HandsOver(s: Tables, op: Op, g: string)
    requires g in s.groups
  {
    op.Transfer? && op.g == g && op.user != "" && op.user == s.groups[g].ownerId && (g, op.target) in s.members
  }

  lemma CreateKeepsOwner(s: Tables, op: Op, g: string)
    requires g in s.groups && op.Create? && g in CreateGroup(s, op).0.groups
    ensures CreateGroup(s, op).0.groups[g].ownerId == s.groups[g].ownerId
  {
    if CreateGroup(s, op).1 == OK {
      var unique := Founders(op.creator, op.ids);
      AddAllOwner(Founded(s, op, |unique|), op.g, SortedOf(unique - {op.creator}), op.now, g);
    }
  }

  lemma JoiningKeepsOwner(s: Tables, op: Op, g: string)
    requires Inv(s) && g in s.groups && (op.Create? || op.Invite?) && g in Apply(s, op).0.groups
    ensures Apply(s, op).0.groups[g].ownerId == s.groups[g].ownerId
  {
    if op.Invite? { AddAllOwner(s, op.g, op.ids, op.now, g); } else { CreateKeepsOwner(s, op, g); }
  }

  lemma TransferMovesOwner(s: Tables, op: Op, g: string)
    requires Inv(s) && g in s.groups && op.Transfer?
    ensures g in Apply(s, op).0.groups
    ensures Apply(s, op).0.groups[g].ownerId == if HandsOver(s, op, g) then op.target else s.groups[g].ownerId
  {
    assert OwnerIn(s, g);
    assert (g, op.target) in s.members ==> (g, op.target).1 != "";
  }

  lemma OthersKeepOwner(s: Tables, op: Op, g: string)
    requires g in s.groups && g in Apply(s, op).0.groups && !op.Create? && !op.Invite? && !op.Transfer?
    ensures Apply(s, op).0.groups[g].ownerId == s.groups[g].ownerId
  {
  }

  /** The owner pointer moves exactly by the owner's transfer to a member. */
  lemma OwnerChangeExact(s: Tables, op: Op, g: string)
    requires Inv(s) && g in s.groups && g in Apply(s, op).0.groups
    ensures Apply(s, op).0.groups[g].ownerId == if HandsOver(s, op, g) then op.target else s.groups[g].ownerId
  {
    if op.Create? || op.Invite? {
      JoiningKeepsOwner(s, op, g);
    } else if op.Transfer? {
      TransferMovesOwner(s, op, g);
    } else {
      OthersKeepOwner(s, op, g);
    }
  }

  // ---------- what the rows say ----------

  /** The owner of the group acts on one of its members. */
  predicate ByOwner(s: Tables, op: Op)
    requires op.SetRole? || op.Transfer?
  {
    op.user != "" && op.g in s.groups && op.user == s.groups[op.g].ownerId && (op.g, op.target) in s.members
  }

  lemma {:induction false} AddAllRows(s: Tables, g: string, ids: seq<string>, now: int, k: (string, string))
    ensures k in s.members ==> k in AddAll(s, g, ids, now).members && AddAll(s, g, ids, now).members[k] == s.members[k]
    ensures k !in s.members && k in AddAll(s, g, ids, now).members ==>
      AddAll(s, g, ids, now).members[k] == Member(k.1, 1, "", now)
    decreases |ids|
  {
    if ids != [] { AddAllRows(AddMember(s, g, Member(ids[0], ROLE_MEMBER, "", now)), g, ids[1..], now, k); }
  }

  lemma CreateKeepsRows(s: Tables, op: Op, k: (string, string))
    requires Inv(s) && op.Create? && k in s.members
    ensures k in CreateGroup(s, op).0.members && CreateGroup(s, op).0.members[k] == s.members[k]
  {
    assert (op.g, op.creator) in s.members ==> (op.g, op.creator).0 in s.groups;
    if CreateGroup(s, op).1 == OK {
      var unique := Founders(op.creator, op.ids);
      AddAllRows(Founded(s, op, |unique|), op.g, SortedOf(unique - {op.creator}), op.now, k);
    }
  }

  lemma JoiningKeepsRows(s: Tables, op: Op, k: (string, string))
    requires Inv(s) && (op.Create? || op.Invite?) && k in s.members
    ensures k in Apply(s, op).0.members && Apply(s, op).0.members[k] == s.members[k]
  {
    if op.Invite? { AddAllRows(s, op.g, op.ids, op.now, k); } else { CreateKeepsRows(s, op, k); }
  }

  lemma SetRoleRow(s: Tables, op: Op, k: (string, string))
    requires Inv(s) && op.SetRole? && k in s.members
    ensures k in Apply(s, op).0.members
    ensures Apply(s, op).0.members[k]
         == if ByOwner(s, op) && k == (op.g, op.target) && s.members[k].role != 0 then s.members[k].(role := op.role)
            else s.members[k]
  {
    assert (op.g, op.target) in s.members ==> (op.g, op.target).1 != "";
  }

  lemma TransferRow(s: Tables, op: Op, k: (string, string))
    requires Inv(s) && op.Transfer? && k in s.members
    ensures k in Apply(s, op).0.members
    ensures Apply(s, op).0.members[k]
         == if ByOwner(s, op) && k == (op.g, op.target) then s.members[k].(role := 0)
            else if ByOwner(s, op) && k == (op.g, op.user) then s.members[k].(role := 1)
            else s.members[k]
  {
    assert (op.g, op.target) in s.members ==> (op.g, op.target).1 != "" && (op.g, op.target).0 in s.groups;
    if op.g in s.groups { assert OwnerIn(s, op.g); }
  }

  lemma OtherRows(s: Tables, op: Op, k: (string, string))
    requires op.Dismiss? || op.Dissolve? || op.Kick? || op.Leave? || op.Update?
    requires k in s.members && k in Apply(s, op).0.members
    ensures Apply(s, op).0.members[k] == s.members[k]
  {
  }

  /** The row of someone who stays changes only in its role, and only when the owner sets the role
      of a member who is not an owner, to what was asked for, or hands the group over: then the
      new owner's becomes owner and the old owner's ordinary member. */
  lemma RowExact(s: Tables, op: Op, k: (string, string))
    requires Inv(s) && k in s.members && k in Apply(s, op).0.members
    ensures Apply(s, op).0.members[k]
         == if op.SetRole? && ByOwner(s, op) && k == (op.g, op.target) && s.members[k].role != 0
            then s.members[k].(role := op.role)
            else if op.Transfer? && ByOwner(s, op) && k == (op.g, op.target) then s.members[k].(role := 0)
            else if op.Transfer? && ByOwner(s, op) && k == (op.g, op.user) then s.members[k].(role := 1)
            else s.members[k]
  {
    if op.Create? || op.Invite? {
      JoiningKeepsRows(s, op, k);
    } else if op.SetRole? {
      SetRoleRow(s, op, k);
    } else if op.Transfer? {
      TransferRow(s, op, k);
    } else {
      OtherRows(s, op, k);
    }
  }

  /** Whoever joins, joins as an ordinary member, except the creator of a group, its owner. */
  lemma JoinedRow(s: Tables, op: Op, g: string, u: string)
    requires Inv(s) && (g, u) !in s.members && (g, u) in Apply(s, op).0.members
    ensures Apply(s, op).0.members[(g, u)]
         == Member(u, if op.Create? && u == op.creator then 0 else 1, "", JoinTime(op))
  {
    JoinExact(s, op, g, u);
    if op.Invite? {
      AddAllRows(s, op.g, op.ids, op.now, (g, u));
    } else {
      FounderRow(s, op, u);
    }
  }

  function JoinTime(op: Op): int {
    if op.Create? || op.Invite? then op.now else 0
  }

  lemma FounderRow(s: Tables, op: Op, u: string)
    requires Inv(s) && op.Create? && (op.g, u) !in s.members && (op.g, u) in Apply(s, op).0.members
    ensures Apply(s, op).0.members[(op.g, u)] == Member(u, if u == op.creator then 0 else 1, "", op.now)
  {
    if CreateGroup(s, op).1 == OK {
      var unique := Founders(op.creator, op.ids);
      AddAllRows(Founded(s, op, |unique|), op.g, SortedOf(unique - {op.creator}), op.now, (op.g, u));
    }
  }

  /** A group row without its bookkeeping. */
  function Bare(d: GroupData): GroupData { d.(memberCount := 0, updatedAt := 0) }

  lemma {:induction false} AddAllGroupRow(s: Tables, g: string, ids: seq<string>, now: int, h: string)
    requires h in s.groups
    ensures h in AddAll(s, g, ids, now).groups && Bare(AddAll(s, g, ids, now).groups[h]) == Bare(s.groups[h])
    decreases |ids|
  {
    if ids != [] { AddAllGroupRow(AddMember(s, g, Member(ids[0], ROLE_MEMBER, "", now)), g, ids[1..], now, h); }
  }

  /** The row of a new group: the given name, or the usual one, and picture, the creator as owner,
      no announcement, and live. */
  lemma NewGroupRow(s: Tables, op: Op)
    requires Inv(s) && op.Create? && op.creator != "" && |Founders(op.creator, op.ids)| >= 3
    requires op.g != "" && op.g !in s.groups
    ensures Apply(s, op).1 == OK && op.g in Apply(s, op).0.groups
    ensures Bare(Apply(s, op).0.groups[op.g])
         == GroupData(op.g, if op.name == "" then "群聊" else op.name, op.avatar, op.creator, 0, "", op.now, 0, 0)
  {
    CreatedGroup(s, op);
    var unique := Founders(op.creator, op.ids);
    AddAllGroupRow(Founded(s, op, |unique|), op.g, SortedOf(unique - {op.creator}), op.now, op.g);
  }

  /** The owner or an administrator edits the group. */
  predicate MayEdit(s: Tables, op: Op, h: string)
    requires h in s.groups
  {
    op.Update? && op.g == h && op.user != ""
    && (op.user == s.groups[h].ownerId || ((h, op.user) in s.members && s.members[(h, op.user)].role == 2))
  }

  lemma JoiningKeepsGroupRow(s: Tables, op: Op, h: string)
    requires Inv(s) && h in s.groups && (op.Create? || op.Invite?) && h in Apply(s, op).0.groups
    ensures Bare(Apply(s, op).0.groups[h]) == Bare(s.groups[h])
  {
    if op.Invite? { AddAllGroupRow(s, op.g, op.ids, op.now, h); } else { CreationKeepsGroupRow(s, op, h); }
  }

  lemma CreationKeepsGroupRow(s: Tables, op: Op, h: string)
    requires Inv(s) && h in s.groups && op.Create? && h in CreateGroup(s, op).0.groups
    ensures Bare(CreateGroup(s, op).0.groups[h]) == Bare(s.groups[h])
  {
    if CreateGroup(s, op).1 == OK {
      var unique := Founders(op.creator, op.ids);
      AddAllGroupRow(Founded(s, op, |unique|), op.g, SortedOf(unique - {op.creator}), op.now, h);
    }
  }

  /** The row of a group that stays, apart from bookkeeping and the owner: the owner or an
      administrator changes the announcement and, where not empty, the name and picture; the
      owner's dissolution sets the status; nothing else changes. */
  lemma GroupRowExact(s: Tables, op: Op, h: string)
    requires Inv(s) && h in s.groups && h in Apply(s, op).0.groups
    ensures
      var d, d' := s.groups[h], Apply(s, op).0.groups[h];
      Bare(d')
      == Bare(d).(ownerId := d'.ownerId,
                  name := if MayEdit(s, op, h) && op.name != "" then op.name else d.name,
                  avatar := if MayEdit(s, op, h) && op.avatar != "" then op.avatar else d.avatar,
                  announcement := if MayEdit(s, op, h) then op.announcement else d.announcement,
                  status := if op.Dissolve? && op.g == h && op.user != "" && op.user == d.ownerId then 1 else d.status)
  {
    if op.Create? || op.Invite? {
      JoiningKeepsGroupRow(s, op, h);
    } else if op.Update? {
      EditedRow(s, op, h);
    } else {
      OtherGroupRow(s, op, h);
    }
  }

  lemma EditedRow(s: Tables, op: Op, h: string)
    requires Inv(s) && h in s.groups && op.Update?
    ensures h in Apply(s, op).0.groups
    ensures
      var d, d' := s.groups[h], Apply(s, op).0.groups[h];
      d' == if MayEdit(s, op, h)
            then d.(name := if op.name != "" then op.name else d.name,
                    avatar := if op.avatar != "" then op.avatar else d.avatar,
                    announcement := op.announcement, updatedAt := if op.now != 0 then op.now else d.updatedAt)
            else d
  {
    assert h != "";
  }

  lemma OtherGroupRow(s: Tables, op: Op, h: string)
    requires Inv(s) && h in s.groups && h in Apply(s, op).0.groups && !op.Create? && !op.Invite? && !op.Update?
    ensures
      var d, d' := s.groups[h], Apply(s, op).0.groups[h];
      Bare(d')
      == Bare(d).(ownerId := d'.ownerId,
                  status := if op.Dissolve? && op.g == h && op.user != "" && op.user == d.ownerId then 1 else d.status)
  {
    assert h != "";
  }

  /** A group is there after an operation when it was and its owner did not dismiss it, or three founders
      create it under a fresh id. */
  lemma GroupsExact(s: Tables, op: Op, h: string)
    requires Inv(s)
    ensures h in Apply(s, op).0.groups <==>
      (h in s.groups && !(op.Dismiss? && op.g == h && op.user != "" && op.user == s.groups[h].ownerId))
      || (h !in s.groups && op.g == h && op.Create? && Founds(s, op, op.creator))
  {
    if op.Create? {
      CreationKeepsGroups(s, op, h);
    } else if op.Invite? {
      AddAllGroups(s, op.g, op.ids, op.now, h);
    } else {
      OthersKeepGroups(s, op, h);
    }
  }

  lemma {:induction false} AddAllGroups(s: Tables, g: string, ids: seq<string>, now: int, h: string)
    ensures h in AddAll(s, g, ids, now).groups <==> h in s.groups
    decreases |ids|
  {
    if ids != [] { AddAllGroups(AddMember(s, g, Member(ids[0], ROLE_MEMBER, "", now)), g, ids[1..], now, h); }
  }

  lemma CreationKeepsGroups(s: Tables, op: Op, h: string)
    requires Inv(s) && op.Create?
    ensures h in Apply(s, op).0.groups <==> h in s.groups || (op.g == h && Founds(s, op, op.creator))
  {
    assert (op.g, op.creator) in s.members ==> (op.g, op.creator).0 in s.groups;
    if CreateGroup(s, op).1 == OK {
      var unique := Founders(op.creator, op.ids);
      AddAllGroups(Founded(s, op, |unique|), op.g, SortedOf(unique - {op.creator}), op.now, h);
    }
  }

  lemma OthersKeepGroups(s: Tables, op: Op, h: string)
    requires Inv(s) && !op.Create? && !op.Invite?
    ensures h in Apply(s, op).0.groups
       <==> h in s.groups && !(op.Dismiss? && op.g == h && op.user != "" && op.user == s.groups[h].ownerId)
  {
    assert h in s.groups ==> h != "";
  }

  // ---------- which error ----------

  predicate Unnamed(op: Op) {
    match op
    case Create(_, creator, _, _, _, _) => creator == ""
    case Kick(g, user, target) => g == "" || user == "" || target == ""
    case Transfer(g, user, target) => g == "" || user == "" || target == ""
    case SetRole(g, user, target, _) => g == "" || user == "" || target == ""
    case _ => op.g == "" || op.user == ""
  }

  /** The operation concerns a group that is there, with all names given. */
  predicate Found(s: Tables, op: Op) {
    !op.Create? && !Unnamed(op) && op.g in s.groups
  }

  predicate ForOwner(op: Op) {
    op.Dismiss? || op.Dissolve? || op.Transfer? || op.SetRole?
  }

  /** Missing names are reported first, then a missing group. */
  lemma FirstErrorsExact(s: Tables, op: Op)
    requires Inv(s)
    ensures Apply(s, op).1 == INVALID_PARAM <==> Unnamed(op)
    ensures Apply(s, op).1 == GROUP_NOT_FOUND <==> !op.Create? && !Unnamed(op) && op.g !in s.groups
  {
  }

  /** Then that the caller is not the owner. */
  lemma NotOwnerExact(s: Tables, op: Op)
    requires Inv(s)
    ensures Apply(s, op).1 == NOT_GROUP_OWNER
       <==> Found(s, op) && ForOwner(op) && op.user != s.groups[op.g].ownerId
  {
  }

  /** Only the owner is kept from leaving. */
  lemma CannotLeaveExact(s: Tables, op: Op)
    ensures Apply(s, op).1 == OWNER_CANNOT_LEAVE <==> Found(s, op) && op.Leave? && op.user == s.groups[op.g].ownerId
  {
  }

  lemma TooFewExact(s: Tables, op: Op)
    ensures Apply(s, op).1 == GROUP_MEMBERS_TOO_FEW
       <==> op.Create? && op.creator != "" && |Founders(op.creator, op.ids)| < 3
  {
  }

  /** Someone the operation needs as a member is not one. */
  predicate Outsider(s: Tables, op: Op)
    requires Found(s, op)
  {
    match op
    case Invite(g, user, _, _) => (g, user) !in s.members
    case Kick(g, user, target) => (g, user) !in s.members || (g, target) !in s.members
    case Leave(g, user) => user != s.groups[g].ownerId && (g, user) !in s.members
    case Transfer(g, user, target) => user == s.groups[g].ownerId && (g, target) !in s.members
    case SetRole(g, user, target, _) => user == s.groups[g].ownerId && (g, target) !in s.members
    case _ => false
  }

  lemma OutsiderExact(s: Tables, op: Op)
    requires Inv(s)
    ensures Apply(s, op).1 == NOT_GROUP_MEMBER <==> Found(s, op) && Outsider(s, op)
  {
  }

  /** Owners cannot be kicked, nor administrators by one another. */
  lemma KickRefusedExact(s: Tables, op: Op)
    requires Inv(s)
    ensures Apply(s, op).1 == KICK_NOT_ALLOWED
       <==> op.Kick? && Found(s, op) && !Outsider(s, op)
            && (s.members[(op.g, op.target)].role == 0
                || (s.members[(op.g, op.user)].role == 2 && s.members[(op.g, op.target)].role == 2))
  {
  }

  /** Ordinary members cannot kick, nor edit the group; and the role of an owner cannot be set. */
  predicate Forbidden(s: Tables, op: Op)
    requires Found(s, op)
  {
    match op
    case Kick(g, user, target) =>
      && !Outsider(s, op) && s.members[(g, target)].role != 0
      && s.members[(g, user)].role != 0 && s.members[(g, user)].role != 2
    case Update(g, _, _, _, _, _) => !MayEdit(s, op, g)
    case SetRole(g, _, target, _) => ByOwner(s, op) && s.members[(g, target)].role == 0
    case _ => false
  }

  lemma ForbiddenExact(s: Tables, op: Op)
    requires Inv(s)
    ensures Apply(s, op).1 == PERMISSION_DENIED <==> Found(s, op) && Forbidden(s, op)
  {
  }

  /** Nothing else fails but a creation under an id that is empty or taken. */
  lemma InternalErrorExact(s: Tables, op: Op)
    requires Inv(s)
    ensures Apply(s, op).1 == INTERNAL_ERROR
       <==> op.Create? && op.creator != "" && |Founders(op.creator, op.ids)| >= 3 && (op.g == "" || op.g in s.groups)
  {
    if op.Create? {
      assert (op.g, op.creator) in s.members ==> (op.g, op.creator).0 in s.groups;
    } else if op.Transfer? && op.g in s.groups {
      assert OwnerIn(s, op.g);
    }
  }

  // ---------- runs with one owner, and with two ----------

  ghost predicate NoGrants(s: Tables, ops: seq<Op>)
    decreases |ops|
  {
    ops == [] || (!GrantsOwnerRole(s, ops[0]) && NoGrants(Apply(s, ops[0]).0, ops[1..]))
  }

  /** A run in which the owner role is never granted keeps every group's owner row unique. */
  lemma {:induction false} RunKeepsSingleOwner(s: Tables, ops: seq<Op>)
    requires Inv(s) && SingleOwner(s) && NoGrants(s, ops)
    ensures SingleOwner(Run(s, ops))
    decreases |ops|
  {
    if ops != [] {
      StepKeepsInv(s, ops[0]);
      SingleOwnerExact(s, ops[0]);
      RunKeepsSingleOwner(Apply(s, ops[0]).0, ops[1..]);
    }
  }

  lemma NobodyYet(s: Tables, g: string, u: string)
    requires WellKeyed(s) && g !in s.groups
    ensures (g, u) !in s.members
  {
    assert (g, u).0 == g;
  }

  /** What a successful creation leaves. */
  lemma CreatedGroup(s: Tables, op: Op)
    requires Inv(s) && op.Create? && op.creator != "" && |Founders(op.creator, op.ids)| >= MIN_GROUP_MEMBERS
    requires op.g != "" && op.g !in s.groups
    ensures Apply(s, op).1 == OK && Inv(Apply(s, op).0)
    ensures op.g in Apply(s, op).0.groups && Apply(s, op).0.groups[op.g].ownerId == op.creator
        && Apply(s, op).0.groups[op.g].status == 0
    ensures forall u :: u in Founders(op.creator, op.ids) ==> (op.g, u) in Apply(s, op).0.members
  {
    NobodyYet(s, op.g, op.creator);
    StepKeepsInv(s, op);
    var unique := Founders(op.creator, op.ids);
    AddAllOwner(Founded(s, op, |unique|), op.g, SortedOf(unique - {op.creator}), op.now, op.g);
    forall u | u in unique ensures (op.g, u) in Apply(s, op).0.members { FoundedMembers(s, op, (op.g, u)); }
  }

  lemma ThreeFounders(a: string, b: string, c: string)
    requires a != "" && b != "" && c != "" && a != b && b != c && a != c
    ensures Founders(a, [b, c]) == {a, b, c} && |Founders(a, [b, c])| == MIN_GROUP_MEMBERS
  {
    assert Founders(a, [b, c]) == {a, b, c};
  }

  lemma RunOfTwo(s: Tables, first: Op, second: Op)
    ensures Run(s, [first, second]) == Apply(Apply(s, first).0, second).0
  {
    var t := Apply(s, first).0;
    assert [first, second][0] == first && [first, second][1..] == [second];
    assert Run(s, [first, second]) == Run(t, [second]);
    assert [second][0] == second && [second][1..] == [];
    assert Run(t, [second]) == Run(Apply(t, second).0, []);
  }

  lemma GrantMakesTwo(s: Tables, g: string, a: string, b: string)
    requires Inv(s) && SingleOwner(s) && g in s.groups && s.groups[g].status != 1
    requires s.groups[g].ownerId == a != b && a != "" && (g, b) in s.members
    ensures
      var t := Apply(s, SetRole(g, a, b, ROLE_OWNER)).0;
      && (g, a) in t.members && t.members[(g, a)].role == ROLE_OWNER
      && (g, b) in t.members && t.members[(g, b)].role == ROLE_OWNER && !SingleOwner(t)
  {
    assert OwnerIn(s, g);
    assert s.members[(g, b)].role != ROLE_OWNER && (g, b).1 != "" by { assert s.groups[(g, b).0].ownerId != (g, b).1; }
    SetRoleSingle(s, SetRole(g, a, b, ROLE_OWNER));
  }

  /** Three users found a group and the first makes the second an owner: two owner rows. */
  lemma TwoOwners(g: string, a: string, b: string, c: string)
    requires g != "" && a != "" && b != "" && c != "" && a != b && b != c && a != c
    ensures
      var s := Run(EMPTY, [Create(g, a, "", "", [b, c], 0), SetRole(g, a, b, ROLE_OWNER)]);
      && (g, a) in s.members && s.members[(g, a)].role == ROLE_OWNER
      && (g, b) in s.members && s.members[(g, b)].role == ROLE_OWNER && !SingleOwner(s)
  {
    var create := Create(g, a, "", "", [b, c], 0);
    ThreeFounders(a, b, c);
    CreatedGroup(EMPTY, create);
    CreateSingle(EMPTY, create);
    GrantMakesTwo(Apply(EMPTY, create).0, g, a, b);
    RunOfTwo(EMPTY, create, SetRole(g, a, b, ROLE_OWNER));
  }

  lemma ClosedTwice(s: Tables, g: string, a: string)
    requires Inv(s) && g in s.groups && s.groups[g].ownerId == a != "" && s.groups[g].status != 1
    ensures
      var t := Apply(s, Dissolve(g, a)).0;
      && Inv(t) && g in t.groups && t.groups[g].status == 1
      && Inv(Apply(t, Dismiss(g, a)).0) && g !in Apply(t, Dismiss(g, a)).0.groups
  {
    DissolveKeeps(s, g);
    DeleteKeeps(DissolveGroup(s, g), g);
  }

  lemma TakenId(s: Tables, op: Op)
    requires op.Create? && op.g in s.groups
    ensures CreateGroup(s, op).1 != OK
  {
  }

  /** A group is founded, dissolved and dismissed by its owner: its id, blocked meanwhile, can
      be used again. */
  lemma TombstoneLifted(g: string, a: string, b: string, c: string)
    requires g != "" && a != "" && b != "" && c != "" && a != b && b != c && a != c
    ensures
      var create := Create(g, a, "", "", [b, c], 0);
      var dissolved := Run(EMPTY, [create, Dissolve(g, a)]);
      && g in dissolved.groups && dissolved.groups[g].status == 1 && Apply(dissolved, create).1 != OK
      && Apply(Apply(dissolved, Dismiss(g, a)).0, create).1 == OK
  {
    var create := Create(g, a, "", "", [b, c], 0);
    ThreeFounders(a, b, c);
    CreatedGroup(EMPTY, create);
    ClosedTwice(Apply(EMPTY, create).0, g, a);
    RunOfTwo(EMPTY, create, Dissolve(g, a));
    var dissolved := Run(EMPTY, [create, Dissolve(g, a)]);
    TakenId(dissolved, create);
    CreatedGroup(Apply(dissolved, Dismiss(g, a)).0, create);
  }

  // ---------- member counts ----------

  /** How far the stored count of a group runs ahead of its member rows. */
  ghost function Surplus(s: Tables, g: string): int
    requires g in s.groups
  {
    s.groups[g].memberCount - |Rows(s, g)|
  }

  lemma RowsMember(s: Tables, g: string, u: string)
    ensures u in Rows(s, g) <==> (g, u) in s.members
  {
    if (g, u) in s.members { assert (g, u).0 == g && (g, u).1 == u; }
  }

  lemma RowsSame(s: Tables, s': Tables, g: string)
    requires forall u :: (g, u) in s.members <==> (g, u) in s'.members
    ensures Rows(s, g) == Rows(s', g)
  {
    forall u ensures u in Rows(s, g) <==> u in Rows(s', g) {
      RowsMember(s, g, u);
      RowsMember(s', g, u);
    }
  }

  lemma RowsAfterAdd(s: Tables, g: string, m: Member, h: string)
    requires CanAdd(s, g, m)
    ensures Rows(AddMember(s, g, m), h) == if h == g then Rows(s, h) + {m.userId} else Rows(s, h)
    ensures m.userId !in Rows(s, g)
  {
    var s' := AddMember(s, g, m);
    forall u ensures u in Rows(s', h) <==> u in Rows(s, h) || (h == g && u == m.userId) {
      RowsMember(s, h, u);
      RowsMember(s', h, u);
    }
    RowsMember(s, g, m.userId);
  }

  lemma AddSurplus(s: Tables, g: string, m: Member, h: string)
    requires h in s.groups
    ensures h in AddMember(s, g, m).groups && Surplus(AddMember(s, g, m), h) == Surplus(s, h)
  {
    if CanAdd(s, g, m) { RowsAfterAdd(s, g, m, h); }
  }

  lemma RemoveSurplus(s: Tables, g: string, u: string, h: string)
    requires h in s.groups && Surplus(s, h) >= 0
    ensures h in RemoveMember(s, g, u).groups && Surplus(RemoveMember(s, g, u), h) == Surplus(s, h)
  {
    if CanRemove(s, g, u) {
      var s' := RemoveMember(s, g, u);
      forall x ensures x in Rows(s', h) <==> x in Rows(s, h) && !(h == g && x == u) {
        RowsMember(s, h, x);
        RowsMember(s', h, x);
      }
      assert Rows(s', h) == if h == g then Rows(s, h) - {u} else Rows(s, h);
      RowsMember(s, g, u);
    }
  }

  lemma {:induction false} AddAllSurplus(s: Tables, g: string, ids: seq<string>, now: int, h: string)
    requires h in s.groups
    ensures h in AddAll(s, g, ids, now).groups && Surplus(AddAll(s, g, ids, now), h) == Surplus(s, h)
    decreases |ids|
  {
    if ids != [] {
      var m := Member(ids[0], ROLE_MEMBER, "", now);
      AddSurplus(s, g, m, h);
      AddAllSurplus(AddMember(s, g, m), g, ids[1..], now, h);
    }
  }

  /** Creation counts the founders twice. */
  lemma CreationSurplus(s: Tables, op: Op)
    requires Inv(s) && op.Create? && CreateGroup(s, op).1 == OK
    ensures var s' := CreateGroup(s, op).0;
      op.g in s'.groups && Surplus(s', op.g) == |Founders(op.creator, op.ids)|
  {
    var unique := Founders(op.creator, op.ids);
    var s1 := s.(groups := s.groups[op.g := NewGroup(op, |unique|)]);
    assert Rows(s1, op.g) == {} by {
      forall k | k in s.members ensures k.0 != op.g { assert k.0 in s.groups; }
    }
    AddSurplus(s1, op.g, Member(op.creator, ROLE_OWNER, "", op.now), op.g);
    AddAllSurplus(Founded(s, op, |unique|), op.g, SortedOf(unique - {op.creator}), op.now, op.g);
  }

  /** No operation changes how far the count of a live group runs ahead of its rows. */
  lemma SurplusConserved(s: Tables, op: Op, g: string)
    requires Inv(s) && g in s.groups && Surplus(s, g) >= 0
    ensures var s' := Apply(s, op).0;
      g in s'.groups && s'.groups[g].status != 1 ==> Surplus(s', g) == Surplus(s, g)
  {
    match op
    case Create(_, _, _, _, _, _) => OtherCreationSurplus(s, op, g);
    case Invite(h, user, ids, now) => AddAllSurplus(s, h, ids, now, g);
    case Kick(h, _, target) => RemoveSurplus(s, h, target, g);
    case Leave(h, user) => RemoveSurplus(s, h, user, g);
    case Dismiss(h, _) => ClosingSurplus(s, op, g);
    case Dissolve(h, _) => ClosingSurplus(s, op, g);
    case Update(_, _, _, _, _, _) => RowKeepingSurplus(s, op, g);
    case Transfer(_, _, _) => RowKeepingSurplus(s, op, g);
    case SetRole(_, _, _, _) => RowKeepingSurplus(s, op, g);
  }

  /** The group is there and not dissolved, at every point of the run. */
  ghost predicate Lives(s: Tables, ops: seq<Op>, g: string)
    decreases |ops|
  {
    g in s.groups && s.groups[g].status != 1 && (ops == [] || Lives(Apply(s, ops[0]).0, ops[1..], g))
  }

  lemma {:induction false} SurplusStays(s: Tables, ops: seq<Op>, g: string)
    requires Inv(s) && Lives(s, ops, g) && Surplus(s, g) >= 0
    ensures g in Run(s, ops).groups && Surplus(Run(s, ops), g) == Surplus(s, g)
    decreases |ops|
  {
    if ops != [] {
      StepKeepsInv(s, ops[0]);
      SurplusConserved(s, ops[0], g);
      SurplusStays(Apply(s, ops[0]).0, ops[1..], g);
    }
  }

  /** From its creation on, for as long as it lives, a group's count is ahead of its rows by the
      number of its founders. */
  lemma SurplusForever(s: Tables, create: Op, ops: seq<Op>)
    requires Inv(s) && create.Create?
    ensures CreateGroup(s, create).1 == OK && Lives(CreateGroup(s, create).0, ops, create.g) ==>
      var t := Run(CreateGroup(s, create).0, ops);
      create.g in t.groups
          && t.groups[create.g].memberCount == |Rows(t, create.g)| + |Founders(create.creator, create.ids)|
  {
    if CreateGroup(s, create).1 == OK && Lives(CreateGroup(s, create).0, ops, create.g) {
      StepKeepsInv(s, create);
      CreationSurplus(s, create);
      SurplusStays(CreateGroup(s, create).0, ops, create.g);
    }
  }

  lemma OtherCreationSurplus(s: Tables, op: Op, g: string)
    requires op.Create? && g in s.groups
    ensures var s' := CreateGroup(s, op).0;
      g in s'.groups && s'.groups[g].status != 1 ==> Surplus(s', g) == Surplus(s, g)
  {
    if CreateGroup(s, op).1 == OK {
      var unique := Founders(op.creator, op.ids);
      var s1 := s.(groups := s.groups[op.g := NewGroup(op, |unique|)]);
      RowsSame(s, s1, g);
      AddSurplus(s1, op.g, Member(op.creator, ROLE_OWNER, "", op.now), g);
      AddAllSurplus(Founded(s, op, |unique|), op.g, SortedOf(unique - {op.creator}), op.now, g);
    } else if op.g != g {
      RowsSame(s, DeleteGroup(s, op.g), g);
    }
  }

  lemma ClosingSurplus(s: Tables, op: Op, g: string)
    requires g in s.groups && (op.Dismiss? || op.Dissolve?)
    ensures var s' := Apply(s, op).0;
      g in s'.groups && s'.groups[g].status != 1 ==> Surplus(s', g) == Surplus(s, g)
  {
    if op.g != g {
      RowsSame(s, DeleteGroup(s, op.g), g);
      RowsSame(s, DissolveGroup(s, op.g), g);
    }
  }

  lemma RowKeepingSurplus(s: Tables, op: Op, g: string)
    requires g in s.groups && (op.Update? || op.Transfer? || op.SetRole?)
    ensures var s' := Apply(s, op).0;
      g in s'.groups && Surplus(s', g) == Surplus(s, g)
  {
    RowsSame(s, Apply(s, op).0, g);
  }
}
