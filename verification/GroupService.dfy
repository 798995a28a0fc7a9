/**
 GroupService: each method checks and then mutates the store step by step; its contract
 is the operation of the same name in GroupModel, and that the store stays valid.
 */
module GroupService {
  import opened OrderedKeys
  import opened MessageKeys
  import opened GroupModel
  import opened GroupStore

  class GroupService {
    const store: RocksDBGroupStore

    constructor (store: RocksDBGroupStore)
      ensures this.store == store
    {
      this.store := store;
    }

    /** De-duplicates the founders, writes the group row, then the owner, then the others. */
    method CreateGroup(g: string, creator: string, name: string, avatar: string, ids: seq<string>, now: int)
        returns (code: ErrorCode)
      requires store.Valid() && OpColonFree(Create(g, creator, name, avatar, ids, now))
      modifies store
      ensures store.Valid()
          && (store.State(), code) == Apply(old(store.State()), Create(g, creator, name, avatar, ids, now))
    {
      ghost var s, op := store.State(), Create(g, creator, name, avatar, ids, now);
      StepKeepsInv(s, op);
      StepKeepsColonFree(s, op);
      if creator == "" { return INVALID_PARAM; }
      var unique := CollectFounders(creator, ids);
      if |unique| < MIN_GROUP_MEMBERS { return GROUP_MEMBERS_TOO_FEW; }
      var data := GroupData(g, if name == "" then "群聊" else name, avatar, creator, |unique|, "", now, now, 0);
      var ok := store.CreateGroup(data);
      if !ok { return INTERNAL_ERROR; }
      ok := store.AddMember(g, Member(creator, ROLE_OWNER, "", now));
      // The store is valid and the group is new, so the source's roll-back is never reached.
      assert ok by { assert (g, creator) in s.members ==> (g, creator).0 in s.groups; }
      var others := NewIterator(unique - {creator});
      AddMembers(g, others, now);
      return OK;
    }

    method CollectFounders(creator: string, ids: seq<string>) returns (unique: set<string>)
      ensures unique == Founders(creator, ids)
    {
      unique := {creator};
      for i := 0 to |ids|
        invariant unique == Founders(creator, ids[..i])
      {
        assert ids[..i + 1] == ids[..i] + [ids[i]];
        if ids[i] != "" { unique := unique + {ids[i]}; }
      }
      assert ids[..|ids|] == ids;
    }

    /** The loop shared by creation and invitation: one `AddMember` per id. */
    method AddMembers(g: string, ids: seq<string>, now: int)
      modifies store
      ensures store.State() == AddAll(old(store.State()), g, ids, now)
    {
      var n := 0;
      assert ids[0..] == ids;
      while n < |ids|
        invariant n <= |ids|
        invariant AddAll(store.State(), g, ids[n..], now) == AddAll(old(store.State()), g, ids, now)
      {
        assert ids[n..][1..] == ids[n + 1..];
        var ok := store.AddMember(g, Member(ids[n], ROLE_MEMBER, "", now));
        n := n + 1;
      }
    }

    method DismissGroup(g: string, user: string) returns (code: ErrorCode)
      requires store.Valid() && NoColon(g)
      modifies store
      ensures store.Valid() && (store.State(), code) == Apply(old(store.State()), Dismiss(g, user))
    {
      StepKeepsInv(store.State(), Dismiss(g, user));
      StepKeepsColonFree(store.State(), Dismiss(g, user));
      if g == "" || user == "" { return INVALID_PARAM; }
      if g !in store.groups { return GROUP_NOT_FOUND; }
      if store.groups[g].ownerId != user { return NOT_GROUP_OWNER; }
      var ok := store.DeleteGroup(g);
      return if ok then OK else INTERNAL_ERROR;
    }

    method UpdateGroup(g: string, user: string, name: string, avatar: string, announcement: string, now: int)
        returns (code: ErrorCode)
      requires store.Valid() && NoColon(g)
      modifies store
      ensures store.Valid()
          && (store.State(), code) == Apply(old(store.State()), Update(g, user, name, avatar, announcement, now))
    {
      StepKeepsInv(store.State(), Update(g, user, name, avatar, announcement, now));
      StepKeepsColonFree(store.State(), Update(g, user, name, avatar, announcement, now));
      if g == "" || user == "" { return INVALID_PARAM; }
      if g !in store.groups { return GROUP_NOT_FOUND; }
      if store.groups[g].ownerId != user {
        if (g, user) !in store.members || store.members[(g, user)].role != ROLE_ADMIN { return PERMISSION_DENIED; }
      }
      var ok := store.UpdateGroup(g, name, avatar, announcement, now);
      return if ok then OK else INTERNAL_ERROR;
    }

    /** Skips ids that are empty or already members. */
    method InviteMembers(g: string, user: string, ids: seq<string>, now: int) returns (code: ErrorCode)
      requires store.Valid() && OpColonFree(Invite(g, user, ids, now))
      modifies store
      ensures store.Valid() && (store.State(), code) == Apply(old(store.State()), Invite(g, user, ids, now))
    {
      StepKeepsInv(store.State(), Invite(g, user, ids, now));
      StepKeepsColonFree(store.State(), Invite(g, user, ids, now));
      if g == "" || user == "" { return INVALID_PARAM; }
      if g !in store.groups { return GROUP_NOT_FOUND; }
      if !IsMember(store.State(), g, user) { return NOT_GROUP_MEMBER; }
      AddMembers(g, ids, now);
      return OK;
    }

    method RemoveMember(g: string, user: string, target: string) returns (code: ErrorCode)
      requires store.Valid() && NoColon(g)
      modifies store
      ensures store.Valid() && (store.State(), code) == Apply(old(store.State()), Kick(g, user, target))
    {
      StepKeepsInv(store.State(), Kick(g, user, target));
      StepKeepsColonFree(store.State(), Kick(g, user, target));
      if g == "" || user == "" || target == "" { return INVALID_PARAM; }
      if g !in store.groups { return GROUP_NOT_FOUND; }
      if !IsMember(store.State(), g, target) { return NOT_GROUP_MEMBER; }
      if !IsMember(store.State(), g, user) { return NOT_GROUP_MEMBER; }
      var op, t := store.members[(g, user)], store.members[(g, target)];
      if t.role == ROLE_OWNER { return KICK_NOT_ALLOWED; }
      if op.role != ROLE_OWNER && op.role != ROLE_ADMIN { return PERMISSION_DENIED; }
      if op.role == ROLE_ADMIN && t.role == ROLE_ADMIN { return KICK_NOT_ALLOWED; }
      var ok := store.RemoveMember(g, target);
      return if ok then OK else INTERNAL_ERROR;
    }

    method LeaveGroup(g: string, user: string) returns (code: ErrorCode)
      requires store.Valid() && NoColon(g)
      modifies store
      ensures store.Valid() && (store.State(), code) == Apply(old(store.State()), Leave(g, user))
    {
      StepKeepsInv(store.State(), Leave(g, user));
      StepKeepsColonFree(store.State(), Leave(g, user));
      if g == "" || user == "" { return INVALID_PARAM; }
      if g !in store.groups { return GROUP_NOT_FOUND; }
      if store.groups[g].ownerId == user { return OWNER_CANNOT_LEAVE; }
      if !IsMember(store.State(), g, user) { return NOT_GROUP_MEMBER; }
      var ok := store.RemoveMember(g, user);
      return if ok then OK else INTERNAL_ERROR;
    }

    /** Demotes the old owner, promotes the new one, moves the owner pointer. */
    method TransferOwner(g: string, user: string, target: string) returns (code: ErrorCode)
      requires store.Valid() && NoColon(g)
      modifies store
      ensures store.Valid() && (store.State(), code) == Apply(old(store.State()), Transfer(g, user, target))
    {
      StepKeepsInv(store.State(), Transfer(g, user, target));
      StepKeepsColonFree(store.State(), Transfer(g, user, target));
      if g == "" || user == "" || target == "" { return INVALID_PARAM; }
      if g !in store.groups { return GROUP_NOT_FOUND; }
      if store.groups[g].ownerId != user { return NOT_GROUP_OWNER; }
      if !IsMember(store.State(), g, target) { return NOT_GROUP_MEMBER; }
      var ok := store.UpdateMemberRole(g, user, ROLE_MEMBER);
      if !ok { return INTERNAL_ERROR; }
      ok := store.UpdateMemberRole(g, target, ROLE_OWNER);
      if !ok { return INTERNAL_ERROR; }
      ok := store.UpdateGroupOwner(g, target);
      return if ok then OK else INTERNAL_ERROR;
    }

    method SetMemberRole(g: string, user: string, target: string, role: int) returns (code: ErrorCode)
      requires store.Valid() && NoColon(g)
      modifies store
      ensures store.Valid() && (store.State(), code) == Apply(old(store.State()), SetRole(g, user, target, role))
    {
      StepKeepsInv(store.State(), SetRole(g, user, target, role));
      StepKeepsColonFree(store.State(), SetRole(g, user, target, role));
      if g == "" || user == "" || target == "" { return INVALID_PARAM; }
      if g !in store.groups { return GROUP_NOT_FOUND; }
      if store.groups[g].ownerId != user { return NOT_GROUP_OWNER; }
      if !IsMember(store.State(), g, target) { return NOT_GROUP_MEMBER; }
      if store.members[(g, target)].role == ROLE_OWNER { return PERMISSION_DENIED; }
      var ok := store.UpdateMemberRole(g, target, role);
      return if ok then OK else INTERNAL_ERROR;
    }
  }
}
