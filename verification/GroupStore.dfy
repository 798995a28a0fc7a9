/**
 RocksDBGroupStore.  The tables are typed; the scans run over the encoded keys
 `group:{g}`, `group_member:{g}:{u}` and `user_groups:{u}:{g}` in bytewise order.
 */
module GroupStore {
  import opened OrderedKeys
  import opened MessageKeys
  import opened GroupModel

  function KeyGroup(g: string): string { "group:" + g }
  function PrefixGroupMember(g: string): string { "group_member:" + g + ":" }
  function KeyGroupMember(g: string, u: string): string { PrefixGroupMember(g) + u }
  function PrefixUserGroups(u: string): string { "user_groups:" + u + ":" }
  function KeyUserGroup(u: string, g: string): string { PrefixUserGroups(u) + g }

  function AllKeys(s: Tables): set<string> {
    (set g | g in s.groups :: KeyGroup(g))
    + (set k | k in s.members :: KeyGroupMember(k.0, k.1))
    + (set p | p in s.userGroups :: KeyUserGroup(p.0, p.1))
  }

  ghost predicate ColonFree(s: Tables) {
    && (forall k :: k in s.members ==> NoColon(k.0) && NoColon(k.1))
    && (forall p :: p in s.userGroups ==> NoColon(p.0) && NoColon(p.1))
  }

  /** The ids an operation brings in are colon-free. */
  ghost predicate OpColonFree(op: Op) {
    && NoColon(op.g)
    && (op.Create? ==> NoColon(op.creator) && forall id :: id in op.ids ==> NoColon(id))
    && (op.Invite? ==> forall id :: id in op.ids ==> NoColon(id))
  }

  lemma {:induction false} AddAllColonFree(s: Tables, g: string, ids: seq<string>, now: int)
    requires ColonFree(s) && NoColon(g) && forall id :: id in ids ==> NoColon(id)
    ensures ColonFree(AddAll(s, g, ids, now))
    decreases |ids|
  {
    if ids != [] {
      assert NoColon(ids[0]);
      AddAllColonFree(AddMember(s, g, Member(ids[0], ROLE_MEMBER, "", now)), g, ids[1..], now);
    }
  }

  lemma StepKeepsColonFree(s: Tables, op: Op)
    requires ColonFree(s) && OpColonFree(op)
    ensures ColonFree(Apply(s, op).0)
  {
    if op.Create? && CreateGroup(s, op).1 == OK {
      var unique := Founders(op.creator, op.ids);
      var others := SortedOf(unique - {op.creator});
      AddAllColonFree(Founded(s, op, |unique|), op.g, others, op.now);
    }
    if op.Invite? { AddAllColonFree(s, op.g, op.ids, op.now); }
  }

  lemma MemberKeyUnique(g: string, u: string, h: string, x: string)
    requires NoColon(g) && NoColon(h) && KeyGroupMember(g, u) == KeyGroupMember(h, x)
    ensures g == h && u == x
  {
    var tail := g + ":" + u;
    assert KeyGroupMember(g, u) == "group_member:" + tail && KeyGroupMember(h, x) == "group_member:" + (h + ":" + x);
    assert tail == KeyGroupMember(g, u)[13..] == h + ":" + x;
    assert StartsWith(tail, h + ":");
    OwnerUnique(g, h, u);
    assert u == tail[|g| + 1..] == (h + ":" + x)[|h| + 1..] == x;
  }

  lemma UserKeyUnique(u: string, g: string, v: string, x: string)
    requires NoColon(u) && NoColon(v) && KeyUserGroup(u, g) == KeyUserGroup(v, x)
    ensures u == v && g == x
  {
    var tail := u + ":" + g;
    assert KeyUserGroup(u, g) == "user_groups:" + tail && KeyUserGroup(v, x) == "user_groups:" + (v + ":" + x);
    assert tail == KeyUserGroup(u, g)[12..] == v + ":" + x;
    assert StartsWith(tail, v + ":");
    OwnerUnique(u, v, g);
    assert g == tail[|u| + 1..] == (v + ":" + x)[|v| + 1..] == x;
  }

  lemma TablesDisjoint(g: string, h: string, u: string, v: string, x: string)
    ensures KeyGroup(g) != KeyGroupMember(h, u) && KeyGroup(g) != KeyUserGroup(v, x)
        && KeyGroupMember(h, u) != KeyUserGroup(v, x)
  {
    assert KeyGroup(g)[5] == ':' && KeyGroupMember(h, u)[5] == '_';
    assert KeyGroup(g)[0] == 'g' && KeyGroupMember(h, u)[0] == 'g' && KeyUserGroup(v, x)[0] == 'u';
  }

  /** A key under a group's member prefix is present exactly for that group's member rows. */
  lemma MemberKeys(s: Tables, g: string, x: string)
    requires ColonFree(s) && NoColon(g)
    ensures PrefixGroupMember(g) + x in AllKeys(s) <==> (g, x) in s.members
  {
    var key := KeyGroupMember(g, x);
    if key in AllKeys(s) {
      if h :| h in s.groups && key == KeyGroup(h) { TablesDisjoint(h, g, x, "", ""); }
      if p :| p in s.userGroups && key == KeyUserGroup(p.0, p.1) { TablesDisjoint("", g, x, p.0, p.1); }
      if k :| k in s.members && key == KeyGroupMember(k.0, k.1) { MemberKeyUnique(g, x, k.0, k.1); }
    }
    if (g, x) in s.members {
      assert key == KeyGroupMember((g, x).0, (g, x).1);
    }
  }

  lemma UserKeys(s: Tables, u: string, x: string)
    requires ColonFree(s) && NoColon(u)
    ensures PrefixUserGroups(u) + x in AllKeys(s) <==> (u, x) in s.userGroups
  {
    var key := KeyUserGroup(u, x);
    if key in AllKeys(s) {
      if h :| h in s.groups && key == KeyGroup(h) { TablesDisjoint(h, "", "", u, x); }
      if k :| k in s.members && key == KeyGroupMember(k.0, k.1) { TablesDisjoint("", k.0, k.1, u, x); }
      if p :| p in s.userGroups && key == KeyUserGroup(p.0, p.1) { UserKeyUnique(u, x, p.0, p.1); }
    }
    if (u, x) in s.userGroups {
      assert key == KeyUserGroup((u, x).0, (u, x).1);
    }
  }

  /** Page `page` (counting from 1; anything lower means 1) of `pageSize` items (at most 50
      when not positive). */
  function Slice(all: seq<string>, page: int, pageSize: int): seq<string> {
    var p: nat, size: nat := if page <= 0 then 1 else page, if pageSize <= 0 then 50 else pageSize;
    var offset: nat := (p - 1) * size;
    if offset >= |all| then []
    else if offset + size < |all| then all[offset..offset + size] else all[offset..]
  }

  function FirstItems(all: seq<string>, n: nat): seq<string> {
    if |all| <= n then all else all[..n]
  }

  lemma FirstItemsWithin(all: seq<string>, n: nat, u: string)
    ensures u in FirstItems(all, n) ==> u in all
  {
  }

  /** Any page number below two is the first page, and fifty the size when none is given. */
  lemma FirstPage(all: seq<string>, page: int, pageSize: int)
    requires page <= 1
    ensures Slice(all, page, pageSize) == FirstItems(all, if pageSize <= 0 then 50 else pageSize)
  {
    assert all[0..] == all;
  }

  /** The first `k` pages, joined. */
  function Pages(all: seq<string>, size: nat, k: nat): seq<string>
    requires size > 0
  {
    if k == 0 then [] else Pages(all, size, k - 1) + Slice(all, k, size)
  }

  /** Pages follow one another without gap or overlap, until all members are listed. */
  lemma {:induction false} PagesTile(all: seq<string>, size: nat, k: nat)
    requires size > 0
    ensures Pages(all, size, k) == FirstItems(all, k * size)
  {
    if k > 0 {
      PagesTile(all, size, k - 1);
      var offset := (k - 1) * size;
      assert k * size == offset + size;
      NextPage(all, offset, size);
      SliceAt(all, k, size, offset);
    }
  }

  lemma SliceAt(all: seq<string>, page: int, size: nat, offset: nat)
    requires page >= 1 && size > 0 && offset == (page - 1) * size
    ensures Slice(all, page, size) == if offset >= |all| then [] else all[offset..offset + |Cut(all, offset, size)|]
  {
  }

  function Cut(all: seq<string>, offset: nat, size: nat): seq<string>
    requires offset < |all|
  {
    if offset + size < |all| then all[offset..offset + size] else all[offset..]
  }

  lemma NextPage(all: seq<string>, offset: nat, size: nat)
    ensures FirstItems(all, offset) + (if offset >= |all| then [] else all[offset..offset + |Cut(all, offset, size)|])
         == FirstItems(all, offset + size)
  {
    if offset < |all| { assert all == all[..offset] + all[offset..]; }
  }

  const MAX_INT32 := 0x7fff_ffff

  /** Computing the bounds of the page leaves the 32-bit integers. */
  predicate PageOverflows(total: nat, page: int, pageSize: int) {
    var p: nat, size: nat := if page <= 0 then 1 else page, if pageSize <= 0 then 50 else pageSize;
    (p - 1) * size > MAX_INT32 || ((p - 1) * size < total && (p - 1) * size + size > MAX_INT32)
  }

  lemma SliceWithin(all: seq<string>, page: int, pageSize: int, u: string)
    ensures u in Slice(all, page, pageSize) ==> u in all
  {
  }

  datatype MemberPage = MemberPage(members: seq<Member>, total: nat) | PageOverflow

  /** The rows of the listed users, in the same order. */
  ghost predicate AreRows(s: Tables, g: string, ids: seq<string>, rows: seq<Member>) {
    |rows| == |ids| && forall i :: 0 <= i < |ids| ==>
        (g, ids[i]) in s.members && rows[i] == s.members[(g, ids[i])] && rows[i].userId == ids[i]
  }

  function Pairs(g: string, ids: seq<string>): set<(string, string)> {
    set u | u in ids :: (g, u)
  }

  function PairsBack(g: string, ids: seq<string>): set<(string, string)> {
    set u | u in ids :: (u, g)
  }

  lemma DropIsErase(s: Tables, g: string, ids: seq<string>)
    requires forall u :: u in ids <==> (g, u) in s.members
    ensures DropMembers(s, g).members == s.members - Pairs(g, ids)
    ensures DropMembers(s, g).userGroups == s.userGroups - PairsBack(g, ids)
  {
    forall k | k in s.members ensures k.0 != g <==> k !in Pairs(g, ids) {
      if k.0 == g { assert k == (g, k.1) && k.1 in ids; }
    }
    forall p | p in s.userGroups ensures !(p.1 == g && (g, p.0) in s.members) <==> p !in PairsBack(g, ids) {
      if p.1 == g && (g, p.0) in s.members { assert p == (p.0, g) && p.0 in ids; }
    }
  }

  class RocksDBGroupStore {
    var groups: map<string, GroupData>
    var members: map<(string, string), Member>
    var userGroups: set<(string, string)>

    function State(): Tables
      reads this
    {
      Tables(groups, members, userGroups)
    }

    ghost predicate Valid()
      reads this
    {
      Inv(State()) && ColonFree(State())
    }

    constructor ()
      ensures Valid() && State() == EMPTY
    {
      groups, members, userGroups := map[], map[], {};
    }

    /** The scan behind member lists and batch deletes: exactly the members, in user id order. */
    method MemberIds(g: string) returns (ids: seq<string>)
      requires Valid() && NoColon(g)
      ensures ids == SortedOf(Rows(State(), g))
    {
      ids := CollectSuffixes(AllKeys(State()), PrefixGroupMember(g));
      forall x ensures x in ids <==> x in Rows(State(), g) {
        MemberKeys(State(), g, x);
        RowsMember(State(), g, x);
      }
      SortedUnique(ids, SortedOf(Rows(State(), g)));
    }

    /** The scan of the mirrored index: exactly the groups that have the user as a member. */
    method GetUserGroupIds(u: string) returns (ids: seq<string>)
      requires Valid() && NoColon(u)
      ensures StrictlySorted(ids) && forall g :: g in ids <==> u != "" && (g, u) in members
    {
      if u == "" { return []; }
      ids := CollectSuffixes(AllKeys(State()), PrefixUserGroups(u));
      forall g ensures g in ids <==> (g, u) in members {
        UserKeys(State(), u, g);
        assert (g, u) in members <==> (u, g) in userGroups;
        assert (g, u) in members ==> (g, u).0 in groups;
      }
    }

    /** One page of the members' rows in user id order, unless the page lies beyond what a 32-bit
        integer can address. */
    method GetMembers(g: string, page: int, pageSize: int) returns (result: MemberPage)
      requires Valid() && NoColon(g)
      ensures g == "" ==> result == MemberPage([], 0)
      ensures g != "" ==>
        var all := SortedOf(Rows(State(), g));
        if PageOverflows(|all|, page, pageSize) then result == PageOverflow
        else
          && result.MemberPage? && result.total == |all|
          && AreRows(State(), g, Slice(all, page, pageSize), result.members)
    {
      if g == "" { return MemberPage([], 0); }
      var all := MemberIds(g);
      if PageOverflows(|all|, page, pageSize) { return PageOverflow; }
      var ids := Slice(all, page, pageSize);
      forall u | u in ids ensures (g, u) in members {
        SliceWithin(all, page, pageSize, u);
        RowsMember(State(), g, u);
      }
      var rows := ReadRows(g, ids);
      return MemberPage(rows, |all|);
    }

    method ReadRows(g: string, ids: seq<string>) returns (rows: seq<Member>)
      requires Valid() && forall u :: u in ids ==> (g, u) in members
      ensures AreRows(State(), g, ids, rows)
    {
      rows := [];
      for n := 0 to |ids|
        invariant AreRows(State(), g, ids[..n], rows)
      {
        assert ids[n] in ids && members[(g, ids[n])].userId == (g, ids[n]).1;
        rows := rows + [members[(g, ids[n])]];
      }
      assert ids[..|ids|] == ids;
    }

    method CreateGroup(data: GroupData) returns (ok: bool)
      modifies this`groups
      ensures ok <==> data.groupId != "" && data.ownerId != "" && data.groupId !in old(groups)
      ensures groups == if ok then old(groups)[data.groupId := data] else old(groups)
    {
      if data.groupId == "" || data.ownerId == "" { return false; }
      if data.groupId in groups { return false; }
      groups := groups[data.groupId := data];
      return true;
    }

    method AddMember(g: string, m: Member) returns (ok: bool)
      modifies this
      ensures State() == GroupModel.AddMember(old(State()), g, m) && ok == CanAdd(old(State()), g, m)
    {
      if g == "" || m.userId == "" { return false; }
      if (g, m.userId) in members { return false; }
      if g !in groups { return false; }
      var d := groups[g];
      members := members[(g, m.userId) := m];
      userGroups := userGroups + {(m.userId, g)};
      groups := groups[g := d.(memberCount := d.memberCount + 1, updatedAt := 0)];
      return true;
    }

    method RemoveMember(g: string, u: string) returns (ok: bool)
      modifies this
      ensures State() == GroupModel.RemoveMember(old(State()), g, u) && ok == CanRemove(old(State()), g, u)
    {
      if g == "" || u == "" { return false; }
      if (g, u) !in members { return false; }
      if g !in groups { return false; }
      var d := groups[g];
      members := members - {(g, u)};
      userGroups := userGroups - {(u, g)};
      groups := groups[g := d.(memberCount := Max(0, d.memberCount - 1))];
      return true;
    }

    method UpdateMemberRole(g: string, u: string, role: int) returns (ok: bool)
      modifies this`members
      ensures State() == UpdateRole(old(State()), g, u, role) && ok == GroupModel.IsMember(old(State()), g, u)
    {
      if g == "" || u == "" || (g, u) !in members { return false; }
      members := members[(g, u) := members[(g, u)].(role := role)];
      return true;
    }

    method UpdateGroup(g: string, name: string, avatar: string, announcement: string, updatedAt: int) returns (ok: bool)
      modifies this`groups
      ensures ok <==> g != "" && g in old(groups)
      ensures groups == if ok then old(groups)[g := Edited(old(groups)[g], name, avatar, announcement, updatedAt)]
          else old(groups)
    {
      if g == "" || g !in groups { return false; }
      var d := groups[g];
      if name != "" { d := d.(name := name); }
      if avatar != "" { d := d.(avatar := avatar); }
      d := d.(announcement := announcement);
      if updatedAt != 0 { d := d.(updatedAt := updatedAt); }
      groups := groups[g := d];
      return true;
    }

    method UpdateGroupOwner(g: string, u: string) returns (ok: bool)
      modifies this`groups
      ensures ok <==> g != "" && u != "" && g in old(groups)
      ensures groups == if ok then old(groups)[g := old(groups)[g].(ownerId := u)] else old(groups)
    {
      if g == "" || u == "" || g !in groups { return false; }
      groups := groups[g := groups[g].(ownerId := u)];
      return true;
    }

    /** Deletes both index rows of every scanned member, in one batch. */
    method DeleteIndexes(g: string)
      requires Valid() && NoColon(g)
      modifies this`members, this`userGroups
      ensures State() == DropMembers(old(State()), g)
    {
      var ids := MemberIds(g);
      forall u ensures u in ids <==> (g, u) in members { RowsMember(State(), g, u); }
      DropIsErase(State(), g, ids);
      EraseRows(g, ids);
    }

    method EraseRows(g: string, ids: seq<string>)
      modifies this`members, this`userGroups
      ensures members == old(members) - Pairs(g, ids)
      ensures userGroups == old(userGroups) - PairsBack(g, ids)
    {
      var n := 0;
      while n < |ids|
        invariant n <= |ids|
        invariant members == old(members) - Pairs(g, ids[..n])
        invariant userGroups == old(userGroups) - PairsBack(g, ids[..n])
      {
        assert ids[..n + 1] == ids[..n] + [ids[n]];
        assert Pairs(g, ids[..n + 1]) == Pairs(g, ids[..n]) + {(g, ids[n])};
        assert PairsBack(g, ids[..n + 1]) == PairsBack(g, ids[..n]) + {(ids[n], g)};
        members := members - {(g, ids[n])};
        userGroups := userGroups - {(ids[n], g)};
        n := n + 1;
      }
      assert ids[..n] == ids;
    }

    method DeleteGroup(g: string) returns (ok: bool)
      requires Valid() && NoColon(g)
      modifies this
      ensures ok <==> g != ""
      ensures State() == if ok then GroupModel.DeleteGroup(old(State()), g) else old(State())
    {
      if g == "" { return false; }
      DeleteIndexes(g);
      groups := groups - {g};
      return true;
    }

    method DissolveGroup(g: string) returns (ok: bool)
      requires Valid() && NoColon(g)
      modifies this
      ensures ok <==> g != "" && g in old(groups)
      ensures State() == GroupModel.DissolveGroup(old(State()), g)
    {
      if g == "" || g !in groups { return false; }
      if groups[g].status == 1 { return true; }
      DeleteIndexes(g);
      groups := groups[g := groups[g].(status := 1, memberCount := 0)];
      return true;
    }
  }
}
