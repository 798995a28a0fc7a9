/**
 RocksDBFriendStore and FriendService: the guards and store updates of asking, answering
 and removing, with the scan of the recipient index over encoded keys.
 */
module FriendService {
  import opened OrderedKeys
  import opened MessageKeys
  import opened FriendModel

  /** Keys of the form `{table}:{owner}:{id}`. */
  function KeyOf(table: string, p: (string, string)): string { table + p.0 + ":" + p.1 }

  function KeyFriend(p: (string, string)): string { KeyOf("friend:", p) }
  function KeyRequest(id: string): string { "friend_req:" + id }
  function KeyReceived(p: (string, string)): string { KeyOf("friend_req_to:", p) }
  function KeySent(p: (string, string)): string { KeyOf("friend_req_from:", p) }
  function KeyGroup(p: (string, string)): string { KeyOf("friend_group:", p) }
  function KeyBlock(p: (string, string)): string { KeyOf("block:", p) }

  function AllKeys(s: State): set<string> {
    (set k | k in s.friends :: KeyFriend(k)) + (set id | id in s.requests :: KeyRequest(id))
    + (set p | p in s.received :: KeyReceived(p)) + (set p | p in s.sent :: KeySent(p))
    + (set k | k in s.groups :: KeyGroup(k)) + (set p | p in s.blocks :: KeyBlock(p))
  }

  ghost predicate OwnersColonFree(pairs: set<(string, string)>) {
    forall p :: p in pairs ==> NoColon(p.0)
  }

  ghost predicate ColonFree(s: State) {
    && OwnersColonFree(s.friends.Keys) && OwnersColonFree(s.groups.Keys)
    && OwnersColonFree(s.received) && OwnersColonFree(s.sent)
  }

  lemma KeyUnique(table: string, p: (string, string), q: (string, string))
    requires NoColon(p.0) && NoColon(q.0) && KeyOf(table, p) == KeyOf(table, q)
    ensures p == q
  {
    var tail := p.0 + ":" + p.1;
    assert KeyOf(table, p) == table + tail && KeyOf(table, q) == table + (q.0 + ":" + q.1);
    assert tail == KeyOf(table, p)[|table|..] == q.0 + ":" + q.1;
    assert StartsWith(tail, q.0 + ":");
    OwnerUnique(p.0, q.0, p.1);
    assert p.1 == tail[|p.0| + 1..] == (q.0 + ":" + q.1)[|q.0| + 1..] == q.1;
  }

  /** No key of one table looks like a key of another. */
  lemma TablesApart(a: (string, string), b: (string, string), id: string)
    ensures KeyReceived(a) != KeyFriend(b) && KeyReceived(a) != KeyRequest(id) && KeyReceived(a) != KeySent(b)
    ensures KeyReceived(a) != KeyGroup(b) && KeyReceived(a) != KeyBlock(b)
    ensures KeyFriend(a) != KeyRequest(id) && KeyFriend(a) != KeySent(b) && KeyFriend(a) != KeyGroup(b)
        && KeyFriend(a) != KeyBlock(b)
    ensures KeyGroup(a) != KeyRequest(id) && KeyGroup(a) != KeySent(b) && KeyGroup(a) != KeyBlock(b)
  {
    forall p: (string, string) ensures KeyFriend(p)[6] == ':' && KeyFriend(p)[0] == 'f' && KeyBlock(p)[0] == 'b' {}
    forall p: (string, string) ensures KeyReceived(p)[6] == '_' && KeyReceived(p)[7] == 'r'
        && KeyReceived(p)[10] == '_' && KeyReceived(p)[11] == 't' {}
    forall p: (string, string) ensures KeySent(p)[6] == '_' && KeySent(p)[7] == 'r' && KeySent(p)[11] == 'f' {}
    forall p: (string, string) ensures KeyGroup(p)[6] == '_' && KeyGroup(p)[7] == 'g' && KeyGroup(p)[0] == 'f'
        && KeyReceived(p)[0] == 'f' {}
    assert KeyRequest(id)[6] == '_' && KeyRequest(id)[7] == 'r' && KeyRequest(id)[10] == ':';
  }

  /** The keys under a user's recipient prefix are the requests the user received. */
  lemma ReceivedKeys(s: State, p: (string, string))
    requires ColonFree(s) && NoColon(p.0)
    ensures KeyReceived(p) in AllKeys(s) <==> p in s.received
  {
    var key := KeyReceived(p);
    if key in AllKeys(s) && p !in s.received {
      if q :| q in s.received && key == KeyReceived(q) {
        KeyUnique("friend_req_to:", p, q);
      } else if id :| id in s.requests && key == KeyRequest(id) {
        TablesApart(p, p, id);
      } else {
        var q :| key == KeyFriend(q) || key == KeySent(q) || key == KeyGroup(q) || key == KeyBlock(q);
        TablesApart(p, q, "");
      }
    }
  }

  /** The keys under a user's friend prefix are the user's friends. */
  lemma FriendKeys(s: State, p: (string, string))
    requires ColonFree(s) && NoColon(p.0)
    ensures KeyFriend(p) in AllKeys(s) <==> p in s.friends
  {
    var key := KeyFriend(p);
    if key in AllKeys(s) && p !in s.friends {
      if q :| q in s.friends && key == KeyFriend(q) {
        KeyUnique("friend:", p, q);
      } else if id :| id in s.requests && key == KeyRequest(id) {
        TablesApart(p, p, id);
      } else {
        var q :| key == KeyReceived(q) || key == KeySent(q) || key == KeyGroup(q) || key == KeyBlock(q);
        TablesApart(p, q, "");
        TablesApart(q, p, "");
      }
    }
  }

  /** The keys under a user's group prefix are the user's groups. */
  lemma GroupKeys(s: State, p: (string, string))
    requires ColonFree(s) && NoColon(p.0)
    ensures KeyGroup(p) in AllKeys(s) <==> p in s.groups
  {
    var key := KeyGroup(p);
    if key in AllKeys(s) && p !in s.groups {
      if q :| q in s.groups && key == KeyGroup(q) {
        KeyUnique("friend_group:", p, q);
      } else if id :| id in s.requests && key == KeyRequest(id) {
        TablesApart(p, p, id);
      } else {
        var q :| key == KeyReceived(q) || key == KeySent(q) || key == KeyFriend(q) || key == KeyBlock(q);
        TablesApart(p, q, "");
        TablesApart(q, p, "");
      }
    }
  }

  /** The users an operation brings in are colon-free. */
  ghost predicate OpColonFree(op: Op) {
    && (op.AddFriend? ==> NoColon(op.user) && NoColon(op.other))
    && (op.CreateFriendGroup? ==> NoColon(op.user))
  }

  lemma AnswerKeepsColonFree(s: State, op: Op)
    requires Inv(s) && ColonFree(s) && op.HandleRequest?
    ensures ColonFree(Apply(s, op).0)
  {
    if MayHandle(s, op.user, op.requestId) {
      assert (op.user, op.requestId).0 == op.user && (op.user, op.requestId) in s.received;
      var from := s.requests[op.requestId].fromUser;
      assert (from, op.requestId).0 == from && (from, op.requestId) in s.sent;
    }
  }

  lemma OthersKeepColonFree(s: State, op: Op)
    requires ColonFree(s) && OpColonFree(op) && !op.HandleRequest?
    ensures ColonFree(Apply(s, op).0)
  {
  }

  lemma StepIsValid(s: State, op: Op)
    requires Inv(s) && ColonFree(s) && OpColonFree(op)
    ensures Inv(Apply(s, op).0) && ColonFree(Apply(s, op).0)
  {
    StepKeepsInv(s, op);
    if op.HandleRequest? { AnswerKeepsColonFree(s, op); } else { OthersKeepColonFree(s, op); }
  }

  datatype ErrorCode = OK | INVALID_PARAM | FRIEND_GROUP_DEFAULT | FRIEND_GROUP_NOT_FOUND

  class FriendService {
    var friends: map<(string, string), Friend>
    var requests: map<string, Request>
    var received: set<(string, string)>
    var sent: set<(string, string)>
    var groups: map<(string, string), string>
    var blocks: set<(string, string)>

    function Tables(): State
      reads this
    {
      State(friends, requests, received, sent, groups, blocks)
    }

    ghost predicate Valid()
      reads this
    {
      Inv(Tables()) && ColonFree(Tables())
    }

    constructor ()
      ensures Valid() && Tables() == EMPTY
    {
      friends, requests, received, sent, groups, blocks := map[], map[], {}, {}, map[], {};
    }

    /** The stored requests addressed to the user, each once, in request id order. */
    method GetReceivedRequests(u: string) returns (result: seq<Request>)
      requires Valid() && NoColon(u)
      ensures forall r: Request :: r in result <==>
        u != "" && r.toUser == u && r.requestId in requests && requests[r.requestId] == r
      ensures forall i, j :: 0 <= i < j < |result| ==> Less(result[i].requestId, result[j].requestId)
    {
      result := [];
      if u == "" { return; }
      var ids := ReceivedIds(u);
      for n := 0 to |ids|
        invariant |result| == n
        invariant forall i :: 0 <= i < n ==> result[i] == requests[ids[i]]
      {
        result := result + [requests[ids[n]]];
      }
      forall r: Request | r.toUser == u && r.requestId in requests && requests[r.requestId] == r ensures r in result {
        assert r.requestId in ids;
        var i :| 0 <= i < |ids| && ids[i] == r.requestId;
        assert result[i] == r;
      }
    }

    method ReceivedIds(u: string) returns (ids: seq<string>)
      requires Valid() && NoColon(u)
      ensures StrictlySorted(ids)
      ensures forall x :: x in ids <==> x in requests && requests[x].toUser == u
      ensures forall i :: 0 <= i < |ids| ==>
          ids[i] in requests && requests[ids[i]].requestId == ids[i] && requests[ids[i]].toUser == u
    {
      ids := CollectSuffixes(AllKeys(Tables()), "friend_req_to:" + u + ":");
      forall x ensures "friend_req_to:" + u + ":" + x in AllKeys(Tables())
          <==> x in requests && requests[x].toUser == u {
        ReceivedKeys(Tables(), (u, x));
        assert (u, x) in received <==> (u, x).1 in requests && requests[(u, x).1].toUser == (u, x).0;
      }
      assert "" !in requests;
      forall i | 0 <= i < |ids|
        ensures ids[i] in requests && requests[ids[i]].requestId == ids[i] && requests[ids[i]].toUser == u
      {
        assert ids[i] in ids;
      }
    }

    /** Refuses oneself, friends, blockers and a second pending request; then files the request. */
    method AddFriend(user: string, other: string, remark: string, requestId: string) returns (ok: bool)
      requires Valid() && NoColon(user) && NoColon(other)
      modifies this
      ensures Valid() && (Tables(), ok) == Apply(old(Tables()), FriendModel.AddFriend(user, other, remark, requestId))
    {
      ghost var s, op := Tables(), FriendModel.AddFriend(user, other, remark, requestId);
      StepIsValid(s, op);
      if user == "" || other == "" { return false; }
      if user == other { return false; }
      if (user, other) in friends { return false; }
      if (other, user) in blocks { return false; }
      var ids := ReceivedIds(other);
      for n := 0 to |ids|
        invariant Tables() == s
        invariant forall i :: 0 <= i < n ==> !IsAwaiting(requests[ids[i]], user, other)
      {
        var r := requests[ids[n]];
        if r.fromUser == user && r.status == PENDING {
          assert IsAwaiting(s.requests[ids[n]], user, other);
          return false;
        }
      }
      if requestId == "" || requestId in requests { return false; }
      NoneAwaiting(s, ids, user, other);
      requests := requests[requestId := Request(requestId, user, other, remark, PENDING)];
      received := received + {(other, requestId)};
      sent := sent + {(user, requestId)};
      return true;
    }

    /** Only the recipient of a pending request may answer it. */
    method HandleRequest(user: string, requestId: string, accept: bool, groupId: string) returns (ok: bool)
      requires Valid()
      modifies this
      ensures Valid()
          && (Tables(), ok) == Apply(old(Tables()), FriendModel.HandleRequest(user, requestId, accept, groupId))
    {
      StepIsValid(Tables(), FriendModel.HandleRequest(user, requestId, accept, groupId));
      if user == "" || requestId == "" { return false; }
      if requestId !in requests { return false; }
      var req := requests[requestId];
      if req.toUser != user { return false; }
      if req.status != PENDING { return false; }
      if accept {
        EnsureDefaultGroup(user);
        var added := StoreFriend(user, req.fromUser, if groupId == "" then DEFAULT_GROUP else groupId);
        if !added { return false; }
        UpdateRequestStatus(requestId, ACCEPTED);
      } else {
        UpdateRequestStatus(requestId, REJECTED);
      }
      return true;
    }

    method EnsureDefaultGroup(user: string)
      modifies this
      ensures Tables() == EnsureDefault(old(Tables()), user)
    {
      if (user, DEFAULT_GROUP) !in groups {
        groups := groups[(user, DEFAULT_GROUP) := DEFAULT_GROUP_NAME];
      }
    }

    /** Both rows of a friendship in one batch, unless one is missing a name or they are friends. */
    method StoreFriend(user: string, other: string, groupId: string) returns (ok: bool)
      requires user != ""
      modifies this
      ensures ok <==> other != "" && !IsFriend(old(Tables()), user, other)
      ensures Tables() == if ok then Befriend(old(Tables()), user, other, groupId) else old(Tables())
    {
      if other == "" || (user, other) in friends { return false; }
      friends := friends[(user, other) := Friend(user, other, "", groupId)];
      friends := friends[(other, user) := Friend(other, user, "", DEFAULT_GROUP)];
      return true;
    }

    method UpdateRequestStatus(requestId: string, status: int)
      requires requestId in requests
      modifies this
      ensures Tables() == SetStatus(old(Tables()), requestId, status)
    {
      requests := requests[requestId := requests[requestId].(status := status)];
    }

    method FriendIds(u: string) returns (ids: seq<string>)
      requires Valid() && NoColon(u)
      ensures forall v :: v in ids <==> v != "" && (u, v) in friends
    {
      ids := CollectSuffixes(AllKeys(Tables()), "friend:" + u + ":");
      forall v ensures "friend:" + u + ":" + v in AllKeys(Tables()) <==> (u, v) in friends
      {
        FriendKeys(Tables(), (u, v));
      }
    }

    /** The user's rows in the group, or in any group when none is named, without those that have
        no group. */
    method GetFriends(user: string, groupId: string) returns (result: seq<Friend>)
      requires Valid() && NoColon(user)
      ensures forall f :: f in result <==> IsListed(Tables(), user, groupId, f)
    {
      var ids := FriendIds(user);
      result := Filter(user, groupId, ids);
      forall f ensures f in result <==> IsListed(Tables(), user, groupId, f) {
        if IsListed(Tables(), user, groupId, f) {
          var v :| ListedAs(Tables(), user, groupId, f, v);
          assert (v, user) in friends;
        }
      }
    }

    method Filter(user: string, groupId: string, ids: seq<string>) returns (result: seq<Friend>)
      requires forall v :: v in ids ==> (user, v) in friends
      ensures forall f :: f in result <==> exists v :: v in ids && ListedAs(Tables(), user, groupId, f, v)
    {
      result := [];
      for n := 0 to |ids|
        invariant forall f :: f in result <==> exists v :: v in ids[..n] && ListedAs(Tables(), user, groupId, f, v)
      {
        assert ids[n] in ids && ids[..n + 1] == ids[..n] + [ids[n]];
        var d := friends[(user, ids[n])];
        ghost var before := result;
        if d.groupId != "" && (groupId == "" || d.groupId == groupId) { result := result + [d]; }
        forall f ensures f in result <==> f in before || ListedAs(Tables(), user, groupId, f, ids[n]) {}
      }
      assert ids[..|ids|] == ids;
    }

    method GroupIds(u: string) returns (ids: seq<string>)
      requires Valid() && NoColon(u)
      ensures forall g :: g in ids <==> g != "" && (u, g) in groups
    {
      ids := CollectSuffixes(AllKeys(Tables()), "friend_group:" + u + ":");
      forall g ensures "friend_group:" + u + ":" + g in AllKeys(Tables()) <==> (u, g) in groups
      {
        GroupKeys(Tables(), (u, g));
      }
    }

    /** Finds the group among the user's groups, drops it and moves its friends to the default group. */
    method DeleteFriendGroup(user: string, groupId: string) returns (code: ErrorCode)
      requires Valid() && NoColon(user)
      modifies this
      ensures Valid() && (Tables(), code == OK) == Apply(old(Tables()), FriendModel.DeleteFriendGroup(user, groupId))
      ensures code ==
        if user == "" then INVALID_PARAM
        else if groupId == "" || groupId == "default" then FRIEND_GROUP_DEFAULT
        else if (user, groupId) !in old(groups) then FRIEND_GROUP_NOT_FOUND
        else OK
    {
      StepIsValid(Tables(), FriendModel.DeleteFriendGroup(user, groupId));
      if user == "" { return INVALID_PARAM; }
      if groupId == "" || groupId == DEFAULT_GROUP { return FRIEND_GROUP_DEFAULT; }
      var known := GroupIds(user);
      if groupId !in known { return FRIEND_GROUP_NOT_FOUND; }
      DropGroup(user, groupId);
      return OK;
    }

    method DropGroup(user: string, groupId: string)
      requires Valid() && NoColon(user)
      modifies this`groups, this`friends
      ensures friends == MoveAll(old(Tables()), user, groupId) && groups == old(groups) - {(user, groupId)}
    {
      var ids := FriendIds(user);
      AllListed(Tables(), user, ids);
      MoveFriends(user, ids, groupId);
      groups := groups - {(user, groupId)};
    }

    /** Rewrites the rows of the listed friends that are in the group. */
    method MoveFriends(user: string, ids: seq<string>, groupId: string)
      requires forall v :: v in ids ==> (user, v) in friends
      modifies this`friends
      ensures friends == MovedIn(old(friends), user, ids, groupId)
    {
      var n := 0;
      assert MovedIn(friends, user, ids[..0], groupId) == friends;
      while n < |ids|
        invariant n <= |ids| && friends == MovedIn(old(friends), user, ids[..n], groupId)
      {
        MovedSnoc(old(friends), user, ids, n, groupId);
        var f := friends[(user, ids[n])];
        if f.groupId == groupId { friends := friends[(user, ids[n]) := f.(groupId := DEFAULT_GROUP)]; }
        n := n + 1;
      }
      assert ids[..n] == ids;
    }

    method MoveFriend(user: string, other: string, groupId: string) returns (ok: bool)
      requires Valid()
      modifies this
      ensures Valid() && (Tables(), ok) == Apply(old(Tables()), FriendModel.MoveFriend(user, other, groupId))
    {
      StepIsValid(Tables(), FriendModel.MoveFriend(user, other, groupId));
      if user == "" || other == "" { return false; }
      if (user, other) !in friends { return false; }
      friends := friends[(user, other) := friends[(user, other)].(groupId := groupId)];
      return true;
    }

    method RemoveFriend(user: string, other: string) returns (ok: bool)
      requires Valid()
      modifies this
      ensures Valid() && (Tables(), ok) == Apply(old(Tables()), FriendModel.RemoveFriend(user, other))
    {
      StepIsValid(Tables(), FriendModel.RemoveFriend(user, other));
      if user == "" || other == "" { return false; }
      if (user, other) !in friends { return false; }
      friends := friends - {(user, other), (other, user)};
      return true;
    }
  }

  lemma NoneAwaiting(s: State, ids: seq<string>, user: string, other: string)
    requires forall x :: x in ids <==> x in s.requests && s.requests[x].toUser == other
    requires forall i :: 0 <= i < |ids| ==> ids[i] in s.requests && !IsAwaiting(s.requests[ids[i]], user, other)
    ensures !Awaiting(s, user, other)
  {
    forall id | id in s.requests ensures !IsAwaiting(s.requests[id], user, other) {
      if s.requests[id].toUser == other {
        assert id in ids;
        var i :| 0 <= i < |ids| && ids[i] == id;
      }
    }
  }

  ghost predicate ListedAs(s: State, user: string, groupId: string, f: Friend, v: string) {
    Shown(s, user, v) && s.friends[(user, v)] == f && (groupId == "" || f.groupId == groupId)
  }

  ghost predicate IsListed(s: State, user: string, groupId: string, f: Friend) {
    exists v :: ListedAs(s, user, groupId, f, v)
  }

  function Moved(f: Friend, groupId: string): Friend {
    if f.groupId == groupId then f.(groupId := DEFAULT_GROUP) else f
  }

  function MovedIn(friends: map<(string, string), Friend>, user: string, ids: seq<string>, groupId: string)
      : map<(string, string), Friend>
  {
    map k | k in friends :: if k.0 == user && k.1 in ids then Moved(friends[k], groupId) else friends[k]
  }

  lemma MovedSnoc(friends: map<(string, string), Friend>, user: string, ids: seq<string>, n: nat, groupId: string)
    requires n < |ids| && forall v :: v in ids ==> (user, v) in friends
    ensures (user, ids[n]) in friends && MovedIn(friends, user, ids[..n], groupId)[(user, ids[n])].groupId
         == if ids[n] in ids[..n] then Moved(friends[(user, ids[n])], groupId).groupId
             else friends[(user, ids[n])].groupId
    ensures var before := MovedIn(friends, user, ids[..n], groupId);
      MovedIn(friends, user, ids[..n + 1], groupId)
      == before[(user, ids[n]) := Moved(before[(user, ids[n])], groupId)]
  {
    assert ids[n] in ids;
    assert ids[..n + 1] == ids[..n] + [ids[n]];
  }

  /** A user's friends are all found by the scan, which skips only the empty name. */
  lemma AllListed(s: State, user: string, ids: seq<string>)
    requires Inv(s)
    requires forall v :: v in ids <==> v != "" && (user, v) in s.friends
    ensures forall g :: MovedIn(s.friends, user, ids, g) == MoveAll(s, user, g)
  {
    forall k | k in s.friends && k.0 == user ensures k.1 in ids { assert k == (user, k.1) && (k.1, user) in s.friends; }
  }
}
