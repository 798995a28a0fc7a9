/**
 Friendships and friend requests: symmetric rows, requests with an index per recipient and
 per sender, and one-way status changes.
 */
module FriendModel {

  const PENDING := 0
  const ACCEPTED := 1
  const REJECTED := 2
  const DEFAULT_GROUP := "default"
  const DEFAULT_GROUP_NAME := "我的好友"

  datatype Friend = Friend(userId: string, friendId: string, remark: string, groupId: string)

  datatype Request = Request(requestId: string, fromUser: string, toUser: string, remark: string, status: int)

  /** `friends` is keyed by (user, friend), `groups` by (user, group); `received` holds
      (recipient, request), `sent` (sender, request), `blocks` (user, blocked). */
  datatype State = State(
    friends: map<(string, string), Friend>, requests: map<string, Request>,
    received: set<(string, string)>, sent: set<(string, string)>,
    groups: map<(string, string), string>, blocks: set<(string, string)>)

  const EMPTY := State(map[], map[], {}, {}, map[], {})

  datatype Op =
    | AddFriend(user: string, other: string, remark: string, requestId: string)
    | HandleRequest(user: string, requestId: string, accept: bool, groupId: string)
    | RemoveFriend(user: string, other: string)
    | CreateFriendGroup(user: string, name: string, groupId: string)
    | DeleteFriendGroup(user: string, groupId: string)
    | MoveFriend(user: string, other: string, groupId: string)
    | SetRemark(user: string, other: string, remark: string)
    | Block(user: string, other: string)
    | Unblock(user: string, other: string)

  predicate IsFriend(s: State, u: string, v: string) {
    u != "" && v != "" && (u, v) in s.friends
  }

  /** A request from `u` to `v` awaits its answer. */
  ghost predicate Awaiting(s: State, u: string, v: string) {
    exists id :: id in s.requests && IsAwaiting(s.requests[id], u, v)
  }

  predicate IsAwaiting(r: Request, u: string, v: string) {
    r.fromUser == u && r.toUser == v && r.status == PENDING
  }

  // ---------- store operations ----------

  predicate CanRequest(s: State, r: Request) {
    r.requestId != "" && r.fromUser != "" && r.toUser != "" && r.requestId !in s.requests
  }

  /** The request row and its two index rows, in one batch. */
  function CreateRequest(s: State, r: Request): State {
    if !CanRequest(s, r) then s
    else s.(requests := s.requests[r.requestId := r],
            received := s.received + {(r.toUser, r.requestId)}, sent := s.sent + {(r.fromUser, r.requestId)})
  }

  /** Both directions of a friendship, in one batch. */
  function Befriend(s: State, u: string, v: string, groupId: string): State {
    s.(friends := s.friends[(u, v) := Friend(u, v, "", groupId)][(v, u) := Friend(v, u, "", DEFAULT_GROUP)])
  }

  function SetStatus(s: State, id: string, status: int): State
    requires id in s.requests
  {
    s.(requests := s.requests[id := s.requests[id].(status := status)])
  }

  function EnsureDefault(s: State, u: string): State {
    if (u, DEFAULT_GROUP) in s.groups then s else s.(groups := s.groups[(u, DEFAULT_GROUP) := DEFAULT_GROUP_NAME])
  }

  function MoveAll(s: State, u: string, groupId: string): map<(string, string), Friend> {
    map k | k in s.friends ::
      if k.0 == u && s.friends[k].groupId == groupId then s.friends[k].(groupId := DEFAULT_GROUP) else s.friends[k]
  }

  // ---------- service operations ----------

  ghost predicate MayAsk(s: State, u: string, v: string) {
    u != "" && v != "" && u != v && !IsFriend(s, u, v) && (v, u) !in s.blocks && !Awaiting(s, u, v)
  }

  predicate MayHandle(s: State, user: string, id: string) {
    user != "" && id != "" && id in s.requests && s.requests[id].toUser == user && s.requests[id].status == PENDING
  }

  function Accepted(s: State, user: string, id: string, groupId: string): (State, bool)
    requires id in s.requests
  {
    var s1, from := EnsureDefault(s, user), s.requests[id].fromUser;
    if from == "" || IsFriend(s1, user, from) then (s1, false)
    else (SetStatus(Befriend(s1, user, from, if groupId == "" then DEFAULT_GROUP else groupId), id, ACCEPTED), true)
  }

  ghost function Apply(s: State, op: Op): (State, bool) {
    match op
    case AddFriend(u, v, remark, id) =>
      var r := Request(id, u, v, remark, PENDING);
      if MayAsk(s, u, v) && CanRequest(s, r) then (CreateRequest(s, r), true) else (s, false)
    case HandleRequest(u, id, accept, groupId) =>
      if !MayHandle(s, u, id) then (s, false)
      else if accept then Accepted(s, u, id, groupId) else (SetStatus(s, id, REJECTED), true)
    case RemoveFriend(u, v) =>
      if IsFriend(s, u, v) then (s.(friends := s.friends - {(u, v), (v, u)}), true) else (s, false)
    case CreateFriendGroup(u, name, g) =>
      if u == "" || name == "" || g == "" || (u, g) in s.groups then (s, false)
      else (s.(groups := s.groups[(u, g) := name]), true)
    case DeleteFriendGroup(u, g) =>
      if u == "" || g == "" || g == DEFAULT_GROUP || (u, g) !in s.groups then (s, false)
      else (s.(groups := s.groups - {(u, g)}, friends := MoveAll(s, u, g)), true)
    case MoveFriend(u, v, g) =>
      if !IsFriend(s, u, v) then (s, false)
      else (s.(friends := s.friends[(u, v) := s.friends[(u, v)].(groupId := g)]), true)
    case SetRemark(u, v, remark) =>
      if !IsFriend(s, u, v) then (s, false)
      else (s.(friends := s.friends[(u, v) := s.friends[(u, v)].(remark := remark)]), true)
    case Block(u, v) => if u == "" || v == "" || u == v then (s, false) else (s.(blocks := s.blocks + {(u, v)}), true)
    case Unblock(u, v) => if u == "" || v == "" then (s, false) else (s.(blocks := s.blocks - {(u, v)}), true)
  }

  // ---------- what every operation keeps ----------

  /** Friendship goes both ways, between two different users with names. */
  ghost predicate Symmetric(s: State) {
    forall u, v :: (u, v) in s.friends ==> (v, u) in s.friends && u != v && u != ""
  }

  ghost predicate Between(r: Request, u: string, v: string) {
    (r.fromUser == u && r.toUser == v) || (r.fromUser == v && r.toUser == u)
  }

  /** Some request between the two was accepted. */
  ghost predicate Agreed(s: State, u: string, v: string) {
    exists id :: id in s.requests && s.requests[id].status == ACCEPTED && Between(s.requests[id], u, v)
  }

  ghost predicate AllAgreed(s: State) {
    forall k :: k in s.friends ==> Agreed(s, k.0, k.1)
  }

  ghost predicate RequestsKeyed(s: State) {
    forall id :: id in s.requests ==>
      id != "" && s.requests[id].requestId == id && s.requests[id].fromUser != s.requests[id].toUser
  }

  ghost predicate OnePending(s: State) {
    forall i, j :: i in s.requests && j in s.requests && i != j && s.requests[i].status == PENDING ==>
      !IsAwaiting(s.requests[j], s.requests[i].fromUser, s.requests[i].toUser)
  }

  /** The indexes list exactly the stored requests. */
  ghost predicate Indexed(s: State) {
    && (forall p :: p in s.received <==> p.1 in s.requests && s.requests[p.1].toUser == p.0)
    && (forall p :: p in s.sent <==> p.1 in s.requests && s.requests[p.1].fromUser == p.0)
  }

  ghost predicate RequestInv(s: State) {
    RequestsKeyed(s) && OnePending(s) && Indexed(s)
  }

  ghost predicate Inv(s: State) {
    Symmetric(s) && AllAgreed(s) && RequestInv(s)
  }

  /** Requests are never withdrawn or redirected, and a status only leaves pending. */
  ghost predicate Advances(s: State, s': State) {
    forall id :: id in s.requests ==>
      && id in s'.requests
      && s'.requests[id].fromUser == s.requests[id].fromUser && s'.requests[id].toUser == s.requests[id].toUser
      && (s'.requests[id].status == s.requests[id].status
          || (s.requests[id].status == PENDING
              && (s'.requests[id].status == ACCEPTED || s'.requests[id].status == REJECTED)))
  }

  lemma AgreedAdvances(s: State, s': State, u: string, v: string)
    requires Agreed(s, u, v) && Advances(s, s')
    ensures Agreed(s', u, v)
  {
    var id :| id in s.requests && s.requests[id].status == ACCEPTED && Between(s.requests[id], u, v);
    assert id in s'.requests && Between(s'.requests[id], u, v);
  }

  lemma AllAgreedAdvances(s: State, s': State)
    requires AllAgreed(s) && Advances(s, s') && forall k :: k in s'.friends ==> k in s.friends
    ensures AllAgreed(s')
  {
    forall k | k in s'.friends ensures Agreed(s', k.0, k.1) { AgreedAdvances(s, s', k.0, k.1); }
  }

  lemma AskOnePending(s: State, r: Request)
    requires RequestInv(s) && CanRequest(s, r) && r.fromUser != r.toUser && !Awaiting(s, r.fromUser, r.toUser)
    ensures OnePending(CreateRequest(s, r))
  {
    var s' := CreateRequest(s, r);
    forall i, j | i in s'.requests && j in s'.requests && i != j && s'.requests[i].status == PENDING
      ensures !IsAwaiting(s'.requests[j], s'.requests[i].fromUser, s'.requests[i].toUser)
    {
      if i == r.requestId { assert !IsAwaiting(s.requests[j], r.fromUser, r.toUser); }
      else if j == r.requestId { assert !IsAwaiting(s.requests[i], r.fromUser, r.toUser); }
    }
  }

  lemma AskKeepsRequests(s: State, r: Request)
    requires RequestInv(s) && CanRequest(s, r) && r.fromUser != r.toUser && !Awaiting(s, r.fromUser, r.toUser)
    ensures RequestInv(CreateRequest(s, r)) && Advances(s, CreateRequest(s, r))
  {
    AskOnePending(s, r);
  }

  lemma AskKeeps(s: State, op: Op)
    requires Inv(s) && op.AddFriend?
    ensures Inv(Apply(s, op).0) && Advances(s, Apply(s, op).0)
  {
    if Apply(s, op).1 {
      AskKeepsRequests(s, Request(op.requestId, op.user, op.other, op.remark, PENDING));
      AllAgreedAdvances(s, Apply(s, op).0);
    }
  }

  lemma StatusKeeps(s: State, id: string, status: int)
    requires RequestInv(s) && id in s.requests
    requires s.requests[id].status == PENDING && (status == ACCEPTED || status == REJECTED)
    ensures RequestInv(SetStatus(s, id, status)) && Advances(s, SetStatus(s, id, status))
  {
  }

  /** Operations that leave the requests alone and add no friendship. */
  lemma FriendsOnlyKeeps(s: State, s': State)
    requires Inv(s) && s'.requests == s.requests && s'.received == s.received && s'.sent == s.sent
    requires Symmetric(s') && forall k :: k in s'.friends ==> k in s.friends
    ensures Inv(s') && Advances(s, s')
  {
    AllAgreedAdvances(s, s');
  }

  lemma AnswerKeeps(s: State, id: string, status: int)
    requires Inv(s) && id in s.requests && s.requests[id].status == PENDING
        && (status == ACCEPTED || status == REJECTED)
    ensures Inv(SetStatus(s, id, status)) && Advances(s, SetStatus(s, id, status))
  {
    StatusKeeps(s, id, status);
    AllAgreedAdvances(s, SetStatus(s, id, status));
  }

  lemma BefriendSymmetric(s: State, u: string, v: string, groupId: string)
    requires Symmetric(s) && u != v && u != "" && v != ""
    ensures Symmetric(Befriend(s, u, v, groupId))
  {
  }

  lemma BefriendAgreed(s: State, u: string, v: string, groupId: string)
    requires AllAgreed(s) && Agreed(s, u, v) && Agreed(s, v, u)
    ensures AllAgreed(Befriend(s, u, v, groupId))
  {
    var s' := Befriend(s, u, v, groupId);
    forall k | k in s'.friends ensures Agreed(s', k.0, k.1) {
      assert k in s.friends || k == (u, v) || k == (v, u);
      AgreedAdvances(s, s', k.0, k.1);
    }
  }

  lemma BefriendKeeps(s: State, u: string, v: string, groupId: string)
    requires Inv(s) && u != v && u != "" && v != "" && Agreed(s, u, v) && Agreed(s, v, u)
    ensures Inv(Befriend(s, u, v, groupId))
  {
    BefriendSymmetric(s, u, v, groupId);
    BefriendAgreed(s, u, v, groupId);
  }

  lemma AcceptKeeps(s: State, user: string, id: string, groupId: string)
    requires Inv(s) && MayHandle(s, user, id)
    ensures Inv(Accepted(s, user, id, groupId).0) && Advances(s, Accepted(s, user, id, groupId).0)
  {
    var s1 := EnsureDefault(s, user);
    FriendsOnlyKeeps(s, s1);
    var (s', ok) := Accepted(s, user, id, groupId);
    if ok {
      var from := s.requests[id].fromUser;
      AnswerKeeps(s1, id, ACCEPTED);
      var s2 := SetStatus(s1, id, ACCEPTED);
      assert Between(s2.requests[id], user, from) && Between(s2.requests[id], from, user);
      BefriendKeeps(s2, user, from, if groupId == "" then DEFAULT_GROUP else groupId);
    }
  }

  /** Every operation keeps friendships symmetric, irreflexive and agreed upon, at most one
      pending request per ordered pair, and the indexes exact; statuses only leave pending. */
  lemma StepKeepsInv(s: State, op: Op)
    requires Inv(s)
    ensures Inv(Apply(s, op).0) && Advances(s, Apply(s, op).0)
  {
    if op.AddFriend? {
      AskKeeps(s, op);
    } else if op.HandleRequest? {
      HandleKeeps(s, op);
    } else {
      OthersSymmetric(s, op);
      FriendsOnlyKeeps(s, Apply(s, op).0);
    }
  }

  lemma OthersSymmetric(s: State, op: Op)
    requires Symmetric(s) && !op.AddFriend? && !op.HandleRequest?
    ensures var s' := Apply(s, op).0;
      && Symmetric(s') && (forall k :: k in s'.friends ==> k in s.friends)
      && s'.requests == s.requests && s'.received == s.received && s'.sent == s.sent
  {
  }

  lemma HandleKeeps(s: State, op: Op)
    requires Inv(s) && op.HandleRequest?
    ensures Inv(Apply(s, op).0) && Advances(s, Apply(s, op).0)
  {
    if MayHandle(s, op.user, op.requestId) {
      if op.accept {
        AcceptKeeps(s, op.user, op.requestId, op.groupId);
      } else {
        AnswerKeeps(s, op.requestId, REJECTED);
      }
    }
  }

  ghost function Run(s: State, ops: seq<Op>): State
    decreases |ops|
  {
    if ops == [] then s else Run(Apply(s, ops[0]).0, ops[1..])
  }

  /** The same over whole runs: answered requests keep their answer for good. */
  lemma {:induction false} RunKeepsInv(s: State, ops: seq<Op>)
    requires Inv(s)
    ensures Inv(Run(s, ops)) && Advances(s, Run(s, ops))
    decreases |ops|
  {
    if ops != [] {
      StepKeepsInv(s, ops[0]);
      RunKeepsInv(Apply(s, ops[0]).0, ops[1..]);
    }
  }

  /** A recipient's acceptance goes through if and only if the two are not friends yet; until
      then the request stays pending. */
  lemma AcceptExact(s: State, user: string, id: string, groupId: string)
    requires Inv(s) && MayHandle(s, user, id) && s.requests[id].fromUser != ""
    ensures var (s', ok) := Apply(s, HandleRequest(user, id, true, groupId));
      && (ok <==> !IsFriend(s, user, s.requests[id].fromUser))
      && IsFriend(s', user, s.requests[id].fromUser) && IsFriend(s', s.requests[id].fromUser, user)
      && s'.requests[id].status == if ok then ACCEPTED else PENDING
  {
  }

  ghost predicate Befriends(s: State, op: Op, u: string, v: string) {
    && op.HandleRequest? && op.accept && MayHandle(s, op.user, op.requestId)
    && s.requests[op.requestId].fromUser != "" && Between(s.requests[op.requestId], u, v)
  }

  predicate Parts(op: Op, u: string, v: string) {
    u != "" && v != "" && (op == RemoveFriend(u, v) || op == RemoveFriend(v, u))
  }

  /** The friendship was there and does not end, or begins. */
  ghost predicate Remains(s: State, op: Op, u: string, v: string) {
    ((u, v) in s.friends && !Parts(op, u, v)) || Befriends(s, op, u, v)
  }

  lemma AnswerBefriends(s: State, op: Op, u: string, v: string)
    requires Inv(s) && op.HandleRequest?
    ensures (u, v) in Apply(s, op).0.friends <==> Remains(s, op, u, v)
  {
    if MayHandle(s, op.user, op.requestId) && op.accept {
      var from := s.requests[op.requestId].fromUser;
      assert (op.user, from) in s.friends ==> (from, op.user) in s.friends;
    }
  }

  lemma OthersKeepFriends(s: State, op: Op, u: string, v: string)
    requires !op.HandleRequest? && !op.RemoveFriend?
    ensures (u, v) in Apply(s, op).0.friends <==> Remains(s, op, u, v)
  {
    if op.DeleteFriendGroup? { assert MoveAll(s, op.user, op.groupId).Keys == s.friends.Keys; }
  }

  lemma RemovalParts(s: State, op: Op, u: string, v: string)
    requires Inv(s) && op.RemoveFriend?
    ensures (u, v) in Apply(s, op).0.friends <==> Remains(s, op, u, v)
  {
    assert (u, v) in s.friends ==> (v, u) in s.friends;
  }

  /** Two users become friends exactly by accepting a request between them and stop being
      friends exactly when one removes the other. */
  lemma FriendshipExact(s: State, op: Op, u: string, v: string)
    requires Inv(s)
    ensures (u, v) in Apply(s, op).0.friends <==> Remains(s, op, u, v)
  {
    if op.HandleRequest? {
      AnswerBefriends(s, op, u, v);
    } else if op.RemoveFriend? {
      RemovalParts(s, op, u, v);
    } else {
      OthersKeepFriends(s, op, u, v);
    }
  }

  /** Deleting a group keeps the user's friendships, moves its friends to the default group and
      touches no other row. */
  lemma DeleteGroupEmpties(s: State, user: string, groupId: string)
    requires user != "" && groupId != "" && groupId != DEFAULT_GROUP && (user, groupId) in s.groups
    ensures var s' := Apply(s, DeleteFriendGroup(user, groupId)).0;
      && s'.friends.Keys == s.friends.Keys && (user, groupId) !in s'.groups
      && (forall k :: k in s.friends ==>
            s'.friends[k]
            == if k.0 == user && s.friends[k].groupId == groupId then s.friends[k].(groupId := DEFAULT_GROUP)
               else s.friends[k])
  {
  }

  // ---------- each operation, written out ----------

  /** Asking goes through if and only if the two are different named users who are not friends, the other has
      not blocked the asker, no request of the asker's awaits the other's answer, and the id is new; it files
      one pending request and nothing else. */
  lemma AskExact(s: State, u: string, v: string, remark: string, id: string)
    ensures var (s', ok) := Apply(s, AddFriend(u, v, remark, id));
      && (ok <==>
            && u != "" && v != "" && u != v && (u, v) !in s.friends && (v, u) !in s.blocks
            && (forall i :: i in s.requests ==>
                  !(s.requests[i].fromUser == u && s.requests[i].toUser == v && s.requests[i].status == 0))
            && id != "" && id !in s.requests)
      && s' == if ok then s.(requests := s.requests[id := Request(id, u, v, remark, 0)],
                             received := s.received + {(v, id)}, sent := s.sent + {(u, id)})
               else s
  {
  }

  /** Who may answer: the recipient, while the request is pending. */
  lemma MayHandleExact(s: State, user: string, id: string)
    ensures MayHandle(s, user, id) <==>
      user != "" && id != "" && id in s.requests && s.requests[id].toUser == user && s.requests[id].status == 0
  {
  }

  /** A refusal leaves status 2 on the request and touches nothing else. */
  lemma RefusalExact(s: State, user: string, id: string, groupId: string)
    ensures var (s', ok) := Apply(s, HandleRequest(user, id, false, groupId));
      && (ok <==>
            user != "" && id != "" && id in s.requests && s.requests[id].toUser == user && s.requests[id].status == 0)
      && s' == if ok then s.(requests := s.requests[id := s.requests[id].(status := 2)]) else s
  {
  }

  /** An acceptance leaves status 1 on the request and two rows without a remark: the answerer's in the group
      asked for, or in the default one, the asker's in the default one. */
  lemma AcceptanceExact(s: State, user: string, id: string, groupId: string)
    requires user != "" && id != "" && id in s.requests && s.requests[id].toUser == user && s.requests[id].status == 0
    ensures var (s', ok) := Apply(s, HandleRequest(user, id, true, groupId));
      var from, group := s.requests[id].fromUser, if groupId == "" then "default" else groupId;
      && (ok <==> from != "" && (user, from) !in s.friends)
      && s'.requests == (if ok then s.requests[id := s.requests[id].(status := 1)] else s.requests)
      && s'.friends == (if !ok then s.friends
                        else s.friends[(user, from) := Friend(user, from, "", group)]
                             [(from, user) := Friend(from, user, "", "default")])
      && s'.groups == (if (user, "default") in s.groups then s.groups
                       else s.groups[(user, "default") := DEFAULT_GROUP_NAME])
      && s'.received == s.received && s'.sent == s.sent && s'.blocks == s.blocks
  {
  }

  lemma StrangersAnswerNothing(s: State, user: string, id: string, accept: bool, groupId: string)
    requires !MayHandle(s, user, id)
    ensures Apply(s, HandleRequest(user, id, accept, groupId)) == (s, false)
  {
  }

  /** The row of a friendship that remains changes its group when the user moves the friend, or deletes the
      group it is in, and its remark when the user sets one; every other row, the friend's own included, stays. */
  lemma FriendRowExact(s: State, op: Op, u: string, v: string)
    requires Inv(s) && (u, v) in s.friends && (u, v) in Apply(s, op).0.friends
    ensures var row, row' := s.friends[(u, v)], Apply(s, op).0.friends[(u, v)];
      row' == if op.MoveFriend? && op.user == u && op.other == v then row.(groupId := op.groupId)
              else if op.SetRemark? && op.user == u && op.other == v then row.(remark := op.remark)
              else if op.DeleteFriendGroup? && op.user == u && op.groupId == row.groupId && MayDelete(s, u, op.groupId)
                then row.(groupId := "default")
              else row
  {
    assert (v, u) in s.friends;
    if op.HandleRequest? {
      AnswerKeepsRow(s, op, u, v);
    } else if op.DeleteFriendGroup? {
      DeletionMovesRow(s, op, u, v);
    } else {
      EditsExact(s, op, u, v);
    }
  }

  predicate MayDelete(s: State, u: string, g: string) {
    u != "" && g != "" && g != "default" && (u, g) in s.groups
  }

  lemma AnswerKeepsRow(s: State, op: Op, u: string, v: string)
    requires op.HandleRequest? && (u, v) in s.friends && (v, u) in s.friends && u != "" && v != ""
    ensures (u, v) in Apply(s, op).0.friends && Apply(s, op).0.friends[(u, v)] == s.friends[(u, v)]
  {
  }

  lemma DeletionMovesRow(s: State, op: Op, u: string, v: string)
    requires op.DeleteFriendGroup? && (u, v) in s.friends
    ensures (u, v) in Apply(s, op).0.friends
    ensures var row := s.friends[(u, v)];
      Apply(s, op).0.friends[(u, v)]
      == if op.user == u && op.groupId == row.groupId && MayDelete(s, u, op.groupId) then row.(groupId := "default")
         else row
  {
  }

  lemma EditsExact(s: State, op: Op, u: string, v: string)
    requires !op.HandleRequest? && !op.DeleteFriendGroup? && u != "" && v != ""
    requires (u, v) in s.friends && (u, v) in Apply(s, op).0.friends
    ensures var row := s.friends[(u, v)];
      Apply(s, op).0.friends[(u, v)]
      == if op.MoveFriend? && op.user == u && op.other == v then row.(groupId := op.groupId)
         else if op.SetRemark? && op.user == u && op.other == v then row.(remark := op.remark)
         else row
  {
  }

  /** `p.0` has blocked `p.1` after a call exactly when it had and did not unblock, or blocks now. */
  lemma BlockExact(s: State, op: Op, p: (string, string))
    requires p.0 != "" && p.1 != ""
    ensures p in Apply(s, op).0.blocks <==>
      (p in s.blocks && op != Unblock(p.0, p.1)) || (op == Block(p.0, p.1) && p.0 != p.1)
  {
  }

  /** A user has a group after a call exactly when they had and did not delete it, or create it now, or when it
      is the default one and they accept a pending request; a group keeps its name. */
  lemma FriendGroupExact(s: State, op: Op, u: string, g: string)
    ensures
      var s' := Apply(s, op).0;
      && ((u, g) in s'.groups <==>
            ((u, g) in s.groups && !(op == DeleteFriendGroup(u, g) && MayDelete(s, u, g)))
            || Creates(op, u, g) || (g == "default" && Accepts(s, op, u)))
      && ((u, g) in s.groups && (u, g) in s'.groups ==> s'.groups[(u, g)] == s.groups[(u, g)])
      && ((u, g) !in s.groups && Creates(op, u, g) ==> s'.groups[(u, g)] == op.name)
  {
  }

  predicate Creates(op: Op, u: string, g: string) {
    op.CreateFriendGroup? && op.user == u && op.groupId == g && u != "" && g != "" && op.name != ""
  }

  predicate Accepts(s: State, op: Op, u: string) {
    && op.HandleRequest? && op.user == u && op.accept && u != "" && op.requestId != "" && op.requestId in s.requests
    && s.requests[op.requestId].toUser == u && s.requests[op.requestId].status == 0
  }

  // ---------- who is listed ----------

  /** `GetFriends` passes over rows without a group. */
  predicate Shown(s: State, u: string, v: string) {
    (u, v) in s.friends && s.friends[(u, v)].groupId != ""
  }

  /** One of the two ends the friendship, or the friend is moved to the group without a name. */
  predicate Hides(op: Op, u: string, v: string) {
    Parts(op, u, v) || op == MoveFriend(u, v, "")
  }

  /** A listed friend stays listed through an operation unless it hides the friend. */
  lemma ShownExact(s: State, op: Op, u: string, v: string)
    requires Inv(s) && Shown(s, u, v)
    ensures Shown(Apply(s, op).0, u, v) <==> !Hides(op, u, v)
  {
    if op.HandleRequest? {
      AnswersKeepRows(s, op, u, v);
    } else if op.RemoveFriend? {
      RemovalKeepsRows(s, op, u, v);
    } else if op.MoveFriend? {
      MoveShows(s, op, u, v);
    } else if op.SetRemark? || op.DeleteFriendGroup? {
      EditsKeepShown(s, op, u, v);
    } else {
      FriendsUntouched(s, op, u, v);
    }
  }

  lemma FriendsUntouched(s: State, op: Op, u: string, v: string)
    requires (op.AddFriend? || op.CreateFriendGroup? || op.Block? || op.Unblock?) && Shown(s, u, v)
    ensures Shown(Apply(s, op).0, u, v) <==> !Hides(op, u, v)
  {
  }

  lemma RemovalKeepsRows(s: State, op: Op, u: string, v: string)
    requires Inv(s) && op.RemoveFriend? && Shown(s, u, v)
    ensures Shown(Apply(s, op).0, u, v) <==> !Hides(op, u, v)
  {
    RemovalParts(s, op, u, v);
  }

  lemma MoveShows(s: State, op: Op, u: string, v: string)
    requires Inv(s) && Shown(s, u, v) && op.MoveFriend?
    ensures Shown(Apply(s, op).0, u, v) <==> !Hides(op, u, v)
  {
    assert (v, u) in s.friends;
  }

  lemma EditsKeepShown(s: State, op: Op, u: string, v: string)
    requires Shown(s, u, v) && (op.SetRemark? || op.DeleteFriendGroup?)
    ensures Shown(Apply(s, op).0, u, v) <==> !Hides(op, u, v)
  {
  }

  lemma AnswersKeepRows(s: State, op: Op, u: string, v: string)
    requires Inv(s) && op.HandleRequest? && Shown(s, u, v)
    ensures Shown(Apply(s, op).0, u, v) <==> !Hides(op, u, v)
  {
    if MayHandle(s, op.user, op.requestId) && op.accept {
      assert (v, u) in s.friends;
    }
  }

  /** Moving a friend to the group without a name hides the friend, who remains one. */
  lemma MovedOutOfSight(s: State, u: string, v: string)
    requires IsFriend(s, u, v)
    ensures var (s', ok) := Apply(s, MoveFriend(u, v, "")); ok && IsFriend(s', u, v) && !Shown(s', u, v)
  {
  }
}
