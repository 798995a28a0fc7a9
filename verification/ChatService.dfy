/**
 ChatServiceCore over the two stores.  Each method's contract is the call of the same name
 in ChatModel, so what is proved about every run there holds of these methods.
 */
module ChatService {
  import opened OrderedKeys
  import opened MessageKeys
  import opened MessageIndex
  import opened MessageStore
  import opened GroupModel
  import opened GroupStore
  import opened ChatModel

  class ChatServiceCore {
    const msgStore: RocksDBMessageStore
    const groupStore: RocksDBGroupStore

    constructor (msgStore: RocksDBMessageStore, groupStore: RocksDBGroupStore)
      ensures this.msgStore == msgStore && this.groupStore == groupStore
    {
      this.msgStore, this.groupStore := msgStore, groupStore;
    }

    ghost function World(): World
      reads msgStore, groupStore
    {
      ChatModel.World(groupStore.State(), msgStore.msgs, msgStore.index, msgStore.queued)
    }

    ghost predicate Valid()
      reads msgStore, groupStore
    {
      msgStore.Valid() && groupStore.Valid()
    }

    /** Saves the message and queues it for its recipients, one by one. */
    method SendMessage(from: string, to: string, private: bool, content: string, msgId: string, now: int)
        returns (success: bool)
      requires Valid() && NoColon(from) && NoColon(to)
      modifies msgStore
      ensures Valid() && World() == Step(old(World()), Send(from, to, private, content, msgId, now))
      ensures success <==> Sends(old(World()), Send(from, to, private, content, msgId, now))
    {
      ghost var w, c := World(), Send(from, to, private, content, msgId, now);
      StepKeepsWorld(w, c);
      if from == "" || to == "" { return false; }
      if !private && !IsMember(groupStore.State(), to, from) { return false; }
      success := Post(from, to, private, content, msgId, now);
      Settled(w, c, World());
    }

    /** Saves the message and, if that worked, queues it. */
    method Post(from: string, to: string, private: bool, content: string, msgId: string, now: int)
        returns (success: bool)
      requires Valid() && NoColon(from) && NoColon(to) && from != "" && to != ""
      modifies msgStore
      ensures Valid() && (success <==> msgId != "" && msgId !in old(msgStore.msgs))
      ensures msgStore.msgs
           == if success then old(msgStore.msgs)[msgId := NewMessage(Send(from, to, private, content, msgId, now))]
               else old(msgStore.msgs)
      ensures msgStore.queued
           == if success then Deliver(old(msgStore.queued), Recipients(groupStore.State(), from, to, private), msgId)
               else old(msgStore.queued)
    {
      var conversation := if private then PrivateId(from, to) else to;
      PrivateIdNoColon(from, to);
      var msg := MessageData(msgId, from, to, conversation, if private then 1 else 2, content, now, 0, 0);
      var saved := msgStore.Save(msg);
      if !saved { return false; }
      if private {
        var queued := msgStore.AddToOffline(to, msgId);
      } else {
        QueueForMembers(from, to, msgId);
      }
      return true;
    }

    method QueueForMembers(from: string, to: string, msgId: string)
      requires Valid() && to != "" && NoColon(to) && msgId in msgStore.msgs
      modifies msgStore
      ensures Valid() && msgStore.msgs == old(msgStore.msgs)
      ensures msgStore.queued == Deliver(old(msgStore.queued), Recipients(groupStore.State(), from, to, false), msgId)
    {
      ghost var ids := Slice(SortedOf(Rows(groupStore.State(), to)), 0, MAX_RECIPIENTS);
      var page := groupStore.GetMembers(to, 0, MAX_RECIPIENTS);
      forall u | u in ids ensures u != "" && NoColon(u) { RecipientIsMember(groupStore.State(), to, u); }
      PairingDelivers(groupStore.State(), msgStore.queued, from, to, msgId);
      FanOut(page.members, from, msgId, ids);
    }

    method QueueFor(user: string, from: string, msgId: string)
      requires msgStore.Valid() && msgId in msgStore.msgs && user != "" && NoColon(user)
      modifies msgStore
      ensures msgStore.Valid() && msgStore.msgs == old(msgStore.msgs)
      ensures msgStore.queued == old(msgStore.queued) + if user != from then {(user, msgId)} else {}
    {
      if user != from {
        var ok := msgStore.AddToOffline(user, msgId);
      }
    }

    /** Queues a stored message for every listed member but the sender. */
    method FanOut(members: seq<Member>, from: string, msgId: string, ghost ids: seq<string>)
      requires msgStore.Valid() && msgId in msgStore.msgs
      requires |ids| == |members| && forall i :: 0 <= i < |ids| ==> members[i].userId == ids[i]
      requires forall u :: u in ids ==> u != "" && NoColon(u)
      modifies msgStore
      ensures msgStore.Valid() && msgStore.msgs == old(msgStore.msgs)
      ensures msgStore.queued == old(msgStore.queued) + Pairing(ids, from, msgId)
    {
      var n := 0;
      while n < |members|
        invariant n <= |members| && msgStore.Valid() && msgStore.msgs == old(msgStore.msgs)
        invariant Fanned(old(msgStore.queued), ids, n, from, msgId, msgStore.queued)
      {
        var u := members[n].userId;
        assert ids[n] in ids;
        FannedNext(old(msgStore.queued), ids, n, from, msgId, msgStore.queued);
        QueueFor(u, from, msgId);
        n := n + 1;
      }
      assert ids[..n] == ids;
    }

    /** A dissolved group shows no history; otherwise the newest `limit` messages before the
        given one, in the conversation the two chat ids resolve to. */
    method GetHistory(user: string, chat: string, private: bool, beforeMsgId: string, limit: int)
        returns (result: seq<MessageData>)
      requires Valid() && NoColon(user) && NoColon(chat)
      ensures result == ChatHistory(World(), user, chat, private, beforeMsgId, limit)
    {
      if chat == "" || limit <= 0 { return []; }
      if private && user == "" { return []; }
      var conversation := if private then PrivateId(user, chat) else chat;
      PrivateIdNoColon(user, chat);
      if !private && conversation in groupStore.groups && groupStore.groups[conversation].status == 1 { return []; }
      result := msgStore.GetHistory(conversation, beforeMsgId, limit);
    }

    method RecallMessage(msgId: string, user: string, now: int) returns (success: bool)
      requires Valid()
      modifies msgStore
      ensures Valid() && World() == Step(old(World()), Recall(msgId, user, now))
      ensures success <==> MayRecall(old(World()), Recall(msgId, user, now))
    {
      StepKeepsWorld(World(), Recall(msgId, user, now));
      if msgId == "" || user == "" { return false; }
      var msg := msgStore.GetById(msgId);
      if msg.None? { return false; }
      if msg.value.fromUserId != user { return false; }
      if now - msg.value.timestamp > RECALL_TIMEOUT_MS { return false; }
      var ok := msgStore.MarkRecalled(msgId, now);
      return ok;
    }

    /** The part of `MarkRead` that clears the offline queue. */
    method MarkRead(user: string, chat: string, lastMsgId: string)
      requires Valid() && NoColon(user)
      modifies msgStore
      ensures Valid() && World() == Step(old(World()), ChatModel.MarkRead(user, chat, lastMsgId))
    {
      StepKeepsWorld(World(), ChatModel.MarkRead(user, chat, lastMsgId));
      if user == "" || chat == "" { return; }
      if lastMsgId != "" {
        msgStore.ClearOffline(user, lastMsgId);
      }
    }

    /** Private conversations cannot be deleted; deleting a group conversation is reserved to its
        owner and dissolves the group. */
    method DeleteConversation(user: string, chat: string, private: bool) returns (code: ErrorCode)
      requires Valid() && NoColon(chat)
      modifies groupStore
      ensures Valid()
      ensures private ==>
        && World() == old(World())
        && code == if user == "" || chat == "" then INVALID_PARAM else CONVERSATION_PRIVATE_CANNOT_DELETE
      ensures !private ==>
        && World() == Step(old(World()), Group(Dissolve(chat, user)))
        && code == Apply(old(groupStore.State()), Dissolve(chat, user)).1
    {
      StepKeepsInv(groupStore.State(), Dissolve(chat, user));
      StepKeepsColonFree(groupStore.State(), Dissolve(chat, user));
      if user == "" || chat == "" { return INVALID_PARAM; }
      if private { return CONVERSATION_PRIVATE_CANNOT_DELETE; }
      if chat !in groupStore.groups { return GROUP_NOT_FOUND; }
      if groupStore.groups[chat].ownerId != user { return NOT_GROUP_OWNER; }
      if groupStore.groups[chat].status == 1 { return OK; }
      var ok := groupStore.DissolveGroup(chat);
      return if ok then OK else INTERNAL_ERROR;
    }
  }

  /** With messages and queues as the step leaves them, an exact index is the step's index. */
  lemma Settled(w: World, c: Call, w': World)
    requires WorldInv(Step(w, c)) && w'.tables == Step(w, c).tables && w'.msgs == Step(w, c).msgs
        && w'.queued == Step(w, c).queued
    requires w'.index == Index(w'.msgs, w'.queued)
    ensures w' == Step(w, c)
  {
  }

  ghost function Pairing(members: seq<string>, from: string, msgId: string): Queues {
    set u | u in members && u != from :: (u, msgId)
  }

  lemma PairingSnoc(members: seq<string>, n: nat, from: string, msgId: string)
    requires n < |members|
    ensures Pairing(members[..n + 1], from, msgId)
         == Pairing(members[..n], from, msgId) + if members[n] != from then {(members[n], msgId)} else {}
  {
    assert members[..n + 1] == members[..n] + [members[n]];
  }

  /** The first `n` of the listed users have been served. */
  ghost predicate Fanned(before: Queues, ids: seq<string>, n: nat, from: string, msgId: string, queued: Queues) {
    n <= |ids| && queued == before + Pairing(ids[..n], from, msgId)
  }

  lemma FannedNext(before: Queues, ids: seq<string>, n: nat, from: string, msgId: string, queued: Queues)
    requires n < |ids| && Fanned(before, ids, n, from, msgId, queued)
    ensures Fanned(before, ids, n + 1, from, msgId, queued + if ids[n] != from then {(ids[n], msgId)} else {})
  {
    PairingSnoc(ids, n, from, msgId);
  }

  lemma PairingDelivers(t: Tables, queued: Queues, from: string, to: string, msgId: string)
    ensures queued + Pairing(Slice(SortedOf(Rows(t, to)), 0, MAX_RECIPIENTS), from, msgId)
         == Deliver(queued, Recipients(t, from, to, false), msgId)
  {
  }

  lemma RecipientIsMember(t: Tables, to: string, u: string)
    requires Inv(t) && ColonFree(t) && u in Slice(SortedOf(Rows(t, to)), 0, MAX_RECIPIENTS)
    ensures u != "" && NoColon(u)
  {
    SliceMember1000(SortedOf(Rows(t, to)), u);
    RowsMember(t, to, u);
    assert (to, u).1 == u;
  }
}
