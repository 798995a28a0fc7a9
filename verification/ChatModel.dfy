/**
 The chat service over both stores: sending, recalling, reading and dissolving, interleaved
 with every group operation.
 */
module ChatModel {
  import opened OrderedKeys
  import opened MessageKeys
  import opened MessageIndex
  import opened MessageStore
  import MessagePaging
  import opened GroupModel
  import opened GroupStore

  /** `index` holds the timeline and offline keys as the store writes and deletes them; `queued`
      remembers who waits for what. */
  datatype World = World(tables: Tables, msgs: Messages, index: set<string>, queued: Queues)

  const RECALL_TIMEOUT_MS := 120 * 1000
  const MAX_RECIPIENTS := 1000

  // ---------- private conversations ----------

  /** `p_{a}_{b}` with the ids in bytewise order. */
  function PrivateId(a: string, b: string): string {
    if Less(b, a) then "p_" + b + "_" + a else "p_" + a + "_" + b
  }

  lemma PrivateIdSymmetric(a: string, b: string)
    ensures PrivateId(a, b) == PrivateId(b, a)
    ensures a == b || Less(a, b) ==> PrivateId(a, b) == "p_" + a + "_" + b
  {
    LessTotal(a, b);
  }

  /** The two ids in bytewise order. */
  function Ordered(a: string, b: string): (string, string) {
    if Less(b, a) then (b, a) else (a, b)
  }

  lemma OrderedSame(a: string, b: string, c: string, d: string)
    ensures Ordered(a, b) == Ordered(c, d) <==> (a == c && b == d) || (a == d && b == c)
  {
    LessTotal(a, b);
    LessTotal(c, d);
  }

  /** The first pair's text can be cut at another underscore into the second pair. */
  ghost predicate Recuts(p: (string, string), q: (string, string)) {
    exists x: string :: q.0 == p.0 + "_" + x && p.1 == x + "_" + q.1
  }

  function Text(p: (string, string)): string { p.0 + "_" + p.1 }

  lemma SameText(p: (string, string), q: (string, string))
    requires |p.0| <= |q.0|
    ensures Text(p) == Text(q) <==> p == q || Recuts(p, q)
  {
    var n := |p.0|;
    assert Text(p)[..n] == p.0 && Text(p)[n] == '_' && Text(p)[n + 1..] == p.1;
    if Text(p) == Text(q) {
      if n == |q.0| {
        assert Text(q)[..n] == q.0 && Text(q)[n + 1..] == q.1;
      } else {
        var x := q.0[n + 1..];
        assert Text(q)[..n] == q.0[..n] && Text(q)[n] == q.0[n] && Text(q)[n + 1..] == x + "_" + q.1;
        assert q.0 == q.0[..n] + [q.0[n]] + x;
      }
    }
    if Recuts(p, q) {
      var x: string :| q.0 == p.0 + "_" + x && p.1 == x + "_" + q.1;
      assert Text(p) == p.0 + "_" + x + "_" + q.1 == Text(q);
    }
  }

  lemma RecutIsLonger(p: (string, string), q: (string, string))
    ensures Recuts(p, q) ==> |p.0| < |q.0|
  {
  }

  lemma PrivateIdText(a: string, b: string)
    ensures PrivateId(a, b) == "p_" + Text(Ordered(a, b))
  {
  }

  lemma SamePrefix(p: string, x: string, y: string)
    ensures p + x == p + y <==> x == y
  {
    assert (p + x)[|p|..] == x && (p + y)[|p|..] == y;
  }

  /** Two pairs of users share a conversation id if and only if they are the same pair, or one
      pair's text can be cut at another underscore into the other. */
  lemma PrivateIdExact(a: string, b: string, c: string, d: string)
    ensures var p, q := Ordered(a, b), Ordered(c, d);
      PrivateId(a, b) == PrivateId(c, d) <==> p == q || Recuts(p, q) || Recuts(q, p)
  {
    var p, q := Ordered(a, b), Ordered(c, d);
    PrivateIdText(a, b);
    PrivateIdText(c, d);
    SamePrefix("p_", Text(p), Text(q));
    RecutIsLonger(p, q);
    RecutIsLonger(q, p);
    if |p.0| <= |q.0| { SameText(p, q); } else { SameText(q, p); }
  }

  function Underscores(s: string): nat {
    if s == "" then 0 else (if s[0] == '_' then 1 else 0) + Underscores(s[1..])
  }

  lemma {:induction false} UnderscoresOf(a: string, b: string)
    ensures Underscores(a + b) == Underscores(a) + Underscores(b)
  {
    if a == "" {
      assert a + b == b;
    } else {
      assert (a + b)[1..] == a[1..] + b;
      UnderscoresOf(a[1..], b);
    }
  }

  lemma RecutShiftsUnderscores(p: (string, string), q: (string, string))
    requires Recuts(p, q)
    ensures Underscores(q.0) > Underscores(p.0) && Underscores(q.1) < Underscores(p.1)
  {
    var x: string :| q.0 == p.0 + "_" + x && p.1 == x + "_" + q.1;
    UnderscoresOf(p.0 + "_", x);
    UnderscoresOf(p.0, "_");
    UnderscoresOf(x + "_", q.1);
    UnderscoresOf(x, "_");
  }

  /** Whatever id `t` a user addresses, the conversation is that of two given users only if it is
      their own: among users with equally many underscores in their ids, as generated ones are,
      nobody reaches the conversation of two others. */
  lemma PrivateIdIsPrivate(x: string, t: string, a: string, b: string)
    requires Underscores(x) == Underscores(a) == Underscores(b)
    ensures PrivateId(x, t) == PrivateId(a, b) <==> (x == a && t == b) || (x == b && t == a)
  {
    PrivateIdExact(x, t, a, b);
    var p, q := Ordered(x, t), Ordered(a, b);
    if Recuts(p, q) { RecutShiftsUnderscores(p, q); }
    if Recuts(q, p) { RecutShiftsUnderscores(q, p); }
    OrderedSame(x, t, a, b);
  }

  /** Alphanumeric text behind `u_` holds one underscore. */
  lemma {:induction false} GeneratedUnderscores(tail: string)
    requires forall i :: 0 <= i < |tail| ==> tail[i] != '_'
    ensures Underscores(tail) == 0 && Underscores("u_" + tail) == 1
  {
    if tail != "" {
      GeneratedUnderscores(tail[1..]);
    }
    UnderscoresOf("u_", tail);
    assert "u_"[1..] == "_" && "_"[1..] == "";
  }

  lemma LessExtended(a: string, b: string, t: string)
    requires |a| == |b| && Less(a, b)
    ensures Less(a, b + t) && Less(a + t, b)
  {
    LessFixedWidth(a, b, "", t);
    LessFixedWidth(a, b, t, "");
    assert a + "" == a && b + "" == b;
  }

  lemma OrderedLess(a: string, b: string)
    requires Less(a, b)
    ensures Ordered(a, b) == (a, b) == Ordered(b, a)
  {
    LessTotal(a, b);
  }

  lemma RecutCollides(x: string, y: string, z: string)
    requires Less(x, y + "_" + z) && Less(x + "_" + y, z)
    ensures PrivateId(x, y + "_" + z) == PrivateId(z, x + "_" + y)
  {
    OrderedLess(x, y + "_" + z);
    OrderedLess(x + "_" + y, z);
    assert Recuts((x, y + "_" + z), (x + "_" + y, z));
    PrivateIdExact(x, y + "_" + z, z, x + "_" + y);
  }

  /** Two conversations with made-up recipients do collide: of three users in order, the first
      writing to the other two ids joined, and the last writing to the first two joined. */
  lemma PrivateIdCollision(x: string, y: string, z: string)
    requires |x| == |y| == |z| && Less(x, y) && Less(y, z)
    ensures PrivateId(x, y + "_" + z) == PrivateId(z, x + "_" + y) && x != z
  {
    LessTransitive(x, y, z);
    LessTotal(x, z);
    LessExtended(x, y, "_" + z);
    LessExtended(x, z, "_" + y);
    assert y + ("_" + z) == y + "_" + z && x + ("_" + y) == x + "_" + y;
    RecutCollides(x, y, z);
  }

  /** Any three generated ids will do. */
  lemma GeneratedCollision(a: string, b: string, c: string)
    requires |a| == |b| == |c| == 12 && Less(a, b) && Less(b, c)
    ensures PrivateId("u_" + a, ("u_" + b) + "_" + ("u_" + c)) == PrivateId("u_" + c, ("u_" + a) + "_" + ("u_" + b))
  {
    LessCommonPrefix("u_", a, b);
    LessCommonPrefix("u_", b, c);
    PrivateIdCollision("u_" + a, "u_" + b, "u_" + c);
  }

  // ---------- calls ----------

  datatype Call =
    | Group(op: Op)
    | Send(from: string, to: string, private: bool, content: string, msgId: string, now: int)
    | Recall(msgId: string, user: string, now: int)
    | MarkRead(user: string, chat: string, lastMsgId: string)

  function ConversationOf(from: string, to: string, private: bool): string {
    if private then PrivateId(from, to) else to
  }

  function NewMessage(c: Call): MessageData
    requires c.Send?
  {
    MessageData(c.msgId, c.from, c.to, ConversationOf(c.from, c.to, c.private),
                if c.private then 1 else 2, c.content, c.now, 0, 0)
  }

  /** The call gets past its checks and its message is stored. */
  ghost predicate Sends(w: World, c: Call)
    requires c.Send?
  {
    && c.from != "" && c.to != ""
    && (c.private || IsMember(w.tables, c.to, c.from))
    && c.msgId != "" && c.msgId !in w.msgs
  }

  /** The peer, or the first thousand members in id order other than the sender. */
  ghost function Recipients(t: Tables, from: string, to: string, private: bool): set<string> {
    if private then {to}
    else set u | u in Slice(SortedOf(Rows(t, to)), 0, MAX_RECIPIENTS) && u != from
  }

  ghost function Deliver(queued: Queues, users: set<string>, msgId: string): Queues {
    queued + set u | u in users :: (u, msgId)
  }

  ghost function OfflineKeysFor(users: set<string>, m: MessageData): set<string> {
    set u | u in users :: KeyOffline(u, m.timestamp, m.msgId)
  }

  ghost predicate MayRecall(w: World, c: Call)
    requires c.Recall?
  {
    && c.msgId != "" && c.user != "" && c.msgId in w.msgs && w.msgs[c.msgId].fromUserId == c.user
    && c.now - w.msgs[c.msgId].timestamp <= RECALL_TIMEOUT_MS
  }

  ghost function Step(w: World, c: Call): World {
    match c
    case Group(op) => w.(tables := Apply(w.tables, op).0)
    case Send(from, to, private, _, msgId, _) =>
      if !Sends(w, c) then w
      else
        var users := Recipients(w.tables, from, to, private);
        w.(msgs := w.msgs[msgId := NewMessage(c)], queued := Deliver(w.queued, users, msgId),
           index := w.index + {ChatKey(NewMessage(c))} + OfflineKeysFor(users, NewMessage(c)))
    case Recall(msgId, user, now) =>
      if !MayRecall(w, c) then w
      else w.(msgs := w.msgs[msgId := w.msgs[msgId].(status := 1, recallAt := now)])
    case MarkRead(user, chat, last) =>
      if user == "" || chat == "" || last == "" || last !in w.msgs then w
      else
        var gone := Cleared(w.msgs, w.queued, user, last);
        w.(queued := w.queued - gone, index := w.index - OfflineKeys(w.msgs, gone))
  }

  // ---------- invariants ----------

  ghost predicate CallColonFree(c: Call) {
    match c
    case Group(op) => OpColonFree(op)
    case Send(from, to, _, _, _, _) => NoColon(from) && NoColon(to)
    case Recall(_, _, _) => true
    case MarkRead(user, _, _) => NoColon(user)
  }

  /** Groups are mirrored and owned, and the index holds exactly one timeline key per stored
      message and one offline key per waiting pair. */
  ghost predicate WorldInv(w: World) {
    Inv(w.tables) && ColonFree(w.tables) && Good(w.msgs, w.queued) && w.index == Index(w.msgs, w.queued)
  }

  lemma PrivateIdNoColon(a: string, b: string)
    requires NoColon(a) && NoColon(b)
    ensures NoColon(PrivateId(a, b)) && PrivateId(a, b) != "" && PrivateId(a, b)[0] == 'p'
  {
  }

  lemma DeliverIndex(msgs: Messages, queued: Queues, users: set<string>, msgId: string)
    requires msgId in msgs && msgs[msgId].msgId == msgId
    ensures Index(msgs, Deliver(queued, users, msgId)) == Index(msgs, queued) + OfflineKeysFor(users, msgs[msgId])
  {
    var more := Deliver(queued, users, msgId);
    forall k ensures k in OfflineKeys(msgs, more)
        <==> k in OfflineKeys(msgs, queued) || k in OfflineKeysFor(users, msgs[msgId]) {
      if k in OfflineKeysFor(users, msgs[msgId]) {
        var u :| u in users && k == KeyOffline(u, msgs[msgId].timestamp, msgId);
        assert (u, msgId) in more;
      }
    }
  }

  lemma ReadKeepsInv(w: World, c: Call)
    requires WorldInv(w) && c.MarkRead? && CallColonFree(c)
    ensures WorldInv(Step(w, c))
  {
    var gone := Cleared(w.msgs, w.queued, c.user, c.lastMsgId);
    var batch := set p | p in gone && p.1 in w.msgs :: EntryAt(w.msgs, PrefixOffline(c.user), p.1);
    assert batch == OfflineKeys(w.msgs, gone);
    ClearIndex(w.msgs, w.queued, c.user, gone, batch);
  }

  lemma SendKeepsInv(w: World, c: Call)
    requires WorldInv(w) && c.Send? && CallColonFree(c) && Sends(w, c)
    ensures WorldInv(Step(w, c))
  {
    PrivateIdNoColon(c.from, c.to);
    var w' := Step(w, c);
    SaveIndex(w.msgs, w.queued, NewMessage(c));
    DeliverIndex(w'.msgs, w.queued, Recipients(w.tables, c.from, c.to, c.private), c.msgId);
    forall u | u in Recipients(w.tables, c.from, c.to, c.private) ensures u != "" && NoColon(u) {
      if !c.private {
        SliceMember1000(SortedOf(Rows(w.tables, c.to)), u);
        RowsMember(w.tables, c.to, u);
        assert (c.to, u).1 == u;
      }
    }
  }

  lemma SliceMember1000(all: seq<string>, u: string)
    requires u in Slice(all, 0, MAX_RECIPIENTS)
    ensures u in all
  {
  }

  lemma StepKeepsWorld(w: World, c: Call)
    requires WorldInv(w) && CallColonFree(c)
    ensures WorldInv(Step(w, c))
  {
    match c
    case Group(op) =>
      StepKeepsInv(w.tables, op);
      StepKeepsColonFree(w.tables, op);
    case Send(_, _, _, _, _, _) => if Sends(w, c) { SendKeepsInv(w, c); }
    case Recall(msgId, user, now) => if MayRecall(w, c) { RecallIndex(w.msgs, w.queued, msgId, now); }
    case MarkRead(_, _, _) => ReadKeepsInv(w, c);
  }

  ghost function Run(w: World, calls: seq<Call>): World
    decreases |calls|
  {
    if calls == [] then w else Run(Step(w, calls[0]), calls[1..])
  }

  const START := World(GroupModel.EMPTY, map[], {}, {})

  /** Over every run of group and chat calls, groups stay mirrored and owned, every message has
      exactly its own timeline key, and every offline key stands for a waiting pair. */
  lemma {:induction false} RunKeepsWorld(w: World, calls: seq<Call>)
    requires WorldInv(w) && forall c :: c in calls ==> CallColonFree(c)
    ensures WorldInv(Run(w, calls))
    decreases |calls|
  {
    if calls != [] {
      assert calls[0] in calls;
      StepKeepsWorld(w, calls[0]);
      RunKeepsWorld(Step(w, calls[0]), calls[1..]);
    }
  }

  lemma EveryRunFromStart(calls: seq<Call>)
    requires forall c :: c in calls ==> CallColonFree(c)
    ensures WorldInv(Run(START, calls))
  {
    RunKeepsWorld(START, calls);
  }

  // ---------- dissolved groups ----------

  /** No live row and no members. */
  ghost predicate Dead(t: Tables, g: string) {
    (g in t.groups ==> t.groups[g].status == 1) && forall u :: (g, u) !in t.members
  }

  predicate Dissolved(t: Tables, g: string) {
    g in t.groups && t.groups[g].status == 1
  }

  ghost predicate Reissues(c: Call, g: string) {
    c.Group? && c.op.Create? && c.op.g == g
  }

  /** Group ids are generated with the prefix `g_`, private conversations with `p_`. */
  ghost predicate GroupId(g: string) {
    g != "" && g[0] == 'g'
  }

  lemma {:induction false} AddAllElsewhere(t: Tables, h: string, ids: seq<string>, now: int, g: string)
    requires h != g && Dead(t, g)
    ensures Dead(AddAll(t, h, ids, now), g)
    decreases |ids|
  {
    if ids != [] {
      AddAllElsewhere(AddMember(t, h, Member(ids[0], ROLE_MEMBER, "", now)), h, ids[1..], now, g);
    }
  }

  lemma JoiningElsewhere(t: Tables, op: Op, g: string)
    requires Dead(t, g) && ((op.Create? && op.g != g) || op.Invite?)
    ensures Dead(Apply(t, op).0, g)
  {
    if op.Create? {
      CreatingElsewhere(t, op, g);
    } else if op.g != g {
      AddAllElsewhere(t, op.g, op.ids, op.now, g);
    }
  }

  lemma CreatingElsewhere(t: Tables, op: Op, g: string)
    requires Dead(t, g) && op.Create? && op.g != g
    ensures Dead(CreateGroup(t, op).0, g)
  {
    if CreateGroup(t, op).1 == OK {
      var unique := Founders(op.creator, op.ids);
      AddAllElsewhere(Founded(t, op, |unique|), op.g, SortedOf(unique - {op.creator}), op.now, g);
    }
  }

  /** No group operation revives a dead group, short of creating one under its id. */
  lemma DeadStaysDead(t: Tables, op: Op, g: string)
    requires Dead(t, g) && !(op.Create? && op.g == g)
    ensures Dead(Apply(t, op).0, g)
  {
    if op.Create? || op.Invite? { JoiningElsewhere(t, op, g); }
  }

  lemma SendsElsewhere(w: World, c: Call, g: string)
    requires c.Send? && CallColonFree(c) && Dead(w.tables, g) && GroupId(g)
    ensures InTimeline(Step(w, c).msgs, g) == InTimeline(w.msgs, g)
  {
    if Sends(w, c) {
      PrivateIdNoColon(c.from, c.to);
      assert Timeline(NewMessage(c)) != g;
    }
  }

  lemma RecallsInPlace(w: World, c: Call, g: string)
    requires c.Recall?
    ensures InTimeline(Step(w, c).msgs, g) == InTimeline(w.msgs, g)
  {
  }

  /** A call leaves a dead group dead and its timeline exactly as it was. */
  lemma DeadStep(w: World, c: Call, g: string)
    requires WorldInv(w) && CallColonFree(c) && Dead(w.tables, g) && GroupId(g) && !Reissues(c, g)
    ensures Dead(Step(w, c).tables, g)
    ensures InTimeline(Step(w, c).msgs, g) == InTimeline(w.msgs, g)
  {
    match c
    case Group(op) => DeadStaysDead(w.tables, op, g);
    case Send(_, _, _, _, _, _) => SendsElsewhere(w, c, g);
    case Recall(_, _, _) => RecallsInPlace(w, c, g);
    case MarkRead(_, _, _) =>
  }

  /** Once a group is dissolved it never regains a member or a live row and its timeline never
      grows again, as long as its id is not issued a second time. */
  lemma {:induction false} DissolvedForever(w: World, calls: seq<Call>, g: string)
    requires WorldInv(w) && Dead(w.tables, g) && GroupId(g)
    requires forall c :: c in calls ==> CallColonFree(c) && !Reissues(c, g)
    ensures Dead(Run(w, calls).tables, g)
    ensures InTimeline(Run(w, calls).msgs, g) == InTimeline(w.msgs, g)
    decreases |calls|
  {
    if calls != [] {
      assert calls[0] in calls;
      DeadStep(w, calls[0], g);
      StepKeepsWorld(w, calls[0]);
      DissolvedForever(Step(w, calls[0]), calls[1..], g);
    }
  }

  /** `DeleteConversation` by the owner makes a group dead, and every later send to it fails. */
  lemma DissolvingKills(w: World, g: string, owner: string, c: Call)
    requires WorldInv(w) && g in w.tables.groups && owner != "" && w.tables.groups[g].ownerId == owner
    requires c.Send? && !c.private && c.to == g
    ensures var w' := Step(w, Group(Dissolve(g, owner)));
      Dead(w'.tables, g) && !Sends(w', c)
  {
    StepKeepsInv(w.tables, Dissolve(g, owner));
    assert OwnerIn(Apply(w.tables, Dissolve(g, owner)).0, g);
  }

  /** The tombstone of a dissolved group blocks its id, and only its owner's `DismissGroup`
      takes the tombstone away. */
  lemma TombstoneExact(t: Tables, op: Op, g: string)
    requires Inv(t) && g in t.groups && t.groups[g].status == 1
    ensures var (t', e) := Apply(t, op);
      && (g in t'.groups <==> !(op.Dismiss? && op.g == g && op.user != "" && op.user == t.groups[g].ownerId))
      && (g in t'.groups ==> t'.groups[g].status == 1)
      && (op.Create? && op.g == g ==> e != OK)
  {
    match op
    case Create(_, _, _, _, _, _) => CreateLeavesTombstone(t, op, g);
    case Invite(_, _, _, _) => AddAllKeepsRow(t, op.g, op.ids, op.now, g);
    case Dismiss(_, _) =>
    case Update(_, _, _, _, _, _) =>
    case Kick(_, _, _) =>
    case Leave(_, _) =>
    case Transfer(_, _, _) =>
    case SetRole(_, _, _, _) =>
    case Dissolve(_, _) =>
  }

  lemma CreateLeavesTombstone(t: Tables, op: Op, g: string)
    requires Inv(t) && op.Create? && g in t.groups && t.groups[g].status == 1
    ensures var (t', e) := Apply(t, op);
      g in t'.groups && t'.groups[g].status == 1 && (op.g == g ==> e != OK)
  {
    if CreateGroup(t, op).1 == OK {
      var unique := Founders(op.creator, op.ids);
      AddAllKeepsRow(Founded(t, op, |unique|), op.g, SortedOf(unique - {op.creator}), op.now, g);
    } else {
      assert (op.g, op.creator) in t.members ==> (op.g, op.creator).0 in t.groups;
    }
  }

  lemma {:induction false} AddAllKeepsRow(t: Tables, h: string, ids: seq<string>, now: int, g: string)
    requires g in t.groups && t.groups[g].status == 1
    ensures var t' := AddAll(t, h, ids, now); g in t'.groups && t'.groups[g].status == 1
    decreases |ids|
  {
    if ids != [] {
      AddAllKeepsRow(AddMember(t, h, Member(ids[0], ROLE_MEMBER, "", now)), h, ids[1..], now, g);
    }
  }

  // ---------- delivery ----------

  /** A send goes through exactly when both ids are given, the sender is a member of a group it is
      addressed to, and the message id is new; otherwise nothing changes. */
  lemma SendExact(w: World, c: Call)
    requires WorldInv(w) && c.Send? && CallColonFree(c)
    ensures
      var accepted := c.from != "" && c.to != "" && (c.private || (c.to, c.from) in w.tables.members)
                      && c.msgId != "" && c.msgId !in w.msgs;
      && (Sends(w, c) <==> accepted)
      && (if accepted then c.msgId in Step(w, c).msgs else Step(w, c) == w)
  {
  }

  /** A message that was sent is stored as sent, under its own id, and is in the timeline of the
      group, or of the private conversation of the two. */
  lemma SentIsFiled(w: World, c: Call)
    requires WorldInv(w) && c.Send? && CallColonFree(c) && Sends(w, c)
    ensures
      var msgs := Step(w, c).msgs;
      && msgs.Keys == w.msgs.Keys + {c.msgId} && (forall id :: id in w.msgs ==> msgs[id] == w.msgs[id])
      && c.msgId in InTimeline(msgs, if c.private then PrivateId(c.to, c.from) else c.to)
      && msgs[c.msgId].msgId == c.msgId && msgs[c.msgId].fromUserId == c.from && msgs[c.msgId].toId == c.to
      && msgs[c.msgId].content == c.content && msgs[c.msgId].timestamp == c.now
      && msgs[c.msgId].status == 0 && msgs[c.msgId].recallAt == 0
      && msgs[c.msgId].chatType == if c.private then 1 else 2
  {
    PrivateIdSymmetric(c.from, c.to);
    PrivateIdNoColon(c.from, c.to);
  }

  /** What `GetHistory` answers a user who opens a chat. */
  ghost function ChatHistory(w: World, user: string, chat: string, private: bool, before: string, limit: int)
      : seq<MessageData>
    requires Keyed(w.msgs)
  {
    if chat == "" || (private && user == "") || (!private && Dissolved(w.tables, chat)) then []
    else History(w.msgs, if private then PrivateId(user, chat) else chat, before, limit)
  }

  /** The sender and the recipient of a private message find it when they open the chat with each
      other, and so does everyone who opens the group it was sent to. */
  lemma SentIsRead(w: World, c: Call, reader: string, limit: int)
    requires WorldInv(w) && c.Send? && CallColonFree(c) && Sends(w, c)
    requires limit >= |InTimeline(Step(w, c).msgs, if c.private then PrivateId(c.to, c.from) else c.to)|
    ensures
      var w' := Step(w, c);
      && Keyed(w'.msgs) && c.msgId in w'.msgs
      && (c.private ==>
            && w'.msgs[c.msgId] in ChatHistory(w', c.to, c.from, true, "", limit)
            && w'.msgs[c.msgId] in ChatHistory(w', c.from, c.to, true, "", limit))
      && (!c.private ==> w'.msgs[c.msgId] in ChatHistory(w', reader, c.to, false, "", limit))
  {
    StepKeepsWorld(w, c);
    SentIsFiled(w, c);
    PrivateIdSymmetric(c.from, c.to);
    PrivateIdNoColon(c.to, c.from);
    var conversation := if c.private then PrivateId(c.to, c.from) else c.to;
    MessagePaging.HistoryShowsAll(Step(w, c).msgs, conversation, limit, c.msgId);
    if !c.private { SenderKeepsAlive(w, c); }
  }

  lemma SenderKeepsAlive(w: World, c: Call)
    requires WorldInv(w) && c.Send? && Sends(w, c) && !c.private
    ensures !Dissolved(w.tables, c.to)
  {
    if c.to in w.tables.groups { assert OwnerIn(w.tables, c.to); }
  }

  /** A message that is sent waits for exactly its recipients and nothing else changes in the queues. */
  lemma SendQueuesRecipients(w: World, c: Call, u: string, id: string)
    requires WorldInv(w) && c.Send? && Sends(w, c)
    ensures (u, id) in Step(w, c).queued
       <==> (u, id) in w.queued || (id == c.msgId && u in Recipients(w.tables, c.from, c.to, c.private))
    ensures (u, c.msgId) !in w.queued
  {
  }

  /** The recipient of a private message is the peer; of a group message, each member but the
      sender who is among the first thousand in id order. */
  lemma RecipientsExact(t: Tables, from: string, to: string, u: string)
    ensures u in Recipients(t, from, to, true) <==> u == to
    ensures
      u in Recipients(t, from, to, false) <==> u != from && u in FirstItems(SortedOf(Rows(t, to)), 1000)
    ensures u in Recipients(t, from, to, false) ==> (to, u) in t.members
  {
    FirstPage(SortedOf(Rows(t, to)), 0, 1000);
    FirstItemsWithin(SortedOf(Rows(t, to)), 1000, u);
    RowsMember(t, to, u);
  }

  /** Every other member of a group is a recipient if and only if the group has at most a
      thousand members, or one more who is the sender and comes last in id order. */
  lemma AllMembersReachedExact(t: Tables, from: string, to: string)
    ensures var all := SortedOf(Rows(t, to));
      (forall u :: u in Rows(t, to) && u != from ==> u in Recipients(t, from, to, false))
      <==> |all| <= MAX_RECIPIENTS || (|all| == MAX_RECIPIENTS + 1 && all[MAX_RECIPIENTS] == from)
  {
    var all := SortedOf(Rows(t, to));
    var page := Slice(all, 0, MAX_RECIPIENTS);
    PageReach(all, page, from);
    forall u ensures u in Rows(t, to) && u != from ==> (u in Recipients(t, from, to, false) <==> u in page) {}
  }

  lemma PageReach(all: seq<string>, page: seq<string>, from: string)
    requires StrictlySorted(all) && page == Slice(all, 0, MAX_RECIPIENTS)
    ensures (forall u :: u in all && u != from ==> u in page)
       <==> |all| <= MAX_RECIPIENTS || (|all| == MAX_RECIPIENTS + 1 && all[MAX_RECIPIENTS] == from)
  {
    if |all| <= MAX_RECIPIENTS {
      assert page == all;
    } else {
      assert page == all[..MAX_RECIPIENTS];
      BeyondPage(all, MAX_RECIPIENTS, MAX_RECIPIENTS);
      assert all[MAX_RECIPIENTS] in all;
      if |all| > MAX_RECIPIENTS + 1 {
        BeyondPage(all, MAX_RECIPIENTS, MAX_RECIPIENTS + 1);
        assert all[MAX_RECIPIENTS + 1] in all;
        LessTotal(all[MAX_RECIPIENTS], all[MAX_RECIPIENTS]);
        assert Less(all[MAX_RECIPIENTS], all[MAX_RECIPIENTS + 1]);
      } else {
        assert all == page + [all[MAX_RECIPIENTS]];
      }
    }
  }

  lemma BeyondPage(all: seq<string>, size: nat, i: nat)
    requires StrictlySorted(all) && size <= i < |all|
    ensures all[i] !in all[..size]
  {
    LessTotal(all[i], all[i]);
  }

  /** A message is recalled exactly by its sender within two minutes; recalling changes its status
      and recall time and nothing else. */
  lemma RecallChangesLittle(w: World, c: Call, id: string)
    requires WorldInv(w) && c.Recall? && id in w.msgs
    ensures
      var w', m := Step(w, c), w.msgs[id];
      var recalled := id == c.msgId && c.user != "" && c.user == m.fromUserId && c.now - m.timestamp <= 120000;
      && (recalled <==> id == c.msgId && MayRecall(w, c))
      && w'.msgs.Keys == w.msgs.Keys && w'.queued == w.queued && w'.tables == w.tables && w'.index == w.index
      && w'.msgs[id] == if recalled then m.(status := 1, recallAt := c.now) else m
  {
  }

  // ---------- reading ----------

  /** Marking a chat as read takes from the queues exactly the user's own entries not newer than the
      last message read, in whatever conversation: the chat named plays no part. */
  lemma ReadClearsExact(w: World, c: Call, u: string, id: string)
    requires WorldInv(w) && c.MarkRead? && c.user != "" && c.chat != "" && c.lastMsgId in w.msgs
    requires (u, id) in w.queued
    ensures id in w.msgs
    ensures (u, id) !in Step(w, c).queued
       <==> u == c.user && FiledAt(w.msgs[id].timestamp) <= w.msgs[c.lastMsgId].timestamp
  {
    assert (u, id).1 in w.msgs;
  }

  lemma RunOfThree(w: World, first: Call, second: Call, third: Call)
    ensures Run(w, [first, second, third]) == Step(Step(Step(w, first), second), third)
  {
    var calls := [first, second, third];
    assert calls[1..] == [second, third] && calls[1..][1..] == [third] && calls[1..][1..][1..] == [];
    assert Run(w, calls) == Run(Step(w, first), [second, third]);
    assert Run(Step(w, first), [second, third]) == Run(Step(Step(w, first), second), [third]);
  }

  lemma OlderIsCleared(w: World, c: Call, m: string)
    requires WorldInv(w) && c.MarkRead? && c.user != "" && c.chat != "" && c.lastMsgId in w.msgs
    requires (c.user, m) in w.queued && m in w.msgs && 0 < w.msgs[m].timestamp < w.msgs[c.lastMsgId].timestamp <= MAX_TS
    ensures (c.user, m) !in Step(w, c).queued
  {
    ReadClearsExact(w, c, c.user, m);
  }

  lemma PrivateArrives(w: World, c: Call)
    requires c.Send? && c.private && c.from != "" && c.to != "" && c.msgId != "" && c.msgId !in w.msgs
    ensures var w' := Step(w, c);
      && w'.msgs == w.msgs[c.msgId := NewMessage(c)] && w'.queued == w.queued + {(c.to, c.msgId)}
  {
    assert Deliver(w.queued, {c.to}, c.msgId) == w.queued + {(c.to, c.msgId)};
  }

  /** `y` writes to `z`, then `x` does; `z` reads the chat with `x`, and the message of `y`, never
      read, leaves the queue. */
  lemma OtherChatCleared(x: string, y: string, z: string, m: string, n: string)
    requires x != "" && y != "" && z != "" && m != "" && n != "" && m != n
    requires NoColon(x) && NoColon(y) && NoColon(z)
    ensures
      var first, second := Send(y, z, true, "", m, 1), Send(x, z, true, "", n, 2);
      && (z, m) in Step(Step(START, first), second).queued
      && (z, m) !in Run(START, [first, second, MarkRead(z, x, n)]).queued
  {
    var first, second := Send(y, z, true, "", m, 1), Send(x, z, true, "", n, 2);
    BothArrive(x, y, z, m, n);
    OlderIsCleared(Step(Step(START, first), second), MarkRead(z, x, n), m);
    RunOfThree(START, first, second, MarkRead(z, x, n));
  }

  lemma BothArrive(x: string, y: string, z: string, m: string, n: string)
    requires x != "" && y != "" && z != "" && m != "" && n != "" && m != n
    requires NoColon(x) && NoColon(y) && NoColon(z)
    ensures
      var w := Step(Step(START, Send(y, z, true, "", m, 1)), Send(x, z, true, "", n, 2));
      && WorldInv(w) && m in w.msgs && n in w.msgs && (z, m) in w.queued
      && w.msgs[m].timestamp == 1 && w.msgs[n].timestamp == 2
  {
    var first, second := Send(y, z, true, "", m, 1), Send(x, z, true, "", n, 2);
    StepKeepsWorld(START, first);
    PrivateArrives(START, first);
    StepKeepsWorld(Step(START, first), second);
    PrivateArrives(Step(START, first), second);
  }

  // ---------- invitations and sends in two steps ----------

  /** The second half of an invitation: its member test ran before, and other calls since.  It
      keeps what runs keep if and only if the group was not dissolved in between, or there is
      nobody to add. */
  lemma LateInviteExact(s: Tables, invite: Op, ops: seq<Op>)
    requires Inv(s) && invite.Invite? && IsMember(s, invite.g, invite.user)
    ensures
      var t := GroupModel.Run(s, ops);
      Inv(AddAll(t, invite.g, invite.ids, invite.now))
      <==> (Dissolved(t, invite.g) ==> forall u :: u in invite.ids ==> u == "")
  {
    var t := GroupModel.Run(s, ops);
    GroupModel.RunKeepsInv(s, ops);
    if invite.g !in t.groups {
      AddAllNowhere(t, invite.g, invite.ids, invite.now);
    } else if t.groups[invite.g].status != 1 {
      AddAllKeeps(t, invite.g, invite.ids, invite.now);
    } else {
      LateIntoDissolved(t, invite.g, invite.ids, invite.now);
    }
  }

  lemma {:induction false} AddAllNowhere(t: Tables, g: string, ids: seq<string>, now: int)
    requires g !in t.groups || forall u :: u in ids ==> u == ""
    ensures AddAll(t, g, ids, now) == t
    decreases |ids|
  {
    if ids != [] {
      assert ids[0] in ids && forall u :: u in ids[1..] ==> u in ids;
      AddAllNowhere(t, g, ids[1..], now);
    }
  }

  lemma LateIntoDissolved(t: Tables, g: string, ids: seq<string>, now: int)
    requires Inv(t) && Dissolved(t, g)
    ensures Inv(AddAll(t, g, ids, now)) <==> forall u :: u in ids ==> u == ""
  {
    if u :| u in ids && u != "" {
      AddAllMembers(t, g, ids, now, (g, u));
      AddAllKeepsRow(t, g, ids, now, g);
      assert !OwnerIn(AddAll(t, g, ids, now), g);
    } else {
      AddAllNowhere(t, g, ids, now);
    }
  }

  /** The second half of a send, behind its member test. */
  ghost function LateSend(w: World, c: Call): World
    requires c.Send?
  {
    if c.msgId == "" || c.msgId in w.msgs then w
    else
      var users := Recipients(w.tables, c.from, c.to, c.private);
      w.(msgs := w.msgs[c.msgId := NewMessage(c)], queued := Deliver(w.queued, users, c.msgId),
         index := w.index + {ChatKey(NewMessage(c))} + OfflineKeysFor(users, NewMessage(c)))
  }

  lemma PromptSend(w: World, c: Call)
    requires c.Send? && c.from != "" && c.to != "" && (c.private || IsMember(w.tables, c.to, c.from))
    ensures LateSend(w, c) == Step(w, c)
  {
  }

  /** A send finished after the group was dissolved lengthens the dead timeline if and only if it
      is addressed to that group and its id is new; it then waits for nobody. */
  lemma LateSendExact(w: World, c: Call, g: string)
    requires WorldInv(w) && c.Send? && CallColonFree(c) && Dead(w.tables, g) && GroupId(g)
    ensures InTimeline(LateSend(w, c).msgs, g) != InTimeline(w.msgs, g)
       <==> !c.private && c.to == g && c.msgId != "" && c.msgId !in w.msgs
    ensures !c.private && c.to == g ==> LateSend(w, c).queued == w.queued
  {
    PrivateIdNoColon(c.from, c.to);
    if c.msgId != "" && c.msgId !in w.msgs && !c.private && c.to == g {
      assert Timeline(NewMessage(c)) == g;
      assert c.msgId in InTimeline(LateSend(w, c).msgs, g) && c.msgId !in InTimeline(w.msgs, g);
    }
    if !c.private && c.to == g {
      forall u ensures u !in Recipients(w.tables, c.from, g, false) {
        SliceWithin(SortedOf(Rows(w.tables, g)), 0, MAX_RECIPIENTS, u);
        RowsMember(w.tables, g, u);
      }
      assert Deliver(w.queued, Recipients(w.tables, c.from, g, false), c.msgId) == w.queued;
    }
  }

  /** A group is founded, its owner's invitation passes the member test, the owner dissolves the
      group, and the invitation finishes: the dissolved group has a member. */
  lemma InvitedAfterDissolution(g: string, a: string, b: string, c: string, u: string)
    requires g != "" && a != "" && b != "" && c != "" && a != b && b != c && a != c && u != ""
    ensures
      var s := Apply(GroupModel.EMPTY, Create(g, a, "", "", [b, c], 0)).0;
      var t := Apply(s, Dissolve(g, a)).0;
      IsMember(s, g, a) && Dissolved(t, g) && (g, u) in AddAll(t, g, [u], 0).members
  {
    var create := Create(g, a, "", "", [b, c], 0);
    ThreeFounders(a, b, c);
    CreatedGroup(GroupModel.EMPTY, create);
    var s := Apply(GroupModel.EMPTY, create).0;
    ClosedTwice(s, g, a);
    AddAllMembers(Apply(s, Dissolve(g, a)).0, g, [u], 0, (g, u));
  }
}
