/**
 What the message store's key space means: `msg:` rows are the messages, and the
 `chat:` and `offline:` keys list message ids per conversation and per user.  The two
 scan theorems say that a prefix scan of the raw keys is the newest-first listing.
 */
module MessageIndex {
  import opened OrderedKeys
  import opened MessageKeys

  datatype MessageData = MessageData(
    msgId: string, fromUserId: string, toId: string, conversationId: string,
    chatType: int, content: string, timestamp: int, status: int, recallAt: int)

  type Messages = map<string, MessageData>

  /** (user id, message id) pairs waiting in offline queues. */
  type Queues = set<(string, string)>

  function Timeline(m: MessageData): string {
    if m.conversationId == "" then m.toId else m.conversationId
  }

  // ---------- what the rows mean ----------

  ghost predicate Keyed(msgs: Messages) {
    forall id :: id in msgs ==> id != "" && msgs[id].msgId == id && NoColon(Timeline(msgs[id]))
  }

  ghost predicate Good(msgs: Messages, queued: Queues) {
    && Keyed(msgs)
    && forall p :: p in queued ==> p.1 in msgs && p.0 != "" && NoColon(p.0)
  }

  ghost function ChatKey(m: MessageData): string {
    KeyChat(Timeline(m), m.timestamp, m.msgId)
  }

  ghost function ChatKeys(msgs: Messages): set<string> {
    set id | id in msgs :: ChatKey(msgs[id])
  }

  ghost function OfflineKeys(msgs: Messages, queued: Queues): set<string> {
    set p | p in queued && p.1 in msgs :: KeyOffline(p.0, msgs[p.1].timestamp, p.1)
  }

  /** Exactly one timeline entry per message and one offline entry per waiting pair. */
  ghost function Index(msgs: Messages, queued: Queues): set<string> {
    ChatKeys(msgs) + OfflineKeys(msgs, queued)
  }

  function MsgKeys(msgs: Messages): set<string> {
    set id | id in msgs :: KeyMsg(id)
  }

  ghost function InTimeline(msgs: Messages, conversation: string): set<string> {
    set id | id in msgs && Timeline(msgs[id]) == conversation
  }

  ghost function QueuedFor(queued: Queues, user: string): set<string> {
    set p | p in queued && p.0 == user :: p.1
  }

  // ---------- newest-first listings ----------

  ghost predicate Newer(a: MessageData, b: MessageData) {
    FiledAt(a.timestamp) > FiledAt(b.timestamp)
    || (FiledAt(a.timestamp) == FiledAt(b.timestamp) && Less(a.msgId, b.msgId))
  }

  ghost predicate IsNewestFirst(msgs: Messages, ids: set<string>, q: seq<string>)
    requires ids <= msgs.Keys
  {
    && (forall id :: id in q <==> id in ids)
    && (forall i, j :: 0 <= i < j < |q| ==> Newer(msgs[q[i]], msgs[q[j]]))
  }

  ghost function EntryAt(msgs: Messages, prefix: string, id: string): string
    requires id in msgs
  {
    Entry(prefix, msgs[id].timestamp, id)
  }

  ghost function Entries(msgs: Messages, ids: set<string>, prefix: string): set<string>
    requires ids <= msgs.Keys
  {
    set id | id in ids :: EntryAt(msgs, prefix, id)
  }

  ghost function EntrySeq(msgs: Messages, q: seq<string>, prefix: string): (es: seq<string>)
    requires forall id :: id in q ==> id in msgs
    ensures |es| == |q| && forall i :: 0 <= i < |q| ==> es[i] == EntryAt(msgs, prefix, q[i])
  {
    seq(|q|, i requires 0 <= i < |q| => assert q[i] in q; EntryAt(msgs, prefix, q[i]))
  }

  /** A newest-first listing is what a scan over its entry keys visits. */
  lemma EntriesSorted(msgs: Messages, ids: set<string>, prefix: string, q: seq<string>)
    requires Keyed(msgs) && ids <= msgs.Keys && IsNewestFirst(msgs, ids, q)
    ensures SortedOf(Entries(msgs, ids, prefix)) == EntrySeq(msgs, q, prefix)
  {
    var es := EntrySeq(msgs, q, prefix);
    assert StrictlySorted(es) by {
      forall i, j | 0 <= i < j < |es| ensures Less(es[i], es[j]) {
        assert Newer(msgs[q[i]], msgs[q[j]]);
        EntryOrder(prefix, msgs[q[i]].timestamp, q[i], msgs[q[j]].timestamp, q[j]);
      }
    }
    forall k ensures k in es <==> k in Entries(msgs, ids, prefix) {
      if k in es {
        var i :| 0 <= i < |es| && es[i] == k;
        assert q[i] in ids;
      }
      if k in Entries(msgs, ids, prefix) {
        var id :| id in ids && EntryAt(msgs, prefix, id) == k;
        assert id in q;
        var i :| 0 <= i < |q| && q[i] == id;
        assert es[i] == k;
      }
    }
    SortedUnique(es, SortedOf(Entries(msgs, ids, prefix)));
  }

  /** Message ids from newest to oldest, ties broken by id. */
  ghost function NewestFirst(msgs: Messages, ids: set<string>): (q: seq<string>)
    requires Keyed(msgs) && ids <= msgs.Keys
    ensures IsNewestFirst(msgs, ids, q)
  {
    NewestFirstExists(msgs, ids);
    var q :| IsNewestFirst(msgs, ids, q);
    q
  }

  lemma {:induction false} NewestFirstExists(msgs: Messages, ids: set<string>)
    requires Keyed(msgs) && ids <= msgs.Keys
    ensures exists q :: IsNewestFirst(msgs, ids, q)
  {
    var ks := SortedOf(Entries(msgs, ids, ""));
    var q := seq(|ks|, i requires 0 <= i < |ks| => ParseKey(ks[i], "").1);
    forall i | 0 <= i < |ks| ensures q[i] in ids && ks[i] == EntryAt(msgs, "", q[i]) {
      assert ks[i] in ks;
      var id :| id in ids && EntryAt(msgs, "", id) == ks[i];
      EntryRoundTrip("", msgs[id].timestamp, id);
    }
    forall id | id in ids ensures id in q {
      var k := EntryAt(msgs, "", id);
      assert k in ks;
      var i :| 0 <= i < |ks| && ks[i] == k;
      EntryRoundTrip("", msgs[id].timestamp, id);
      assert q[i] == id;
    }
    forall i, j | 0 <= i < j < |q| ensures Newer(msgs[q[i]], msgs[q[j]]) {
      EntryOrder("", msgs[q[i]].timestamp, q[i], msgs[q[j]].timestamp, q[j]);
    }
    assert IsNewestFirst(msgs, ids, q);
  }

  /** There is only one newest-first listing of a set of messages. */
  lemma NewestFirstUnique(msgs: Messages, ids: set<string>, q: seq<string>)
    requires Keyed(msgs) && ids <= msgs.Keys && IsNewestFirst(msgs, ids, q)
    ensures q == NewestFirst(msgs, ids)
  {
    var p := NewestFirst(msgs, ids);
    EntriesSorted(msgs, ids, "", q);
    EntriesSorted(msgs, ids, "", p);
    var es := EntrySeq(msgs, q, "");
    assert |p| == |q| && es == EntrySeq(msgs, p, "");
    forall i | 0 <= i < |q| ensures p[i] == q[i] {
      assert p[i] in p && q[i] in q;
      EntryRoundTrip("", msgs[p[i]].timestamp, p[i]);
      EntryRoundTrip("", msgs[q[i]].timestamp, q[i]);
    }
  }

  // ---------- prefix scans over the store ----------

  /** The scan of a conversation's prefix visits that conversation's messages and no
      other key of the database, newest first. */
  lemma TimelineScan(msgs: Messages, queued: Queues, c: string)
    requires Good(msgs, queued) && NoColon(c)
    ensures Scan(SortedOf(MsgKeys(msgs) + Index(msgs, queued)), PrefixChat(c))
         == EntrySeq(msgs, NewestFirst(msgs, InTimeline(msgs, c)), PrefixChat(c))
  {
    var keys, ids := MsgKeys(msgs) + Index(msgs, queued), InTimeline(msgs, c);
    forall k ensures k in Under(keys, PrefixChat(c)) <==> k in Entries(msgs, ids, PrefixChat(c)) {
      TimelineKey(msgs, queued, c, k);
    }
    assert Under(keys, PrefixChat(c)) == Entries(msgs, ids, PrefixChat(c));
    ScanIsComplete(keys, PrefixChat(c));
    EntriesSorted(msgs, ids, PrefixChat(c), NewestFirst(msgs, ids));
  }

  lemma TimelineKey(msgs: Messages, queued: Queues, c: string, k: string)
    requires Good(msgs, queued) && NoColon(c)
    ensures k in Under(MsgKeys(msgs) + Index(msgs, queued), PrefixChat(c))
       <==> k in Entries(msgs, InTimeline(msgs, c), PrefixChat(c))
  {
    if k in MsgKeys(msgs) {
      var id :| id in msgs && k == KeyMsg(id);
      TablesApart(id, c, 0, "");
    }
    if k in OfflineKeys(msgs, queued) {
      var p :| p in queued && p.1 in msgs && k == KeyOffline(p.0, msgs[p.1].timestamp, p.1);
      TablesApart(p.0, c, msgs[p.1].timestamp, p.1);
    }
    if k in ChatKeys(msgs) {
      var id :| id in msgs && k == ChatKey(msgs[id]);
      ChatPrefixUnique(Timeline(msgs[id]), c, msgs[id].timestamp, id);
      if Timeline(msgs[id]) == c { assert id in InTimeline(msgs, c) && k == EntryAt(msgs, PrefixChat(c), id); }
    }
    if k in Entries(msgs, InTimeline(msgs, c), PrefixChat(c)) {
      var id :| id in InTimeline(msgs, c) && k == EntryAt(msgs, PrefixChat(c), id);
      assert k == ChatKey(msgs[id]);
      ChatPrefixUnique(c, c, msgs[id].timestamp, id);
    }
  }

  /** The scan of a user's offline prefix visits that user's queue, newest first. */
  lemma OfflineScan(msgs: Messages, queued: Queues, u: string)
    requires Good(msgs, queued) && NoColon(u)
    ensures Scan(SortedOf(MsgKeys(msgs) + Index(msgs, queued)), PrefixOffline(u))
         == EntrySeq(msgs, NewestFirst(msgs, QueuedFor(queued, u)), PrefixOffline(u))
  {
    var keys, ids := MsgKeys(msgs) + Index(msgs, queued), QueuedFor(queued, u);
    forall k ensures k in Under(keys, PrefixOffline(u)) <==> k in Entries(msgs, ids, PrefixOffline(u)) {
      OfflineKey(msgs, queued, u, k);
    }
    assert Under(keys, PrefixOffline(u)) == Entries(msgs, ids, PrefixOffline(u));
    ScanIsComplete(keys, PrefixOffline(u));
    EntriesSorted(msgs, ids, PrefixOffline(u), NewestFirst(msgs, ids));
  }

  lemma OfflineKey(msgs: Messages, queued: Queues, u: string, k: string)
    requires Good(msgs, queued) && NoColon(u)
    ensures k in Under(MsgKeys(msgs) + Index(msgs, queued), PrefixOffline(u))
       <==> k in Entries(msgs, QueuedFor(queued, u), PrefixOffline(u))
  {
    if k in MsgKeys(msgs) {
      var id :| id in msgs && k == KeyMsg(id);
      TablesApart(id, u, 0, "");
    }
    if k in ChatKeys(msgs) {
      var id :| id in msgs && k == ChatKey(msgs[id]);
      TablesApart(Timeline(msgs[id]), u, msgs[id].timestamp, id);
    }
    if k in OfflineKeys(msgs, queued) {
      var p :| p in queued && p.1 in msgs && k == KeyOffline(p.0, msgs[p.1].timestamp, p.1);
      OfflinePrefixUnique(p.0, u, msgs[p.1].timestamp, p.1);
      if p.0 == u { assert p.1 in QueuedFor(queued, u) && k == EntryAt(msgs, PrefixOffline(u), p.1); }
    }
    if k in Entries(msgs, QueuedFor(queued, u), PrefixOffline(u)) {
      var id :| id in QueuedFor(queued, u) && k == EntryAt(msgs, PrefixOffline(u), id);
      assert (u, id) in queued;
      OfflinePrefixUnique(u, u, msgs[id].timestamp, id);
    }
  }

  /** Every timeline key stands for a stored message filed under its own conversation and
      timestamp, so each message is in exactly one timeline. */
  lemma TimelineEntryMeans(msgs: Messages, queued: Queues, c: string, timestamp: int, id: string)
    requires Good(msgs, queued) && NoColon(c) && id != ""
    ensures KeyChat(c, timestamp, id) in Index(msgs, queued)
       <==> id in msgs && Timeline(msgs[id]) == c && RevTs(msgs[id].timestamp) == RevTs(timestamp)
  {
    var k := KeyChat(c, timestamp, id);
    EntryRoundTrip(PrefixChat(c), timestamp, id);
    if k in Index(msgs, queued) {
      TimelineKey(msgs, queued, c, k);
      var id' :| id' in InTimeline(msgs, c) && k == EntryAt(msgs, PrefixChat(c), id');
      EntryRoundTrip(PrefixChat(c), msgs[id'].timestamp, id');
    }
    if id in msgs && Timeline(msgs[id]) == c && RevTs(msgs[id].timestamp) == RevTs(timestamp) {
      assert k == ChatKey(msgs[id]);
    }
  }

  /** Every offline key stands for a waiting pair filed at the stored message's timestamp. */
  lemma OfflineEntryMeans(msgs: Messages, queued: Queues, u: string, timestamp: int, id: string)
    requires Good(msgs, queued) && NoColon(u) && id != ""
    ensures KeyOffline(u, timestamp, id) in Index(msgs, queued)
       <==> (u, id) in queued && RevTs(msgs[id].timestamp) == RevTs(timestamp)
  {
    var k := KeyOffline(u, timestamp, id);
    EntryRoundTrip(PrefixOffline(u), timestamp, id);
    if k in Index(msgs, queued) {
      OfflineKey(msgs, queued, u, k);
      var id' :| id' in QueuedFor(queued, u) && k == EntryAt(msgs, PrefixOffline(u), id');
      EntryRoundTrip(PrefixOffline(u), msgs[id'].timestamp, id');
    }
    if (u, id) in queued && RevTs(msgs[id].timestamp) == RevTs(timestamp) {
      assert k == KeyOffline((u, id).0, msgs[(u, id).1].timestamp, (u, id).1);
    }
  }
}
