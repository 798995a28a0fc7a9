/**
 RocksDBMessageStore: messages, conversation timelines and offline queues in one
 ordered key space.  `msgs` are the `msg:` rows; `index` holds the `chat:` and `offline:`
 keys, whose values are empty.
 */
module MessageStore {
  import opened OrderedKeys
  import opened MessageKeys
  import opened MessageIndex
  import opened Paging
  import opened Collections

  // ---------- history ----------

  /** Ids of the conversation's messages that history may show before `before`. */
  ghost function HistoryIds(msgs: Messages, conversation: string, before: string): set<string> {
    if before == "" then InTimeline(msgs, conversation)
    else if before !in msgs || (msgs[before].conversationId != conversation && msgs[before].toId != conversation)
        then {}
    else set id | id in InTimeline(msgs, conversation) && OlderThan(msgs[id], msgs[before].timestamp)
  }

  /** Strictly older; an anchor beyond MAX_TS cuts nothing. */
  ghost predicate OlderThan(m: MessageData, anchor: int) {
    anchor > MAX_TS || FiledAt(m.timestamp) < anchor
  }

  ghost function Fetch(msgs: Messages, q: seq<string>): (ms: seq<MessageData>)
    requires forall id :: id in q ==> id in msgs
    ensures |ms| == |q| && forall i :: 0 <= i < |q| ==> ms[i] == msgs[q[i]]
  {
    seq(|q|, i requires 0 <= i < |q| => assert q[i] in q; msgs[q[i]])
  }

  lemma FetchSnoc(msgs: Messages, q: seq<string>, from: nat, to: nat)
    requires from <= to < |q| && forall id :: id in q ==> id in msgs
    ensures q[to] in msgs && Fetch(msgs, q[from..to + 1]) == Fetch(msgs, q[from..to]) + [msgs[q[to]]]
  {
    assert q[to] in q;
    assert q[from..to + 1] == q[from..to] + [q[to]];
  }

  /** The newest `limit` of the messages history may show. */
  ghost function History(msgs: Messages, conversation: string, before: string, limit: int): seq<MessageData>
    requires Keyed(msgs)
  {
    if conversation == "" || limit <= 0 then []
    else
      var q := NewestFirst(msgs, HistoryIds(msgs, conversation, before));
      assert forall id :: id in q[..Min(limit, |q|)] ==> id in q;
      Fetch(msgs, q[..Min(limit, |q|)])
  }

  /** The cut of the scan loop: keep entries whose reversed timestamp exceeds the cutoff. */
  ghost function Beyond(msgs: Messages, q: seq<string>, cutoff: int): seq<string>
    requires forall id :: id in q ==> id in msgs
  {
    if q == [] then []
    else
      var rest, id := q[..|q| - 1], q[|q| - 1];
      assert forall x :: x in rest ==> x in q;
      Beyond(msgs, rest, cutoff) + (if cutoff >= 0 && RevNum(msgs[id].timestamp) <= cutoff then [] else [id])
  }

  ghost function Kept(msgs: Messages, ids: set<string>, cutoff: int): set<string> {
    set id | id in ids && id in msgs && (cutoff < 0 || RevNum(msgs[id].timestamp) > cutoff)
  }

  /** Filtering keeps a newest-first listing newest first. */
  lemma {:induction false} BeyondSorted(msgs: Messages, ids: set<string>, q: seq<string>, cutoff: int)
    requires ids <= msgs.Keys && IsNewestFirst(msgs, ids, q)
    ensures IsNewestFirst(msgs, Kept(msgs, ids, cutoff), Beyond(msgs, q, cutoff))
  {
    if q != [] {
      var rest, id := q[..|q| - 1], q[|q| - 1];
      assert q == rest + [id];
      forall x | x in rest ensures x != id && Newer(msgs[x], msgs[id]) {
        var i :| 0 <= i < |rest| && rest[i] == x;
        assert Newer(msgs[q[i]], msgs[id]);
        LessTotal(msgs[id].msgId, msgs[id].msgId);
      }
      assert IsNewestFirst(msgs, ids - {id}, rest) by {
        forall x ensures x in rest <==> x in ids - {id} {
          assert x in q <==> x in rest || x == id;
        }
      }
      BeyondSorted(msgs, ids - {id}, rest, cutoff);
      var kept := Beyond(msgs, rest, cutoff);
      forall i | 0 <= i < |kept| ensures kept[i] in msgs && Newer(msgs[kept[i]], msgs[id]) {
        assert kept[i] in kept;
      }
    } else {
      assert forall id :: id in ids ==> id in q;
    }
  }

  lemma BeyondGrows(msgs: Messages, q: seq<string>, i: nat, cutoff: int)
    requires i <= |q| && forall id :: id in q ==> id in msgs
    ensures forall id :: id in q[..i] ==> id in msgs
    ensures Beyond(msgs, q[..i], cutoff) <= Beyond(msgs, q, cutoff)
    decreases |q|
  {
    assert forall id :: id in q[..i] ==> id in q;
    if i < |q| {
      var rest := q[..|q| - 1];
      assert forall id :: id in rest ==> id in q;
      BeyondGrows(msgs, rest, i, cutoff);
      assert rest[..i] == q[..i];
    } else {
      assert q[..i] == q;
    }
  }

  // ---------- offline paging ----------

  ghost function RevAt(ms: seq<MessageData>, i: nat): string
    requires i < |ms|
  {
    RevTs(ms[i].timestamp)
  }

  /** First position at or after `i` whose rev_ts is `cursor`. */
  ghost function Find(ms: seq<MessageData>, cursor: string, i: nat): (r: nat)
    requires i <= |ms|
    ensures i <= r <= |ms|
    ensures forall j :: i <= j < r ==> RevAt(ms, j) != cursor
    ensures r < |ms| ==> RevAt(ms, r) == cursor
    decreases |ms| - i
  {
    if i == |ms| || RevAt(ms, i) == cursor then i else Find(ms, cursor, i + 1)
  }

  /** Where a page resumes: after the first entry carrying the cursor, or at the end
      when no entry carries it. */
  ghost function Resume(ms: seq<MessageData>, cursor: string): (r: nat)
    ensures r <= |ms|
  {
    if cursor == "" then 0
    else
      var i := Find(ms, cursor, 0);
      if i < |ms| then i + 1 else i
  }

  datatype OfflinePage = OfflinePage(messages: seq<MessageData>, nextCursor: string, hasMore: bool)

  /** One page of the queue `ms`. */
  ghost function PageOf(ms: seq<MessageData>, cursor: string, limit: int): OfflinePage {
    if limit <= 0 then OfflinePage([], "", false)
    else
      var from := Resume(ms, cursor);
      if from + limit < |ms|
      then OfflinePage(ms[from..from + limit], RevAt(ms, from + limit - 1), true)
      else OfflinePage(ms[from..], "", false)
  }

  /** The messages waiting for a user, newest first. */
  ghost function QueueOf(msgs: Messages, queued: Queues, user: string): seq<MessageData>
    requires Good(msgs, queued)
  {
    Fetch(msgs, NewestFirst(msgs, QueuedFor(queued, user)))
  }

  // ---------- the store ----------

  class RocksDBMessageStore {
    var msgs: Messages
    var index: set<string>
    ghost var queued: Queues

    /** Each timeline and offline entry points to a stored message whose timestamp yields
        its rev_ts, and each message has exactly its own timeline entry. */
    ghost predicate Valid()
      reads this
    {
      Good(msgs, queued) && index == Index(msgs, queued)
    }

    constructor ()
      ensures Valid() && msgs == map[] && queued == {}
    {
      msgs, index, queued := map[], {}, {};
    }

    method Save(msg: MessageData) returns (ok: bool)
      requires Valid() && NoColon(Timeline(msg))
      modifies this
      ensures Valid()
      ensures ok <==> msg.msgId != "" && msg.fromUserId != "" && msg.msgId !in old(msgs)
      ensures msgs == if ok then old(msgs)[msg.msgId := msg] else old(msgs)
      ensures ok ==> msg.msgId in InTimeline(msgs, if msg.conversationId == "" then msg.toId else msg.conversationId)
      ensures queued == old(queued)
    {
      if msg.msgId == "" || msg.fromUserId == "" { return false; }
      if msg.msgId in msgs { return false; }
      SaveIndex(msgs, queued, msg);
      msgs := msgs[msg.msgId := msg];
      index := index + {KeyChat(Timeline(msg), msg.timestamp, msg.msgId)};
      return true;
    }

    method GetById(msgId: string) returns (m: Option<MessageData>)
      requires Valid()
      ensures m == if msgId in msgs then Some(msgs[msgId]) else None
    {
      if msgId == "" || msgId !in msgs { return None; }
      return Some(msgs[msgId]);
    }

    /** Exactly the newest `limit` messages of the conversation that are older than
        `beforeMsgId`, newest first. */
    method GetHistory(conversation: string, beforeMsgId: string, limit: int) returns (result: seq<MessageData>)
      requires Valid() && NoColon(conversation)
      ensures result == History(msgs, conversation, beforeMsgId, limit)
    {
      if conversation == "" || limit <= 0 { return []; }
      var cutoff := -1;
      if beforeMsgId != "" {
        var msg := GetById(beforeMsgId);
        if msg.None? || (msg.value.conversationId != conversation && msg.value.toId != conversation) {
          EmptyListing(msgs, HistoryIds(msgs, conversation, beforeMsgId));
          return [];
        }
        cutoff := MAX_TS - msg.value.timestamp;
      }
      var prefix := PrefixChat(conversation);
      var it, start := OpenTimeline(conversation);
      var keys := ScanHistory(it, prefix, start, cutoff, limit, msgs,
          NewestFirst(msgs, InTimeline(msgs, conversation)));
      HistoryCut(msgs, conversation, beforeMsgId, cutoff);
      result := FetchAll(keys);
    }

    method FetchAll(keys: seq<string>) returns (result: seq<MessageData>)
      requires Valid() && forall id :: id in keys ==> id in msgs
      ensures result == Fetch(msgs, keys)
    {
      result := [];
      for n := 0 to |keys|
        invariant result == Fetch(msgs, keys[0..n])
      {
        assert keys[n] in keys;
        FetchSnoc(msgs, keys, 0, n);
        var msg := GetById(keys[n]);
        if msg.Some? { result := result + [msg.value]; }
      }
      assert keys[0..|keys|] == keys;
    }

    /** An iterator positioned at the first timeline key of the conversation. */
    method OpenTimeline(c: string) returns (it: seq<string>, start: nat)
      requires Valid() && NoColon(c)
      ensures Lists(it, PrefixChat(c), start, msgs, NewestFirst(msgs, InTimeline(msgs, c)))
    {
      it := NewIterator(MsgKeys(msgs) + index);
      start := Seek(it, PrefixChat(c));
      TimelineListed(msgs, queued, c);
    }

    /** An iterator positioned at the first offline key of the user. */
    method OpenQueue(user: string) returns (it: seq<string>, start: nat)
      requires Valid() && NoColon(user)
      ensures Lists(it, PrefixOffline(user), start, msgs, NewestFirst(msgs, QueuedFor(queued, user)))
    {
      it := NewIterator(MsgKeys(msgs) + index);
      start := Seek(it, PrefixOffline(user));
      QueueListed(msgs, queued, user);
    }

    method MarkRecalled(msgId: string, recallAt: int) returns (ok: bool)
      requires Valid()
      modifies this
      ensures Valid()
      ensures ok <==> msgId in old(msgs)
      ensures msgs == if ok then old(msgs)[msgId := old(msgs)[msgId].(status := 1, recallAt := recallAt)] else old(msgs)
      ensures queued == old(queued)
    {
      var msg := GetById(msgId);
      if msg.None? { return false; }
      RecallIndex(msgs, queued, msgId, recallAt);
      msgs := msgs[msgId := msg.value.(status := 1, recallAt := recallAt)];
      return true;
    }

    method AddToOffline(user: string, msgId: string) returns (ok: bool)
      requires Valid() && NoColon(user)
      modifies this
      ensures Valid()
      ensures ok <==> user != "" && msgId in old(msgs)
      ensures queued == if ok then old(queued) + {(user, msgId)} else old(queued)
      ensures msgs == old(msgs)
    {
      if user == "" || msgId == "" { return false; }
      var msg := GetById(msgId);
      if msg.None? { return false; }
      var key := KeyOffline(user, msg.value.timestamp, msgId);
      QueueIndex(msgs, queued, user, msgId);
      index := index + {key};
      queued := queued + {(user, msgId)};
      return true;
    }

    /** One page of the user's queue, newest first, resuming behind the cursor. */
    method PullOffline(user: string, cursor: string, limit: int) returns (page: OfflinePage)
      requires Valid() && NoColon(user)
      ensures page == PageOf(QueueOf(msgs, queued, user), cursor, limit)
    {
      if user == "" || limit <= 0 {
        if user == "" { EmptyQueue(msgs, queued, cursor, limit); }
        return OfflinePage([], "", false);
      }
      var it, start := OpenQueue(user);
      page := ScanPage(it, PrefixOffline(user), start, cursor, limit, msgs, NewestFirst(msgs, QueuedFor(queued, user)));
    }

    /** Drops the user's queue, or the part of it not newer than `untilMsgId`. */
    method ClearOffline(user: string, untilMsgId: string)
      requires Valid() && NoColon(user)
      modifies this
      ensures Valid() && msgs == old(msgs)
      ensures queued == if untilMsgId != "" && untilMsgId !in msgs then old(queued)
                        else old(queued) - Cleared(msgs, old(queued), user, untilMsgId)
    {
      if user == "" {
        assert Cleared(msgs, queued, user, untilMsgId) == {};
        return;
      }
      var all, untilTs := untilMsgId == "", 0;
      if untilMsgId != "" {
        var until := GetById(untilMsgId);
        if until.None? { return; }
        untilTs := until.value.timestamp;
      }
      ghost var q := NewestFirst(msgs, QueuedFor(queued, user));
      var it, start := OpenQueue(user);
      var batch := ScanClear(it, PrefixOffline(user), start, all, untilTs, msgs, q);
      ghost var gone := Cleared(msgs, queued, user, untilMsgId);
      assert forall p :: p in gone <==> p.0 == user && p.1 in q && (all || FiledAt(msgs[p.1].timestamp) <= untilTs);
      ClearIndex(msgs, queued, user, gone, batch);
      index := index - batch;
      queued := queued - gone;
    }
  }

  /** What `ClearOffline` removes from the queues. */
  ghost function Cleared(msgs: Messages, queued: Queues, user: string, until: string): Queues {
    set p | p in queued && p.0 == user && p.1 in msgs
      && (until == "" || (until in msgs && FiledAt(msgs[p.1].timestamp) <= msgs[until].timestamp))
  }

  lemma EmptyListing(msgs: Messages, ids: set<string>)
    requires Keyed(msgs) && ids == {}
    ensures NewestFirst(msgs, ids) == []
  {
    NewestFirstUnique(msgs, ids, []);
  }

  lemma EmptyQueue(msgs: Messages, queued: Queues, cursor: string, limit: int)
    requires Good(msgs, queued)
    ensures PageOf(QueueOf(msgs, queued, ""), cursor, limit) == OfflinePage([], "", false)
  {
    EmptyListing(msgs, QueuedFor(queued, ""));
  }

  // ---------- the scan loops ----------

  /** Standing at position `i`, the iterator will show the listing from its n-th item on
      and then leave the prefix. */
  ghost predicate Shows(it: seq<string>, prefix: string, i: nat, msgs: Messages, q: seq<string>, n: nat)
    requires n <= |q|
    decreases |q| - n
  {
    if n == |q| then i == |it| || (i < |it| && !StartsWith(it[i], prefix))
    else q[n] in msgs && i < |it| && it[i] == EntryAt(msgs, prefix, q[n]) && Shows(it, prefix, i + 1, msgs, q, n + 1)
  }

  ghost predicate Lists(it: seq<string>, prefix: string, start: nat, msgs: Messages, q: seq<string>) {
    && start <= |it|
    && (forall id :: id in q ==> id in msgs && id != "")
    && Shows(it, prefix, start, msgs, q, 0)
  }

  lemma ScanLists(it: seq<string>, prefix: string, msgs: Messages, q: seq<string>)
    requires StrictlySorted(it) && forall id :: id in q ==> id in msgs && id != ""
    requires Scan(it, prefix) == EntrySeq(msgs, q, prefix)
    ensures Lists(it, prefix, Seek(it, prefix), msgs, q)
  {
    ScanShows(it, prefix, Seek(it, prefix), msgs, q, 0);
  }

  lemma TimelineListed(msgs: Messages, queued: Queues, c: string)
    requires Good(msgs, queued) && NoColon(c)
    ensures var it := SortedOf(MsgKeys(msgs) + Index(msgs, queued));
      Lists(it, PrefixChat(c), Seek(it, PrefixChat(c)), msgs, NewestFirst(msgs, InTimeline(msgs, c)))
  {
    TimelineScan(msgs, queued, c);
    ScanLists(SortedOf(MsgKeys(msgs) + Index(msgs, queued)), PrefixChat(c), msgs,
        NewestFirst(msgs, InTimeline(msgs, c)));
  }

  lemma QueueListed(msgs: Messages, queued: Queues, user: string)
    requires Good(msgs, queued) && NoColon(user)
    ensures var it := SortedOf(MsgKeys(msgs) + Index(msgs, queued));
      Lists(it, PrefixOffline(user), Seek(it, PrefixOffline(user)), msgs, NewestFirst(msgs, QueuedFor(queued, user)))
  {
    OfflineScan(msgs, queued, user);
    ScanLists(SortedOf(MsgKeys(msgs) + Index(msgs, queued)), PrefixOffline(user), msgs,
        NewestFirst(msgs, QueuedFor(queued, user)));
  }

  lemma {:induction false} ScanShows(it: seq<string>, prefix: string, start: nat, msgs: Messages, q: seq<string>,
      n: nat)
    requires start <= |it| && n <= |q| && forall id :: id in q ==> id in msgs
    requires it[start..ScanEnd(it, prefix, start)] == EntrySeq(msgs, q, prefix)
    ensures Shows(it, prefix, start + n, msgs, q, n)
    decreases |q| - n
  {
    assert ScanEnd(it, prefix, start) == start + |q|;
    if n < |q| {
      assert it[start..ScanEnd(it, prefix, start)][n] == it[start + n];
      assert q[n] in q;
      ScanShows(it, prefix, start, msgs, q, n + 1);
    }
  }

  /** One loop step: the key under the iterator is the n-th item and parses back to it. */
  lemma ShownKey(it: seq<string>, prefix: string, i: nat, msgs: Messages, q: seq<string>, n: nat)
    requires n < |q| && q[n] != "" && Shows(it, prefix, i, msgs, q, n)
    ensures q[n] in msgs && i < |it| && StartsWith(it[i], prefix)
    ensures ParseKey(it[i], prefix) == (RevTs(msgs[q[n]].timestamp), q[n])
    ensures Stoll(RevTs(msgs[q[n]].timestamp)) == Some(RevNum(msgs[q[n]].timestamp))
  {
    EntryRoundTrip(prefix, msgs[q[n]].timestamp, q[n]);
    RevTsValue(msgs[q[n]].timestamp);
  }

  /** Parses the key under the iterator, which is the n-th item's. */
  method ReadKey(it: seq<string>, prefix: string, i: nat, msgs: Messages, ghost q: seq<string>, ghost n: nat)
      returns (revTs: string, msgId: string)
    requires n < |q| && i < |it| && StartsWith(it[i], prefix)
    requires (forall id :: id in q ==> id in msgs && id != "") && Shows(it, prefix, i, msgs, q, n)
    ensures msgId == q[n] && msgId in msgs && revTs == RevTs(msgs[msgId].timestamp) && |revTs| == 13
    ensures Stoll(revTs) == Some(RevNum(msgs[msgId].timestamp))
  {
    assert q[n] in q;
    ShownKey(it, prefix, i, msgs, q, n);
    var fields := ParseKey(it[i], prefix);
    return fields.0, fields.1;
  }

  method ScanHistory(it: seq<string>, prefix: string, start: nat, cutoff: int, limit: int, msgs: Messages,
      ghost q: seq<string>)
      returns (keys: seq<string>)
    requires Lists(it, prefix, start, msgs, q) && limit > 0
    ensures var full := Beyond(msgs, q, cutoff); keys == full[..Min(limit, |full|)]
    ensures forall id :: id in keys ==> id in msgs
  {
    keys := [];
    var i := start;
    ghost var n := 0;
    BeyondGrows(msgs, q, 0, cutoff);
    while i < |it|
      invariant i <= |it| && n <= |q| && Shows(it, prefix, i, msgs, q, n)
      invariant forall id :: id in q[..n] ==> id in msgs
      invariant keys == Beyond(msgs, q[..n], cutoff) && |keys| < limit
      invariant forall id :: id in keys ==> id in msgs
    {
      if !StartsWith(it[i], prefix) { break; }
      var revTs, msgId := ReadKey(it, prefix, i, msgs, q, n);
      BeyondGrows(msgs, q, n + 1, cutoff);
      assert q[..n + 1][..n] == q[..n];
      i := i + 1;
      n := n + 1;
      if |revTs| != 13 { continue; }
      var r := Stoll(revTs);
      if r.None? { continue; }
      if cutoff >= 0 && r.value <= cutoff { continue; }
      keys := keys + [msgId];
      if |keys| >= limit {
        return;
      }
    }
    assert n == |q| && q[..n] == q;
  }

  method ScanPage(it: seq<string>, prefix: string, start: nat, cursor: string, limit: int, msgs: Messages,
      ghost q: seq<string>)
      returns (page: OfflinePage)
    requires Lists(it, prefix, start, msgs, q) && limit > 0
    ensures page == PageOf(Fetch(msgs, q), cursor, limit)
  {
    var result, last, i, to := TakePage(it, prefix, start, cursor, limit, msgs, q, Fetch(msgs, q));
    if |result| >= limit && i < |it| && StartsWith(it[i], prefix) {
      i := i + 1;
      if to < |q| {
        assert q[to] in q;
        ShownKey(it, prefix, i, msgs, q, to);
      }
      if i < |it| && StartsWith(it[i], prefix) {
        return OfflinePage(result, last, true);
      }
    }
    return OfflinePage(result, "", false);
  }

  /** The state of the page loop in front of the n-th entry. */
  ghost predicate Taking(ms: seq<MessageData>, cursor: string, skip: bool, n: nat, result: seq<MessageData>) {
    if skip then n <= Find(ms, cursor, 0) && cursor != "" && result == []
    else Resume(ms, cursor) <= n <= |ms| && result == ms[Resume(ms, cursor)..n]
  }

  lemma TakingStep(ms: seq<MessageData>, cursor: string, skip: bool, n: nat, result: seq<MessageData>)
    requires Taking(ms, cursor, skip, n, result) && n < |ms|
    ensures skip ==> Taking(ms, cursor, RevAt(ms, n) != cursor, n + 1, result)
    ensures !skip ==> Taking(ms, cursor, false, n + 1, result + [ms[n]])
  {
    if !skip { assert ms[Resume(ms, cursor)..n + 1] == ms[Resume(ms, cursor)..n] + [ms[n]]; }
  }

  lemma TakingEnds(ms: seq<MessageData>, cursor: string, skip: bool, result: seq<MessageData>)
    requires Taking(ms, cursor, skip, |ms|, result)
    ensures result == ms[Resume(ms, cursor)..]
  {
  }

  /** What the page loop holds after `n` entries: whether it still skips, and the page. */
  ghost function Taken(ms: seq<MessageData>, cursor: string, n: nat): (bool, seq<MessageData>)
    requires n <= |ms|
  {
    if n == 0 then (cursor != "", [])
    else
      var (skip, page) := Taken(ms, cursor, n - 1);
      if skip then (RevAt(ms, n - 1) != cursor, page) else (false, page + [ms[n - 1]])
  }

  lemma {:induction false} TakenIsTaking(ms: seq<MessageData>, cursor: string, n: nat)
    requires n <= |ms|
    ensures Taking(ms, cursor, Taken(ms, cursor, n).0, n, Taken(ms, cursor, n).1)
  {
    if n > 0 {
      TakenIsTaking(ms, cursor, n - 1);
      TakingStep(ms, cursor, Taken(ms, cursor, n - 1).0, n - 1, Taken(ms, cursor, n - 1).1);
    }
  }

  lemma TakenPage(ms: seq<MessageData>, cursor: string, n: nat)
    requires n <= |ms| && (Taken(ms, cursor, n).0 ==> n == |ms|)
    ensures Resume(ms, cursor) <= n && Taken(ms, cursor, n).1 == ms[Resume(ms, cursor)..n]
  {
    TakenIsTaking(ms, cursor, n);
    if Taken(ms, cursor, n).0 { TakingEnds(ms, cursor, true, Taken(ms, cursor, n).1); }
  }

  /** The messages behind a listing of ids. */
  ghost predicate Loads(msgs: Messages, q: seq<string>, ms: seq<MessageData>) {
    |ms| == |q| && forall i :: 0 <= i < |q| ==> q[i] in msgs && ms[i] == msgs[q[i]]
  }

  /** The body of the page loop: reads the n-th entry and skips or takes it. */
  method TakeEntry(it: seq<string>, prefix: string, i: nat, cursor: string, msgs: Messages, skipping: bool,
                   page: seq<MessageData>, ghost q: seq<string>, ghost ms: seq<MessageData>, ghost n: nat)
      returns (skip: bool, result: seq<MessageData>, revTs: string)
    requires (forall id :: id in q ==> id in msgs && id != "") && Loads(msgs, q, ms)
    requires n <= |q| && Shows(it, prefix, i, msgs, q, n) && i < |it| && StartsWith(it[i], prefix)
    requires (skipping, page) == Taken(ms, cursor, n)
    ensures n < |q| && Shows(it, prefix, i + 1, msgs, q, n + 1)
    ensures (skip, result) == Taken(ms, cursor, n + 1) && revTs == RevAt(ms, n)
    ensures if skipping then result == page else |result| == |page| + 1
  {
    var msgId;
    revTs, msgId := ReadKey(it, prefix, i, msgs, q, n);
    if skipping && revTs == cursor { return false, page, revTs; }
    if skipping { return true, page, revTs; }
    if msgId in msgs { return false, page + [msgs[msgId]], revTs; }
    return false, page, revTs;
  }

  /** The page loop: leaves the iterator on the last entry taken when the page is full. */
  method TakePage(it: seq<string>, prefix: string, start: nat, cursor: string, limit: int, msgs: Messages,
                  ghost q: seq<string>, ghost ms: seq<MessageData>)
      returns (result: seq<MessageData>, last: string, i: nat, ghost to: nat)
    requires Lists(it, prefix, start, msgs, q) && Loads(msgs, q, ms) && limit > 0
    ensures Resume(ms, cursor) <= to <= |ms| && result == ms[Resume(ms, cursor)..to]
    ensures |result| == limit ==> last == RevAt(ms, to - 1)
    ensures |result| == limit || (|result| < limit && to == |q|)
    ensures |result| == limit ==> i < |it| && StartsWith(it[i], prefix) && Shows(it, prefix, i + 1, msgs, q, to)
  {
    var skip := cursor != "";
    i, last, result := start, "", [];
    ghost var n: nat := 0;
    while i < |it| && StartsWith(it[i], prefix)
      invariant i <= |it| && n <= |q| && Shows(it, prefix, i, msgs, q, n)
      invariant (skip, result) == Taken(ms, cursor, n) && |result| < limit
    {
      var skipping, revTs := skip, "";
      skip, result, revTs := TakeEntry(it, prefix, i, cursor, msgs, skip, result, q, ms, n);
      n := n + 1;
      if !skipping {
        last := revTs;
        if |result| >= limit { break; }
      }
      i := i + 1;
    }
    TakenPage(ms, cursor, n);
    to := n;
  }

  method ScanClear(it: seq<string>, prefix: string, start: nat, all: bool, untilTs: int, msgs: Messages,
      ghost q: seq<string>)
      returns (batch: set<string>)
    requires Lists(it, prefix, start, msgs, q)
    ensures batch == set id | id in q && (all || FiledAt(msgs[id].timestamp) <= untilTs) :: EntryAt(msgs, prefix, id)
  {
    batch := {};
    var i := start;
    ghost var n := 0;
    while i < |it|
      invariant i <= |it| && n <= |q| && Shows(it, prefix, i, msgs, q, n)
      invariant batch == set id | id in q[..n] && id in msgs
          && (all || FiledAt(msgs[id].timestamp) <= untilTs) :: EntryAt(msgs, prefix, id)
    {
      if !StartsWith(it[i], prefix) { break; }
      assert q[..n + 1] == q[..n] + [q[n]];
      var key := it[i];
      var revTs, msgId := ReadKey(it, prefix, i, msgs, q, n);
      if all {
        batch := batch + {key};
      } else {
        var r := Stoll(revTs);
        if r.Some? && MAX_TS - r.value <= untilTs {
          batch := batch + {key};
        }
      }
      i := i + 1;
      n := n + 1;
    }
    assert q[..n] == q;
  }

  // ---------- the index under updates ----------

  lemma SaveIndex(msgs: Messages, queued: Queues, msg: MessageData)
    requires Good(msgs, queued) && msg.msgId !in msgs && msg.msgId != "" && NoColon(Timeline(msg))
    ensures Good(msgs[msg.msgId := msg], queued)
    ensures Index(msgs[msg.msgId := msg], queued) == Index(msgs, queued) + {ChatKey(msg)}
  {
    var msgs' := msgs[msg.msgId := msg];
    assert ChatKeys(msgs') == ChatKeys(msgs) + {ChatKey(msg)} by {
      assert msgs'[msg.msgId] == msg;
      forall k | k in ChatKeys(msgs) ensures k in ChatKeys(msgs') {
        var id :| id in msgs && k == ChatKey(msgs[id]);
        assert msgs'[id] == msgs[id];
      }
    }
    assert OfflineKeys(msgs', queued) == OfflineKeys(msgs, queued);
  }

  lemma SameChatKeys(msgs: Messages, msgs': Messages)
    requires forall id :: id in msgs ==> id in msgs' && ChatKey(msgs'[id]) == ChatKey(msgs[id])
    ensures ChatKeys(msgs) <= ChatKeys(msgs')
  {
    forall k | k in ChatKeys(msgs) ensures k in ChatKeys(msgs') {
      var id :| id in msgs && k == ChatKey(msgs[id]);
      assert id in msgs' && k == ChatKey(msgs'[id]);
    }
  }

  lemma RecallIndex(msgs: Messages, queued: Queues, msgId: string, recallAt: int)
    requires Good(msgs, queued) && msgId in msgs
    ensures var msgs' := msgs[msgId := msgs[msgId].(status := 1, recallAt := recallAt)];
      Good(msgs', queued) && Index(msgs', queued) == Index(msgs, queued)
  {
    var msgs' := msgs[msgId := msgs[msgId].(status := 1, recallAt := recallAt)];
    SameChatKeys(msgs, msgs');
    SameChatKeys(msgs', msgs);
    assert OfflineKeys(msgs', queued) == OfflineKeys(msgs, queued);
  }

  lemma QueueIndex(msgs: Messages, queued: Queues, user: string, msgId: string)
    requires Good(msgs, queued) && msgId in msgs && user != "" && NoColon(user)
    ensures Good(msgs, queued + {(user, msgId)})
    ensures Index(msgs, queued + {(user, msgId)}) == Index(msgs, queued)
        + {KeyOffline(user, msgs[msgId].timestamp, msgId)}
  {
    var queued' := queued + {(user, msgId)};
    assert OfflineKeys(msgs, queued') == OfflineKeys(msgs, queued)
        + {KeyOffline(user, msgs[msgId].timestamp, msgId)} by {
      assert (user, msgId) in queued';
    }
  }

  lemma OfflineKeyInjective(msgs: Messages, queued: Queues, p: (string, string), r: (string, string))
    requires Good(msgs, queued) && p in queued && r in queued
    requires KeyOffline(p.0, msgs[p.1].timestamp, p.1) == KeyOffline(r.0, msgs[r.1].timestamp, r.1)
    ensures p == r
  {
    OfflinePrefixUnique(p.0, p.0, msgs[p.1].timestamp, p.1);
    OfflinePrefixUnique(r.0, p.0, msgs[r.1].timestamp, r.1);
    EntryRoundTrip(PrefixOffline(p.0), msgs[p.1].timestamp, p.1);
    EntryRoundTrip(PrefixOffline(p.0), msgs[r.1].timestamp, r.1);
  }

  lemma ClearIndex(msgs: Messages, queued: Queues, user: string, gone: Queues, batch: set<string>)
    requires Good(msgs, queued) && gone <= queued && NoColon(user)
    requires forall p :: p in gone ==> p.0 == user
    requires batch == set p | p in gone && p.1 in msgs :: EntryAt(msgs, PrefixOffline(user), p.1)
    ensures Good(msgs, queued - gone)
    ensures Index(msgs, queued - gone) == Index(msgs, queued) - batch
  {
    forall k ensures k in Index(msgs, queued - gone) <==> k in Index(msgs, queued) - batch {
      if k in ChatKeys(msgs) && k in batch {
        var id :| id in msgs && k == ChatKey(msgs[id]);
        var p :| p in gone && p.1 in msgs && k == EntryAt(msgs, PrefixOffline(user), p.1);
        EntryRoundTrip(PrefixOffline(user), msgs[p.1].timestamp, p.1);
        TablesApart(Timeline(msgs[id]), user, msgs[id].timestamp, id);
      }
      if k in OfflineKeys(msgs, queued - gone) && k in batch {
        var r :| r in queued - gone && r.1 in msgs && k == KeyOffline(r.0, msgs[r.1].timestamp, r.1);
        var p :| p in gone && p.1 in msgs && k == EntryAt(msgs, PrefixOffline(user), p.1);
        assert k == KeyOffline(p.0, msgs[p.1].timestamp, p.1);
        OfflineKeyInjective(msgs, queued, p, r);
      }
      if k in OfflineKeys(msgs, queued) && k !in batch {
        var r :| r in queued && r.1 in msgs && k == KeyOffline(r.0, msgs[r.1].timestamp, r.1);
        assert r in gone ==> k == EntryAt(msgs, PrefixOffline(user), r.1);
      }
    }
  }

  lemma HistoryCut(msgs: Messages, conversation: string, before: string, cutoff: int)
    requires Keyed(msgs)
    requires before == "" ==> cutoff == -1
    requires before != "" ==>
      before in msgs && cutoff == MAX_TS - msgs[before].timestamp
          && (msgs[before].conversationId == conversation || msgs[before].toId == conversation)
    ensures Beyond(msgs, NewestFirst(msgs, InTimeline(msgs, conversation)), cutoff)
         == NewestFirst(msgs, HistoryIds(msgs, conversation, before))
  {
    var ids := InTimeline(msgs, conversation);
    var q := NewestFirst(msgs, ids);
    BeyondSorted(msgs, ids, q, cutoff);
    var kept := Kept(msgs, ids, cutoff);
    assert kept == HistoryIds(msgs, conversation, before) by {
      forall id | id in ids ensures (cutoff < 0 || RevNum(msgs[id].timestamp) > cutoff)
          <==> id in HistoryIds(msgs, conversation, before) {
        assert FiledAt(msgs[id].timestamp) == MAX_TS - RevNum(msgs[id].timestamp);
      }
    }
    NewestFirstUnique(msgs, kept, Beyond(msgs, q, cutoff));
  }
}
