/**
 What clients of the message store can rely on: a history page is the newest part of the
 conversation, and following either cursor is complete exactly when no page boundary
 falls on a timestamp tie.
 */
module MessagePaging {
  import opened OrderedKeys
  import opened MessageKeys
  import opened MessageIndex
  import opened MessageStore
  import opened Paging
  import opened Collections

  ghost predicate InRange(msgs: Messages) {
    forall id :: id in msgs ==> 0 <= msgs[id].timestamp <= MAX_TS
  }

  /** A message shown before another is later, or equally late with the smaller id. */
  ghost predicate Precedes(a: MessageData, b: MessageData) {
    a.timestamp > b.timestamp || (a.timestamp == b.timestamp && Less(a.msgId, b.msgId))
  }

  /** The promise of `GetHistory` in plain terms: only messages of the conversation older
      than the anchor, newest first, as many as asked for or as there are, and everything
      left out comes after everything shown. */
  lemma HistoryIsNewestPage(msgs: Messages, conversation: string, before: string, limit: int)
    requires Keyed(msgs) && InRange(msgs) && conversation != "" && limit > 0
    requires before != "" ==>
      before in msgs && (msgs[before].conversationId == conversation || msgs[before].toId == conversation)
    ensures var r := History(msgs, conversation, before, limit);
      var candidates := set id | id in msgs && Timeline(msgs[id]) == conversation
                                 && (before == "" || msgs[id].timestamp < msgs[before].timestamp);
      && |r| == Min(limit, |candidates|)
      && (forall i :: 0 <= i < |r| ==> r[i].msgId in candidates && r[i] == msgs[r[i].msgId])
      && (forall i, j :: 0 <= i < j < |r| ==> Precedes(r[i], r[j]))
      && (forall id :: id in candidates && msgs[id] !in r ==> forall i :: 0 <= i < |r| ==> Precedes(r[i], msgs[id]))
  {
    var ids := HistoryIds(msgs, conversation, before);
    var candidates := set id | id in msgs && Timeline(msgs[id]) == conversation
                               && (before == "" || msgs[id].timestamp < msgs[before].timestamp);
    assert ids == candidates;
    var q := NewestFirst(msgs, ids);
    ListingSize(msgs, ids, q);
    var r := History(msgs, conversation, before, limit);
    forall i | 0 <= i < |r| ensures q[i] in q && r[i] == msgs[q[i]] {}
    forall id, i | id in candidates && msgs[id] !in r && 0 <= i < |r| ensures Precedes(r[i], msgs[id]) {
      LeftOutComesAfter(msgs, ids, q, r, id, i);
    }
  }

  /** A missing anchor or one of another conversation shows nothing, and so does asking for none. */
  lemma NoHistory(msgs: Messages, conversation: string, before: string, limit: int)
    requires Keyed(msgs)
    requires conversation == "" || limit <= 0
          || (before != "" && (before !in msgs
               || (msgs[before].conversationId != conversation && msgs[before].toId != conversation)))
    ensures History(msgs, conversation, before, limit) == []
  {
    if conversation != "" && limit > 0 { EmptyListing(msgs, HistoryIds(msgs, conversation, before)); }
  }

  /** Without an anchor and with a limit that large, history shows the whole conversation. */
  lemma HistoryShowsAll(msgs: Messages, conversation: string, limit: int, id: string)
    requires Keyed(msgs) && conversation != "" && id in InTimeline(msgs, conversation)
    requires limit >= |InTimeline(msgs, conversation)|
    ensures msgs[id] in History(msgs, conversation, "", limit)
  {
    var ids := InTimeline(msgs, conversation);
    var q := NewestFirst(msgs, ids);
    ListingSize(msgs, ids, q);
    assert id in q && ids != {};
    var i :| 0 <= i < |q| && q[i] == id;
    assert q[..|q|] == q && Fetch(msgs, q)[i] == msgs[id];
  }

  lemma LeftOutComesAfter(msgs: Messages, ids: set<string>, q: seq<string>, r: seq<MessageData>, id: string, i: nat)
    requires ids <= msgs.Keys && IsNewestFirst(msgs, ids, q) && id in ids && i < |r| <= |q|
    requires msgs[id] !in r && forall j :: 0 <= j < |r| ==> q[j] in msgs && r[j] == msgs[q[j]]
    ensures Newer(r[i], msgs[id])
  {
    assert id in q;
    var j :| 0 <= j < |q| && q[j] == id;
    assert forall k :: 0 <= k < |r| ==> r[k] in r;
    assert Newer(msgs[q[i]], msgs[q[j]]);
  }

  lemma ListingSize(msgs: Messages, ids: set<string>, q: seq<string>)
    requires ids <= msgs.Keys && IsNewestFirst(msgs, ids, q)
    ensures |q| == |ids|
    ensures forall i, j :: 0 <= i < j < |q| ==> q[i] != q[j]
  {
    forall i, j | 0 <= i < j < |q| ensures q[i] != q[j] {
      assert Newer(msgs[q[i]], msgs[q[j]]);
      LessTotal(msgs[q[i]].msgId, msgs[q[i]].msgId);
    }
    DistinctCount(q, ids);
    assert ids == set id | id in q;
  }

  // ---------- listings as sequences of messages ----------

  ghost predicate NewestFirstMessages(ms: seq<MessageData>) {
    forall i, j :: 0 <= i < j < |ms| ==> Newer(ms[i], ms[j])
  }

  lemma ListingMessages(msgs: Messages, ids: set<string>)
    requires Keyed(msgs) && ids <= msgs.Keys
    ensures var ms := Fetch(msgs, NewestFirst(msgs, ids));
      NewestFirstMessages(ms) && Distinct(ms)
  {
    var q := NewestFirst(msgs, ids);
    ListingSize(msgs, ids, q);
    var ms := Fetch(msgs, q);
    forall i, j | 0 <= i < j < |ms| ensures Newer(ms[i], ms[j]) && ms[i] != ms[j] {
      assert q[i] in q && q[j] in q;
    }
  }

  // ---------- following the offline cursor ----------

  datatype Walk = Walk(got: seq<MessageData>, cursor: string, more: bool)

  ghost function Pull(ms: seq<MessageData>, limit: nat, w: Walk): Walk {
    if !w.more then w
    else
      var page := PageOf(ms, w.cursor, limit);
      Walk(w.got + page.messages, page.nextCursor, page.hasMore)
  }

  ghost function Puller(ms: seq<MessageData>, limit: nat): Walk -> Walk {
    (w: Walk) => Pull(ms, limit, w)
  }

  /** A client that starts with the empty cursor and pulls `k` pages while told there is more. */
  ghost function Follow(ms: seq<MessageData>, limit: nat, k: nat): Walk {
    Rounds(Puller(ms, limit), Walk([], "", true), k)
  }

  /** Where the server resumes after the entry at position `e`. */
  ghost function AfterCursor(ms: seq<MessageData>): nat -> nat {
    (e: nat) => if e < |ms| then Find(ms, RevAt(ms, e), 0) + 1 else e + 1
  }

  lemma CursorNeverAhead(ms: seq<MessageData>)
    ensures NeverAhead(AfterCursor(ms))
  {
    forall e: nat ensures AfterCursor(ms)(e) <= e + 1 {
      if e < |ms| { assert RevAt(ms, e) == RevAt(ms, e); }
    }
  }

  lemma CursorResumes(ms: seq<MessageData>, e: nat)
    requires e < |ms|
    ensures Resume(ms, RevAt(ms, e)) == AfterCursor(ms)(e) <= e + 1
  {
    CursorNeverAhead(ms);
    assert RevAt(ms, e) != "";
  }

  /** The client's walk and the abstract paging run agree. */
  ghost predicate InStep(ms: seq<MessageData>, w: Walk, c: Client<MessageData>) {
    && w.got == c.got
    && (w.more ==> Resume(ms, w.cursor) == c.start)
    && (!w.more ==> c.start >= |ms|)
  }

  lemma PageAgrees(ms: seq<MessageData>, cursor: string, limit: nat)
    requires limit > 0
    ensures var s, page := Resume(ms, cursor), PageOf(ms, cursor, limit);
      && page.messages == Page(ms, limit, s)
      && (page.hasMore <==> s + limit < |ms|)
      && (page.hasMore ==> Resume(ms, page.nextCursor) == AfterCursor(ms)(s + limit - 1) <= s + limit)
  {
    var s := Resume(ms, cursor);
    if s + limit < |ms| { CursorResumes(ms, s + limit - 1); }
    if s < |ms| { PageExtends(ms, limit, s); }
  }

  lemma PullInStep(ms: seq<MessageData>, limit: nat, w: Walk, c: Client<MessageData>)
    requires limit > 0 && InStep(ms, w, c)
    ensures var c' := Paging.TakePage(ms, limit, AfterCursor(ms), c);
      InStep(ms, Pull(ms, limit, w), c') && (Pull(ms, limit, w).more ==> c'.start < |ms|)
  {
    if w.more { PageAgrees(ms, w.cursor, limit); }
  }

  lemma FollowInStep(ms: seq<MessageData>, limit: nat, k: nat)
    requires limit > 0
    ensures InStep(ms, Follow(ms, limit, k), After(ms, limit, AfterCursor(ms), k))
  {
    var pager := Pager(ms, limit, AfterCursor(ms));
    var rel := (w: Walk, c: Client<MessageData>) => InStep(ms, w, c);
    forall w, c ensures Simulates(Puller(ms, limit), pager, rel, w, c) {
      if InStep(ms, w, c) { PullInStep(ms, limit, w, c); }
    }
    InStepForever(Puller(ms, limit), Walk([], "", true), pager, Client(0, []), rel, k);
  }

  /** A client told there is more has not reached the end. */
  lemma MoreToCome(ms: seq<MessageData>, limit: nat, k: nat)
    requires limit > 0
    ensures Follow(ms, limit, k + 1).more ==> After(ms, limit, AfterCursor(ms), k + 1).start < |ms|
  {
    FollowInStep(ms, limit, k);
    AfterNext(ms, limit, AfterCursor(ms), k);
    PullInStep(ms, limit, Follow(ms, limit, k), After(ms, limit, AfterCursor(ms), k));
  }

  /** The client is told to stop and has the whole queue, each message once, newest first. */
  ghost predicate PulledAll(ms: seq<MessageData>, w: Walk) {
    !w.more && w.got == ms
  }

  /** No inner page ends inside a run of equal timestamps: its last entry is not filed at
      the same time as the one before it. */
  ghost predicate NoTieAtPageEnd(ms: seq<MessageData>, limit: nat) {
    forall k: nat :: !TieAtPageEnd(ms, limit, k)
  }

  lemma SameRev(a: int, b: int)
    ensures RevTs(a) == RevTs(b) <==> FiledAt(a) == FiledAt(b)
  {
    Pow10Of13();
    DigitsOrder(RevNum(a), RevNum(b), 13);
  }

  lemma ResumeIsClean(ms: seq<MessageData>, e: nat)
    requires NewestFirstMessages(ms) && e < |ms|
    ensures AfterCursor(ms)(e) == e + 1
       <==> (e > 0 ==> FiledAt(ms[e - 1].timestamp) != FiledAt(ms[e].timestamp))
  {
    var f := Find(ms, RevAt(ms, e), 0);
    CursorResumes(ms, e);
    assert f <= e;
    SameRev(ms[f].timestamp, ms[e].timestamp);
    if e > 0 {
      SameRev(ms[e - 1].timestamp, ms[e].timestamp);
      assert Newer(ms[e - 1], ms[e]);
      if f < e - 1 { assert Newer(ms[f], ms[e - 1]); }
      assert f == e ==> RevAt(ms, e - 1) != RevAt(ms, e);
    }
  }

  ghost predicate TieAtPageEnd(ms: seq<MessageData>, limit: nat, k: nat) {
    2 <= Cut(limit, k) < |ms| && FiledAt(ms[Cut(limit, k) - 2].timestamp) == FiledAt(ms[Cut(limit, k) - 1].timestamp)
  }

  lemma CutIsClean(ms: seq<MessageData>, limit: nat, k: nat)
    requires NewestFirstMessages(ms) && limit > 0
    ensures CleanCut(|ms|, limit, AfterCursor(ms), k) <==> !TieAtPageEnd(ms, limit, k)
  {
    if 0 < Cut(limit, k) < |ms| { ResumeIsClean(ms, Cut(limit, k) - 1); }
  }

  lemma CleanIffNoTie(ms: seq<MessageData>, limit: nat)
    requires NewestFirstMessages(ms) && limit > 0
    ensures CleanCuts(|ms|, limit, AfterCursor(ms)) <==> NoTieAtPageEnd(ms, limit)
  {
    forall k: nat ensures CleanCut(|ms|, limit, AfterCursor(ms), k) <==> !TieAtPageEnd(ms, limit, k)
    {
      CutIsClean(ms, limit, k);
    }
  }

  ghost predicate PullsAllOnce(ms: seq<MessageData>, limit: nat) {
    exists k: nat :: PulledAll(ms, Follow(ms, limit, k))
  }

  lemma PullsIffSees(ms: seq<MessageData>, limit: nat)
    requires limit > 0
    ensures PullsAllOnce(ms, limit) <==> SeesAllOnce(ms, limit, AfterCursor(ms))
  {
    if k: nat :| PulledAll(ms, Follow(ms, limit, k)) {
      FollowInStep(ms, limit, k);
      assert Complete(ms, After(ms, limit, AfterCursor(ms), k));
    }
    if k: nat :| Complete(ms, After(ms, limit, AfterCursor(ms), k)) {
      var j: nat := if k == 0 then 0 else k - 1;
      FollowInStep(ms, limit, j + 1);
      MoreToCome(ms, limit, j);
      AfterNext(ms, limit, AfterCursor(ms), j);
      assert PulledAll(ms, Follow(ms, limit, j + 1));
    }
  }

  /** Following `PullOffline` to the end yields the user's queue exactly once, newest first,
      if and only if no inner page ends inside a timestamp tie. */
  lemma OfflinePagingExact(msgs: Messages, queued: Queues, user: string, limit: nat)
    requires Good(msgs, queued) && limit > 0
    ensures var ms := QueueOf(msgs, queued, user);
      PullsAllOnce(ms, limit) <==> NoTieAtPageEnd(ms, limit)
  {
    var ms := QueueOf(msgs, queued, user);
    ListingMessages(msgs, QueuedFor(queued, user));
    PagingExact(ms, limit, AfterCursor(ms));
    CleanIffNoTie(ms, limit);
    PullsIffSees(ms, limit);
  }

  /** With distinct timestamps no page can end in a tie, so every limit works. */
  lemma DistinctTimestampsPageCleanly(msgs: Messages, queued: Queues, user: string, limit: nat)
    requires Good(msgs, queued) && limit > 0
    requires forall p, r :: p in queued && r in queued && p.0 == r.0 == user && p != r ==>
      FiledAt(msgs[p.1].timestamp) != FiledAt(msgs[r.1].timestamp)
    ensures PullsAllOnce(QueueOf(msgs, queued, user), limit)
  {
    var q := NewestFirst(msgs, QueuedFor(queued, user));
    ListingSize(msgs, QueuedFor(queued, user), q);
    var ms := QueueOf(msgs, queued, user);
    forall i | 1 <= i < |ms| ensures FiledAt(ms[i - 1].timestamp) != FiledAt(ms[i].timestamp) {
      assert q[i - 1] in q && q[i] in q;
      assert (user, q[i - 1]) in queued && (user, q[i]) in queued;
    }
    forall k: nat ensures !TieAtPageEnd(ms, limit, k) {}
    OfflinePagingExact(msgs, queued, user, limit);
  }

  /** Ties can repeat messages but never lose one: whoever is told to stop has them all. */
  lemma OfflineLosesNothing(ms: seq<MessageData>, limit: nat, k: nat)
    requires limit > 0 && !Follow(ms, limit, k).more
    ensures forall i :: 0 <= i < |ms| ==> ms[i] in Follow(ms, limit, k).got
  {
    FollowInStep(ms, limit, k);
    CursorNeverAhead(ms);
    forall i | 0 <= i < |ms| ensures ms[i] in Follow(ms, limit, k).got {
      NothingLost(ms, limit, AfterCursor(ms), k, i);
    }
  }

  // ---------- when following the offline cursor ends ----------

  ghost predicate Tied(ms: seq<MessageData>, i: nat, j: nat)
    requires i < |ms| && j < |ms|
  {
    FiledAt(ms[i].timestamp) == FiledAt(ms[j].timestamp)
  }

  lemma TieSpreads(ms: seq<MessageData>, a: nat, i: nat, b: nat)
    requires NewestFirstMessages(ms) && a <= i <= b < |ms| && Tied(ms, a, b)
    ensures Tied(ms, a, i) && Tied(ms, i, b)
  {
    if a < i { assert Newer(ms[a], ms[i]); }
    if i < b { assert Newer(ms[i], ms[b]); }
  }

  /** A tie longer than a page, with an entry behind it. */
  ghost predicate LongTie(ms: seq<MessageData>, limit: nat, f: nat) {
    f + limit + 1 < |ms| && Tied(ms, f, f + limit)
  }

  /** The server resumes right behind the first entry of a tie. */
  lemma TieStart(ms: seq<MessageData>, e: nat)
    requires e < |ms|
    ensures 1 <= AfterCursor(ms)(e) <= e + 1 && Tied(ms, AfterCursor(ms)(e) - 1, e)
  {
    var f := Find(ms, RevAt(ms, e), 0);
    CursorResumes(ms, e);
    SameRev(ms[f].timestamp, ms[e].timestamp);
  }

  lemma NotBehindTie(ms: seq<MessageData>, j: nat, e: nat)
    requires j < |ms| && e < |ms| && Tied(ms, j, e)
    ensures AfterCursor(ms)(e) <= j + 1
  {
    SameRev(ms[j].timestamp, ms[e].timestamp);
    assert RevAt(ms, j) == RevAt(ms, e);
  }

  /** No page that starts up to the second entry of a long tie resumes beyond it. */
  lemma LongTieResumes(ms: seq<MessageData>, limit: nat, f: nat, b: nat, s: nat)
    requires NewestFirstMessages(ms) && limit > 0 && LongTie(ms, limit, f)
    requires 1 <= b <= f + 1 && Tied(ms, b - 1, f) && s <= b
    ensures s + limit < |ms| && AfterCursor(ms)(s + limit - 1) <= b
  {
    var e := s + limit - 1;
    if e >= b {
      TieSpreads(ms, b - 1, e, f + limit);
      NotBehindTie(ms, b - 1, e);
    } else {
      TieStart(ms, e);
    }
  }

  lemma LongTieTraps(ms: seq<MessageData>, limit: nat, f: nat)
    requires NewestFirstMessages(ms) && limit > 0 && LongTie(ms, limit, f)
    ensures Trap(|ms|, limit, AfterCursor(ms), AfterCursor(ms)(f))
  {
    var b := AfterCursor(ms)(f);
    TieStart(ms, f);
    forall s: nat | s <= b ensures s + limit < |ms| && Resumes(limit, AfterCursor(ms), s) <= b {
      LongTieResumes(ms, limit, f, b, s);
    }
  }

  lemma NoLongTieAdvances(ms: seq<MessageData>, limit: nat)
    requires NewestFirstMessages(ms) && limit > 0 && forall f: nat :: !LongTie(ms, limit, f)
    ensures Advancing(|ms|, limit, AfterCursor(ms))
  {
    forall s: nat | s + limit < |ms| ensures Resumes(limit, AfterCursor(ms), s) > s {
      var e := s + limit - 1;
      TieStart(ms, e);
      var f := AfterCursor(ms)(e) - 1;
      if f < s {
        TieSpreads(ms, f, s - 1, e);
        assert LongTie(ms, limit, s - 1);
      }
    }
  }

  ghost predicate Stops(ms: seq<MessageData>, limit: nat) {
    exists k: nat :: !Follow(ms, limit, k).more
  }

  lemma StopsIffEnds(ms: seq<MessageData>, limit: nat)
    requires limit > 0
    ensures Stops(ms, limit) <==> Ends(ms, limit, AfterCursor(ms))
  {
    if k: nat :| !Follow(ms, limit, k).more {
      FollowInStep(ms, limit, k);
      assert After(ms, limit, AfterCursor(ms), k).start >= |ms|;
    }
    if k: nat :| After(ms, limit, AfterCursor(ms), k).start >= |ms| {
      AfterNext(ms, limit, AfterCursor(ms), k);
      MoreToCome(ms, limit, k);
      assert !Follow(ms, limit, k + 1).more;
    }
  }

  /** Following `PullOffline` comes to an end if and only if no timestamp tie is longer than a
      page and followed by another entry. */
  lemma OfflineEndsExact(msgs: Messages, queued: Queues, user: string, limit: nat)
    requires Good(msgs, queued) && limit > 0
    ensures var ms := QueueOf(msgs, queued, user);
      Stops(ms, limit) <==> !(exists f: nat :: LongTie(ms, limit, f))
  {
    var ms := QueueOf(msgs, queued, user);
    ListingMessages(msgs, QueuedFor(queued, user));
    StopsIffEnds(ms, limit);
    if f: nat :| LongTie(ms, limit, f) {
      LongTieTraps(ms, limit, f);
      TrapNeverEnds(ms, limit, AfterCursor(ms), AfterCursor(ms)(f));
    } else {
      NoLongTieAdvances(ms, limit);
      AdvancingEnds(ms, limit, AfterCursor(ms));
    }
  }

  /** A walk without end: three or more messages filed at one time and one message per page. */
  lemma {:induction false} TiesNeverFinish(ms: seq<MessageData>, k: nat)
    requires |ms| >= 3 && forall i :: 0 <= i < |ms| ==> RevAt(ms, i) == RevAt(ms, 0)
    ensures var w := Follow(ms, 1, k); w.more && (k > 0 ==> w.cursor == RevAt(ms, 0))
  {
    if k > 0 {
      TiesNeverFinish(ms, k - 1);
      assert RevAt(ms, 0) != "";
      assert Find(ms, RevAt(ms, 0), 0) == 0;
    }
  }

  // ---------- paging through history ----------

  /** First position at or after `i` with an older timestamp than `ts`. */
  ghost function FirstOlder(ms: seq<MessageData>, ts: int, i: nat): (r: nat)
    requires i <= |ms|
    ensures i <= r <= |ms|
    ensures forall j :: i <= j < r ==> FiledAt(ms[j].timestamp) >= ts
    ensures r < |ms| ==> FiledAt(ms[r].timestamp) < ts
    decreases |ms| - i
  {
    if i == |ms| || FiledAt(ms[i].timestamp) < ts then i else FirstOlder(ms, ts, i + 1)
  }

  /** Where history resumes when anchored at the message at position `e`. */
  ghost function AfterAnchor(ms: seq<MessageData>): nat -> nat {
    (e: nat) => if e < |ms| then FirstOlder(ms, ms[e].timestamp, e + 1) else e + 1
  }

  lemma SuffixListing(msgs: Messages, ids: set<string>, r: nat)
    requires Keyed(msgs) && ids <= msgs.Keys && r <= |NewestFirst(msgs, ids)|
    ensures var q := NewestFirst(msgs, ids);
      var tail := set id | id in q[r..];
      tail <= msgs.Keys && NewestFirst(msgs, tail) == q[r..]
  {
    var q := NewestFirst(msgs, ids);
    var tail := set id | id in q[r..];
    forall id | id in tail ensures id in msgs { assert id in q; }
    assert IsNewestFirst(msgs, tail, q[r..]);
    NewestFirstUnique(msgs, tail, q[r..]);
  }

  lemma AnchorSplits(ms: seq<MessageData>, e: nat, j: nat)
    requires NewestFirstMessages(ms) && e < |ms| && j < |ms| && 0 <= ms[e].timestamp <= MAX_TS
    ensures AfterAnchor(ms)(e) <= j <==> FiledAt(ms[j].timestamp) < ms[e].timestamp
  {
    var r := AfterAnchor(ms)(e);
    if r < j { assert Newer(ms[r], ms[j]); }
    if j < e { assert Newer(ms[j], ms[e]); }
  }

  lemma OlderIsSuffix(msgs: Messages, ids: set<string>, e: nat, id: string)
    requires Keyed(msgs) && InRange(msgs) && ids <= msgs.Keys && e < |NewestFirst(msgs, ids)|
    ensures var q := NewestFirst(msgs, ids);
      var ms := Fetch(msgs, q);
      id in q[AfterAnchor(ms)(e)..] <==> id in ids && FiledAt(msgs[id].timestamp) < ms[e].timestamp
  {
    var q := NewestFirst(msgs, ids);
    var ms := Fetch(msgs, q);
    ListingMessages(msgs, ids);
    var r := AfterAnchor(ms)(e);
    assert q[e] in q;
    if id in q[r..] {
      var j: nat :| r <= j < |q| && q[j] == id;
      assert id in q;
      AnchorSplits(ms, e, j);
    }
    if id in ids && FiledAt(msgs[id].timestamp) < ms[e].timestamp {
      assert id in q;
      var j: nat :| j < |q| && q[j] == id;
      AnchorSplits(ms, e, j);
      assert q[r..][j - r] == id;
    }
  }

  lemma PageOfTail(msgs: Messages, q: seq<string>, r: nat, limit: nat)
    requires r <= |q| && forall id :: id in q ==> id in msgs
    ensures var tail := q[r..];
      var head := tail[..Min(limit, |tail|)];
      (forall id :: id in head ==> id in msgs) && Fetch(msgs, head) == Page(Fetch(msgs, q), limit, r)
  {
    var head := q[r..][..Min(limit, |q| - r)];
    forall id | id in head ensures id in msgs { assert id in q; }
  }

  /** The page anchored at the message at position `e` is the listing from `AfterAnchor(e)` on. */
  lemma HistoryPage(msgs: Messages, conversation: string, e: nat, limit: nat)
    requires Keyed(msgs) && InRange(msgs) && conversation != "" && limit > 0
    requires e < |NewestFirst(msgs, InTimeline(msgs, conversation))|
    ensures var ms := Fetch(msgs, NewestFirst(msgs, InTimeline(msgs, conversation)));
      History(msgs, conversation, ms[e].msgId, limit) == Page(ms, limit, AfterAnchor(ms)(e))
  {
    var ids := InTimeline(msgs, conversation);
    var q := NewestFirst(msgs, ids);
    var ms := Fetch(msgs, q);
    var before := q[e];
    assert q[e] in q && ms[e].msgId == before;
    var r := AfterAnchor(ms)(e);
    var older := HistoryIds(msgs, conversation, before);
    forall id ensures id in older <==> id in q[r..] {
      OlderIsSuffix(msgs, ids, e, id);
    }
    assert older == set id | id in q[r..];
    SuffixListing(msgs, ids, r);
    PageOfTail(msgs, q, r, limit);
  }

  datatype Scroll = Scroll(got: seq<MessageData>, last: string, more: bool)

  ghost function Turn(w: Scroll, page: seq<MessageData>, limit: nat): Scroll {
    Scroll(w.got + page, if page == [] then w.last else page[|page| - 1].msgId, |page| == limit)
  }

  ghost function ScrollOn(pageBefore: string -> seq<MessageData>, limit: nat, w: Scroll): Scroll {
    if w.more then Turn(w, pageBefore(w.last), limit) else w
  }

  ghost function Scroller(pageBefore: string -> seq<MessageData>, limit: nat): Scroll -> Scroll {
    (w: Scroll) => ScrollOn(pageBefore, limit, w)
  }

  /** A client that asks for the page before the last message it holds, until a page is short. */
  ghost function ScrollBack(pageBefore: string -> seq<MessageData>, limit: nat, k: nat): Scroll {
    Rounds(Scroller(pageBefore, limit), Scroll([], "", true), k)
  }

  /** `GetHistory` on one conversation, as the client uses it. */
  ghost function HistoryPages(msgs: Messages, conversation: string, limit: nat): string -> seq<MessageData>
    requires Keyed(msgs)
  {
    (last: string) => History(msgs, conversation, last, limit)
  }

  ghost function TimelineOf(msgs: Messages, conversation: string): seq<MessageData>
    requires Keyed(msgs)
  {
    Fetch(msgs, NewestFirst(msgs, InTimeline(msgs, conversation)))
  }

  /** `last` names the message at position `e` (none yet when `e` is negative) and history
      anchored there resumes at `s`. */
  ghost predicate Anchored(ms: seq<MessageData>, next: nat -> nat, last: string, s: nat, e: int) {
    if e < 0 then last == "" && s == 0
    else e < |ms| && ms[e].msgId == last && next(e) == s
  }

  ghost predicate ScrollInStep(ms: seq<MessageData>, next: nat -> nat, w: Scroll, c: Client<MessageData>, e: int) {
    && w.got == c.got
    && (w.more ==> Anchored(ms, next, w.last, c.start, e))
    && (!w.more ==> c.start >= |ms|)
  }

  lemma AnchoredPage(msgs: Messages, conversation: string, last: string, s: nat, limit: nat, e: int)
    requires Keyed(msgs) && InRange(msgs) && conversation != "" && limit > 0
    requires Anchored(TimelineOf(msgs, conversation), AfterAnchor(TimelineOf(msgs, conversation)), last, s, e)
    ensures History(msgs, conversation, last, limit) == Page(TimelineOf(msgs, conversation), limit, s)
    ensures s <= |TimelineOf(msgs, conversation)|
  {
    if e >= 0 {
      HistoryPage(msgs, conversation, e, limit);
    } else {
      var q := NewestFirst(msgs, InTimeline(msgs, conversation));
      PageOfTail(msgs, q, 0, limit);
      assert q[0..] == q;
    }
  }

  lemma FullPageEnd(ms: seq<MessageData>, limit: nat, s: nat)
    requires limit > 0 && s + limit <= |ms|
    ensures var p := Page(ms, limit, s); |p| == limit && p[limit - 1] == ms[s + limit - 1]
  {
    PageExtends(ms, limit, s);
  }

  ghost predicate EndsAtEnd(n: nat, next: nat -> nat) {
    n > 0 ==> next(n - 1) == n
  }

  lemma TurnInStep(ms: seq<MessageData>, limit: nat, next: nat -> nat, w: Scroll, c: Client<MessageData>)
    requires limit > 0 && EndsAtEnd(|ms|, next) && w.got == c.got && c.start <= |ms|
    ensures ScrollInStep(ms, next, Turn(w, Page(ms, limit, c.start), limit),
                         Paging.TakePage(ms, limit, next, c), c.start + limit - 1)
  {
    if c.start + limit <= |ms| {
      FullPageEnd(ms, limit, c.start);
    } else {
      assert |Page(ms, limit, c.start)| < limit;
    }
  }

  /** The pages served are the listing's pages behind the anchor. */
  ghost predicate Serves(pageBefore: string -> seq<MessageData>, limit: nat, ms: seq<MessageData>, next: nat -> nat) {
    && EndsAtEnd(|ms|, next)
    && forall last, s: nat, e :: Anchored(ms, next, last, s, e) ==> s <= |ms| && pageBefore(last) == Page(ms, limit, s)
  }

  lemma HistoryServes(msgs: Messages, conversation: string, limit: nat)
    requires Keyed(msgs) && InRange(msgs) && conversation != "" && limit > 0
    ensures var ms := TimelineOf(msgs, conversation);
      Serves(HistoryPages(msgs, conversation, limit), limit, ms, AfterAnchor(ms))
  {
    var ms := TimelineOf(msgs, conversation);
    forall last, s: nat, e | Anchored(ms, AfterAnchor(ms), last, s, e)
      ensures s <= |ms| && HistoryPages(msgs, conversation, limit)(last) == Page(ms, limit, s)
    {
      AnchoredPage(msgs, conversation, last, s, limit, e);
    }
  }

  lemma ScrollStep(pageBefore: string -> seq<MessageData>, limit: nat, ms: seq<MessageData>, next: nat -> nat,
                   w: Scroll, c: Client<MessageData>, e: int)
    requires limit > 0 && Serves(pageBefore, limit, ms, next) && ScrollInStep(ms, next, w, c, e)
    ensures ScrollInStep(ms, next, ScrollOn(pageBefore, limit, w),
                         Paging.TakePage(ms, limit, next, c), c.start + limit - 1)
  {
    if w.more {
      assert pageBefore(w.last) == Page(ms, limit, c.start);
      TurnInStep(ms, limit, next, w, c);
    }
  }

  ghost predicate Together(ms: seq<MessageData>, next: nat -> nat, w: Scroll, c: Client<MessageData>) {
    exists e :: ScrollInStep(ms, next, w, c, e)
  }

  lemma ScrollsInStep(pageBefore: string -> seq<MessageData>, limit: nat, k: nat, ms: seq<MessageData>,
      next: nat -> nat)
      returns (e: int)
    requires limit > 0 && Serves(pageBefore, limit, ms, next)
    ensures ScrollInStep(ms, next, ScrollBack(pageBefore, limit, k), After(ms, limit, next, k), e)
  {
    var scroller, pager := Scroller(pageBefore, limit), Pager(ms, limit, next);
    var rel := (w: Scroll, c: Client<MessageData>) => Together(ms, next, w, c);
    forall w, c ensures Simulates(scroller, pager, rel, w, c) {
      if Together(ms, next, w, c) {
        var e' :| ScrollInStep(ms, next, w, c, e');
        ScrollStep(pageBefore, limit, ms, next, w, c, e');
      }
    }
    assert ScrollInStep(ms, next, Scroll([], "", true), Client(0, []), -1);
    InStepForever(scroller, Scroll([], "", true), pager, Client(0, []), rel, k);
    e :| ScrollInStep(ms, next, ScrollBack(pageBefore, limit, k), After(ms, limit, next, k), e);
  }

  ghost predicate ScrolledAll(ms: seq<MessageData>, w: Scroll) {
    !w.more && w.got == ms
  }

  /** The client stops holding the whole listing, each message once, newest first. */
  ghost predicate ScrollsThrough(pageBefore: string -> seq<MessageData>, limit: nat, ms: seq<MessageData>) {
    exists k: nat :: ScrolledAll(ms, ScrollBack(pageBefore, limit, k))
  }

  lemma ScrollsIffSees(pageBefore: string -> seq<MessageData>, limit: nat, ms: seq<MessageData>, next: nat -> nat)
    requires limit > 0 && Serves(pageBefore, limit, ms, next)
    ensures ScrollsThrough(pageBefore, limit, ms) <==> SeesAllOnce(ms, limit, next)
  {
    if k: nat :| ScrolledAll(ms, ScrollBack(pageBefore, limit, k)) {
      var e := ScrollsInStep(pageBefore, limit, k, ms, next);
      assert Complete(ms, After(ms, limit, next, k));
    }
    if k: nat :| Complete(ms, After(ms, limit, next, k)) {
      var e := ScrollsInStep(pageBefore, limit, k, ms, next);
      var w := ScrollBack(pageBefore, limit, k);
      if w.more {
        assert pageBefore(w.last) == [];
        assert ScrolledAll(ms, ScrollBack(pageBefore, limit, k + 1));
      } else {
        assert ScrolledAll(ms, w);
      }
    }
  }

  /** No page boundary splits a timestamp tie. */
  ghost predicate NoTieAcrossPages(ms: seq<MessageData>, limit: nat) {
    forall k: nat :: 0 < Cut(limit, k) < |ms| ==> ms[Cut(limit, k) - 1].timestamp != ms[Cut(limit, k)].timestamp
  }

  lemma AnchorIsClean(ms: seq<MessageData>, e: nat)
    requires NewestFirstMessages(ms) && e + 1 < |ms|
    requires 0 <= ms[e].timestamp <= MAX_TS && 0 <= ms[e + 1].timestamp <= MAX_TS
    ensures AfterAnchor(ms)(e) == e + 1 <==> ms[e].timestamp != ms[e + 1].timestamp
  {
    assert Newer(ms[e], ms[e + 1]);
  }

  lemma CleanIffNoSplit(ms: seq<MessageData>, limit: nat)
    requires limit > 0 && NewestFirstMessages(ms)
    requires forall i :: 0 <= i < |ms| ==> 0 <= ms[i].timestamp <= MAX_TS
    ensures CleanCuts(|ms|, limit, AfterAnchor(ms)) <==> NoTieAcrossPages(ms, limit)
  {
    forall k: nat ensures CleanCut(|ms|, limit, AfterAnchor(ms), k) <==>
      (0 < Cut(limit, k) < |ms| ==> ms[Cut(limit, k) - 1].timestamp != ms[Cut(limit, k)].timestamp)
    {
      if 0 < Cut(limit, k) < |ms| { AnchorIsClean(ms, Cut(limit, k) - 1); }
    }
    if CleanCuts(|ms|, limit, AfterAnchor(ms)) {
      forall k: nat | 0 < Cut(limit, k) < |ms|
        ensures ms[Cut(limit, k) - 1].timestamp != ms[Cut(limit, k)].timestamp
      {
        assert CleanCut(|ms|, limit, AfterAnchor(ms), k);
      }
    }
  }

  /** Scrolling back through a conversation shows it exactly once if and only if no page
      boundary splits a timestamp tie. */
  lemma HistoryPagingExact(msgs: Messages, conversation: string, limit: nat)
    requires Keyed(msgs) && InRange(msgs) && conversation != "" && limit > 0
    ensures var ms := TimelineOf(msgs, conversation);
      ScrollsThrough(HistoryPages(msgs, conversation, limit), limit, ms) <==> NoTieAcrossPages(ms, limit)
  {
    var ms := TimelineOf(msgs, conversation);
    ListingMessages(msgs, InTimeline(msgs, conversation));
    HistoryServes(msgs, conversation, limit);
    PagingExact(ms, limit, AfterAnchor(ms));
    ScrollsIffSees(HistoryPages(msgs, conversation, limit), limit, ms, AfterAnchor(ms));
    CleanIffNoSplit(ms, limit);
  }

  /** Ties can drop messages from history but never repeat one. */
  lemma HistoryRepeatsNothing(msgs: Messages, conversation: string, limit: nat, k: nat)
    requires Keyed(msgs) && InRange(msgs) && conversation != "" && limit > 0
    ensures Distinct(ScrollBack(HistoryPages(msgs, conversation, limit), limit, k).got)
  {
    var ms := TimelineOf(msgs, conversation);
    ListingMessages(msgs, InTimeline(msgs, conversation));
    HistoryServes(msgs, conversation, limit);
    AnchorNeverBack(ms);
    ScrolledDistinct(HistoryPages(msgs, conversation, limit), limit, k, ms, AfterAnchor(ms));
  }

  lemma AnchorNeverBack(ms: seq<MessageData>)
    ensures NeverBack(AfterAnchor(ms))
  {
  }

  // ---------- what scrolling back never shows ----------

  ghost predicate NeverShown(pageBefore: string -> seq<MessageData>, limit: nat, m: MessageData) {
    forall k: nat :: m !in ScrollBack(pageBefore, limit, k).got
  }

  lemma NeverShownIffNeverSeen(
      pageBefore: string -> seq<MessageData>, limit: nat, ms: seq<MessageData>, next: nat -> nat, i: nat)
    requires limit > 0 && Serves(pageBefore, limit, ms, next) && i < |ms|
    ensures NeverShown(pageBefore, limit, ms[i]) <==> NeverSeen(ms, limit, next, i)
  {
    forall k: nat ensures ScrollBack(pageBefore, limit, k).got == After(ms, limit, next, k).got {
      var e := ScrollsInStep(pageBefore, limit, k, ms, next);
    }
  }

  /** Scrolling back leaves out a message of the conversation for good if and only if some
      page boundary splits a timestamp tie. */
  lemma HistoryLossExact(msgs: Messages, conversation: string, limit: nat)
    requires Keyed(msgs) && InRange(msgs) && conversation != "" && limit > 0
    ensures var ms := TimelineOf(msgs, conversation);
      (exists i: nat :: i < |ms| && NeverShown(HistoryPages(msgs, conversation, limit), limit, ms[i]))
      <==> !NoTieAcrossPages(ms, limit)
  {
    var ms, pages := TimelineOf(msgs, conversation), HistoryPages(msgs, conversation, limit);
    ListingMessages(msgs, InTimeline(msgs, conversation));
    HistoryServes(msgs, conversation, limit);
    AnchorNeverBack(ms);
    LossExact(ms, limit, AfterAnchor(ms));
    CleanIffNoSplit(ms, limit);
    forall i: nat | i < |ms| ensures NeverShown(pages, limit, ms[i]) <==> NeverSeen(ms, limit, AfterAnchor(ms), i) {
      NeverShownIffNeverSeen(pages, limit, ms, AfterAnchor(ms), i);
    }
    if i: nat :| NeverSeen(ms, limit, AfterAnchor(ms), i) { assert i < |ms| && NeverShown(pages, limit, ms[i]); }
  }

  /** Two messages of one moment in a conversation, read one at a time: one is never shown. */
  lemma TwinNeverShown(a: MessageData, b: MessageData, conversation: string)
    requires a.msgId != "" && b.msgId != "" && a.msgId != b.msgId && conversation != "" && NoColon(conversation)
    requires Timeline(a) == conversation == Timeline(b) && 0 <= a.timestamp == b.timestamp <= MAX_TS
    ensures
      var msgs: Messages := map[a.msgId := a, b.msgId := b];
      var ms := TimelineOf(msgs, conversation);
      exists i: nat :: i < |ms| && NeverShown(HistoryPages(msgs, conversation, 1), 1, ms[i])
  {
    var msgs: Messages := map[a.msgId := a, b.msgId := b];
    var ids, ms := InTimeline(msgs, conversation), TimelineOf(msgs, conversation);
    assert ids == {a.msgId, b.msgId};
    ListingSize(msgs, ids, NewestFirst(msgs, ids));
    assert |ms| == 2;
    TiedAtTheCut(msgs, conversation);
    HistoryLossExact(msgs, conversation, 1);
  }

  lemma TiedAtTheCut(msgs: Messages, conversation: string)
    requires Keyed(msgs) && |TimelineOf(msgs, conversation)| == 2
    requires forall i, j :: i in msgs && j in msgs ==> msgs[i].timestamp == msgs[j].timestamp
    ensures !NoTieAcrossPages(TimelineOf(msgs, conversation), 1)
  {
    var q, ms := NewestFirst(msgs, InTimeline(msgs, conversation)), TimelineOf(msgs, conversation);
    assert q[0] in q && q[1] in q && ms[0] == msgs[q[0]] && ms[1] == msgs[q[1]];
    assert Cut(1, 1) == Cut(1, 0) + 1 == 1;
  }

  /** Scrolling back always comes to an end. */
  lemma HistoryAlwaysStops(msgs: Messages, conversation: string, limit: nat)
    requires Keyed(msgs) && InRange(msgs) && conversation != "" && limit > 0
    ensures exists k: nat :: !ScrollBack(HistoryPages(msgs, conversation, limit), limit, k).more
  {
    var ms, pages := TimelineOf(msgs, conversation), HistoryPages(msgs, conversation, limit);
    HistoryServes(msgs, conversation, limit);
    AnchorAdvances(ms, limit);
    ScrollStops(pages, limit, ms, AfterAnchor(ms));
  }

  lemma AnchorAdvances(ms: seq<MessageData>, limit: nat)
    requires limit > 0
    ensures Advancing(|ms|, limit, AfterAnchor(ms))
  {
    AnchorNeverBack(ms);
  }

  lemma ScrollStops(pageBefore: string -> seq<MessageData>, limit: nat, ms: seq<MessageData>, next: nat -> nat)
    requires limit > 0 && Serves(pageBefore, limit, ms, next) && Advancing(|ms|, limit, next)
    ensures exists k: nat :: !ScrollBack(pageBefore, limit, k).more
  {
    AdvancingEnds(ms, limit, next);
    var k: nat :| After(ms, limit, next, k).start >= |ms|;
    var e := ScrollsInStep(pageBefore, limit, k, ms, next);
    var w := ScrollBack(pageBefore, limit, k);
    if w.more {
      assert pageBefore(w.last) == [];
      assert !ScrollBack(pageBefore, limit, k + 1).more;
    }
  }

  lemma ScrolledDistinct(pageBefore: string -> seq<MessageData>, limit: nat, k: nat, ms: seq<MessageData>,
      next: nat -> nat)
    requires limit > 0 && Serves(pageBefore, limit, ms, next) && Distinct(ms) && NeverBack(next)
    ensures Distinct(ScrollBack(pageBefore, limit, k).got)
  {
    var e := ScrollsInStep(pageBefore, limit, k, ms, next);
    NothingRepeated(ms, limit, next, k);
  }
}
