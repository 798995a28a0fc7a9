/**
 Key layout of the message store.  Timeline and offline entries are the keys
 `chat:{conversation}:{rev_ts}:{msg_id}` and `offline:{user}:{rev_ts}:{msg_id}`,
 where `rev_ts` is MAX_TS minus the timestamp in thirteen zero-padded digits, so
 that bytewise order is newest first.
 */
module MessageKeys {
  import opened OrderedKeys
  import opened Collections

  const MAX_TS: int := 9999999999999

  ghost predicate NoColon(id: string) {
    ':' !in id
  }

  // ---------- fixed-width decimal numbers ----------

  function Pow10(w: nat): nat {
    if w == 0 then 1 else 10 * Pow10(w - 1)
  }

  function DigitChar(d: nat): char
    requires d < 10
  {
    '0' + d as char
  }

  /** `%0{w}d` for a number of at most `w` digits. */
  function Digits(n: nat, w: nat): (s: string)
    ensures |s| == w
  {
    if w == 0 then [] else Digits(n / 10, w - 1) + [DigitChar(n % 10)]
  }

  predicate AllDigits(s: string) {
    forall i :: 0 <= i < |s| ==> '0' <= s[i] <= '9'
  }

  function Value(s: string): nat
    requires AllDigits(s)
  {
    if s == [] then 0
    else 10 * Value(s[..|s| - 1]) + (s[|s| - 1] - '0') as nat
  }

  /** `std::stoll` on a string of digits; anything else is a parse failure here. */
  function Stoll(s: string): Option<nat> {
    if s != [] && AllDigits(s) then Some(Value(s)) else None
  }

  lemma {:induction false} DigitsRoundTrip(n: nat, w: nat)
    requires n < Pow10(w)
    ensures AllDigits(Digits(n, w)) && Value(Digits(n, w)) == n
  {
    if w > 0 {
      DigitsRoundTrip(n / 10, w - 1);
      var s := Digits(n, w);
      assert s[..w - 1] == Digits(n / 10, w - 1);
    }
  }

  /** Zero padding makes bytewise order numeric order. */
  lemma {:induction false} DigitsOrder(n: nat, m: nat, w: nat)
    requires n < Pow10(w) && m < Pow10(w)
    ensures Less(Digits(n, w), Digits(m, w)) <==> n < m
    ensures Digits(n, w) == Digits(m, w) <==> n == m
  {
    DigitsRoundTrip(n, w);
    DigitsRoundTrip(m, w);
    if w > 0 {
      DigitsOrder(n / 10, m / 10, w - 1);
      LessFixedWidth(Digits(n / 10, w - 1), Digits(m / 10, w - 1), [DigitChar(n % 10)], [DigitChar(m % 10)]);
    }
  }

  lemma Pow10Of13()
    ensures Pow10(13) == MAX_TS + 1
  {
    assert Pow10(4) == 10000;
    assert Pow10(8) == 100000000;
    assert Pow10(12) == 1000000000000;
  }

  // ---------- keys ----------

  function RevNum(timestamp: int): (rev: nat)
    ensures rev <= MAX_TS
  {
    if timestamp <= 0 || timestamp > MAX_TS then MAX_TS else MAX_TS - timestamp
  }

  /** The timestamp a stored key stands for: out-of-range ones are filed as oldest. */
  function FiledAt(timestamp: int): (t: nat)
    ensures t == MAX_TS - RevNum(timestamp)
    ensures 0 <= timestamp <= MAX_TS ==> t == timestamp
  {
    if timestamp <= 0 || timestamp > MAX_TS then 0 else timestamp
  }

  /** Timestamps that do not fit the key are filed as the oldest. */
  lemma OutOfRangeIsOldest(timestamp: int)
    ensures timestamp < 0 || timestamp > 9999999999999 ==> FiledAt(timestamp) == 0
    ensures 0 <= timestamp <= 9999999999999 ==> FiledAt(timestamp) == timestamp
  {
  }

  function RevTs(timestamp: int): (s: string)
    ensures |s| == 13
  {
    Digits(RevNum(timestamp), 13)
  }

  function KeyMsg(msgId: string): string { "msg:" + msgId }

  function PrefixChat(conversation: string): string { "chat:" + conversation + ":" }

  function PrefixOffline(user: string): string { "offline:" + user + ":" }

  /** A timeline or offline key under its prefix. */
  function Entry(prefix: string, timestamp: int, msgId: string): string {
    prefix + RevTs(timestamp) + ":" + msgId
  }

  function KeyChat(conversation: string, timestamp: int, msgId: string): string {
    Entry(PrefixChat(conversation), timestamp, msgId)
  }

  function KeyOffline(user: string, timestamp: int, msgId: string): string {
    Entry(PrefixOffline(user), timestamp, msgId)
  }

  /** `ParseChatKey` and `ParseOfflineKey`: (rev_ts, msg_id), both empty for a short key. */
  function ParseKey(key: string, prefix: string): (string, string) {
    var pos := |prefix|;
    if |key| <= pos + 13 + 1 then ("", "") else (key[pos..pos + 13], key[pos + 14..])
  }

  lemma RevTsValue(timestamp: int)
    ensures Stoll(RevTs(timestamp)) == Some(RevNum(timestamp))
  {
    Pow10Of13();
    DigitsRoundTrip(RevNum(timestamp), 13);
  }

  /** Parsing inverts the key builder. */
  lemma EntryRoundTrip(prefix: string, timestamp: int, msgId: string)
    requires msgId != ""
    ensures StartsWith(Entry(prefix, timestamp, msgId), prefix)
    ensures ParseKey(Entry(prefix, timestamp, msgId), prefix) == (RevTs(timestamp), msgId)
  {
    var key := Entry(prefix, timestamp, msgId);
    var pos := |prefix|;
    assert key[pos..pos + 13] == RevTs(timestamp);
    assert key[pos + 14..] == msgId;
  }

  /** Bytewise key order is newest first, then by message id. */
  lemma EntryOrder(prefix: string, t1: int, id1: string, t2: int, id2: string)
    ensures Less(Entry(prefix, t1, id1), Entry(prefix, t2, id2))
       <==> FiledAt(t1) > FiledAt(t2) || (FiledAt(t1) == FiledAt(t2) && Less(id1, id2))
  {
    EntryTail(prefix, t1, id1);
    EntryTail(prefix, t2, id2);
    LessCommonPrefix(prefix, RevTs(t1) + (":" + id1), RevTs(t2) + (":" + id2));
    LessFixedWidth(RevTs(t1), RevTs(t2), ":" + id1, ":" + id2);
    LessCommonPrefix(":", id1, id2);
    RevTsOrder(t1, t2);
  }

  lemma EntryTail(prefix: string, timestamp: int, msgId: string)
    ensures Entry(prefix, timestamp, msgId) == prefix + (RevTs(timestamp) + (":" + msgId))
  {
  }

  lemma RevTsOrder(t1: int, t2: int)
    ensures Less(RevTs(t1), RevTs(t2)) <==> FiledAt(t1) > FiledAt(t2)
    ensures RevTs(t1) == RevTs(t2) <==> FiledAt(t1) == FiledAt(t2)
  {
    Pow10Of13();
    DigitsOrder(RevNum(t1), RevNum(t2), 13);
  }

  /** A colon-free owner is recovered from any key built from it. */
  lemma {:induction false} OwnerUnique(a: string, b: string, x: string)
    requires NoColon(a) && NoColon(b)
    requires StartsWith(a + ":" + x, b + ":")
    ensures a == b
  {
    if a == [] || b == [] {
      assert (a + ":" + x)[0] == (b + ":")[0];
    } else {
      assert (a + ":" + x)[0] == (b + ":")[0];
      assert (a + ":" + x)[1..] == a[1..] + ":" + x && (b + ":")[1..] == b[1..] + ":";
      OwnerUnique(a[1..], b[1..], x);
      assert a == [a[0]] + a[1..] && b == [b[0]] + b[1..];
    }
  }

  lemma ChatPrefixUnique(c: string, d: string, timestamp: int, msgId: string)
    requires NoColon(c) && NoColon(d)
    ensures StartsWith(KeyChat(c, timestamp, msgId), PrefixChat(d)) <==> c == d
  {
    var rest := RevTs(timestamp) + ":" + msgId;
    var key := KeyChat(c, timestamp, msgId);
    assert key == "chat:" + (c + ":" + rest);
    if StartsWith(key, PrefixChat(d)) {
      assert PrefixChat(d) == "chat:" + (d + ":");
      assert key[5..] == c + ":" + rest && PrefixChat(d)[5..] == d + ":";
      OwnerUnique(c, d, rest);
    }
  }

  lemma OfflinePrefixUnique(u: string, v: string, timestamp: int, msgId: string)
    requires NoColon(u) && NoColon(v)
    ensures StartsWith(KeyOffline(u, timestamp, msgId), PrefixOffline(v)) <==> u == v
  {
    var rest := RevTs(timestamp) + ":" + msgId;
    var key := KeyOffline(u, timestamp, msgId);
    assert key == "offline:" + (u + ":" + rest);
    if StartsWith(key, PrefixOffline(v)) {
      assert PrefixOffline(v) == "offline:" + (v + ":");
      assert key[8..] == u + ":" + rest && PrefixOffline(v)[8..] == v + ":";
      OwnerUnique(u, v, rest);
    }
  }

  /** The three tables never overlap. */
  lemma TablesApart(a: string, b: string, timestamp: int, msgId: string)
    ensures !StartsWith(KeyMsg(a), PrefixChat(b)) && !StartsWith(KeyMsg(a), PrefixOffline(b))
    ensures !StartsWith(KeyOffline(a, timestamp, msgId), PrefixChat(b))
    ensures !StartsWith(KeyChat(a, timestamp, msgId), PrefixOffline(b))
  {
    assert KeyMsg(a)[0] == 'm' && KeyChat(a, timestamp, msgId)[0] == 'c' && KeyOffline(a, timestamp, msgId)[0] == 'o';
    assert PrefixChat(b)[0] == 'c' && PrefixOffline(b)[0] == 'o';
  }
}
