/**
 RocksDB as the services use it: a set of byte-string keys visited in bytewise
 order from a `Seek` position.  The results here are what every prefix scan of
 the stores rests on: keys sharing a prefix are contiguous, and the scan that
 starts at `Seek(prefix)` and breaks on the first foreign key visits exactly
 the keys with that prefix, ordered by what follows the prefix.
 */
module OrderedKeys {

  /** RocksDB's default bytewise comparator. */
  predicate Less(a: string, b: string) {
    if a == [] then b != []
    else b != [] && (a[0] < b[0] || (a[0] == b[0] && Less(a[1..], b[1..])))
  }

  predicate StartsWith(key: string, prefix: string) {
    prefix <= key
  }

  ghost predicate StrictlySorted(ks: seq<string>) {
    forall i, j :: 0 <= i < j < |ks| ==> Less(ks[i], ks[j])
  }

  lemma {:induction false} LessTotal(a: string, b: string)
    ensures Less(a, b) || a == b || Less(b, a)
    ensures !(Less(a, b) && Less(b, a)) && !Less(a, a)
  {
    if a != [] && b != [] && a[0] == b[0] {
      LessTotal(a[1..], b[1..]);
      LessTotal(a[1..], a[1..]);
      assert a == [a[0]] + a[1..] && b == [b[0]] + b[1..];
    } else if a != [] {
      LessTotal(a[1..], a[1..]);
    }
  }

  lemma {:induction false} LessTransitive(a: string, b: string, c: string)
    requires Less(a, b) && Less(b, c)
    ensures Less(a, c)
  {
    if a != [] && a[0] == b[0] == c[0] {
      LessTransitive(a[1..], b[1..], c[1..]);
    }
  }

  lemma {:induction false} LessCommonPrefix(p: string, a: string, b: string)
    ensures Less(p + a, p + b) <==> Less(a, b)
  {
    if p == [] {
      assert p + a == a && p + b == b;
    } else {
      assert (p + a)[1..] == p[1..] + a && (p + b)[1..] == p[1..] + b;
      LessCommonPrefix(p[1..], a, b);
    }
  }

  /** With first fields of equal width, the order is field by field. */
  lemma {:induction false} LessFixedWidth(a: string, b: string, x: string, y: string)
    requires |a| == |b|
    ensures Less(a + x, b + y) <==> Less(a, b) || (a == b && Less(x, y))
  {
    if a == [] {
      assert a + x == x && b + y == y;
    } else {
      assert (a + x)[1..] == a[1..] + x && (b + y)[1..] == b[1..] + y;
      assert a == [a[0]] + a[1..] && b == [b[0]] + b[1..];
      LessFixedWidth(a[1..], b[1..], x, y);
    }
  }

  lemma {:induction false} PrefixNotBefore(key: string, p: string)
    requires StartsWith(key, p)
    ensures !Less(key, p)
  {
    if p != [] {
      PrefixNotBefore(key[1..], p[1..]);
    }
  }

  /** Once past the prefix block, no later key has the prefix: the early `break` is safe. */
  lemma {:induction false} PrefixGap(p: string, k: string, l: string)
    requires !Less(k, p) && !StartsWith(k, p) && Less(k, l)
    ensures !StartsWith(l, p)
  {
    if StartsWith(l, p) && k[0] == p[0] {
      PrefixGap(p[1..], k[1..], l[1..]);
    }
  }

  ghost predicate IsLeast(m: string, s: set<string>) {
    m in s && forall x :: x in s ==> x == m || Less(m, x)
  }

  lemma {:induction false} LeastExists(s: set<string>) returns (m: string)
    requires s != {}
    ensures IsLeast(m, s)
  {
    m :| m in s;
    var rest := s - {m};
    if rest == {} {
      assert forall x :: x in s ==> x == m || x in rest;
    } else {
      var n := LeastExists(rest);
      LessTotal(m, n);
      if Less(m, n) {
        forall x | x in s ensures x == m || Less(m, x) {
          if x != m && x != n {
            assert x in rest;
            LessTransitive(m, n, x);
          }
        }
      } else {
        forall x | x in s ensures x == n || Less(n, x) {
          assert x == m || x in rest;
        }
        m := n;
      }
    }
  }

  /** The order in which an iterator over a database with these keys visits them. */
  ghost function SortedOf(s: set<string>): (ks: seq<string>)
    ensures StrictlySorted(ks)
    ensures forall k :: k in ks <==> k in s
    ensures |ks| == |s|
    decreases |s|
  {
    if s == {} then []
    else
      var m := Least(s);
      var rest := SortedOf(s - {m});
      assert forall i :: 0 <= i < |rest| ==> rest[i] in rest;
      [m] + rest
  }

  ghost function Least(s: set<string>): (m: string)
    requires s != {}
    ensures IsLeast(m, s)
  {
    assert exists m :: IsLeast(m, s) by { var m := LeastExists(s); }
    var m :| IsLeast(m, s);
    m
  }

  /** Strictly sorted sequences with the same elements are equal. */
  lemma {:induction false} SortedUnique(a: seq<string>, b: seq<string>)
    requires StrictlySorted(a) && StrictlySorted(b)
    requires forall k :: k in a <==> k in b
    ensures a == b
  {
    if a == [] {
      assert forall i :: 0 <= i < |b| ==> b[i] !in a;
    } else {
      assert a[0] in b && b != [] && b[0] in a;
      var i :| 0 <= i < |b| && b[i] == a[0];
      var j :| 0 <= j < |a| && a[j] == b[0];
      LessTotal(a[0], b[0]);
      assert i == 0;
      forall k ensures k in a[1..] <==> k in b[1..] {
        LessTotal(a[0], a[0]);
        assert a == [a[0]] + a[1..] && b == [b[0]] + b[1..];
        if k in a[1..] { assert k in a; assert Less(a[0], k); assert k in b; }
        if k in b[1..] { assert k in b; assert Less(b[0], k); assert k in a; }
      }
      SortedUnique(a[1..], b[1..]);
      assert a == [a[0]] + a[1..] && b == [b[0]] + b[1..];
    }
  }


  /** A snapshot iterator: the database's keys in visiting order. */
  method NewIterator(keys: set<string>) returns (ks: seq<string>)
    ensures ks == SortedOf(keys)
  {
    ks := [];
    var rest := keys;
    while rest != {}
      invariant StrictlySorted(ks)
      invariant rest <= keys && forall k :: k in ks <==> k in keys - rest
    {
      var k :| k in rest;
      rest := rest - {k};
      ks := Insert(ks, k);
    }
    SortedUnique(ks, SortedOf(keys));
  }

  function Insert(ks: seq<string>, k: string): (r: seq<string>)
    requires StrictlySorted(ks) && k !in ks
    ensures StrictlySorted(r)
    ensures forall x :: x in r <==> x in ks || x == k
  {
    if ks == [] then [k]
    else if Less(k, ks[0]) then
      assert StrictlySorted([k] + ks) by {
        forall i | 0 < i < |ks| ensures Less(k, ks[i]) { LessTransitive(k, ks[0], ks[i]); }
      }
      [k] + ks
    else
      var rest := Insert(ks[1..], k);
      assert Less(ks[0], k) by { LessTotal(ks[0], k); }
      assert forall i :: 0 <= i < |rest| ==> rest[i] in rest;
      assert forall x :: x in ks <==> x == ks[0] || x in ks[1..];
      [ks[0]] + rest
  }

  lemma NotLessUpward(a: string, b: string, target: string)
    requires Less(a, b) && !Less(a, target)
    ensures !Less(b, target)
  {
    if Less(b, target) { LessTransitive(a, b, target); }
  }

  /** `Iterator::Seek`: the position of the first key not before `target`. */
  function Seek(ks: seq<string>, target: string): (i: nat)
    requires StrictlySorted(ks)
    ensures i <= |ks|
    ensures forall j :: 0 <= j < i ==> Less(ks[j], target)
    ensures forall j :: i <= j < |ks| ==> !Less(ks[j], target)
  {
    if ks == [] then 0
    else if Less(ks[0], target) then
      var r := Seek(ks[1..], target);
      assert forall j :: 1 <= j < |ks| ==> ks[j] == ks[1..][j - 1];
      1 + r
    else
      assert forall j :: 0 < j < |ks| ==> !Less(ks[j], target) by {
        forall j | 0 < j < |ks| ensures !Less(ks[j], target) { NotLessUpward(ks[0], ks[j], target); }
      }
      0
  }

  /** Where a scan running from `i` meets its first foreign key. */
  ghost function ScanEnd(ks: seq<string>, p: string, i: nat): (hi: nat)
    requires i <= |ks|
    ensures i <= hi <= |ks|
    ensures forall j :: i <= j < hi ==> StartsWith(ks[j], p)
    ensures hi < |ks| ==> !StartsWith(ks[hi], p)
    decreases |ks| - i
  {
    if i < |ks| && StartsWith(ks[i], p) then ScanEnd(ks, p, i + 1) else i
  }

  /** The keys under a prefix. */
  ghost function Under(keys: set<string>, p: string): set<string> {
    set k | k in keys && StartsWith(k, p)
  }

  /** The keys a prefix scan visits: from `Seek(prefix)` up to the first foreign key. */
  ghost function Scan(ks: seq<string>, p: string): seq<string>
    requires StrictlySorted(ks)
  {
    ks[Seek(ks, p)..ScanEnd(ks, p, Seek(ks, p))]
  }

  lemma ScanBlock(ks: seq<string>, p: string, j: nat)
    requires StrictlySorted(ks) && j < |ks|
    ensures StartsWith(ks[j], p) <==> Seek(ks, p) <= j < ScanEnd(ks, p, Seek(ks, p))
  {
    var hi := ScanEnd(ks, p, Seek(ks, p));
    if StartsWith(ks[j], p) {
      PrefixNotBefore(ks[j], p);
      if hi < j { PrefixGap(p, ks[hi], ks[j]); }
    }
  }

  lemma SliceMember(ks: seq<string>, lo: nat, hi: nat, j: nat)
    requires lo <= j < hi <= |ks|
    ensures ks[j] in ks[lo..hi]
  {
    assert ks[lo..hi][j - lo] == ks[j];
  }

  /** Prefix scans are sound and complete: the early break loses nothing. */
  lemma ScanIsComplete(keys: set<string>, p: string)
    ensures Scan(SortedOf(keys), p) == SortedOf(Under(keys, p))
  {
    var ks := SortedOf(keys);
    var r := Scan(ks, p);
    forall x | x in Under(keys, p) ensures x in r {
      assert x in ks;
      var j: nat :| j < |ks| && ks[j] == x;
      ScanBlock(ks, p, j);
      SliceMember(ks, Seek(ks, p), ScanEnd(ks, p, Seek(ks, p)), j);
    }
    SortedUnique(r, SortedOf(Under(keys, p)));
  }

  /** What follows the prefix in each visited key, skipping a key that is the bare prefix. */
  ghost function Suffixes(visited: seq<string>, prefix: string): seq<string> {
    if visited == [] then []
    else
      var key := visited[|visited| - 1];
      Suffixes(visited[..|visited| - 1], prefix) + (if |prefix| < |key| then [key[|prefix|..]] else [])
  }

  lemma {:induction false} SuffixesMember(visited: seq<string>, prefix: string, x: string)
    requires forall k :: k in visited ==> StartsWith(k, prefix)
    ensures x in Suffixes(visited, prefix) <==> x != "" && prefix + x in visited
  {
    if visited != [] {
      var rest, key := visited[..|visited| - 1], visited[|visited| - 1];
      assert visited == rest + [key] && key in visited;
      SuffixesMember(rest, prefix, x);
      assert key == prefix + key[|prefix|..];
      if key == prefix + x { assert key[|prefix|..] == x; }
    }
  }

  lemma {:induction false} SuffixesSorted(visited: seq<string>, prefix: string)
    requires StrictlySorted(visited)
    requires forall k :: k in visited ==> StartsWith(k, prefix)
    ensures StrictlySorted(Suffixes(visited, prefix))
  {
    if visited != [] {
      var rest, key := visited[..|visited| - 1], visited[|visited| - 1];
      SuffixesSorted(rest, prefix);
      assert key in visited;
      var id := key[|prefix|..];
      forall x | x in Suffixes(rest, prefix) ensures Less(x, id) {
        SuffixesMember(rest, prefix, x);
        assert key == prefix + id;
        LessCommonPrefix(prefix, x, id);
      }
    }
  }

  /** The id-collecting loop of the stores returns, in order, exactly the ids
      stored under the prefix. */
  method CollectSuffixes(keys: set<string>, prefix: string) returns (ids: seq<string>)
    ensures StrictlySorted(ids)
    ensures forall x :: x in ids <==> x != "" && prefix + x in keys
  {
    var ks := NewIterator(keys);
    ids := CollectFrom(ks, prefix, Seek(ks, prefix));
    CollectedAll(keys, prefix);
  }

  method CollectFrom(ks: seq<string>, prefix: string, start: nat) returns (ids: seq<string>)
    requires start <= |ks|
    ensures ids == Suffixes(ks[start..ScanEnd(ks, prefix, start)], prefix)
  {
    ids := [];
    var i := start;
    while i < |ks|
      invariant start <= i <= ScanEnd(ks, prefix, start)
      invariant ids == Suffixes(ks[start..i], prefix)
    {
      if !StartsWith(ks[i], prefix) { break; }
      var key := ks[i];
      assert ks[start..i + 1][..i - start] == ks[start..i];
      if |prefix| < |key| {
        ids := ids + [key[|prefix|..]];
      }
      i := i + 1;
    }
  }

  lemma CollectedAll(keys: set<string>, prefix: string)
    ensures var ids := Suffixes(Scan(SortedOf(keys), prefix), prefix);
      StrictlySorted(ids) && forall x :: x in ids <==> x != "" && prefix + x in keys
  {
    var under := SortedOf(Under(keys, prefix));
    ScanIsComplete(keys, prefix);
    SuffixesSorted(under, prefix);
    forall x ensures x in Suffixes(under, prefix) <==> x != "" && prefix + x in keys {
      SuffixesMember(under, prefix, x);
    }
  }
}
