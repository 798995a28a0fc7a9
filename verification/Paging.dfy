/**
 A client that follows a cursor: it takes up to `limit` items, then resumes at the
 position the server derives from the last item it was given.  Both cursors of the
 message store identify that item by its timestamp only, so the position may not be
 the one right after it.  The theorem says exactly when the client still sees every
 item once, for any rule `next` that derives the resume position.
 */
module Paging {
  import opened Collections

  function Min(a: nat, b: nat): nat { if a < b then a else b }

  /** Where the next page starts, at or beyond the end once there is nothing more, and
      what has been received so far. */
  datatype Client<T> = Client(start: nat, got: seq<T>)

  ghost function Page<T>(xs: seq<T>, limit: nat, start: nat): (p: seq<T>)
    ensures start < |xs| && limit > 0 ==> |p| > 0 && p[0] == xs[start]
    ensures start >= |xs| ==> p == []
  {
    if start >= |xs| then [] else xs[start..start + Min(limit, |xs| - start)]
  }

  ghost function TakePage<T>(xs: seq<T>, limit: nat, next: nat -> nat, c: Client<T>): Client<T>
    requires limit > 0
  {
    Client(if c.start + limit >= |xs| then |xs| else next(c.start + limit - 1),
           c.got + Page(xs, limit, c.start))
  }

  /** `k` rounds of a step. */
  ghost function Rounds<C>(step: C -> C, start: C, k: nat): C {
    if k == 0 then start else step(Rounds(step, start, k - 1))
  }

  ghost predicate Keeps<C>(step: C -> C, inv: (nat, C) -> bool, k: nat, c: C) {
    inv(k, c) ==> inv(k + 1, step(c))
  }

  /** What every round keeps holds from then on. */
  lemma {:induction false} Kept<C>(step: C -> C, start: C, inv: (nat, C) -> bool, j: nat, k: nat)
    requires j <= k && inv(j, Rounds(step, start, j)) && forall i: nat, c :: Keeps(step, inv, i, c)
    ensures inv(k, Rounds(step, start, k))
    decreases k
  {
    if j < k {
      Kept(step, start, inv, j, k - 1);
      assert Keeps(step, inv, k - 1, Rounds(step, start, k - 1));
    }
  }

  ghost predicate Simulates<C, D>(step: C -> C, other: D -> D, rel: (C, D) -> bool, c: C, d: D) {
    rel(c, d) ==> rel(step(c), other(d))
  }

  /** Two machines that one round keeps in step stay in step. */
  lemma {:induction false} InStepForever<C, D>(step: C -> C, c: C, other: D -> D, d: D, rel: (C, D) -> bool, k: nat)
    requires rel(c, d) && forall a, b :: Simulates(step, other, rel, a, b)
    ensures rel(Rounds(step, c, k), Rounds(other, d, k))
  {
    if k > 0 {
      InStepForever(step, c, other, d, rel, k - 1);
      assert Simulates(step, other, rel, Rounds(step, c, k - 1), Rounds(other, d, k - 1));
    }
  }

  ghost function Pager<T>(xs: seq<T>, limit: nat, next: nat -> nat): Client<T> -> Client<T>
    requires limit > 0
  {
    (c: Client<T>) => TakePage(xs, limit, next, c)
  }

  /** The client after `k` pages. */
  ghost function After<T>(xs: seq<T>, limit: nat, next: nat -> nat, k: nat): Client<T>
    requires limit > 0
  {
    Rounds(Pager(xs, limit, next), Client(0, []), k)
  }

  lemma AfterNext<T>(xs: seq<T>, limit: nat, next: nat -> nat, k: nat)
    requires limit > 0
    ensures After(xs, limit, next, k + 1) == TakePage(xs, limit, next, After(xs, limit, next, k))
  {
  }

  /** k full pages: `k * limit`. */
  ghost function Cut(limit: nat, k: nat): nat {
    if k == 0 then 0 else Cut(limit, k - 1) + limit
  }

  ghost predicate CleanCut(n: nat, limit: nat, next: nat -> nat, k: nat) {
    k > 0 && 0 < Cut(limit, k) < n ==> next(Cut(limit, k) - 1) == Cut(limit, k)
  }

  /** Resuming after the last item of each inner page lands right behind it. */
  ghost predicate CleanCuts(n: nat, limit: nat, next: nat -> nat) {
    forall k: nat :: CleanCut(n, limit, next, k)
  }

  /** The client has stopped and seen every item exactly once, in order. */
  ghost predicate Complete<T>(xs: seq<T>, c: Client<T>) {
    c.start >= |xs| && c.got == xs
  }

  ghost predicate SeesAllOnce<T>(xs: seq<T>, limit: nat, next: nat -> nat)
    requires limit > 0
  {
    exists k: nat :: Complete(xs, After(xs, limit, next, k))
  }

  lemma PageExtends<T>(xs: seq<T>, limit: nat, s: nat)
    requires s < |xs|
    ensures var t := s + |Page(xs, limit, s)|;
      s <= t <= |xs| && t == s + Min(limit, |xs| - s)
      && Page(xs, limit, s) == xs[s..t] && xs[..s] + Page(xs, limit, s) == xs[..t]
  {
  }

  lemma CleanStep<T>(xs: seq<T>, limit: nat, next: nat -> nat, c: Client<T>)
    requires limit > 0 && c.start + limit < |xs| && c.got == xs[..c.start]
    requires next(c.start + limit - 1) == c.start + limit
    ensures TakePage(xs, limit, next, c) == Client(c.start + limit, xs[..c.start + limit])
  {
    PageExtends(xs, limit, c.start);
  }

  lemma {:induction false} CleanPrefix<T>(xs: seq<T>, limit: nat, next: nat -> nat, k: nat)
    requires limit > 0 && Cut(limit, k) < |xs|
    requires forall j: nat :: j <= k ==> CleanCut(|xs|, limit, next, j)
    ensures After(xs, limit, next, k) == Client(Cut(limit, k), xs[..Cut(limit, k)])
  {
    if k > 0 {
      CleanPrefix(xs, limit, next, k - 1);
      var n := Cut(limit, k - 1);
      assert CleanCut(|xs|, limit, next, k) && Cut(limit, k) == n + limit;
      CleanStep(xs, limit, next, Client(n, xs[..n]));
      assert After(xs, limit, next, k) == TakePage(xs, limit, next, Client(n, xs[..n]));
    }
  }

  lemma LastPage<T>(xs: seq<T>, limit: nat, next: nat -> nat, c: Client<T>)
    requires limit > 0 && c.start < |xs| <= c.start + limit && c.got == xs[..c.start]
    ensures Complete(xs, TakePage(xs, limit, next, c))
  {
    PageExtends(xs, limit, c.start);
    assert xs[..|xs|] == xs;
  }

  lemma {:induction false} CleanImpliesAll<T>(xs: seq<T>, limit: nat, next: nat -> nat, k: nat)
    requires limit > 0 && CleanCuts(|xs|, limit, next) && Cut(limit, k) < |xs|
    ensures SeesAllOnce(xs, limit, next)
    decreases |xs| - Cut(limit, k)
  {
    if Cut(limit, k + 1) < |xs| {
      CleanImpliesAll(xs, limit, next, k + 1);
    } else {
      CleanPrefix(xs, limit, next, k);
      LastPage(xs, limit, next, After(xs, limit, next, k));
      assert After(xs, limit, next, k + 1) == TakePage(xs, limit, next, After(xs, limit, next, k));
    }
  }

  lemma {:induction false} FirstBadCut(n: nat, limit: nat, next: nat -> nat, k: nat) returns (j: nat)
    requires !CleanCut(n, limit, next, k)
    ensures !CleanCut(n, limit, next, j)
    ensures forall i: nat :: i < j ==> CleanCut(n, limit, next, i)
    decreases k
  {
    if i: nat :| i < k && !CleanCut(n, limit, next, i) {
      j := FirstBadCut(n, limit, next, i);
    } else {
      j := k;
    }
  }

  /** The client can no longer end up complete: it stopped short, or an item it received
      is not the one at that place. */
  ghost predicate Spoilt<T>(xs: seq<T>, c: Client<T>) {
    || (|c.got| < |xs| && c.start >= |xs|)
    || (exists i :: 0 <= i < |c.got| && i < |xs| && c.got[i] != xs[i])
  }

  lemma StaysSpoilt<T>(xs: seq<T>, limit: nat, next: nat -> nat, c: Client<T>)
    requires limit > 0 && Spoilt(xs, c)
    ensures Spoilt(xs, TakePage(xs, limit, next, c))
  {
    if i :| 0 <= i < |c.got| && i < |xs| && c.got[i] != xs[i] {
      assert TakePage(xs, limit, next, c).got[i] == c.got[i];
    }
  }

  lemma SpoiltForever<T>(xs: seq<T>, limit: nat, next: nat -> nat, j: nat, k: nat)
    requires limit > 0 && j <= k && Spoilt(xs, After(xs, limit, next, j))
    ensures Spoilt(xs, After(xs, limit, next, k))
  {
    var inv := (i: nat, c: Client<T>) => Spoilt(xs, c);
    forall i: nat, c ensures Keeps(Pager(xs, limit, next), inv, i, c)
    {
      if Spoilt(xs, c) { StaysSpoilt(xs, limit, next, c); }
    }
    Kept(Pager(xs, limit, next), Client(0, []), inv, j, k);
  }

  /** Resuming anywhere but behind what was received spoils the walk with the next page. */
  lemma WrongResume<T>(xs: seq<T>, limit: nat, next: nat -> nat, c: Client<T>)
    requires limit > 0 && Distinct(xs) && |c.got| < |xs| && c.start != |c.got|
    ensures Spoilt(xs, TakePage(xs, limit, next, c))
  {
    if c.start < |xs| {
      var c' := TakePage(xs, limit, next, c);
      assert c'.got[|c.got|] == xs[c.start] != xs[|c.got|];
    }
  }

  lemma TooEarly<T>(xs: seq<T>, limit: nat, next: nat -> nat, j: nat, k: nat)
    requires limit > 0 && k < j && Cut(limit, j) < |xs|
    requires forall i: nat :: i < j ==> CleanCut(|xs|, limit, next, i)
    ensures !Complete(xs, After(xs, limit, next, k))
  {
    CutGrows(limit, k, j);
    CleanPrefix(xs, limit, next, k);
  }

  lemma SpoiltAfterBadCut<T>(xs: seq<T>, limit: nat, next: nat -> nat, j: nat)
    requires limit > 0 && Distinct(xs) && !CleanCut(|xs|, limit, next, j)
    requires forall i: nat :: i < j ==> CleanCut(|xs|, limit, next, i)
    ensures var c := After(xs, limit, next, j);
      !Complete(xs, c) && Spoilt(xs, TakePage(xs, limit, next, c))
  {
    CleanPrefix(xs, limit, next, j - 1);
    BadStep(xs, limit, next, Client(Cut(limit, j - 1), xs[..Cut(limit, j - 1)]));
    WrongResume(xs, limit, next, After(xs, limit, next, j));
  }

  lemma BadStep<T>(xs: seq<T>, limit: nat, next: nat -> nat, c: Client<T>)
    requires limit > 0 && c.start + limit < |xs| && c.got == xs[..c.start]
    requires next(c.start + limit - 1) != c.start + limit
    ensures var c' := TakePage(xs, limit, next, c); |c'.got| == c.start + limit != c'.start
  {
    PageExtends(xs, limit, c.start);
  }

  lemma {:induction false} CutGrows(limit: nat, j: nat, k: nat)
    requires j <= k
    ensures Cut(limit, j) <= Cut(limit, k)
  {
    if j < k { CutGrows(limit, j, k - 1); }
  }

  lemma NeverComplete<T>(xs: seq<T>, limit: nat, next: nat -> nat, j: nat, k: nat)
    requires limit > 0 && Distinct(xs) && !CleanCut(|xs|, limit, next, j)
    requires forall i: nat :: i < j ==> CleanCut(|xs|, limit, next, i)
    ensures !Complete(xs, After(xs, limit, next, k))
  {
    if k < j {
      TooEarly(xs, limit, next, j, k);
    } else {
      SpoiltAfterBadCut(xs, limit, next, j);
      if k > j { SpoiltForever(xs, limit, next, j + 1, k); }
    }
  }

  /** Following the cursor delivers everything exactly once if and only if every
      inner page end resumes right behind itself. */
  lemma PagingExact<T>(xs: seq<T>, limit: nat, next: nat -> nat)
    requires limit > 0 && Distinct(xs)
    ensures SeesAllOnce(xs, limit, next) <==> CleanCuts(|xs|, limit, next)
  {
    if CleanCuts(|xs|, limit, next) {
      if xs == [] {
        assert Complete(xs, After(xs, limit, next, 0));
      } else {
        CleanImpliesAll(xs, limit, next, 0);
      }
    } else {
      var bad: nat :| !CleanCut(|xs|, limit, next, bad);
      var j := FirstBadCut(|xs|, limit, next, bad);
      forall k: nat ensures !Complete(xs, After(xs, limit, next, k)) { NeverComplete(xs, limit, next, j, k); }
    }
  }

  ghost predicate NeverAhead(next: nat -> nat) {
    forall e: nat :: next(e) <= e + 1
  }

  ghost predicate NeverBack(next: nat -> nat) {
    forall e: nat :: next(e) >= e + 1
  }

  ghost predicate Covered<T>(xs: seq<T>, c: Client<T>, i: nat) {
    i < |xs| && i < c.start ==> xs[i] in c.got
  }

  lemma CoverStep<T>(xs: seq<T>, limit: nat, next: nat -> nat, c: Client<T>, i: nat)
    requires limit > 0 && NeverAhead(next) && Covered(xs, c, i)
    ensures Covered(xs, TakePage(xs, limit, next, c), i)
  {
    var c' := TakePage(xs, limit, next, c);
    if i < |xs| && c.start <= i < c'.start {
      PageExtends(xs, limit, c.start);
      assert c.start + limit < |xs| ==> next(c.start + limit - 1) <= c.start + limit;
      assert Page(xs, limit, c.start)[i - c.start] == xs[i];
    }
  }

  /** A resume rule that never jumps ahead loses nothing. */
  lemma NothingLost<T>(xs: seq<T>, limit: nat, next: nat -> nat, k: nat, i: nat)
    requires limit > 0 && NeverAhead(next)
    ensures Covered(xs, After(xs, limit, next, k), i)
  {
    var inv := (j: nat, c: Client<T>) => Covered(xs, c, i);
    forall j: nat, c ensures Keeps(Pager(xs, limit, next), inv, j, c)
    {
      if Covered(xs, c, i) { CoverStep(xs, limit, next, c, i); }
    }
    Kept(Pager(xs, limit, next), Client(0, []), inv, 0, k);
  }

  /** What was received is free of repetitions and does not reach position `start`. */
  ghost predicate Fresh<T>(xs: seq<T>, c: Client<T>) {
    && Distinct(c.got)
    && forall i, j :: 0 <= i < |c.got| && c.start <= j < |xs| ==> c.got[i] != xs[j]
  }

  lemma FreshStep<T>(xs: seq<T>, limit: nat, next: nat -> nat, c: Client<T>)
    requires limit > 0 && Distinct(xs) && Fresh(xs, c) && NeverBack(next)
    ensures Fresh(xs, TakePage(xs, limit, next, c))
  {
    assert c.start + limit < |xs| ==> next(c.start + limit - 1) >= c.start + limit;
    if c.start < |xs| {
      PageExtends(xs, limit, c.start);
      AppendSlice(xs, c.got, c.start, c.start + |Page(xs, limit, c.start)|);
    }
  }

  /** A resume rule that never goes back repeats nothing. */
  lemma NothingRepeated<T>(xs: seq<T>, limit: nat, next: nat -> nat, k: nat)
    requires limit > 0 && Distinct(xs) && NeverBack(next)
    ensures Fresh(xs, After(xs, limit, next, k))
  {
    var inv := (i: nat, c: Client<T>) => Fresh(xs, c);
    forall i: nat, c ensures Keeps(Pager(xs, limit, next), inv, i, c)
    {
      if Fresh(xs, c) { FreshStep(xs, limit, next, c); }
    }
    Kept(Pager(xs, limit, next), Client(0, []), inv, 0, k);
  }

  lemma AppendSlice<T>(xs: seq<T>, d: seq<T>, s: nat, t: nat)
    requires Distinct(xs) && Fresh(xs, Client(s, d)) && s <= t <= |xs|
    ensures Fresh(xs, Client(t, d + xs[s..t]))
  {
    var d' := d + xs[s..t];
    forall i, j | 0 <= i < j < |d'| ensures d'[i] != d'[j] {
      if j >= |d| { assert d'[j] == xs[s + j - |d|]; }
      if i >= |d| { assert d'[i] == xs[s + i - |d|]; }
    }
  }

  // ---------- when the walk ends ----------

  ghost predicate Ends<T>(xs: seq<T>, limit: nat, next: nat -> nat)
    requires limit > 0
  {
    exists k: nat :: After(xs, limit, next, k).start >= |xs|
  }

  /** Every page that is not the last resumes behind its own start. */
  ghost predicate Advancing(n: nat, limit: nat, next: nat -> nat)
    requires limit > 0
  {
    forall s: nat :: s + limit < n ==> Resumes(limit, next, s) > s
  }

  ghost function Resumes(limit: nat, next: nat -> nat, s: nat): nat
    requires limit > 0
  {
    next(s + limit - 1)
  }

  lemma AdvancingStep<T>(xs: seq<T>, limit: nat, next: nat -> nat, c: Client<T>)
    requires limit > 0 && Advancing(|xs|, limit, next)
    ensures TakePage(xs, limit, next, c).start >= Min(c.start + 1, |xs|)
  {
    if c.start + limit < |xs| { assert Resumes(limit, next, c.start) > c.start; }
  }

  lemma AdvancingReaches<T>(xs: seq<T>, limit: nat, next: nat -> nat, k: nat)
    requires limit > 0 && Advancing(|xs|, limit, next)
    ensures After(xs, limit, next, k).start >= Min(k, |xs|)
  {
    var inv := (i: nat, c: Client<T>) => c.start >= Min(i, |xs|);
    forall i: nat, c ensures Keeps(Pager(xs, limit, next), inv, i, c) { AdvancingStep(xs, limit, next, c); }
    assert After(xs, limit, next, 0).start == 0;
    Kept(Pager(xs, limit, next), Client(0, []), inv, 0, k);
  }

  lemma AdvancingEnds<T>(xs: seq<T>, limit: nat, next: nat -> nat)
    requires limit > 0 && Advancing(|xs|, limit, next)
    ensures Ends(xs, limit, next)
  {
    AdvancingReaches(xs, limit, next, |xs|);
    assert After(xs, limit, next, |xs|).start >= |xs|;
  }

  /** From no start up to `b` does a page end the walk or resume beyond `b`. */
  ghost predicate Trap(n: nat, limit: nat, next: nat -> nat, b: nat)
    requires limit > 0
  {
    b < n && forall s: nat :: s <= b ==> s + limit < n && Resumes(limit, next, s) <= b
  }

  lemma TrappedForever<T>(xs: seq<T>, limit: nat, next: nat -> nat, b: nat, k: nat)
    requires limit > 0 && Trap(|xs|, limit, next, b)
    ensures After(xs, limit, next, k).start <= b
  {
    var inv := (i: nat, c: Client<T>) => c.start <= b;
    forall i: nat, c ensures Keeps(Pager(xs, limit, next), inv, i, c) {
      if c.start <= b { assert Resumes(limit, next, c.start) <= b; }
    }
    Kept(Pager(xs, limit, next), Client(0, []), inv, 0, k);
  }

  lemma TrapNeverEnds<T>(xs: seq<T>, limit: nat, next: nat -> nat, b: nat)
    requires limit > 0 && Trap(|xs|, limit, next, b)
    ensures !Ends(xs, limit, next)
  {
    forall k: nat ensures After(xs, limit, next, k).start < |xs| { TrappedForever(xs, limit, next, b, k); }
  }

  // ---------- what is never seen ----------

  /** The item is behind the walk and was not received. */
  ghost predicate Skipped<T>(xs: seq<T>, c: Client<T>, i: nat) {
    i < |xs| && i < c.start && xs[i] !in c.got
  }

  lemma StaysSkipped<T>(xs: seq<T>, limit: nat, next: nat -> nat, c: Client<T>, i: nat)
    requires limit > 0 && Distinct(xs) && NeverBack(next) && Skipped(xs, c, i)
    ensures Skipped(xs, TakePage(xs, limit, next, c), i)
  {
    assert c.start + limit < |xs| ==> next(c.start + limit - 1) >= c.start + limit;
    if c.start < |xs| { PageExtends(xs, limit, c.start); }
    forall x | x in Page(xs, limit, c.start) ensures x != xs[i] {
      var j :| 0 <= j < |Page(xs, limit, c.start)| && Page(xs, limit, c.start)[j] == x;
      assert x == xs[c.start + j];
    }
  }

  lemma SkippedForever<T>(xs: seq<T>, limit: nat, next: nat -> nat, j: nat, k: nat, i: nat)
    requires limit > 0 && Distinct(xs) && NeverBack(next) && j <= k && Skipped(xs, After(xs, limit, next, j), i)
    ensures Skipped(xs, After(xs, limit, next, k), i)
  {
    var inv := (n: nat, c: Client<T>) => Skipped(xs, c, i);
    forall n: nat, c ensures Keeps(Pager(xs, limit, next), inv, n, c)
    {
      if Skipped(xs, c, i) { StaysSkipped(xs, limit, next, c, i); }
    }
    Kept(Pager(xs, limit, next), Client(0, []), inv, j, k);
  }

  ghost predicate NeverSeen<T>(xs: seq<T>, limit: nat, next: nat -> nat, i: nat)
    requires limit > 0
  {
    i < |xs| && forall k: nat :: xs[i] !in After(xs, limit, next, k).got
  }

  lemma PrefixLacks<T>(xs: seq<T>, n: nat, i: nat)
    requires Distinct(xs) && n <= i < |xs|
    ensures xs[i] !in xs[..n]
  {
  }

  /** A page that resumes beyond its end skips the item behind it. */
  lemma JumpSkips<T>(xs: seq<T>, limit: nat, next: nat -> nat, c: Client<T>)
    requires limit > 0 && Distinct(xs) && NeverBack(next) && c.start + limit < |xs| && c.got == xs[..c.start]
    requires next(c.start + limit - 1) != c.start + limit
    ensures Skipped(xs, TakePage(xs, limit, next, c), c.start + limit)
  {
    PageExtends(xs, limit, c.start);
    PrefixLacks(xs, c.start + limit, c.start + limit);
    assert next(c.start + limit - 1) >= c.start + limit;
  }

  lemma NotSeenBefore<T>(xs: seq<T>, limit: nat, next: nat -> nat, j: nat, k: nat)
    requires limit > 0 && Distinct(xs) && k < j && Cut(limit, j) < |xs|
    requires forall i: nat :: i < j ==> CleanCut(|xs|, limit, next, i)
    ensures xs[Cut(limit, j)] !in After(xs, limit, next, k).got
  {
    CutGrows(limit, k, j);
    CleanPrefix(xs, limit, next, k);
    PrefixLacks(xs, Cut(limit, k), Cut(limit, j));
  }

  lemma BadCutSkips<T>(xs: seq<T>, limit: nat, next: nat -> nat, j: nat)
    requires limit > 0 && Distinct(xs) && NeverBack(next) && !CleanCut(|xs|, limit, next, j)
    requires forall i: nat :: i < j ==> CleanCut(|xs|, limit, next, i)
    ensures NeverSeen(xs, limit, next, Cut(limit, j))
  {
    CleanPrefix(xs, limit, next, j - 1);
    JumpSkips(xs, limit, next, After(xs, limit, next, j - 1));
    forall k: nat ensures xs[Cut(limit, j)] !in After(xs, limit, next, k).got {
      if k < j {
        NotSeenBefore(xs, limit, next, j, k);
      } else {
        SkippedForever(xs, limit, next, j, k, Cut(limit, j));
      }
    }
  }

  /** For a rule that never goes back, some item is never received if and only if some inner
      page end does not resume right behind itself. */
  lemma LossExact<T>(xs: seq<T>, limit: nat, next: nat -> nat)
    requires limit > 0 && Distinct(xs) && NeverBack(next)
    ensures (exists i: nat :: NeverSeen(xs, limit, next, i)) <==> !CleanCuts(|xs|, limit, next)
  {
    if CleanCuts(|xs|, limit, next) {
      PagingExact(xs, limit, next);
      var k: nat :| Complete(xs, After(xs, limit, next, k));
      forall i: nat ensures !NeverSeen(xs, limit, next, i) {
        if i < |xs| { assert xs[i] in After(xs, limit, next, k).got; }
      }
    } else {
      var bad: nat :| !CleanCut(|xs|, limit, next, bad);
      var j := FirstBadCut(|xs|, limit, next, bad);
      BadCutSkips(xs, limit, next, j);
    }
  }
}
