/**
 The client's table of pending requests: each callback fires once, on the response, on the
 time-out or when a disconnect clears the table.
 */
module ProtocolHandler {
  import opened MessageKeys

  const NETWORK_ERROR := -1
  const REQUEST_TIMEOUT := -2

  function Decimal(n: nat): (s: string)
    ensures s != []
  {
    if n < 10 then [DigitChar(n)] else Decimal(n / 10) + [DigitChar(n % 10)]
  }

  function RequestId(counter: nat): string { "req_" + Decimal(counter) }

  lemma {:induction false} DecimalValue(n: nat)
    ensures AllDigits(Decimal(n)) && Value(Decimal(n)) == n
  {
    var s := Decimal(n);
    if n < 10 {
      assert s[..0] == [];
    } else {
      DecimalValue(n / 10);
      assert s[..|s| - 1] == Decimal(n / 10);
    }
  }

  /** Different counters make different request ids, so requests are named by their counter. */
  lemma RequestIdsDiffer(m: nat, n: nat)
    requires RequestId(m) == RequestId(n)
    ensures m == n
  {
    DecimalValue(m);
    DecimalValue(n);
    assert RequestId(m)[4..] == Decimal(m) && RequestId(n)[4..] == Decimal(n);
  }

  datatype Fired = Fired(id: nat, code: int)

  /** A clear in progress: the requests taken out of the table and not yet aborted, and the
      request counter at the moment they were taken. */
  datatype Clear = Clear(left: set<nat>, mark: nat)

  /** Requests are numbered by the counter; `clears` holds the clears in progress, since an
      abort callback may start another; `fired` lists the callbacks that ran, oldest first. */
  datatype State = State(counter: nat, pending: set<nat>, clears: seq<Clear>, fired: seq<Fired>, issued: set<nat>)

  const EMPTY := State(0, {}, [], [], {})

  datatype Event =
    | Send(hasCallback: bool, serialized: bool)
    | Response(id: nat, code: int)
    | Timeout(id: nat)
    | BeginClear
    | Abort(id: nat)
    | EndClear

  function Fire(s: State, id: nat, code: int): State {
    s.(fired := s.fired + [Fired(id, code)])
  }

  function Complete(s: State, id: nat, code: int): State {
    if id in s.pending then Fire(s.(pending := s.pending - {id}), id, code) else s
  }

  function Top(s: State): Clear
    requires s.clears != []
  {
    s.clears[|s.clears| - 1]
  }

  predicate Enabled(s: State, e: Event) {
    match e
    case Abort(id) => s.clears != [] && id in Top(s).left
    case EndClear => s.clears != [] && Top(s).left == {}
    case _ => true
  }

  function Step(s: State, e: Event): State
    requires Enabled(s, e)
  {
    match e
    case Send(hasCallback, serialized) =>
      var id := s.counter + 1;
      var s1 := s.(counter := id);
      if !hasCallback then s1
      else if !serialized then Fire(s1.(issued := s1.issued + {id}), id, NETWORK_ERROR)
      else s1.(issued := s1.issued + {id}, pending := s1.pending + {id})
    case Response(id, code) => Complete(s, id, code)
    case Timeout(id) => Complete(s, id, REQUEST_TIMEOUT)
    case BeginClear => s.(pending := {}, clears := s.clears + [Clear(s.pending, s.counter)])
    case Abort(id) =>
      Fire(s.(clears := s.clears[..|s.clears| - 1] + [Clear(Top(s).left - {id}, Top(s).mark)]), id, NETWORK_ERROR)
    case EndClear => s.(clears := s.clears[..|s.clears| - 1])
  }

  // ---------- once and only once ----------

  function Held(clears: seq<Clear>): set<nat> {
    set k, id | 0 <= k < |clears| && id in clears[k].left :: id
  }

  function FiredIds(fired: seq<Fired>): set<nat> {
    set k | 0 <= k < |fired| :: fired[k].id
  }

  ghost predicate FiredOnce(fired: seq<Fired>) {
    forall j, k :: 0 <= j < k < |fired| ==> fired[j].id != fired[k].id
  }

  ghost predicate ClearsApart(clears: seq<Clear>) {
    forall j, k :: 0 <= j < k < |clears| ==> clears[j].left !! clears[k].left
  }

  /** A clear holds only requests sent before it began. */
  ghost predicate ClearsMarked(s: State) {
    forall k :: 0 <= k < |s.clears| ==>
      s.clears[k].mark <= s.counter && forall id :: id in s.clears[k].left ==> id <= s.clears[k].mark
  }

  /** Every request with a callback is pending, or taken by one clear, or has fired, once. */
  ghost predicate Inv(s: State) {
    && s.issued == s.pending + Held(s.clears) + FiredIds(s.fired)
    && s.pending !! Held(s.clears) && s.pending !! FiredIds(s.fired) && Held(s.clears) !! FiredIds(s.fired)
    && FiredOnce(s.fired) && ClearsApart(s.clears) && ClearsMarked(s)
    && (forall id :: id in s.issued ==> 1 <= id <= s.counter)
  }

  lemma FiredMore(fired: seq<Fired>, id: nat, code: int)
    requires FiredOnce(fired) && id !in FiredIds(fired)
    ensures FiredOnce(fired + [Fired(id, code)]) && FiredIds(fired + [Fired(id, code)]) == FiredIds(fired) + {id}
  {
    var more := fired + [Fired(id, code)];
    forall x | x in FiredIds(fired) + {id} ensures x in FiredIds(more) {
      if x == id { assert more[|fired|].id == id; } else {
        var k :| 0 <= k < |fired| && fired[k].id == x;
        assert more[k].id == x;
      }
    }
  }

  lemma HeldMore(clears: seq<Clear>, c: Clear)
    ensures Held(clears + [c]) == Held(clears) + c.left
  {
    var more := clears + [c];
    forall id | id in Held(clears) + c.left ensures id in Held(more) {
      if id in c.left { assert id in more[|clears|].left; } else {
        var k :| 0 <= k < |clears| && id in clears[k].left;
        assert id in more[k].left;
      }
    }
  }

  lemma HeldApart(clears: seq<Clear>, c: Clear)
    requires ClearsApart(clears) && Held(clears) !! c.left
    ensures ClearsApart(clears + [c])
  {
    forall k | 0 <= k < |clears| ensures clears[k].left !! c.left {
      forall id | id in clears[k].left ensures id in Held(clears) {}
    }
  }

  lemma SendKeepsInv(s: State, e: Event)
    requires Inv(s) && e.Send?
    ensures Inv(Step(s, e))
  {
    var id := s.counter + 1;
    assert id !in s.issued;
    if e.hasCallback && !e.serialized { FiredMore(s.fired, id, NETWORK_ERROR); }
  }

  lemma CompleteKeepsInv(s: State, id: nat, code: int)
    requires Inv(s)
    ensures Inv(Complete(s, id, code))
  {
    if id in s.pending { FiredMore(s.fired, id, code); }
  }

  lemma BeginKeepsInv(s: State)
    requires Inv(s)
    ensures Inv(Step(s, BeginClear))
  {
    HeldMore(s.clears, Clear(s.pending, s.counter));
    HeldApart(s.clears, Clear(s.pending, s.counter));
  }

  lemma TopApart(clears: seq<Clear>)
    requires clears != [] && ClearsApart(clears)
    ensures
      var n := |clears| - 1;
      clears == clears[..n] + [clears[n]] && Held(clears) == Held(clears[..n]) + clears[n].left
          && Held(clears[..n]) !! clears[n].left
  {
    var n := |clears| - 1;
    assert clears == clears[..n] + [clears[n]];
    HeldMore(clears[..n], clears[n]);
  }

  lemma AbortKeepsInv(s: State, id: nat)
    requires Inv(s) && Enabled(s, Abort(id))
    ensures Inv(Step(s, Abort(id)))
  {
    var rest, top := s.clears[..|s.clears| - 1], Top(s);
    TopApart(s.clears);
    var less := Clear(top.left - {id}, top.mark);
    HeldMore(rest, less);
    assert ClearsApart(rest);
    HeldApart(rest, less);
    FiredMore(s.fired, id, NETWORK_ERROR);
  }

  lemma EndKeepsInv(s: State)
    requires Inv(s) && Enabled(s, EndClear)
    ensures Inv(Step(s, EndClear))
  {
    TopApart(s.clears);
  }

  lemma StepKeepsInv(s: State, e: Event)
    requires Inv(s) && Enabled(s, e)
    ensures Inv(Step(s, e))
  {
    match e
    case Send(_, _) => SendKeepsInv(s, e);
    case Response(id, code) => CompleteKeepsInv(s, id, code);
    case Timeout(id) => CompleteKeepsInv(s, id, REQUEST_TIMEOUT);
    case BeginClear => BeginKeepsInv(s);
    case Abort(id) => AbortKeepsInv(s, id);
    case EndClear => EndKeepsInv(s);
  }

  ghost predicate EnabledRun(s: State, es: seq<Event>)
    decreases |es|
  {
    es == [] || (Enabled(s, es[0]) && EnabledRun(Step(s, es[0]), es[1..]))
  }

  ghost function Run(s: State, es: seq<Event>): State
    requires EnabledRun(s, es)
    decreases |es|
  {
    if es == [] then s else Run(Step(s, es[0]), es[1..])
  }

  lemma {:induction false} RunKeepsInv(s: State, es: seq<Event>)
    requires Inv(s) && EnabledRun(s, es)
    ensures Inv(Run(s, es))
    decreases |es|
  {
    if es != [] {
      StepKeepsInv(s, es[0]);
      RunKeepsInv(Step(s, es[0]), es[1..]);
    }
  }

  /** In every interleaving, a request with a callback has either completed, exactly once, or
      is still pending or about to be aborted; outside a clear it is one or the other. */
  lemma CompletedExactlyOnce(es: seq<Event>, id: nat)
    requires EnabledRun(EMPTY, es) && id in Run(EMPTY, es).issued
    ensures
      var s := Run(EMPTY, es);
      && FiredOnce(s.fired)
      && (id in FiredIds(s.fired) <==> id !in s.pending && id !in Held(s.clears))
      && (s.clears == [] ==> (id in FiredIds(s.fired) <==> id !in s.pending))
  {
    RunKeepsInv(EMPTY, es);
  }

  // ---------- with which code ----------

  /** The event answers the request: a response with its own code while it is pending, the timer with -2, an
      abort, or the failure to serialise it, with -1. */
  ghost predicate Answers(s: State, e: Event, id: nat, code: int) {
    || (id in s.pending && (e == Response(id, code) || (e == Timeout(id) && code == -2)))
    || (e == Abort(id) && code == -1)
    || (e == Send(true, false) && id == s.counter + 1 && code == -1)
  }

  /** One event runs at most one callback, that of the request it answers, with that code. */
  lemma FiredExact(s: State, e: Event, f: Fired)
    requires Enabled(s, e)
    ensures s.fired <= Step(s, e).fired && |Step(s, e).fired| <= |s.fired| + 1
    ensures f in Step(s, e).fired[|s.fired|..] <==> Answers(s, e, f.id, f.code)
  {
  }

  lemma {:induction false} FiredStays(s: State, es: seq<Event>)
    requires EnabledRun(s, es)
    ensures s.fired <= Run(s, es).fired
    decreases |es|
  {
    if es != [] {
      FiredExact(s, es[0], Fired(0, 0));
      FiredStays(Step(s, es[0]), es[1..]);
    }
  }

  lemma FiredWithOneCode(fired: seq<Fired>, f: Fired)
    requires FiredOnce(fired) && f in fired
    ensures forall g :: g in fired && g.id == f.id ==> g == f
  {
    var j :| 0 <= j < |fired| && fired[j] == f;
    forall g | g in fired && g.id == f.id ensures g == f {
      var k :| 0 <= k < |fired| && fired[k] == g;
    }
  }

  /** The first answer counts: whatever follows, the request's callback has run with that answer's code, and
      with no other. */
  lemma FirstAnswerCounts(s: State, e: Event, es: seq<Event>, id: nat, code: int)
    requires Inv(s) && Enabled(s, e) && EnabledRun(Step(s, e), es)
    requires Answers(s, e, id, code)
    ensures forall f :: f in Run(Step(s, e), es).fired && f.id == id <==> f == Fired(id, code)
  {
    var t := Step(s, e);
    FiredExact(s, e, Fired(id, code));
    FiredStays(t, es);
    StepKeepsInv(s, e);
    RunKeepsInv(t, es);
    assert Fired(id, code) in t.fired;
    FiredWithOneCode(Run(t, es).fired, Fired(id, code));
  }

  // ---------- what a clear aborts ----------

  /** The n-th clear is still in progress throughout the run. */
  ghost predicate During(s: State, es: seq<Event>, n: nat)
    requires EnabledRun(s, es)
    decreases |es|
  {
    n < |s.clears| && (es == [] || During(Step(s, es[0]), es[1..], n))
  }

  /** Requests leave a clear only by firing; none joins it. */
  lemma ClearStep(s: State, e: Event, n: nat)
    requires Inv(s) && Enabled(s, e) && n < |s.clears| && n < |Step(s, e).clears|
    ensures Step(s, e).clears[n].left <= s.clears[n].left <= Step(s, e).clears[n].left + FiredIds(Step(s, e).fired)
    ensures FiredIds(s.fired) <= FiredIds(Step(s, e).fired)
  {
    var f, f' := s.fired, Step(s, e).fired;
    forall x | x in FiredIds(f) ensures x in FiredIds(f') {
      var k :| 0 <= k < |f| && f[k].id == x;
      assert f'[k].id == x;
    }
    if e.Abort? { assert f'[|f|].id == e.id; }
  }

  lemma {:induction false} ClearShrinks(s: State, es: seq<Event>, n: nat)
    requires Inv(s) && EnabledRun(s, es) && During(s, es, n)
    ensures n < |Run(s, es).clears|
    ensures Run(s, es).clears[n].left <= s.clears[n].left <= Run(s, es).clears[n].left + FiredIds(Run(s, es).fired)
    ensures FiredIds(s.fired) <= FiredIds(Run(s, es).fired)
    decreases |es|
  {
    if es != [] {
      StepKeepsInv(s, es[0]);
      ClearStep(s, es[0], n);
      ClearShrinks(Step(s, es[0]), es[1..], n);
    }
  }

  /** Whatever the abort callbacks do meanwhile, a clear aborts only requests that were pending
      when it began, so none sent since; and once it ends, each of those has fired. */
  lemma ClearAbortsExactly(s: State, es: seq<Event>)
    requires Inv(s) && EnabledRun(Step(s, BeginClear), es) && During(Step(s, BeginClear), es, |s.clears|)
    ensures
      var t := Run(Step(s, BeginClear), es);
      && |s.clears| < |t.clears|
      && (|t.clears| == |s.clears| + 1 ==>
            && (forall id: nat :: Enabled(t, Abort(id)) ==> id in s.pending && id <= s.counter)
            && (Enabled(t, EndClear) ==> s.pending <= FiredIds(t.fired)))
  {
    BeginKeepsInv(s);
    ClearShrinks(Step(s, BeginClear), es, |s.clears|);
  }

  class ProtocolHandler {
    var pendingRequests: set<nat>
    var requestIdCounter: nat
    ghost var clears: seq<Clear>
    ghost var fired: seq<Fired>
    ghost var issued: set<nat>

    ghost function Table(): State
      reads this
    {
      State(requestIdCounter, pendingRequests, clears, fired, issued)
    }

    ghost predicate Valid()
      reads this
    {
      Inv(Table())
    }

    constructor ()
      ensures Valid() && Table() == EMPTY
    {
      pendingRequests, requestIdCounter, clears, fired, issued := {}, 0, [], [], {};
    }

    method SendRequest(hasCallback: bool, serialized: bool)
      requires Valid()
      modifies this
      ensures Valid() && Table() == Step(old(Table()), Send(hasCallback, serialized))
      ensures requestIdCounter == old(requestIdCounter) + 1
      ensures pendingRequests == old(pendingRequests) + if hasCallback && serialized then {requestIdCounter} else {}
      ensures fired == old(fired) + if hasCallback && !serialized then [Fired(requestIdCounter, -1)] else []
    {
      StepKeepsInv(Table(), Send(hasCallback, serialized));
      requestIdCounter := requestIdCounter + 1;
      if !serialized {
        if hasCallback {
          issued := issued + {requestIdCounter};
          fired := fired + [Fired(requestIdCounter, NETWORK_ERROR)];
        }
        return;
      }
      if hasCallback {
        issued := issued + {requestIdCounter};
        pendingRequests := pendingRequests + {requestIdCounter};
      }
    }

    /** A response, or the request's timer, takes it out of the table before its callback runs. */
    method Finish(id: nat, code: int)
      requires Valid()
      modifies this
      ensures Valid() && Table() == Complete(old(Table()), id, code)
      ensures pendingRequests == old(pendingRequests) - {id}
      ensures fired == old(fired) + if id in old(pendingRequests) then [Fired(id, code)] else []
    {
      CompleteKeepsInv(Table(), id, code);
      if id !in pendingRequests { return; }
      pendingRequests := pendingRequests - {id};
      fired := fired + [Fired(id, code)];
    }

    /** Aborts what is pending; the abort callback of a request sends `resends(id)` new ones. */
    method ClearPendingRequests(resends: nat -> nat)
      requires Valid()
      modifies this
      ensures Valid() && clears == old(clears)
      ensures FiredIds(fired) == FiredIds(old(fired)) + old(pendingRequests) && AbortedSince(old(fired))
      ensures pendingRequests == issued - old(issued)
      ensures forall id :: id in pendingRequests ==> id > old(requestIdCounter)
    {
      BeginKeepsInv(Table());
      var batch := pendingRequests;
      pendingRequests := {};
      clears := clears + [Clear(batch, requestIdCounter)];
      AbortAll(batch, resends, old(Table()));
      EndKeepsInv(Table());
      clears := clears[..|clears| - 1];
    }

    /** A clear that began in `start` has these requests left to abort. */
    ghost predicate Clearing(start: State, batch: set<nat>)
      reads this
    {
      && Valid() && clears == start.clears + [Clear(batch, start.counter)]
      && FiredIds(fired) + batch == FiredIds(start.fired) + start.pending && AbortedSince(start.fired)
      && SentSince(start.issued, start.counter)
    }

    method AbortAll(pending: set<nat>, resends: nat -> nat, ghost start: State)
      requires Clearing(start, pending)
      modifies this
      ensures Clearing(start, {})
    {
      var batch := pending;
      while batch != {}
        invariant Clearing(start, batch)
      {
        var id :| id in batch;
        batch := FireAbort(start.clears, batch, id, start.counter);
        Resend(resends(id), start.issued, start.counter);
      }
    }

    method FireAbort(ghost outer: seq<Clear>, batch: set<nat>, id: nat, ghost mark: nat) returns (left: set<nat>)
      requires Valid() && id in batch && clears == outer + [Clear(batch, mark)]
      modifies this`clears, this`fired
      ensures Valid() && left == batch - {id} && clears == outer + [Clear(left, mark)]
      ensures FiredIds(fired) == FiredIds(old(fired)) + {id} && id !in FiredIds(old(fired))
      ensures fired == old(fired) + [Fired(id, -1)]
    {
      AbortKeepsInv(Table(), id);
      TopApart(clears);
      FiredMore(fired, id, NETWORK_ERROR);
      left := batch - {id};
      assert clears[..|clears| - 1] == outer;
      clears := outer + [Clear(left, mark)];
      fired := fired + [Fired(id, NETWORK_ERROR)];
    }

    /** Every callback that ran since got -1. */
    ghost predicate AbortedSince(before: seq<Fired>)
      reads this
    {
      before <= fired && forall k :: |before| <= k < |fired| ==> fired[k].code == -1
    }

    /** The table holds exactly the requests sent since the counter stood at `mark`. */
    ghost predicate SentSince(before: set<nat>, mark: nat)
      reads this
    {
      && before <= issued && pendingRequests == issued - before && mark <= requestIdCounter
      && forall id :: id in pendingRequests ==> id > mark
    }

    /** Requests with callbacks, sent from inside an abort callback. */
    method Resend(n: nat, ghost before: set<nat>, ghost mark: nat)
      requires Valid() && SentSince(before, mark)
      modifies this
      ensures Valid() && clears == old(clears) && fired == old(fired) && SentSince(before, mark)
      ensures requestIdCounter == old(requestIdCounter) + n
    {
      for k := 0 to n
        invariant Valid() && clears == old(clears) && fired == old(fired) && SentSince(before, mark)
        invariant requestIdCounter == old(requestIdCounter) + k
      {
        assert requestIdCounter + 1 !in issued;
        SendRequest(true, true);
      }
    }
  }
}
