/**
 The write side of a websocket session: a queue drained by one asynchronous write at a time.
 */
module WsSession {

  /** `accepted` and `handed` record what was queued and what was passed to the socket;
      `outstanding` counts the writes whose completion is still to come. */
  datatype Session = Session(queue: seq<string>, buffer: string, writing: bool, closed: bool,
                             accepted: seq<string>, handed: seq<string>, outstanding: nat)

  const OPENED := Session([], "", false, false, [], [], 0)

  datatype Event = Queued(data: string) | Written(ok: bool) | Closing

  function StartWrite(s: Session): Session {
    if s.closed || s.queue == [] then s
    else s.(writing := true, buffer := s.queue[0], queue := s.queue[1..], handed := s.handed + [s.queue[0]],
            outstanding := s.outstanding + 1)
  }

  function Step(s: Session, e: Event): Session {
    match e
    case Queued(data) =>
      if s.closed then s
      else
        var s1 := s.(queue := s.queue + [data], accepted := s.accepted + [data]);
        if s1.writing then s1 else StartWrite(s1)
    case Written(ok) =>
      var s1 := s.(writing := false, outstanding := if s.outstanding > 0 then s.outstanding - 1 else 0);
      if !ok then s1.(closed := true) else if s1.queue != [] then StartWrite(s1) else s1
    case Closing => s.(closed := true)
  }

  /** A completion arrives only for a write that was started. */
  predicate Enabled(s: Session, e: Event) {
    e.Written? ==> s.outstanding > 0
  }

  ghost predicate Inv(s: Session) {
    && s.accepted == s.handed + s.queue
    && s.outstanding == (if s.writing then 1 else 0)
    && (s.writing ==> s.handed != [] && s.buffer == s.handed[|s.handed| - 1])
    && (!s.closed && !s.writing ==> s.queue == [])
  }

  lemma StartWriteKeepsInv(s: Session)
    requires s.accepted == s.handed + s.queue && s.outstanding == 0 && !s.writing
    ensures Inv(StartWrite(s)) || s.closed
    ensures StartWrite(s).accepted == s.accepted && StartWrite(s).closed == s.closed
  {
    if !s.closed && s.queue != [] {
      assert s.handed + s.queue == (s.handed + [s.queue[0]]) + s.queue[1..];
    }
  }

  lemma StepKeepsInv(s: Session, e: Event)
    requires Inv(s) && Enabled(s, e)
    ensures Inv(Step(s, e))
  {
    match e
    case Queued(data) =>
      assert s.accepted + [data] == s.handed + (s.queue + [data]);
      if !s.closed && !s.writing { StartWriteKeepsInv(s.(queue := s.queue + [data], accepted := s.accepted + [data])); }
    case Written(ok) =>
      if ok { StartWriteKeepsInv(s.(writing := false, outstanding := 0)); }
    case Closing =>
  }

  ghost predicate EnabledRun(s: Session, es: seq<Event>)
    decreases |es|
  {
    es == [] || (Enabled(s, es[0]) && EnabledRun(Step(s, es[0]), es[1..]))
  }

  function Run(s: Session, es: seq<Event>): Session
    decreases |es|
  {
    if es == [] then s else Run(Step(s, es[0]), es[1..])
  }

  /** The messages queued before the session closed or a write failed. */
  function Offered(closed: bool, es: seq<Event>): seq<string>
    decreases |es|
  {
    if es == [] || closed then []
    else match es[0]
      case Queued(data) => [data] + Offered(false, es[1..])
      case Written(ok) => Offered(!ok, es[1..])
      case Closing => []
  }

  lemma ClosedAccepts(s: Session, e: Event)
    ensures s.closed ==> Step(s, e).closed && Step(s, e).accepted == s.accepted && Step(s, e).handed == s.handed
  {
  }

  /** A closed session accepts and hands over nothing more. */
  lemma {:induction false} ClosedIsFinal(s: Session, es: seq<Event>)
    requires s.closed
    ensures Run(s, es).closed && Run(s, es).accepted == s.accepted && Run(s, es).handed == s.handed
    decreases |es|
  {
    if es != [] {
      ClosedAccepts(s, es[0]);
      ClosedIsFinal(Step(s, es[0]), es[1..]);
    }
  }

  lemma {:induction false} RunAccepts(s: Session, es: seq<Event>)
    requires Inv(s) && EnabledRun(s, es)
    ensures Inv(Run(s, es)) && Run(s, es).accepted == s.accepted + Offered(s.closed, es)
    decreases |es|
  {
    if es != [] {
      StepKeepsInv(s, es[0]);
      RunAccepts(Step(s, es[0]), es[1..]);
      if s.closed { ClosedIsFinal(s, es); }
    }
  }

  /** In every order of events, what was handed to the socket followed by the queue is what
      was queued while the session was open, in order; one write at most is outstanding, its
      buffer is the message last handed over, and an open idle session has nothing queued. */
  lemma DeliveryInOrder(es: seq<Event>)
    requires EnabledRun(OPENED, es)
    ensures
      var s := Run(OPENED, es);
      && s.handed + s.queue == Offered(false, es)
      && s.outstanding == (if s.writing then 1 else 0)
      && (s.writing ==> s.handed != [] && s.buffer == s.handed[|s.handed| - 1])
      && (!s.closed && !s.writing ==> s.handed == Offered(false, es))
  {
    RunAccepts(OPENED, es);
    assert [] + Offered(false, es) == Offered(false, es);
  }

  /** As many successful completions as there are messages left empty the queue. */
  lemma {:induction false} Drains(s: Session)
    requires Inv(s) && !s.closed && s.writing
    ensures
      var end := Run(s, seq(|s.queue| + 1, _ => Written(true)));
      EnabledRun(s, seq(|s.queue| + 1, _ => Written(true))) && !end.writing && end.queue == []
          && end.handed == s.accepted
    decreases |s.queue|
  {
    var es := seq(|s.queue| + 1, _ => Written(true));
    var next := Step(s, es[0]);
    StepKeepsInv(s, es[0]);
    if s.queue == [] {
      assert es[1..] == [];
    } else {
      assert es[1..] == seq(|next.queue| + 1, _ => Written(true));
      Drains(next);
    }
  }

  class WsSession {
    var writeQueue: seq<string>
    var writeBuffer: string
    var writing: bool
    var closed: bool
    ghost var accepted: seq<string>
    ghost var handed: seq<string>
    ghost var outstanding: nat

    ghost function State(): Session
      reads this
    {
      Session(writeQueue, writeBuffer, writing, closed, accepted, handed, outstanding)
    }

    ghost predicate Valid()
      reads this
    {
      Inv(State())
    }

    constructor ()
      ensures Valid() && State() == OPENED
    {
      writeQueue, writeBuffer, writing, closed := [], "", false, false;
      accepted, handed, outstanding := [], [], 0;
    }

    method QueueSend(data: string)
      requires Valid()
      modifies this
      ensures Valid() && State() == Step(old(State()), Queued(data))
    {
      StepKeepsInv(State(), Queued(data));
      if closed { return; }
      writeQueue := writeQueue + [data];
      accepted := accepted + [data];
      if !writing { DoWrite(); }
    }

    method DoWrite()
      modifies this
      ensures State() == StartWrite(old(State()))
    {
      if closed || writeQueue == [] { return; }
      writing := true;
      writeBuffer := writeQueue[0];
      writeQueue := writeQueue[1..];
      handed, outstanding := handed + [writeBuffer], outstanding + 1;
    }

    method OnWrite(ok: bool)
      requires Valid() && outstanding > 0
      modifies this
      ensures Valid() && State() == Step(old(State()), Written(ok))
    {
      StepKeepsInv(State(), Written(ok));
      outstanding := outstanding - 1;
      writing := false;
      if !ok {
        if !closed { Close(); }
        return;
      }
      if writeQueue != [] { DoWrite(); }
    }

    method Close()
      modifies this
      ensures State() == old(State()).(closed := true)
    {
      closed := true;
    }
  }
}
