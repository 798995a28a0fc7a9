/**
 Producers, the backend thread and the thread calling `Stop`, interleaved one critical
 section at a time.  `Push` is two steps: the unlocked stop test and the locked commit,
 so a push that passed the test may commit after the buffer was stopped.
 */
module AsyncLogger {
  import opened RingBuffer
  import opened Collections

  type Thread = nat

  /** Where `Run` stands. */
  datatype Consumer = TestRunning | TestEmpty | Swapping | Writing | Flushing | Exited

  /** Where the caller of `BackendThread::Stop` stands. */
  datatype Stopper = Idle | RunningCleared | Joining | FinalSwap | FinalWrite | Done

  datatype State = State(
    front: seq<LogEntry>, running: bool, stopped: bool,
    inflight: map<Thread, LogEntry>,  // pushes past the stop test, not yet committed
    consumer: Consumer, stopper: Stopper,
    batch: seq<LogEntry>,             // swapped out, not yet written
    written: seq<LogEntry>,           // written to the sinks
    accepted: seq<LogEntry>,          // pushes that returned true, in lock order
    atStop: map<Thread, LogEntry>,    // the in-flight pushes when the buffer was stopped
    late: seq<Thread>)                // commits after the final swap

  datatype Step = Admit(t: Thread, entry: LogEntry) | Commit(t: Thread) | Consume | Halt

  const INITIAL := State([], true, false, map[], TestRunning, Idle, [], [], [], map[], [])

  predicate Enabled(s: State, a: Step) {
    match a
    case Admit(t, _) => t !in s.inflight
    case Commit(t) => t in s.inflight
    case Consume => s.consumer != Exited
    case Halt => s.stopper != Done && (s.stopper == Joining ==> s.consumer == Exited)
  }

  predicate FinalSwapDone(s: State) {
    s.stopper == FinalWrite || s.stopper == Done
  }

  function Apply(capacity: nat, s: State, a: Step): State
    requires Enabled(s, a)
  {
    match a
    case Admit(t, entry) => if s.stopped then s else s.(inflight := s.inflight[t := entry])
    case Commit(t) =>
      var s' := s.(inflight := s.inflight - {t});
      if |s.front| >= capacity then s'
      else s'.(front := s.front + [s.inflight[t]], accepted := s.accepted + [s.inflight[t]],
               late := if FinalSwapDone(s) then s.late + [t] else s.late)
    case Consume => ConsumerStep(s)
    case Halt => StopperStep(s)
  }

  function WriteOne(s: State): State
    requires s.batch != []
  {
    s.(written := s.written + [s.batch[0]], batch := s.batch[1..])
  }

  /** `Run`: the loop test, `SwapAndGet` (which may time out with nothing), the writes, the flush. */
  function ConsumerStep(s: State): State {
    match s.consumer
    case TestRunning => s.(consumer := if s.running then Swapping else TestEmpty)
    case TestEmpty => s.(consumer := if s.front == [] then Exited else Swapping)
    case Swapping =>
      if s.front == [] then s.(consumer := Flushing) else s.(consumer := Writing, batch := s.front, front := [])
    case Writing => if s.batch == [] then s.(consumer := Flushing) else WriteOne(s)
    case Flushing => s.(consumer := TestRunning)
    case Exited => s
  }

  /** `Stop`: clear the flag, stop the buffer, join, drain what is left, close. */
  function StopperStep(s: State): State {
    match s.stopper
    case Idle => s.(stopper := RunningCleared, running := false)
    case RunningCleared => s.(stopper := Joining, stopped := true, atStop := s.inflight)
    case Joining => s.(stopper := FinalSwap)
    case FinalSwap => s.(stopper := FinalWrite, batch := s.front, front := [])
    case FinalWrite => if s.batch == [] then s.(stopper := Done) else WriteOne(s)
    case Done => s
  }

  // ---------- what every interleaving keeps ----------

  ghost predicate Inv(capacity: nat, s: State) {
    && s.accepted == s.written + s.batch + s.front
    && |s.front| <= capacity
    && (s.running <==> s.stopper == Idle)
    && (s.stopped <==> s.stopper != Idle && s.stopper != RunningCleared)
    && (s.stopper == FinalSwap || FinalSwapDone(s) ==> s.consumer == Exited)
    && (s.batch != [] ==> s.consumer == Writing || s.stopper == FinalWrite)
    && (s.stopped ==> forall t :: t in s.inflight ==> t in s.atStop && s.inflight[t] == s.atStop[t])
    && LateOnly(s)
  }

  /** Late commits are distinct pushes that had passed the stop test before the buffer was
      stopped, and they are what the buffer holds once the final swap is done. */
  ghost predicate LateOnly(s: State) {
    && (!FinalSwapDone(s) ==> s.late == [])
    && (FinalSwapDone(s) ==> |s.front| == |s.late|)
    && (forall i :: 0 <= i < |s.late| ==> s.late[i] in s.atStop && s.late[i] !in s.inflight)
    && (FinalSwapDone(s) ==> forall i :: 0 <= i < |s.late| ==> s.front[i] == s.atStop[s.late[i]])
    && (forall i, j :: 0 <= i < j < |s.late| ==> s.late[i] != s.late[j])
  }

  lemma CommitKeepsInv(capacity: nat, s: State, t: Thread)
    requires Inv(capacity, s) && t in s.inflight
    ensures Inv(capacity, Apply(capacity, s, Commit(t)))
  {
    var s' := Apply(capacity, s, Commit(t));
    if |s.front| < capacity {
      var e := s.inflight[t];
      assert s.written + s.batch + (s.front + [e]) == s.written + s.batch + s.front + [e];
    }
  }

  lemma WriteOneConserves(s: State)
    requires s.batch != []
    ensures WriteOne(s).written + WriteOne(s).batch == s.written + s.batch
  {
    assert s.batch == [s.batch[0]] + s.batch[1..];
  }

  lemma ConsumeKeepsInv(capacity: nat, s: State)
    requires Inv(capacity, s) && s.consumer != Exited
    ensures Inv(capacity, ConsumerStep(s))
  {
    if s.consumer == Writing && s.batch != [] { WriteOneConserves(s); }
  }

  lemma HaltKeepsInv(capacity: nat, s: State)
    requires Inv(capacity, s) && Enabled(s, Halt)
    ensures Inv(capacity, StopperStep(s))
  {
    if s.stopper == FinalWrite && s.batch != [] { WriteOneConserves(s); }
  }

  lemma StepKeepsInv(capacity: nat, s: State, a: Step)
    requires Inv(capacity, s) && Enabled(s, a)
    ensures Inv(capacity, Apply(capacity, s, a))
  {
    match a
    case Admit(t, entry) =>
    case Commit(t) => CommitKeepsInv(capacity, s, t);
    case Consume => ConsumeKeepsInv(capacity, s);
    case Halt => HaltKeepsInv(capacity, s);
  }

  ghost predicate ValidRun(capacity: nat, s: State, run: seq<Step>)
    decreases |run|
  {
    run == [] || (Enabled(s, run[0]) && ValidRun(capacity, Apply(capacity, s, run[0]), run[1..]))
  }

  ghost function Final(capacity: nat, s: State, run: seq<Step>): State
    requires ValidRun(capacity, s, run)
    decreases |run|
  {
    if run == [] then s else Final(capacity, Apply(capacity, s, run[0]), run[1..])
  }

  lemma {:induction false} RunKeepsInv(capacity: nat, s: State, run: seq<Step>)
    requires Inv(capacity, s) && ValidRun(capacity, s, run)
    ensures Inv(capacity, Final(capacity, s, run))
    decreases |run|
  {
    if run != [] {
      StepKeepsInv(capacity, s, run[0]);
      RunKeepsInv(capacity, Apply(capacity, s, run[0]), run[1..]);
    }
  }

  /** In every interleaving, accepted pushes in lock order are what was written, then what
      is swapped out, then what is buffered: nothing is lost, repeated or reordered, and
      the buffer never outgrows its capacity. */
  lemma AcceptedIsConserved(capacity: nat, run: seq<Step>)
    requires ValidRun(capacity, INITIAL, run)
    ensures var s := Final(capacity, INITIAL, run);
      s.accepted == s.written + s.batch + s.front && |s.front| <= capacity && s.written <= s.accepted
  {
    RunKeepsInv(capacity, INITIAL, run);
  }

  /** Undelivered accepted pushes are distinct ones that passed the stop test before the
      buffer was stopped and committed after the final swap; there are at most as many of
      them as pushes were in flight when the buffer was stopped. */
  ghost predicate DeliveredAllButLate(s: State) {
    && s.accepted == s.written + s.front
    && |s.front| == |s.late| <= |s.atStop|
    && (forall i :: 0 <= i < |s.late| ==> s.late[i] in s.atStop && s.front[i] == s.atStop[s.late[i]])
    && (forall i, j :: 0 <= i < j < |s.late| ==> s.late[i] != s.late[j])
  }

  lemma DoneMeansDelivered(capacity: nat, s: State)
    requires Inv(capacity, s) && s.stopper == Done
    ensures DeliveredAllButLate(s)
  {
    DistinctCount(s.late, s.atStop.Keys);
    assert s.batch == [] && s.written + [] == s.written;
  }

  /** The promise of `Stop` in every interleaving. */
  lemma OnlyLateCommitsUndelivered(capacity: nat, run: seq<Step>)
    requires ValidRun(capacity, INITIAL, run) && Final(capacity, INITIAL, run).stopper == Done
    ensures DeliveredAllButLate(Final(capacity, INITIAL, run))
  {
    RunKeepsInv(capacity, INITIAL, run);
    DoneMeansDelivered(capacity, Final(capacity, INITIAL, run));
  }

  /** Everything accepted was delivered exactly when no commit came after the final swap. */
  lemma DeliveredExact(capacity: nat, run: seq<Step>)
    requires ValidRun(capacity, INITIAL, run) && Final(capacity, INITIAL, run).stopper == Done
    ensures var s := Final(capacity, INITIAL, run); s.written == s.accepted <==> s.late == []
  {
    OnlyLateCommitsUndelivered(capacity, run);
    var s := Final(capacity, INITIAL, run);
    assert |s.accepted| == |s.written| + |s.front|;
    if s.front == [] { assert s.written + s.front == s.written; }
  }

  lemma RunCons(capacity: nat, s: State, a: Step, rest: seq<Step>)
    requires Enabled(s, a) && ValidRun(capacity, Apply(capacity, s, a), rest)
    ensures ValidRun(capacity, s, [a] + rest)
    ensures Final(capacity, s, [a] + rest) == Final(capacity, Apply(capacity, s, a), rest)
  {
    assert ([a] + rest)[0] == a && ([a] + rest)[1..] == rest;
  }

  /** A push past the stop test before `Stop`, committed after `Stop` has returned. */
  function LateRun(entry: LogEntry): seq<Step> {
    [Admit(0, entry)]
        + ([Halt] + ([Halt] + ([Consume] + ([Consume] + ([Halt] + ([Halt] + ([Halt] + ([Commit(0)] + []))))))))
  }

  /** Such a push returns true and is never written. */
  lemma LateCommitIsLost(capacity: nat, entry: LogEntry)
    requires capacity > 0
    ensures ValidRun(capacity, INITIAL, LateRun(entry))
    ensures var s := Final(capacity, INITIAL, LateRun(entry));
      s.stopper == Done && s.accepted == [entry] && s.written == [] && s.late == [0]
  {
    var s0 := INITIAL;
    var s1 := Apply(capacity, s0, Admit(0, entry));
    var s2 := StopperStep(s1);
    var s3 := StopperStep(s2);
    var s4 := ConsumerStep(s3);
    var s5 := ConsumerStep(s4);
    var s6 := StopperStep(s5);
    var s7 := StopperStep(s6);
    var s8 := StopperStep(s7);
    var s9 := Apply(capacity, s8, Commit(0));
    var r8 := [Commit(0)] + [];
    var r7 := [Halt] + r8;
    var r6 := [Halt] + r7;
    var r5 := [Halt] + r6;
    var r4 := [Consume] + r5;
    var r3 := [Consume] + r4;
    var r2 := [Halt] + r3;
    var r1 := [Halt] + r2;
    RunCons(capacity, s8, Commit(0), []);
    RunCons(capacity, s7, Halt, r8);
    RunCons(capacity, s6, Halt, r7);
    RunCons(capacity, s5, Halt, r6);
    RunCons(capacity, s4, Consume, r5);
    RunCons(capacity, s3, Consume, r4);
    RunCons(capacity, s2, Halt, r3);
    RunCons(capacity, s1, Halt, r2);
    RunCons(capacity, s0, Admit(0, entry), r1);
    assert s9.front == [entry];
  }

  // ---------- what is accepted, and when it is written ----------

  /** A commit is accepted, behind everything accepted so far, exactly when the buffer holds fewer
      entries than its capacity. */
  lemma CommitExact(capacity: nat, s: State, t: Thread)
    requires t in s.inflight
    ensures
      var s' := Apply(capacity, s, Commit(t));
      && s'.accepted == s.accepted + (if |s.front| < capacity then [s.inflight[t]] else [])
      && s'.front == s.front + (if |s.front| < capacity then [s.inflight[t]] else [])
      && t !in s'.inflight && s'.written == s.written && s'.batch == s.batch
  {
  }

  /** One thread's pushes, one after another. */
  function Burst(t: Thread, entries: seq<LogEntry>): seq<Step> {
    if entries == [] then [] else [Admit(t, entries[0])] + ([Commit(t)] + Burst(t, entries[1..]))
  }

  function Room(capacity: nat, front: seq<LogEntry>): nat {
    if |front| < capacity then capacity - |front| else 0
  }

  lemma PushTaken(capacity: nat, s: State, t: Thread, entry: LogEntry)
    requires !s.stopped && t !in s.inflight
    ensures
      var s' := Apply(capacity, Apply(capacity, s, Admit(t, entry)), Commit(t));
      && !s'.stopped && t !in s'.inflight
      && s'.accepted == s.accepted + (if |s.front| < capacity then [entry] else [])
      && s'.front == s.front + (if |s.front| < capacity then [entry] else [])
  {
  }

  /** Of pushes made while the buffer is open and nothing is swapped out, the first ones are
      accepted, in order, as many as there is room for, and the others refused. */
  lemma {:induction false} BurstExact(capacity: nat, s: State, t: Thread, entries: seq<LogEntry>)
    requires !s.stopped && t !in s.inflight
    ensures ValidRun(capacity, s, Burst(t, entries))
    ensures
      var n := if |entries| < Room(capacity, s.front) then |entries| else Room(capacity, s.front);
      Final(capacity, s, Burst(t, entries)).accepted == s.accepted + entries[..n]
    decreases |entries|
  {
    if entries == [] {
      assert entries[..0] == [] && s.accepted + [] == s.accepted;
    } else {
      var s1 := Apply(capacity, s, Admit(t, entries[0]));
      var s2 := Apply(capacity, s1, Commit(t));
      PushTaken(capacity, s, t, entries[0]);
      BurstExact(capacity, s2, t, entries[1..]);
      RunCons(capacity, s1, Commit(t), Burst(t, entries[1..]));
      RunCons(capacity, s, Admit(t, entries[0]), [Commit(t)] + Burst(t, entries[1..]));
      FirstOfBurst(s.accepted, entries, Room(capacity, s.front));
    }
  }

  lemma FirstOfBurst(before: seq<LogEntry>, entries: seq<LogEntry>, room: nat)
    requires entries != []
    ensures
      var n := if |entries| < room then |entries| else room;
      var rest := entries[1..];
      var first := if room > 0 then [entries[0]] else [];
      var left := if room > 0 then room - 1 else 0;
      var m := if |rest| < left then |rest| else left;
      before + first + rest[..m] == before + entries[..n]
  {
    if room > 0 { assert entries == [entries[0]] + entries[1..]; }
  }

  /** Up to `capacity` pushes into a new logger are all accepted, in order. */
  lemma FirstPushesAccepted(capacity: nat, t: Thread, entries: seq<LogEntry>)
    requires |entries| <= capacity
    ensures ValidRun(capacity, INITIAL, Burst(t, entries))
    ensures Final(capacity, INITIAL, Burst(t, entries)).accepted == entries
  {
    BurstExact(capacity, INITIAL, t, entries);
    assert entries[..|entries|] == entries && [] + entries == entries;
  }

  function Backend(n: nat): seq<Step> {
    if n == 0 then [] else [Consume] + Backend(n - 1)
  }

  lemma {:induction false} WritesBatch(capacity: nat, s: State)
    requires s.consumer == Writing
    ensures ValidRun(capacity, s, Backend(|s.batch|))
    ensures
      var s' := Final(capacity, s, Backend(|s.batch|));
      s'.written == s.written + s.batch && s'.batch == [] && s'.front == s.front && s'.consumer == Writing
    decreases |s.batch|
  {
    if s.batch != [] {
      WriteOneConserves(s);
      WritesBatch(capacity, WriteOne(s));
      RunCons(capacity, s, Consume, Backend(|s.batch| - 1));
    }
  }

  /** While running, one round of the backend writes whatever the buffer holds. */
  lemma BackendRoundWrites(capacity: nat, s: State)
    requires s.consumer == TestRunning && s.running && s.batch == [] && s.front != []
    ensures ValidRun(capacity, s, Backend(|s.front| + 2))
    ensures
      var s' := Final(capacity, s, Backend(|s.front| + 2));
      s'.written == s.written + s.front && s'.front == [] && s'.batch == []
  {
    var s1 := ConsumerStep(s);
    var s2 := ConsumerStep(s1);
    WritesBatch(capacity, s2);
    RunCons(capacity, s1, Consume, Backend(|s.front|));
    RunCons(capacity, s, Consume, Backend(|s.front| + 1));
  }

  // ---------- shutdown ends ----------

  function ConsumerRank(s: State): nat {
    match s.consumer
    case Swapping => if s.front == [] then 8 else 2
    case Writing => 7
    case Flushing => 6
    case TestRunning => 4
    case TestEmpty => 3
    case Exited => 0
  }

  function StopperRank(s: State): nat {
    match s.stopper
    case Idle => 5
    case RunningCleared => 4
    case Joining => 3
    case FinalSwap => 2
    case FinalWrite => 1
    case Done => 0
  }

  /** How many more steps the logger can take once the buffer is stopped. */
  function Remaining(s: State): nat {
    8 * |s.inflight| + 7 * |s.front| + |s.batch| + ConsumerRank(s) + StopperRank(s)
  }

  /** After the buffer is stopped every step except a refused push uses up some of what remains. */
  lemma StepsRunOut(capacity: nat, s: State, a: Step)
    requires Inv(capacity, s) && s.stopped && Enabled(s, a)
    ensures var s' := Apply(capacity, s, a);
      s'.stopped && (if a.Admit? then s' == s else Remaining(s') < Remaining(s))
  {
    match a
    case Admit(_, _) =>
    case Commit(t) => CommitUsesUp(capacity, s, t);
    case Consume => ConsumeUsesUp(capacity, s);
    case Halt => HaltUsesUp(capacity, s);
  }

  lemma CommitUsesUp(capacity: nat, s: State, t: Thread)
    requires t in s.inflight
    ensures Remaining(Apply(capacity, s, Commit(t))) < Remaining(s)
  {
    assert (s.inflight - {t}).Keys == s.inflight.Keys - {t};
    assert |s.inflight - {t}| == |s.inflight| - 1;
  }

  lemma ConsumeUsesUp(capacity: nat, s: State)
    requires Inv(capacity, s) && s.stopped && s.consumer != Exited
    ensures Remaining(ConsumerStep(s)) < Remaining(s)
  {
  }

  lemma HaltUsesUp(capacity: nat, s: State)
    requires Inv(capacity, s) && s.stopped && Enabled(s, Halt)
    ensures Remaining(StopperStep(s)) < Remaining(s)
  {
  }

  /** Until `Stop` has returned, the backend or the stopper can move. */
  lemma NeverStuck(capacity: nat, s: State)
    requires Inv(capacity, s) && s.stopper != Done
    ensures Enabled(s, Consume) || Enabled(s, Halt)
  {
  }

  ghost function Moves(run: seq<Step>): nat {
    if run == [] then 0 else (if run[0].Admit? then 0 else 1) + Moves(run[1..])
  }

  /** After the buffer is stopped the `Run` loop and `Stop` finish: whatever the schedule, only
      a bounded number of moves is left, and as long as `Stop` has not returned one is possible. */
  lemma {:induction false} ShutdownTerminates(capacity: nat, s: State, run: seq<Step>)
    requires Inv(capacity, s) && s.stopped && ValidRun(capacity, s, run)
    ensures var s' := Final(capacity, s, run);
      && Moves(run) + Remaining(s') <= Remaining(s)
      && (s'.stopper != Done ==> Enabled(s', Consume) || Enabled(s', Halt))
    decreases |run|
  {
    if run == [] {
      if s.stopper != Done { NeverStuck(capacity, s); }
    } else {
      StepKeepsInv(capacity, s, run[0]);
      StepsRunOut(capacity, s, run[0]);
      ShutdownTerminates(capacity, Apply(capacity, s, run[0]), run[1..]);
    }
  }
}
