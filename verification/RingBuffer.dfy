/**
 The logger's double buffer and the backend's fan-out to sinks: what each critical
 section does on its own.  The interleavings of these sections are in AsyncLogger.
 */
module RingBuffer {

  datatype LogEntry = LogEntry(timestamp: int, level: int, line: int, file: string, message: string, tags: string)

  class RingBuffer {
    const capacity: nat
    var front: seq<LogEntry>
    var back: seq<LogEntry>
    var stopped: bool

    ghost predicate Valid()
      reads this
    {
      |front| <= capacity && back == []
    }

    constructor (capacity: nat)
      ensures Valid() && this.capacity == capacity && front == [] && !stopped
    {
      this.capacity := capacity;
      front, back, stopped := [], [], false;
    }

    /** Takes the entry behind all earlier ones unless the buffer is stopped or full, and then
        leaves the buffer alone.  Nothing comes between the stop test and the lock here; what
        may is in AsyncLogger. */
    method Push(entry: LogEntry) returns (ok: bool)
      requires Valid()
      modifies this`front
      ensures Valid()
      ensures ok <==> !stopped && |old(front)| < capacity
      ensures front == if ok then old(front) + [entry] else old(front)
    {
      if stopped { return false; }
      ok := Commit(entry);
    }

    /** The locked part of `Push`: append, or drop the newcomer when full. */
    method Commit(entry: LogEntry) returns (ok: bool)
      requires Valid()
      modifies this`front
      ensures Valid()
      ensures ok <==> |old(front)| < capacity
      ensures front == if ok then old(front) + [entry] else old(front)
    {
      if |front| >= capacity { return false; }
      front := front + [entry];
      return true;
    }

    /** Hands over everything pushed so far, in push order, and leaves the buffer empty. */
    method SwapAndGet() returns (entries: seq<LogEntry>)
      requires Valid()
      modifies this`front, this`back
      ensures Valid() && front == [] && entries == old(front)
    {
      if front != [] {
        back := [];
        front, back := back, front;
        entries := back;
        back := [];
        return;
      }
      entries := [];
    }

    method Stop()
      modifies this`stopped
      ensures stopped
    {
      stopped := true;
    }

    method Empty() returns (b: bool)
      ensures b <==> front == []
    {
      b := front == [];
    }
  }

  class BackendThread {
    /** What each sink has been given, in order. */
    var sinks: seq<seq<LogEntry>>

    constructor (n: nat)
      ensures |sinks| == n && forall i :: 0 <= i < n ==> sinks[i] == []
    {
      sinks := seq(n, _ => []);
    }

    /** Every sink receives every entry of the batch once, in batch order. */
    method ProcessEntries(entries: seq<LogEntry>)
      modifies this
      ensures |sinks| == old(|sinks|)
      ensures forall i :: 0 <= i < |sinks| ==> sinks[i] == old(sinks[i]) + entries
    {
      var n := 0;
      while n < |entries|
        invariant n <= |entries| && |sinks| == old(|sinks|)
        invariant forall i :: 0 <= i < |sinks| ==> sinks[i] == old(sinks[i]) + entries[..n]
      {
        var k := 0;
        while k < |sinks|
          invariant k <= |sinks| == old(|sinks|)
          invariant forall i :: 0 <= i < k ==> sinks[i] == old(sinks[i]) + entries[..n] + [entries[n]]
          invariant forall i :: k <= i < |sinks| ==> sinks[i] == old(sinks[i]) + entries[..n]
        {
          sinks := sinks[k := sinks[k] + [entries[n]]];
          k := k + 1;
        }
        assert entries[..n + 1] == entries[..n] + [entries[n]];
        n := n + 1;
      }
      assert entries[..n] == entries;
    }
  }
}
