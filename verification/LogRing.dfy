/** The bounded event log of server/src/state.rs. */
module LogRing {
  import opened Integers

  const CAPACITY := 500

  /** The log: everything ever appended is `history`; the object keeps its last `CAPACITY` entries and a count. */
  class EventLog<T> {
    var log: seq<T>
    var total: nat
    ghost var history: seq<T>

    ghost predicate Valid()
      reads this
    {
      total == |history| && log == Ring(history)
    }

    constructor ()
      ensures Valid() && history == []
    {
      log, total, history := [], 0, [];
    }

    method Log(entry: T)
      requires Valid()
      modifies this
      ensures Valid() && history == old(history) + [entry]
    {
      if |log| >= CAPACITY {
        log := log[1..];
      }
      log := log + [entry];
      total := total + 1;
      history := history + [entry];
    }

    /** The entries at or after `after`, as far as the ring still has them, and the new high-water mark. */
    method LogSince(after: nat) returns (entries: seq<T>, seqNo: nat)
      requires Valid()
      ensures (entries, seqNo) == Since(history, after)
    {
      var firstSeq := total - |log|;
      var skip := if after >= firstSeq then after - firstSeq else 0;
      entries := if skip <= |log| then log[skip..] else [];
      seqNo := total;
    }
  }

  // --- What a fetch returns ---------------------------------------------------

  /** The sequence number of the oldest entry still held. */
  function Oldest(total: nat): nat {
    if total <= CAPACITY then 0 else total - CAPACITY
  }

  function Ring<T>(history: seq<T>): seq<T> {
    history[Oldest(|history|)..]
  }

  function Since<T>(history: seq<T>, after: nat): (seq<T>, nat) {
    var from := Max(after, Oldest(|history|));
    (if from <= |history| then history[from..] else [], |history|)
  }

  /** Sequence numbers in a row. */
  function Interval(lo: nat, hi: nat): seq<nat> {
    if lo < hi then seq(hi - lo, i requires 0 <= i < hi - lo => lo + i) else []
  }
}
