/** The fixed-window login limiter of server/src/auth.rs, one address at a time and as the locked table. */
module RateLimit {
  import opened Integers
  import opened Options

  const RATE_WINDOW_MS := 60 * 1000
  const RATE_MAX := 5

  /** How many attempts the current window has seen, and when its first one came. */
  datatype Entry = Entry(count: nat, start: int)

  /** What one attempt makes of an address's entry, and whether it is allowed. */
  function Attempt(entry: Option<Entry>, now: int): (Entry, bool) {
    var held := entry.GetOr(Entry(0, now));
    var current := if now - held.start > RATE_WINDOW_MS then Entry(0, now) else held;
    (Entry(current.count + 1, current.start), current.count + 1 <= RATE_MAX)
  }

  class RateLimiter<Ip(==)> {
    var entries: map<Ip, Entry>

    function EntryOf(ip: Ip): Option<Entry>
      reads this
    {
      if ip in entries then Some(entries[ip]) else None
    }

    constructor ()
      ensures entries == map[]
    {
      entries := map[];
    }

    method Allow(ip: Ip, now: int) returns (ok: bool)
      modifies this
      ensures ip in entries && (entries[ip], ok) == Attempt(old(EntryOf(ip)), now)
      ensures entries == old(entries)[ip := entries[ip]]
    {
      if ip !in entries {
        entries := entries[ip := Entry(0, now)];
      }
      if now - entries[ip].start > RATE_WINDOW_MS {
        entries := entries[ip := Entry(0, now)];
      }
      entries := entries[ip := entries[ip].(count := entries[ip].count + 1)];
      return entries[ip].count <= RATE_MAX;
    }
  }

  // --- One address's attempts -------------------------------------------------

  /** The times of an address's attempts; the clock never runs backwards. */
  ghost predicate InOrder(times: seq<int>) {
    forall i, j :: 0 <= i < j < |times| ==> times[i] <= times[j]
  }

  /** The entry after these attempts. */
  function After(times: seq<int>): (r: Option<Entry>)
    ensures r.Some? <==> times != []
    ensures r.Some? ==> r.value.count > 0
  {
    if times == [] then None
    else Some(Attempt(After(times[..|times| - 1]), times[|times| - 1]).0)
  }

  predicate Allowed(times: seq<int>, i: nat)
    requires i < |times|
  {
    Attempt(After(times[..i]), times[i]).1
  }

  /** How many of the attempts from `i` up to but not including `k` are allowed. */
  function AllowedBetween(times: seq<int>, i: nat, k: nat): nat
    requires i <= k <= |times|
    decreases k
  {
    if i == k then 0 else AllowedBetween(times, i, k - 1) + if Allowed(times, k - 1) then 1 else 0
  }

  lemma AfterStep(times: seq<int>, k: nat)
    requires k < |times|
    ensures After(times[..k + 1]) == Some(Attempt(After(times[..k]), times[k]).0)
    ensures Allowed(times, k) <==> After(times[..k + 1]).value.count <= RATE_MAX
  {
    assert times[..k + 1][..k] == times[..k];
  }

  lemma {:induction false} CountedInWindow(times: seq<int>, k: nat)
    requires InOrder(times) && 0 < k <= |times|
    ensures var e := After(times[..k]).value;
      && e.count <= k
      && times[k - e.count] == e.start
      && times[k - 1] - e.start <= RATE_WINDOW_MS
    decreases k
  {
    AfterStep(times, k - 1);
    if k > 1 { CountedInWindow(times, k - 1); }
  }

  /**
   A window that opened before `i` spent one of its attempts there; one that opened later had at most one predecessor
   inside the stretch.
   */
  lemma {:induction false} StretchBound(times: seq<int>, i: nat, k: nat)
    requires InOrder(times) && i <= k <= |times|
    requires i < k ==> times[k - 1] - times[i] <= RATE_WINDOW_MS
    ensures k > i ==>
      Bounded(AllowedBetween(times, i, k), After(times[..k]).value, times[i])
    decreases k
  {
    if k > i {
      StretchBound(times, i, k - 1);
      AfterStep(times, k - 1);
      if k > 1 { CountedInWindow(times, k - 1); }
      BoundStep(After(times[..k - 1]), AllowedBetween(times, i, k - 1), times[k - 1], times[i], k - 1 == i);
    }
  }

  predicate Bounded(allowed: int, e: Entry, from: int) {
    allowed <= Min(e.count, RATE_MAX) - 1 + if e.start < from then 0 else RATE_MAX
  }

  /** One more attempt within a window's length of `from`. */
  lemma BoundStep(e: Option<Entry>, allowed: nat, now: int, from: int, first: bool)
    requires from <= now <= from + RATE_WINDOW_MS
    requires e.Some? ==> e.value.count > 0
    requires if first then allowed == 0 && (e.Some? ==> e.value.start <= from) else e.Some? && Bounded(allowed, e.value, from)
    ensures Bounded(allowed + (if Attempt(e, now).1 then 1 else 0), Attempt(e, now).0, from)
  {}

  /** In any stretch no longer than the window at most twice the cap less one attempts are allowed, whatever came before. */
  lemma {:induction false} AtMostTwiceTheCap(times: seq<int>, i: nat, j: nat)
    requires InOrder(times) && i <= j < |times| && times[j] - times[i] <= RATE_WINDOW_MS
    ensures AllowedBetween(times, i, j + 1) <= 2 * RATE_MAX - 1
  {
    StretchBound(times, i, j + 1);
  }

  /** Nobody is refused who has not made the full number of attempts within the window just before. */
  lemma RefusedOnlyAfterTheCap(times: seq<int>, i: nat)
    requires InOrder(times) && i < |times| && !Allowed(times, i)
    ensures i >= RATE_MAX && times[i] - times[i - RATE_MAX] <= RATE_WINDOW_MS
  {
    AfterStep(times, i);
    CountedInWindow(times, i + 1);
    var e := After(times[..i + 1]).value;
    assert times[i + 1 - e.count] <= times[i - RATE_MAX];
  }

  /** The time at which the window an attempt falls into was opened. */
  function WindowOf(times: seq<int>, i: nat): int
    requires i < |times|
  {
    After(times[..i + 1]).value.start
  }

  lemma {:induction false} WindowsFollow(times: seq<int>, i: nat, j: nat)
    requires InOrder(times) && i <= j < |times|
    ensures WindowOf(times, i) <= WindowOf(times, j) <= times[j]
    decreases j
  {
    AfterStep(times, j);
    if i < j {
      WindowsFollow(times, i, j - 1);
    } else if j > 0 {
      WindowsFollow(times, j - 1, j - 1);
    }
  }

  lemma WindowsStay(times: seq<int>, i: nat, j: nat)
    requires InOrder(times) && i < j < |times| && WindowOf(times, i) == WindowOf(times, j)
    ensures WindowOf(times, j - 1) == WindowOf(times, i)
  {
    WindowsFollow(times, i, j - 1);
    WindowsFollow(times, j - 1, j);
  }

  /** From the attempt that opens a window on, its count is the number of attempts. */
  lemma {:induction false} WindowCount(times: seq<int>, i: nat, j: nat)
    requires InOrder(times) && i <= j < |times| && WindowOf(times, i) == WindowOf(times, j)
    requires i > 0 ==> WindowOf(times, i - 1) != WindowOf(times, i)
    ensures After(times[..j + 1]).value.count == j + 1 - i
    decreases j
  {
    AfterStep(times, j);
    if i < j {
      WindowsStay(times, i, j);
      WindowCount(times, i, j - 1);
      SameWindow(After(times[..j]).value, times[j]);
    } else if i > 0 {
      NewWindow(After(times[..i]).value, times[i]);
    }
  }

  /** The limiter's promise: of all attempts falling into one window, the first `RATE_MAX` are allowed and no more. */
  lemma {:induction false} CapPerWindow(times: seq<int>, i: nat, j: nat)
    requires InOrder(times) && i <= j < |times| && WindowOf(times, i) == WindowOf(times, j)
    requires i > 0 ==> WindowOf(times, i - 1) != WindowOf(times, i)
    ensures AllowedBetween(times, i, j + 1) == Min(j + 1 - i, RATE_MAX)
    decreases j
  {
    AfterStep(times, j);
    WindowCount(times, i, j);
    if i < j {
      WindowsStay(times, i, j);
      CapPerWindow(times, i, j - 1);
    } else {
      assert AllowedBetween(times, i, i) == 0;
    }
  }

  lemma SameWindow(e: Entry, now: int)
    requires Attempt(Some(e), now).0.start == e.start
    ensures Attempt(Some(e), now).0 == Entry(e.count + 1, e.start)
  {}

  lemma NewWindow(e: Entry, now: int)
    requires Attempt(Some(e), now).0.start != e.start
    ensures Attempt(Some(e), now).0 == Entry(1, now)
  {}

  // --- The bound is reached ---------------------------------------------------

  /** One attempt at 0, the rest of the cap when the window closes, and a full cap one millisecond later. */
  function Burst(n: nat): seq<int> {
    seq(n, i => if i == 0 then 0 else if i < RATE_MAX then RATE_WINDOW_MS else RATE_WINDOW_MS + 1)
  }

  lemma {:induction false} BurstEntry(n: nat)
    requires 0 < n <= 2 * RATE_MAX
    ensures After(Burst(n)) ==
      Some(if n <= RATE_MAX then Entry(n, 0) else Entry(n - RATE_MAX, RATE_WINDOW_MS + 1))
  {
    assert Burst(n)[..n - 1] == Burst(n - 1);
    if n > 1 { BurstEntry(n - 1); }
  }

  lemma {:induction false} BurstAllowed(k: nat)
    requires 1 <= k <= 2 * RATE_MAX
    ensures AllowedBetween(Burst(2 * RATE_MAX), 1, k) == k - 1
  {
    if k > 1 {
      BurstAllowed(k - 1);
      assert Burst(2 * RATE_MAX)[..k - 1] == Burst(k - 1);
      BurstEntry(k - 1);
    }
  }

  /** The cap alone is no bound: a millisecond can see all but one attempt of two windows. */
  lemma TwiceTheCapIsReached()
    ensures var times, last := Burst(2 * RATE_MAX), 2 * RATE_MAX - 1;
      && InOrder(times)
      && times[last] - times[1] == 1
      && AllowedBetween(times, 1, last + 1) == 2 * RATE_MAX - 1
  {
    BurstAllowed(2 * RATE_MAX);
  }
}
