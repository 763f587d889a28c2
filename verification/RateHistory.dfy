/** The doubly bounded rate history of server/src/history.rs, against the full list of accepted samples. */
module RateHistory {
  const WINDOW_MS := 60 * 60 * 1000
  const MAX_SAMPLES := 400

  const I64_MIN := -0x8000_0000_0000_0000
  const I64_MAX := 0x7fff_ffff_ffff_ffff

  newtype i64 = x: int | I64_MIN <= x <= I64_MAX

  datatype Sample = Sample(at: i64, down: i64, up: i64)

  datatype Call = Call(at: i64, down: i64, up: i64)

  function SaturatingSub(a: i64, b: i64): i64 {
    var d := a as int - b as int;
    if d > I64_MAX then I64_MAX as i64 else if d < I64_MIN then I64_MIN as i64 else d as i64
  }

  function Clamp(x: i64): i64 {
    if x > 0 then x else 0
  }

  function SampleOf(c: Call): Sample {
    Sample(c.at, Clamp(c.down), Clamp(c.up))
  }

  // --- The specification ------------------------------------------------------

  /** The calls whose time is beyond every accepted one before, with rates clamped at zero. */
  function Accepted(calls: seq<Call>): seq<Sample> {
    if calls == [] then []
    else
      var before, c := Accepted(calls[..|calls| - 1]), calls[|calls| - 1];
      if before == [] || c.at > before[|before| - 1].at then before + [SampleOf(c)] else before
  }

  /** A sample that may still be kept when `newest` is the last one. */
  predicate InWindow(s: Sample, newest: Sample) {
    newest.at as int - s.at as int <= WINDOW_MS
  }

  /** Whether the samples from `i` on are few enough and all within one window of the newest. */
  ghost predicate Fits(samples: seq<Sample>, i: nat) {
    && i <= |samples|
    && |samples| - i <= MAX_SAMPLES
    && forall j :: i <= j < |samples| ==> InWindow(samples[j], samples[|samples| - 1])
  }

  /** `kept` is the longest suffix that fits. */
  ghost predicate IsWindow(kept: seq<Sample>, samples: seq<Sample>) {
    exists i :: 0 <= i <= |samples| && kept == samples[i..] && Fits(samples, i) && (i > 0 ==> !Fits(samples, i - 1))
  }

  /** No suffix that fits is longer than a window, so there is only one window. */
  lemma WindowIsLongest(kept: seq<Sample>, samples: seq<Sample>, j: nat)
    requires IsWindow(kept, samples) && Fits(samples, j)
    ensures |samples[j..]| <= |kept| && samples[j..] == kept[|kept| - |samples[j..]|..]
  {
    var i := StartOf(kept, samples);
    if j < i {
      FitsBefore(samples, j, i);
    } else {
      SuffixOfSuffix(samples, i, j);
    }
  }

  /** A shorter suffix than one that fits, fits. */
  lemma FitsBefore(samples: seq<Sample>, j: nat, i: nat)
    requires Fits(samples, j) && j < i <= |samples|
    ensures Fits(samples, i - 1)
  {}

  lemma SuffixOfSuffix(samples: seq<Sample>, i: nat, j: nat)
    requires i <= j <= |samples|
    ensures samples[j..] == samples[i..][|samples[i..]| - |samples[j..]|..]
  {}

  ghost predicate Increasing(samples: seq<Sample>) {
    forall i, j :: 0 <= i < j < |samples| ==> samples[i].at < samples[j].at
  }

  lemma {:induction false} AcceptedIncreases(calls: seq<Call>)
    ensures Increasing(Accepted(calls))
  {
    if calls == [] {
    } else {
      AcceptedIncreases(calls[..|calls| - 1]);
      var before := Accepted(calls[..|calls| - 1]);
      forall i, j | 0 <= i < j < |Accepted(calls)| ensures Accepted(calls)[i].at < Accepted(calls)[j].at {
        if j == |before| && i < |before| - 1 { assert before[i].at < before[|before| - 1].at; }
      }
    }
  }

  /** A call is accepted exactly if its time is a strict running maximum of the times of all calls so far. */
  lemma {:induction false} AcceptedAreRunningMaxima(calls: seq<Call>)
    requires calls != []
    ensures var last := |calls| - 1;
      Accepted(calls) != Accepted(calls[..last]) <==> forall i :: 0 <= i < last ==> calls[i].at < calls[last].at
  {
    var last := |calls| - 1;
    var before := Accepted(calls[..last]);
    LastAcceptedIsMaximum(calls[..last]);
    if before != [] && calls[last].at <= before[|before| - 1].at {
      var i :| 0 <= i < last && calls[..last][i].at == before[|before| - 1].at;
      assert calls[i].at >= calls[last].at;
    } else {
      assert Accepted(calls) == before + [SampleOf(calls[last])];
      forall i | 0 <= i < last ensures calls[i].at < calls[last].at { assert calls[i] == calls[..last][i]; }
    }
  }

  lemma {:induction false} LastAcceptedIsMaximum(calls: seq<Call>)
    ensures var a := Accepted(calls);
      && (a == [] <==> calls == [])
      && (a != [] ==> forall i :: 0 <= i < |calls| ==> calls[i].at <= a[|a| - 1].at)
      && (a != [] ==> exists i :: 0 <= i < |calls| && calls[i].at == a[|a| - 1].at)
  {
    if calls == [] {
    } else {
      var last := |calls| - 1;
      LastAcceptedIsMaximum(calls[..last]);
      assert forall i :: 0 <= i < last ==> calls[..last][i] == calls[i];
      var a, before := Accepted(calls), Accepted(calls[..last]);
      if a == before {
        var i :| 0 <= i < last && calls[..last][i].at == before[|before| - 1].at;
        assert calls[i].at == a[|a| - 1].at;
      } else {
        assert calls[last].at == a[|a| - 1].at;
      }
    }
  }

  // --- The object -------------------------------------------------------------

  class History {
    var samples: seq<Sample>
    ghost var calls: seq<Call>

    ghost predicate Valid()
      reads this
    {
      IsWindow(samples, Accepted(calls))
    }

    constructor ()
      ensures Valid() && calls == []
    {
      samples, calls := [], [];
      new;
      assert Fits(Accepted([]), 0);
    }

    /** After any calls the buffer is the longest suffix of the accepted samples within both bounds. */
    method Record(at: i64, down: i64, up: i64)
      requires Valid()
      modifies this
      ensures Valid() && calls == old(calls) + [Call(at, down, up)]
    {
      ghost var c := Call(at, down, up);
      ghost var before := Accepted(calls);
      AcceptedSnoc(calls, c);
      LastKept(samples, before);
      calls := calls + [c];
      if |samples| > 0 && at <= samples[|samples| - 1].at {
        return;
      }
      ghost var after := before + [SampleOf(c)];
      ghost var start := StartOf(samples, before);
      SuffixGrows(before, SampleOf(c), start);
      samples := samples + [Sample(at, Clamp(down), Clamp(up))];
      AcceptedIncreases(calls);
      NothingEarlierFits(before, SampleOf(c), start);
      Trim(at, after, start);
      Cap(after);
    }

    /** `while len > MAX_SAMPLES`, after the age bound is met. */
    method Cap(ghost all: seq<Sample>)
      requires exists i :: AgedFrom(samples, all, i)
      modifies this`samples
      ensures IsWindow(samples, all)
    {
      ghost var i :| AgedFrom(samples, all, i);
      while |samples| > MAX_SAMPLES
        invariant AgedFrom(samples, all, i)
      {
        assert !Fits(all, i);
        samples := samples[1..];
        i := i + 1;
      }
      assert Fits(all, i);
    }

    method Trim(now: i64, ghost all: seq<Sample>, ghost start: nat)
      requires start < |all| && samples == all[start..] && Increasing(all) && now == all[|all| - 1].at
      requires NoneBefore(all, start)
      modifies this`samples
      ensures exists i :: AgedFrom(samples, all, i)
    {
      ghost var i := start;
      while |samples| > 0 && SaturatingSub(now, samples[0].at) as int > WINDOW_MS
        invariant start <= i < |all| && samples == all[i..] && NoneBefore(all, i)
        decreases |samples|
      {
        TooOld(all, i);
        samples := samples[1..];
        i := i + 1;
      }
      YoungEnough(all, i);
    }
  }

  lemma TooOld(all: seq<Sample>, i: nat)
    requires i < |all| && SaturatingSub(all[|all| - 1].at, all[i].at) as int > WINDOW_MS
    ensures NoneBefore(all, i + 1) && i + 1 < |all|
  {}

  lemma YoungEnough(all: seq<Sample>, i: nat)
    requires i < |all| && Increasing(all) && NoneBefore(all, i)
    requires SaturatingSub(all[|all| - 1].at, all[i].at) as int <= WINDOW_MS
    ensures AgedFrom(all[i..], all, i)
  {}

  /** `kept` is the suffix from `i`, within the age bound, and no longer suffix meets both bounds. */
  ghost predicate AgedFrom(kept: seq<Sample>, samples: seq<Sample>, i: nat) {
    && i <= |samples| && kept == samples[i..] && NoneBefore(samples, i)
    && forall j :: i <= j < |samples| ==> InWindow(samples[j], samples[|samples| - 1])
  }

  /** No longer suffix than the one from `i` fits. */
  ghost predicate NoneBefore(samples: seq<Sample>, i: nat) {
    i > 0 ==> !Fits(samples, i - 1)
  }

  lemma AcceptedSnoc(calls: seq<Call>, c: Call)
    ensures var before := Accepted(calls);
      Accepted(calls + [c]) == if before == [] || c.at > before[|before| - 1].at then before + [SampleOf(c)] else before
  {
    assert (calls + [c])[..|calls|] == calls;
  }

  /** Where a window begins. */
  ghost function StartOf(kept: seq<Sample>, samples: seq<Sample>): (i: nat)
    requires IsWindow(kept, samples)
    ensures i <= |samples| && kept == samples[i..] && Fits(samples, i) && (i > 0 ==> !Fits(samples, i - 1))
  {
    var i :| 0 <= i <= |samples| && kept == samples[i..] && Fits(samples, i) && (i > 0 ==> !Fits(samples, i - 1));
    i
  }

  lemma SuffixGrows(before: seq<Sample>, s: Sample, start: nat)
    requires start <= |before|
    ensures (before + [s])[start..] == before[start..] + [s]
  {}

  /** The newest sample is always kept. */
  lemma LastKept(kept: seq<Sample>, samples: seq<Sample>)
    requires IsWindow(kept, samples)
    ensures kept == [] <==> samples == []
    ensures kept != [] ==> kept[|kept| - 1] == samples[|samples| - 1]
  {}

  /** What did not fit before still does not after a newer sample. */
  lemma NothingEarlierFits(before: seq<Sample>, s: Sample, start: nat)
    requires start <= |before| && (start > 0 ==> !Fits(before, start - 1)) && Increasing(before + [s])
    ensures NoneBefore(before + [s], start)
  {
    var after := before + [s];
    if start > 0 && Fits(after, start - 1) {
      forall j | start - 1 <= j < |before| ensures InWindow(before[j], before[|before| - 1]) {
        assert after[j] == before[j] && InWindow(after[j], after[|after| - 1]);
        assert after[|before| - 1].at < after[|before|].at;
      }
      assert Fits(before, start - 1);
    }
  }
}
