/**
 What the store promises: a row list that agrees with a server snapshot still does after it is displayed,
 a delta carries the rows of its base revision to the rows of its own, and displayed rates are stable.
 */
module TorrentLaws {
  import opened Integers
  import opened Options
  import opened Torrents

  // --- Rows keyed by hash -----------------------------------------------------

  lemma {:induction false} IndexSound(rows: seq<Torrent>, h: string) returns (i: nat)
    requires h in Index(rows)
    ensures i < |rows| && rows[i].hash == h && Index(rows)[h] == rows[i]
  {
    var last := rows[|rows| - 1];
    if last.hash == h {
      i := |rows| - 1;
    } else {
      i := IndexSound(rows[..|rows| - 1], h);
    }
  }

  lemma {:induction false} IndexComplete(rows: seq<Torrent>, i: nat)
    requires i < |rows|
    ensures rows[i].hash in Index(rows)
    ensures Unique(rows) ==> Index(rows)[rows[i].hash] == rows[i]
  {
    if i < |rows| - 1 {
      IndexComplete(rows[..|rows| - 1], i);
    }
  }

  /** For rows with unique hashes the index is exactly membership. */
  lemma IndexIsMembership(rows: seq<Torrent>)
    requires Unique(rows)
    ensures forall t :: t in rows ==> t.hash in Index(rows) && Index(rows)[t.hash] == t
    ensures forall h :: h in Index(rows) ==> Index(rows)[h] in rows && Index(rows)[h].hash == h
  {}

  // --- Agreement with a snapshot ----------------------------------------------

  /** `rows` shows the same torrents as `truth`, with the same facts for each. */
  ghost predicate Agrees(rows: seq<Torrent>, truth: seq<Torrent>) {
    && Unique(rows)
    && Unique(truth)
    && Index(rows).Keys == Index(truth).Keys
    && forall h :: h in Index(rows) ==> FactsOf(Index(rows)[h]) == FactsOf(Index(truth)[h])
  }

  /** Position by position the same hash and the same facts. */
  ghost predicate SameFacts(a: seq<Torrent>, b: seq<Torrent>) {
    && |a| == |b|
    && forall i :: 0 <= i < |a| ==> a[i].hash == b[i].hash && FactsOf(a[i]) == FactsOf(b[i])
  }

  lemma SameFactsAgree(a: seq<Torrent>, b: seq<Torrent>, truth: seq<Torrent>)
    requires SameFacts(a, b) && Agrees(a, truth)
    ensures Agrees(b, truth)
  {
    assert Unique(b);
    forall h ensures h in Index(a) <==> h in Index(b) {
      if h in Index(a) { var i := IndexSound(a, h); IndexComplete(b, i); }
      if h in Index(b) { var i := IndexSound(b, h); IndexComplete(a, i); }
    }
    forall h | h in Index(b) ensures FactsOf(Index(b)[h]) == FactsOf(Index(truth)[h]) {
      var i := IndexSound(b, h);
      IndexComplete(a, i);
    }
  }

  // --- Smoothing --------------------------------------------------------------

  lemma {:induction false} SmoothPassShape(state: EmaState, rows: seq<Torrent>)
    ensures SameFacts(rows, SmoothPass(state, rows).1)
  {
    if rows == [] {
    } else {
      SmoothPassShape(state, rows[..|rows| - 1]);
    }
  }

  /** With unique hashes every row is smoothed against the accumulator the pass began with. */
  lemma {:induction false} SmoothPassUnique(state: EmaState, rows: seq<Torrent>)
    requires Unique(rows)
    ensures var (after, out) := SmoothPass(state, rows);
      && |out| == |rows|
      && (forall i :: 0 <= i < |rows| ==> out[i] == SmoothRow(state, rows[i]))
      && (forall i :: 0 <= i < |rows| ==> rows[i].hash in after && after[rows[i].hash] == Ema(out[i].downRate, out[i].upRate))
      && (forall h :: h !in Index(rows) ==> (h in after <==> h in state) && (h in state ==> after[h] == state[h]))
  {
    if rows == [] {
    } else {
      var init, t := rows[..|rows| - 1], rows[|rows| - 1];
      SmoothPassUnique(state, init);
      LastIsNew(rows);
    }
  }

  /** The accumulator's keys are exactly the hashes of the rows just smoothed, each holding the displayed rates. */
  lemma {:induction false} SmoothRatesTracksRows(state: EmaState, rows: seq<Torrent>)
    requires Unique(rows)
    ensures var (after, out) := SmoothRates(state, rows);
      && after.Keys == Index(rows).Keys
      && |out| == |rows|
      && (forall i :: 0 <= i < |rows| ==> out[i] == SmoothRow(state, rows[i]))
      && (forall i :: 0 <= i < |rows| ==> rows[i].hash in after && after[rows[i].hash] == Ema(out[i].downRate, out[i].upRate))
  {
    SmoothPassUnique(state, rows);
    forall i | 0 <= i < |rows| ensures rows[i].hash in Index(rows) { IndexComplete(rows, i); }
    forall h | h in Index(rows) ensures h in SmoothPass(state, rows).0 {
      var i := IndexSound(rows, h);
    }
  }

  function Dist(a: int, b: int): nat {
    Max(a, b) - Min(a, b)
  }

  /** A smoothed rate lies between the raw sample and the value shown before. */
  lemma SmoothIsBetween(raw: int, prev: int)
    ensures raw != 0 ==> Min(raw, prev) <= Smooth(raw, Some(prev)) <= Max(raw, prev)
    ensures raw == 0 ==> Smooth(raw, Some(prev)) == 0
    ensures Smooth(raw, None) == raw
  {}

  /** `n` polls reporting the same raw rate. */
  function SmoothTimes(raw: int, prev: int, n: nat): int
    decreases n
  {
    if n == 0 then prev else SmoothTimes(raw, Smooth(raw, Some(prev)), n - 1)
  }

  /** One sample of a constant non-zero rate: strictly closer while 2 B/s or more away, and then it stays within 1. */
  lemma SmoothCloser(raw: int, prev: int)
    requires raw != 0
    ensures Dist(raw, prev) >= 2 ==> Dist(raw, Smooth(raw, Some(prev))) < Dist(raw, prev)
    ensures Dist(raw, prev) <= 1 ==> Smooth(raw, Some(prev)) == prev
  {}

  /** Under a constant non-zero raw rate the display settles within 1 B/s and then never moves again. */
  lemma {:induction false} SmoothSettles(raw: int, prev: int, n: nat)
    requires raw != 0 && Dist(raw, prev) <= n + 1
    ensures Dist(raw, SmoothTimes(raw, prev, n)) <= 1
    ensures SmoothTimes(raw, prev, n + 1) == SmoothTimes(raw, prev, n)
    decreases n
  {
    SmoothCloser(raw, prev);
    if n > 0 {
      SmoothSettles(raw, Smooth(raw, Some(prev)), n - 1);
    }
  }

  // --- One display step -------------------------------------------------------

  lemma ReconcileShape(prev: seq<Torrent>, next: seq<Torrent>)
    ensures SameFacts(next, Reconcile(prev, next))
  {
    var byHash := Index(prev);
    forall i | 0 <= i < |next|
      ensures Reconcile(prev, next)[i].hash == next[i].hash && FactsOf(Reconcile(prev, next)[i]) == FactsOf(next[i])
    {
      if next[i].hash in byHash {
        var k := IndexSound(prev, next[i].hash);
      }
    }
  }

  /** Smoothing, reconciling and overlaying never lose, add or misstate a torrent. */
  lemma DisplayAgrees(st: Store, next: seq<Torrent>, truth: seq<Torrent>, now: int)
    requires Agrees(next, truth)
    ensures Agrees(Display(st, next, now).torrents, truth)
  {
    var (ema, smoothed) := SmoothRates(st.ema, next);
    SmoothPassShape(st.ema, next);
    var reconciled := Reconcile(st.torrents, smoothed);
    ReconcileShape(st.torrents, smoothed);
    var shown := Display(st, next, now).torrents;
    assert SameFacts(next, shown);
    SameFactsAgree(next, shown, truth);
  }

  lemma SnapshotAgrees(st: Store, s: Snapshot, now: int)
    requires Unique(s.torrents)
    ensures Agrees(ApplySnapshot(st, s, now).torrents, s.torrents)
  {
    DisplayAgrees(st, s.torrents, s.torrents, now);
  }

  lemma OverlayAgrees(rows: seq<Torrent>, overrides: Overrides, now: int, truth: seq<Torrent>)
    requires Agrees(rows, truth)
    ensures Agrees(ApplyOptimistic(rows, overrides, now).0, truth)
  {
    SameFactsAgree(rows, ApplyOptimistic(rows, overrides, now).0, truth);
  }

  // --- Deltas -----------------------------------------------------------------

  /**
   The contract of a delta between two snapshots: `added` are the rows whose hash is new, `updated` the rows
   present in both that the server finds different, `removed` the hashes that are gone; each hash at most once.
   */
  ghost predicate IsDelta(base: Snapshot, next: Snapshot, d: Delta) {
    && d.baseRevision == base.revision
    && d.revision == next.revision
    && d.globals == next.globals
    && d.connection == next.connection
    && Unique(d.added)
    && Unique(d.updated)
    && (forall t :: t in d.added <==> t in next.torrents && t.hash !in Index(base.torrents))
    && (forall t :: t in d.updated <==>
          t in next.torrents && t.hash in Index(base.torrents) && !DiffSame(Index(base.torrents)[t.hash], t))
    && (forall h :: h in d.removed <==> h in Index(base.torrents) && h !in Index(next.torrents))
  }

  /** Two ratios closer than the tolerance are equal, because ratios are per mille. */
  lemma SameRatioIsEqual(a: Ratio, b: Ratio)
    requires SameRatio(a, b)
    ensures a == b
  {
    assert IsPerMille(a) && IsPerMille(b);
    var j :| a == PerMille(j);
    var k :| b == PerMille(k);
    assert a - b == (j - k) as real / 1000.0;
  }

  /** Rows the server takes for the same agree on everything the browser compares. */
  lemma {:induction false} DiffSameFacts(a: Torrent, b: Torrent)
    requires DiffSame(a, b)
    ensures FactsOf(a) == FactsOf(b)
  {
    SameRatioIsEqual(a.ratio, b.ratio);
  }

  /** A list grown by one row with a new hash. */
  lemma UniqueSnoc(rows: seq<Torrent>, t: Torrent)
    requires Unique(rows) && forall r :: r in rows ==> r.hash != t.hash
    ensures Unique(rows + [t])
  {
    var all := rows + [t];
    forall i, j | 0 <= i < j < |all| ensures all[i].hash != all[j].hash { assert all[i] in rows; }
  }

  lemma LastIsNew(rows: seq<Torrent>)
    requires Unique(rows) && rows != []
    ensures rows[|rows| - 1].hash !in Index(rows[..|rows| - 1])
  {
    var init, h := rows[..|rows| - 1], rows[|rows| - 1].hash;
    if h in Index(init) { var i := IndexSound(init, h); }
  }

  lemma {:induction false} KeptMembers(prev: seq<Torrent>, removed: seq<string>, updated: map<string, Torrent>)
    requires Unique(prev)
    requires forall h :: h in updated ==> updated[h].hash == h
    ensures var kept := Kept(prev, removed, updated);
      && Unique(kept)
      && (forall t :: t in kept ==> t.hash in Index(prev))
      && forall t :: t in kept <==>
           t.hash in Index(prev) && t.hash !in removed &&
           t == if t.hash in updated then updated[t.hash] else Index(prev)[t.hash]
  {
    if prev == [] {
    } else {
      var init, last := prev[..|prev| - 1], prev[|prev| - 1];
      KeptMembers(init, removed, updated);
      LastIsNew(prev);
      if last.hash !in removed {
        UniqueSnoc(Kept(init, removed, updated), if last.hash in updated then updated[last.hash] else last);
      }
    }
  }

  lemma {:induction false} InsertMembers(t: Torrent, rows: seq<Torrent>)
    requires Unique(rows) && forall r :: r in rows ==> r.hash != t.hash
    ensures Unique(InsertByHash(t, rows))
    ensures forall r :: r in InsertByHash(t, rows) <==> r == t || r in rows
  {
    if rows == [] || HashLeq(t.hash, rows[0].hash) {
    } else {
      InsertMembers(t, rows[1..]);
      var rest := InsertByHash(t, rows[1..]);
      forall j | 0 <= j < |rest| ensures rest[j].hash != rows[0].hash {
        assert rest[j] in rest;
      }
    }
  }

  lemma {:induction false} SortMembers(rows: seq<Torrent>)
    requires Unique(rows)
    ensures Unique(SortByHash(rows))
    ensures forall r :: r in SortByHash(rows) <==> r in rows
  {
    if rows == [] {
    } else {
      SortMembers(rows[1..]);
      InsertMembers(rows[0], SortByHash(rows[1..]));
    }
  }

  // --- The order of a merged list ---------------------------------------------

  lemma {:induction false} HashLeqTotal(a: string, b: string)
    ensures HashLeq(a, b) || HashLeq(b, a)
  {
    if a != "" && b != "" && a[0] == b[0] { HashLeqTotal(a[1..], b[1..]); }
  }

  lemma {:induction false} HashLeqTransitive(a: string, b: string, c: string)
    requires HashLeq(a, b) && HashLeq(b, c)
    ensures HashLeq(a, c)
  {
    if a != "" && b[0] == a[0] && c[0] == b[0] { HashLeqTransitive(a[1..], b[1..], c[1..]); }
  }

  ghost predicate Sorted(rows: seq<Torrent>) {
    forall i, j :: 0 <= i < j < |rows| ==> HashLeq(rows[i].hash, rows[j].hash)
  }

  lemma {:induction false} InsertSorted(t: Torrent, rows: seq<Torrent>)
    requires Sorted(rows)
    ensures Sorted(InsertByHash(t, rows))
    ensures forall r :: r in InsertByHash(t, rows) ==> r == t || r in rows
  {
    if rows == [] {
    } else if HashLeq(t.hash, rows[0].hash) {
      forall j | 0 <= j < |rows| ensures HashLeq(t.hash, rows[j].hash) {
        if j > 0 { HashLeqTransitive(t.hash, rows[0].hash, rows[j].hash); }
      }
    } else {
      InsertSorted(t, rows[1..]);
      HashLeqTotal(t.hash, rows[0].hash);
      var rest := InsertByHash(t, rows[1..]);
      forall j | 0 <= j < |rest| ensures HashLeq(rows[0].hash, rest[j].hash) {
        assert rest[j] in rest;
      }
    }
  }

  /** The rows come out in hash order, whatever order they were merged in. */
  lemma {:induction false} SortIsSorted(rows: seq<Torrent>)
    ensures Sorted(SortByHash(rows))
  {
    if rows == [] {
    } else {
      SortIsSorted(rows[1..]);
      InsertSorted(rows[0], SortByHash(rows[1..]));
    }
  }

  /** The merged list holds exactly the untouched, the updated and the added rows, once each. */
  lemma MergeMembers(prev: seq<Torrent>, d: Delta)
    requires Unique(prev) && Unique(d.added) && Unique(d.updated)
    requires forall t :: t in d.added ==> t.hash !in Index(prev)
    ensures Unique(Merge(prev, d))
    ensures forall t :: t in Merge(prev, d) <==>
      t in d.added ||
      (t.hash in Index(prev) && t.hash !in d.removed &&
       t == if t.hash in Index(d.updated) then Index(d.updated)[t.hash] else Index(prev)[t.hash])
  {
    IndexIsMembership(d.updated);
    KeptMembers(prev, d.removed, Index(d.updated));
    var kept := Kept(prev, d.removed, Index(d.updated));
    var all := kept + d.added;
    forall i, j | 0 <= i < j < |all| ensures all[i].hash != all[j].hash {
      if i < |kept| <= j {
        assert all[i] in kept && all[j] in d.added;
      }
    }
    SortMembers(all);
  }

  /** A delta takes rows that agree with its base snapshot to rows that agree with its own snapshot. */
  lemma MergeAgrees(rows: seq<Torrent>, base: Snapshot, next: Snapshot, d: Delta)
    requires IsDelta(base, next, d) && Agrees(rows, base.torrents) && Unique(next.torrents)
    ensures Agrees(Merge(rows, d), next.torrents)
  {
    IndexIsMembership(base.torrents);
    IndexIsMembership(next.torrents);
    IndexIsMembership(d.updated);
    IndexIsMembership(rows);
    MergeMembers(rows, d);
    var merged := Merge(rows, d);
    IndexIsMembership(merged);
    forall h | h in Index(merged)
      ensures h in Index(next.torrents) && FactsOf(Index(merged)[h]) == FactsOf(Index(next.torrents)[h])
    {
      MergedRowAgrees(rows, base, next, d, Index(merged)[h]);
    }
    forall h | h in Index(next.torrents) ensures h in Index(merged) {
      var t := Index(next.torrents)[h];
      if h !in Index(base.torrents) {
        assert t in d.added && t in merged;
      } else if !DiffSame(Index(base.torrents)[h], t) {
        assert t in d.updated && Index(d.updated)[h] == t && t in merged;
      } else {
        if h in Index(d.updated) {
          assert false;
        }
        assert Index(rows)[h] in merged;
      }
    }
  }

  lemma MergedRowAgrees(rows: seq<Torrent>, base: Snapshot, next: Snapshot, d: Delta, m: Torrent)
    requires IsDelta(base, next, d) && Agrees(rows, base.torrents) && Unique(next.torrents)
    requires m in Merge(rows, d)
    ensures m.hash in Index(next.torrents) && FactsOf(m) == FactsOf(Index(next.torrents)[m.hash])
  {
    IndexIsMembership(base.torrents);
    IndexIsMembership(next.torrents);
    IndexIsMembership(d.updated);
    MergeMembers(rows, d);
    if m in d.added {
    } else if m.hash in Index(d.updated) {
      assert m in d.updated;
    } else {
      var t := Index(next.torrents)[m.hash];
      if !DiffSame(Index(base.torrents)[m.hash], t) {
        assert false;
      }
      DiffSameFacts(Index(base.torrents)[m.hash], t);
    }
  }

  /** `applyDelta` is all or nothing, and what it accepts carries agreement from the base to the new revision. */
  lemma DeltaAgrees(st: Store, base: Snapshot, next: Snapshot, d: Delta, now: int)
    requires IsDelta(base, next, d) && Unique(next.torrents)
    requires st.revision == base.revision ==> Agrees(st.torrents, base.torrents)
    ensures var (after, ok) := ApplyDelta(st, d, now);
      && (ok <==> st.revision == base.revision)
      && (!ok ==> after == st)
      && (ok ==> after.revision == next.revision && Agrees(after.torrents, next.torrents)
                 && after.globals == next.globals && after.connection == next.connection)
  {
    if st.revision == base.revision {
      MergeAgrees(st.torrents, base, next, d);
      DisplayAgrees(st, Merge(st.torrents, d), next.torrents, now);
    }
  }

  // --- Displayed rates --------------------------------------------------------

  /** The accumulator holds the rates this row displays, and its ETA is the one those rates give. */
  ghost predicate SteadyRow(ema: EmaState, t: Torrent) {
    t.hash in ema && ema[t.hash] == Ema(t.downRate, t.upRate) && t.etaSeconds == SmoothEta(t, t.downRate)
  }

  ghost predicate Steady(st: Store) {
    && Unique(st.torrents)
    && st.ema.Keys == Index(st.torrents).Keys
    && forall t :: t in st.torrents ==> SteadyRow(st.ema, t)
  }

  lemma SteadyRowIsFixed(ema: EmaState, t: Torrent)
    requires SteadyRow(ema, t)
    ensures SmoothRow(ema, t) == t
  {}

  lemma SmoothRowIsSteady(ema: EmaState, t: Torrent)
    ensures var row := SmoothRow(ema, t); row.etaSeconds == SmoothEta(row, row.downRate)
  {}

  /** How the row shown at position `i` comes about. */
  lemma DisplayRow(st: Store, next: seq<Torrent>, now: int, i: nat)
    requires Unique(next) && i < |next|
    ensures var after := Display(st, next, now);
      var smoothed := SmoothRow(st.ema, next[i]);
      && |after.torrents| == |next|
      && after.torrents[i] == OverlayRow(after.optimistic, ReconcileRow(Index(st.torrents), smoothed))
      && next[i].hash in after.ema
      && after.ema[next[i].hash] == Ema(smoothed.downRate, smoothed.upRate)
  {
    SmoothRatesTracksRows(st.ema, next);
  }

  lemma OverlayKeepsSteady(live: Overrides, ema: EmaState, t: Torrent)
    requires SteadyRow(ema, t)
    ensures SteadyRow(ema, OverlayRow(live, t))
  {}

  lemma ReconcileKeepsSteady(st: Store, ema: EmaState, smoothed: Torrent)
    requires Steady(st) && SteadyRow(ema, smoothed)
    ensures SteadyRow(ema, ReconcileRow(Index(st.torrents), smoothed))
  {
    IndexIsMembership(st.torrents);
    var shown := ReconcileRow(Index(st.torrents), smoothed);
    if shown != smoothed {
      assert shown in st.torrents && SteadyRow(st.ema, shown);
    }
  }

  lemma DisplayRowSteady(st: Store, next: seq<Torrent>, now: int, i: nat)
    requires Steady(st) && Unique(next) && i < |next|
    ensures var after := Display(st, next, now); |after.torrents| == |next| && SteadyRow(after.ema, after.torrents[i])
  {
    DisplayRow(st, next, now, i);
    var after, smoothed := Display(st, next, now), SmoothRow(st.ema, next[i]);
    SmoothRowIsSteady(st.ema, next[i]);
    ReconcileKeepsSteady(st, after.ema, smoothed);
    OverlayKeepsSteady(after.optimistic, after.ema, ReconcileRow(Index(st.torrents), smoothed));
  }

  lemma SameHashesSameKeys(a: seq<Torrent>, b: seq<Torrent>)
    requires |a| == |b| && forall i :: 0 <= i < |a| ==> a[i].hash == b[i].hash
    ensures Index(a).Keys == Index(b).Keys
  {}

  lemma DisplaySteady(st: Store, next: seq<Torrent>, now: int)
    requires Steady(st) && Unique(next)
    ensures Steady(Display(st, next, now))
  {
    var after := Display(st, next, now);
    SmoothPassShape(st.ema, next);
    ReconcileShape(st.torrents, SmoothRates(st.ema, next).1);
    SameHashesSameKeys(after.torrents, next);
    SmoothRatesTracksRows(st.ema, next);
    forall i | 0 <= i < |next| ensures SteadyRow(after.ema, after.torrents[i]) {
      DisplayRowSteady(st, next, now, i);
    }
  }

  /** Showing the rows a steady store already shows changes neither them nor the accumulator. */
  lemma SteadyStoreIsFixed(st: Store)
    requires Steady(st)
    ensures SmoothRates(st.ema, st.torrents) == (st.ema, st.torrents)
  {
    var rows := st.torrents;
    SmoothRatesTracksRows(st.ema, rows);
    var (ema, out) := SmoothRates(st.ema, rows);
    forall i | 0 <= i < |rows| ensures out[i] == rows[i] && ema[rows[i].hash] == st.ema[rows[i].hash] {
      SteadyRowIsFixed(st.ema, rows[i]);
    }
    assert out == rows;
    forall h | h in ema ensures ema[h] == st.ema[h] {
      var i := IndexSound(rows, h);
    }
    assert ema == st.ema;
  }

  /** A row that an accepted delta neither removes nor updates keeps everything it shows, status apart. */
  lemma {:induction false} UntouchedRowsKeepRates(st: Store, d: Delta, now: int, h: string)
    requires Steady(st) && d.baseRevision == st.revision
    requires Unique(d.added) && Unique(d.updated) && forall t :: t in d.added ==> t.hash !in Index(st.torrents)
    requires h in Index(st.torrents) && h !in d.removed && h !in Index(d.updated)
    ensures var after := ApplyDelta(st, d, now).0;
      && Steady(after)
      && h in Index(after.torrents)
      && Index(after.torrents)[h] == Index(st.torrents)[h].(status := Index(after.torrents)[h].status)
  {
    IndexIsMembership(st.torrents);
    MergeMembers(st.torrents, d);
    assert Index(st.torrents)[h] in Merge(st.torrents, d);
    HeldRowStays(st, Merge(st.torrents, d), now, h);
  }

  /** A row that is displayed again as it is shown stays as it is, status apart. */
  lemma {:induction false} HeldRowStays(st: Store, next: seq<Torrent>, now: int, h: string)
    requires Steady(st) && Unique(next) && h in Index(st.torrents) && Index(st.torrents)[h] in next
    ensures var rows := Display(st, next, now).torrents;
      && Steady(Display(st, next, now))
      && h in Index(rows) && Index(rows)[h] == Index(st.torrents)[h].(status := Index(rows)[h].status)
  {
    var t := Index(st.torrents)[h];
    IndexIsMembership(st.torrents);
    DisplaySteady(st, next, now);
    var i :| 0 <= i < |next| && next[i] == t;
    DisplayRow(st, next, now, i);
    SteadyRowIsFixed(st.ema, t);
    IndexComplete(Display(st, next, now).torrents, i);
  }
}
