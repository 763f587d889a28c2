/**
 What the browser shows of the fields it never compares: `isOpen`, `isActive`, the size, the save path and others. A row
 kept for its identity keeps them, and the server does not send a row changed in some of them only.
 */
module Staleness {
  import opened Deltas
  import opened Healing
  import opened Options
  import opened PollClient
  import opened Publisher
  import opened Sync
  import opened SyncTheorems
  import opened TorrentLaws
  import opened Torrents

  /** The fields `sameTorrent` leaves out. */
  datatype Hidden = Hidden(size: int, listed: Listed, silent: Silent)

  function HiddenOf(t: Torrent): Hidden {
    Hidden(t.size, t.listed, t.silent)
  }

  /** The row held for a hash is taken for the same as the one that comes in, smoothed. */
  predicate Retained(st: Store, t: Torrent) {
    t.hash in Index(st.torrents) && SameTorrent(Index(st.torrents)[t.hash], SmoothRow(st.ema, t))
  }

  /** A displayed row has these fields from the row held, if that is retained, or else from the row that came in. */
  lemma DisplayedHidden(st: Store, next: seq<Torrent>, now: int, h: string)
    requires Steady(st) && Unique(next) && h in Index(next)
    ensures var after, t := Display(st, next, now), Index(next)[h];
      && t.hash == h && h in Index(after.torrents)
      && HiddenOf(Index(after.torrents)[h]) == HiddenOf(if Retained(st, t) then Index(st.torrents)[h] else t)
  {
    var i := IndexSound(next, h);
    DisplayRow(st, next, now, i);
    DisplaySteady(st, next, now);
    IndexComplete(Display(st, next, now).torrents, i);
    IndexIsMembership(st.torrents);
  }

  /** After a snapshot: a shown row differs from the snapshot's in them exactly if a different one held is retained. */
  lemma StaleAfterSnapshot(st: Store, s: Snapshot, now: int, h: string)
    requires Steady(st) && Unique(s.torrents) && h in Index(s.torrents)
    ensures var shown, t := Index(ApplySnapshot(st, s, now).torrents), Index(s.torrents)[h];
      && t.hash == h && h in shown
      && (HiddenOf(shown[h]) != HiddenOf(t) <==> Retained(st, t) && HiddenOf(Index(st.torrents)[h]) != HiddenOf(t))
      && (shown[h].silent.isOpen != t.silent.isOpen <==>
            Retained(st, t) && Index(st.torrents)[h].silent.isOpen != t.silent.isOpen)
  {
    DisplayedHidden(st, s.torrents, now, h);
  }

  /**
   After an accepted delta: a shown row differs from the newer snapshot's exactly if the one held differs and either the
   server took the older snapshot's row for the same, and did not send it, or the browser retained the one held.
   */
  lemma StaleAfterDelta(st: Store, base: Snapshot, next: Snapshot, d: Delta, now: int, h: string)
    requires Steady(st) && Agrees(st.torrents, base.torrents) && st.revision == base.revision
    requires IsDelta(base, next, d) && Unique(next.torrents) && h in Index(next.torrents)
    ensures var shown, t := Index(ApplyDelta(st, d, now).0.torrents), Index(next.torrents)[h];
      var unsent := h in Index(base.torrents) && DiffSame(Index(base.torrents)[h], t);
      && t.hash == h && h in shown && (unsent ==> h in Index(st.torrents))
      && HiddenOf(shown[h]) == HiddenOf(if unsent || Retained(st, t) then Index(st.torrents)[h] else t)
      && (HiddenOf(shown[h]) != HiddenOf(t) <==>
            (unsent || Retained(st, t)) && HiddenOf(Index(st.torrents)[h]) != HiddenOf(t))
      && (shown[h].silent.isOpen != t.silent.isOpen <==>
            (unsent || Retained(st, t)) && Index(st.torrents)[h].silent.isOpen != t.silent.isOpen)
  {
    var merged, t := Merge(st.torrents, d), Index(next.torrents)[h];
    MergedRow(st, base, next, d, h);
    DisplayedHidden(st, merged, now, h);
    if h in Index(base.torrents) && DiffSame(Index(base.torrents)[h], t) {
      SteadyRowIsFixed(st.ema, Index(st.torrents)[h]);
    }
  }

  /** The merged row is the newer snapshot's if it was sent, else the one held. */
  lemma MergedRow(st: Store, base: Snapshot, next: Snapshot, d: Delta, h: string)
    requires Steady(st) && Agrees(st.torrents, base.torrents)
    requires IsDelta(base, next, d) && Unique(next.torrents) && h in Index(next.torrents)
    ensures var t := Index(next.torrents)[h];
      var unsent := h in Index(base.torrents) && DiffSame(Index(base.torrents)[h], t);
      && t.hash == h && (unsent ==> h in Index(st.torrents) && SteadyRow(st.ema, Index(st.torrents)[h]))
      && Unique(Merge(st.torrents, d)) && h in Index(Merge(st.torrents, d))
      && Index(Merge(st.torrents, d))[h] == if unsent then Index(st.torrents)[h] else t
  {
    var t := Index(next.torrents)[h];
    IndexIsMembership(base.torrents);
    IndexIsMembership(next.torrents);
    IndexIsMembership(st.torrents);
    IndexIsMembership(d.updated);
    MergeMembers(st.torrents, d);
    IndexIsMembership(Merge(st.torrents, d));
    if h in Index(base.torrents) && DiffSame(Index(base.torrents)[h], t) {
      assert Index(st.torrents)[h] in Merge(st.torrents, d);
    } else if h in Index(base.torrents) {
      assert t in d.updated && t in Merge(st.torrents, d);
    } else {
      assert t in d.added && t in Merge(st.torrents, d);
    }
  }

  // --- A stale row that is shown ----------------------------------------------

  function OneRow(t: Torrent): Poll {
    Poll([t], EMPTY_GLOBALS, None, true, true)
  }

  lemma IndexOne(t: Torrent)
    ensures Unique([t]) && Index([t]) == map[t.hash := t]
  {
    assert [t][..0] == [];
  }

  lemma InitialSteady()
    ensures Steady(INITIAL_STORE)
  {}

  /** A tick that is answered with a delta applies it. */
  lemma DeltaTickApplies(sv: Server, c: Client, d: Delta, now: int)
    requires sv.cache.Some? && sv.deltaCache == Some(d) && d.revision == Published(sv) && d.baseRevision != d.revision
    requires c.pollRevision == Some(d.baseRevision) && c.store.revision == d.baseRevision && c.pollDeltaEtag.None?
    ensures QuietRound(sv, c, now).store == ApplyDelta(c.store, d, now).0
    ensures InStep(sv, QuietRound(sv, c, now))
  {}

  /**
   For every row: the first snapshot has it, the second changes what neither side compares. The browser applies the
   delta, is in step, and goes on showing the old flags.
   */
  lemma AStaleRowIsReached(endpoint: string, t: Torrent, silent: Silent, now: int) returns (steps: seq<Step>)
    requires silent != t.silent
    ensures IsRun(Init(endpoint), steps)
    ensures var w := Run(Init(endpoint), steps);
      && InStep(w.server, w.client)
      && w.server.cache.Some? && w.server.cache.value.torrents == [t.(silent := silent)]
      && t.hash in Index(w.client.store.torrents)
      && Index(w.client.store.torrents)[t.hash].silent == t.silent
  {
    var changed := t.(silent := silent);
    IndexOne(t);
    IndexOne(changed);
    var base, next;
    steps, base, next := TwoTicks(endpoint, OneRow(t), OneRow(changed), now);
    SilentChangeIsUnseen(base, next, t, silent, now);
  }

  /** Two publications, each followed by a tick: a snapshot applied, then the difference. */
  lemma {:induction false} TwoTicks(endpoint: string, p: Poll, q: Poll, now: int)
    returns (steps: seq<Step>, base: Snapshot, next: Snapshot)
    requires Unique(p.torrents) && Unique(q.torrents) && p.bodyOk && q.bodyOk && q.deltaOk
    ensures IsRun(Init(endpoint), steps)
    ensures base.torrents == p.torrents && next.torrents == q.torrents && base.revision == 1
    ensures var w := Run(Init(endpoint), steps);
      && InStep(w.server, w.client) && w.server.cache == Some(next)
      && w.client.store == ApplyDelta(ApplySnapshot(INITIAL_STORE, base, now), Diff(base, next), now).0
  {
    var first := FirstTick(endpoint, p, now);
    var w := Run(Init(endpoint), first);
    base, next := w.server.prev.value, SnapshotOf(w.server, q);
    var d := PollDelta(w.server, q);
    DiffIsDelta(base, next);
    var second := PublishAndTick(w, q, d, now);
    DeltaTickApplies(Finish(BeginPoll(w.server, q, d)), w.client, d, now);
    RunConcat(Init(endpoint), first, second);
    steps := first + second;
  }

  lemma SilentChangeIsUnseen(base: Snapshot, next: Snapshot, t: Torrent, silent: Silent, now: int)
    requires base.torrents == [t] && next.torrents == [t.(silent := silent)] && base.revision == 1
    ensures var rows := ApplyDelta(ApplySnapshot(INITIAL_STORE, base, now), Diff(base, next), now).0.torrents;
      t.hash in Index(rows) && Index(rows)[t.hash].silent == t.silent
  {
    var st := ApplySnapshot(INITIAL_STORE, base, now);
    FirstSnapshotShows(base, t, now);
    IndexOne(t);
    IndexOne(t.(silent := silent));
    SilentIsSame(t, silent);
    DiffIsDelta(base, next);
    StaleAfterDelta(st, base, next, Diff(base, next), now, t.hash);
  }

  lemma SilentIsSame(t: Torrent, silent: Silent)
    ensures DiffSame(t, t.(silent := silent))
  {}

  lemma FirstSnapshotShows(base: Snapshot, t: Torrent, now: int)
    requires base.torrents == [t]
    ensures var st := ApplySnapshot(INITIAL_STORE, base, now);
      && Steady(st) && Agrees(st.torrents, base.torrents) && st.revision == base.revision
      && t.hash in Index(st.torrents) && HiddenOf(Index(st.torrents)[t.hash]) == HiddenOf(t)
  {
    IndexOne(t);
    InitialSteady();
    SnapshotAgrees(INITIAL_STORE, base, now);
    DisplaySteady(INITIAL_STORE, base.torrents, now);
    DisplayedHidden(INITIAL_STORE, base.torrents, now, t.hash);
  }
}
