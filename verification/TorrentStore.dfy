/**
 The live store of src/store/torrents.ts: fields the actions overwrite, the accumulator `smoothRates`
 mutates row by row, and the override map `applyOptimistic` deletes from.
 */
module TorrentStore {
  import opened Torrents

  class LiveStore {
    var torrents: seq<Torrent>
    var globals: Globals
    var connection: ConnState
    var hasLoaded: bool
    var revision: nat
    var optimistic: Overrides
    var ema: EmaState

    ghost function View(): Store
      reads this
    {
      Store(torrents, globals, connection, hasLoaded, revision, optimistic, ema)
    }

    constructor ()
      ensures View() == INITIAL_STORE
    {
      torrents, globals, connection, hasLoaded := [], EMPTY_GLOBALS, INITIAL_CONN, false;
      revision, optimistic, ema := 0, map[], map[];
    }

    method SmoothRates(next: seq<Torrent>) returns (out: seq<Torrent>)
      modifies this`ema
      ensures (ema, out) == Torrents.SmoothRates(old(ema), next)
    {
      var seen: set<string> := {};
      out := [];
      var i := 0;
      while i < |next|
        invariant 0 <= i <= |next|
        invariant (ema, out) == SmoothPass(old(ema), next[..i])
        invariant seen == Index(next[..i]).Keys
      {
        var t := next[i];
        assert next[..i + 1][..i] == next[..i];
        seen := seen + {t.hash};
        var row := SmoothRow(ema, t);
        ema := ema[t.hash := Ema(row.downRate, row.upRate)];
        out := out + [row];
        i := i + 1;
      }
      assert next[..|next|] == next;
      ema := map h | h in ema && h in seen :: ema[h];
    }

    method ApplyOptimistic(rows: seq<Torrent>, now: int) returns (out: seq<Torrent>)
      modifies this`optimistic
      ensures (out, optimistic) == Torrents.ApplyOptimistic(rows, old(optimistic), now)
    {
      ghost var live := LiveOverrides(Index(rows), optimistic, now);
      if optimistic == map[] {
        assert live == map[];
        assert rows == Torrents.ApplyOptimistic(rows, optimistic, now).0;
        return rows;
      }
      var byHash := Index(rows);
      var todo := optimistic.Keys;
      while todo != {}
        invariant todo <= optimistic.Keys <= old(optimistic).Keys
        invariant forall h :: h in optimistic ==> optimistic[h] == old(optimistic)[h]
        invariant forall h :: h in live ==> h in optimistic
        invariant forall h :: h in optimistic && h !in todo ==> h in live
        decreases todo
      {
        var hash :| hash in todo;
        var override := optimistic[hash];
        if hash !in byHash || byHash[hash].status == override.status || now - override.at > OPTIMISTIC_TTL_MS {
          optimistic := optimistic - {hash};
        }
        todo := todo - {hash};
      }
      assert optimistic == live;
      if optimistic == map[] {
        assert rows == Torrents.ApplyOptimistic(rows, old(optimistic), now).0;
        return rows;
      }
      var overrides := optimistic;
      out := seq(|rows|, i requires 0 <= i < |rows| => OverlayRow(overrides, rows[i]));
    }

    method ApplySnapshot(s: Snapshot, now: int)
      modifies this
      ensures View() == Torrents.ApplySnapshot(old(View()), s, now)
    {
      var smoothed := SmoothRates(s.torrents);
      torrents := ApplyOptimistic(Reconcile(torrents, smoothed), now);
      globals, connection, hasLoaded, revision := s.globals, s.connection, true, s.revision;
    }

    /** The loop over the held rows. */
    static method KeepOrReplace(prev: seq<Torrent>, d: Delta) returns (next: seq<Torrent>)
      ensures next == Kept(prev, d.removed, Index(d.updated))
    {
      var updatedMap := Index(d.updated);
      next := [];
      var i := 0;
      while i < |prev|
        invariant 0 <= i <= |prev|
        invariant next == Kept(prev[..i], d.removed, updatedMap)
      {
        var t := prev[i];
        assert prev[..i + 1][..i] == prev[..i];
        if t.hash in d.removed {
        } else if t.hash in updatedMap {
          next := next + [updatedMap[t.hash]];
        } else {
          next := next + [t];
        }
        i := i + 1;
      }
      assert prev[..|prev|] == prev;
    }

    method ApplyDelta(d: Delta, now: int) returns (ok: bool)
      modifies this
      ensures (View(), ok) == Torrents.ApplyDelta(old(View()), d, now)
    {
      if d.baseRevision != revision {
        return false;
      }
      var next := KeepOrReplace(torrents, d);
      next := SortByHash(next + d.added);
      var smoothed := SmoothRates(next);
      torrents := ApplyOptimistic(Reconcile(torrents, smoothed), now);
      globals, connection, revision := d.globals, d.connection, d.revision;
      ok := true;
    }

    static lemma MarkedAll(before: Overrides, after: Overrides, updates: map<string, Status>, now: int)
      requires after.Keys == before.Keys + updates.Keys
      requires forall h :: h in after ==> after[h] == if h in updates then Override(updates[h], now) else before[h]
      ensures after == before + map h | h in updates :: Override(updates[h], now)
    {}

    method MarkOptimistic(updates: map<string, Status>, now: int)
      modifies this
      ensures View() == Torrents.MarkOptimistic(old(View()), updates, now)
    {
      var todo := updates.Keys;
      while todo != {}
        invariant todo <= updates.Keys
        invariant optimistic.Keys == old(optimistic).Keys + (updates.Keys - todo)
        invariant forall h :: h in optimistic ==>
          optimistic[h] == if h in updates && h !in todo then Override(updates[h], now) else old(optimistic)[h]
        decreases todo
        modifies this`optimistic
      {
        var hash :| hash in todo;
        optimistic := optimistic[hash := Override(updates[hash], now)];
        todo := todo - {hash};
      }
      MarkedAll(old(optimistic), optimistic, updates, now);
      torrents := ApplyOptimistic(torrents, now);
    }

    method ClearOptimistic(hashes: seq<string>)
      modifies this
      ensures View() == Torrents.ClearOptimistic(old(View()), hashes)
    {
      var i := 0;
      while i < |hashes|
        invariant 0 <= i <= |hashes|
        invariant View() == Torrents.ClearOptimistic(old(View()), hashes[..i])
      {
        optimistic := optimistic - {hashes[i]};
        i := i + 1;
      }
      assert hashes[..|hashes|] == hashes;
    }
  }
}
