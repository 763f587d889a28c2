/** Computing and applying deltas between snapshots: `diff` and `apply` of crates/rtorrent/src/delta.rs. */
module Deltas {
  import opened Options
  import opened TorrentLaws
  import opened Torrents

  // --- The difference ---------------------------------------------------------

  /** Whether `next`'s row is new to `base` (`wanted` false), or known to it and different (`wanted` true). */
  predicate Selected(t: Torrent, base: map<string, Torrent>, wanted: bool) {
    (t.hash in base) == wanted && (wanted ==> !DiffSame(base[t.hash], t))
  }

  function Select(next: seq<Torrent>, base: map<string, Torrent>, wanted: bool): seq<Torrent> {
    if next == [] then []
    else
      var t := next[|next| - 1];
      Select(next[..|next| - 1], base, wanted) + if Selected(t, base, wanted) then [t] else []
  }

  function Gone(base: seq<Torrent>, next: map<string, Torrent>): seq<string> {
    if base == [] then []
    else Gone(base[..|base| - 1], next) + if base[|base| - 1].hash in next then [] else [base[|base| - 1].hash]
  }

  function InsertHash(h: string, hashes: seq<string>): seq<string> {
    if hashes == [] || HashLeq(h, hashes[0]) then [h] + hashes else [hashes[0]] + InsertHash(h, hashes[1..])
  }

  function SortHashes(hashes: seq<string>): seq<string> {
    if hashes == [] then [] else InsertHash(hashes[0], SortHashes(hashes[1..]))
  }

  function Diff(base: Snapshot, next: Snapshot): Delta {
    var before, after := Index(base.torrents), Index(next.torrents);
    Delta(
      next.revision, base.revision,
      SortByHash(Select(next.torrents, before, false)), SortByHash(Select(next.torrents, before, true)),
      SortHashes(Gone(base.torrents, after)), next.globals, next.connection)
  }

  lemma {:induction false} SelectMembers(next: seq<Torrent>, base: map<string, Torrent>, wanted: bool)
    requires Unique(next)
    ensures Unique(Select(next, base, wanted))
    ensures forall t :: t in Select(next, base, wanted) <==> t in next && Selected(t, base, wanted)
  {
    if next == [] {
    } else {
      var init, last := next[..|next| - 1], next[|next| - 1];
      SelectMembers(init, base, wanted);
      var before := Select(init, base, wanted);
      assert forall t :: t in next <==> t in init || t == last;
      forall i | 0 <= i < |before| ensures before[i].hash != last.hash { assert before[i] in before; }
    }
  }

  lemma {:induction false} GoneMembers(base: seq<Torrent>, next: map<string, Torrent>)
    ensures forall h :: h in Gone(base, next) <==> h in Index(base) && h !in next
  {
    if base == [] {
    } else {
      GoneMembers(base[..|base| - 1], next);
    }
  }

  lemma {:induction false} InsertHashMembers(h: string, hashes: seq<string>)
    ensures forall g :: g in InsertHash(h, hashes) <==> g == h || g in hashes
  {
    if hashes == [] || HashLeq(h, hashes[0]) {
    } else {
      InsertHashMembers(h, hashes[1..]);
    }
  }

  lemma {:induction false} SortHashesMembers(hashes: seq<string>)
    ensures forall g :: g in SortHashes(hashes) <==> g in hashes
  {
    if hashes == [] {
    } else {
      SortHashesMembers(hashes[1..]);
      InsertHashMembers(hashes[0], SortHashes(hashes[1..]));
    }
  }

  /** `diff` meets the contract the browser relies on, in hash order. */
  lemma DiffIsDelta(base: Snapshot, next: Snapshot)
    requires Unique(next.torrents)
    ensures IsDelta(base, next, Diff(base, next))
    ensures Sorted(Diff(base, next).added) && Sorted(Diff(base, next).updated)
  {
    var before, after := Index(base.torrents), Index(next.torrents);
    var added, updated, gone := Select(next.torrents, before, false), Select(next.torrents, before, true), Gone(base.torrents, after);
    SelectMembers(next.torrents, before, false);
    SelectMembers(next.torrents, before, true);
    GoneMembers(base.torrents, after);
    SortMembers(added);
    SortMembers(updated);
    SortIsSorted(added);
    SortIsSorted(updated);
    SortHashesMembers(gone);
  }

  // --- Whatever order the rows come in ----------------------------------------

  lemma {:induction false} HashLeqAntisymmetric(a: string, b: string)
    requires HashLeq(a, b) && HashLeq(b, a)
    ensures a == b
  {
    if a == "" || b == "" {
    } else {
      HashLeqAntisymmetric(a[1..], b[1..]);
      assert a == [a[0]] + a[1..] && b == [b[0]] + b[1..];
    }
  }

  ghost predicate Distinct(hashes: seq<string>) {
    forall i, j :: 0 <= i < j < |hashes| ==> hashes[i] != hashes[j]
  }

  ghost predicate Ordered(hashes: seq<string>) {
    forall i, j :: 0 <= i < j < |hashes| ==> HashLeq(hashes[i], hashes[j])
  }

  lemma TailMembers(a: seq<string>)
    requires Distinct(a) && a != []
    ensures forall h :: h in a[1..] <==> h in a && h != a[0]
  {
    forall h | h in a && h != a[0] ensures h in a[1..] {
      var i :| 0 <= i < |a| && a[i] == h;
      assert a[1..][i - 1] == h;
    }
  }

  lemma FirstsMatch(a: seq<string>, b: seq<string>)
    requires Ordered(a) && Ordered(b) && a != [] && b != [] && forall h :: h in a <==> h in b
    ensures a[0] == b[0]
  {
    assert a[0] in b && b[0] in a;
    var i :| 0 <= i < |b| && b[i] == a[0];
    var j :| 0 <= j < |a| && a[j] == b[0];
    if i > 0 && j > 0 { HashLeqAntisymmetric(a[0], b[0]); }
  }

  /** A set of hashes has one list in order. */
  lemma {:induction false} OrderedOnce(a: seq<string>, b: seq<string>)
    requires Ordered(a) && Ordered(b) && Distinct(a) && Distinct(b) && forall h :: h in a <==> h in b
    ensures a == b
  {
    if a == [] || b == [] {
      HeadIn(a);
      HeadIn(b);
    } else {
      FirstsMatch(a, b);
      TailMembers(a);
      TailMembers(b);
      OrderedOnce(a[1..], b[1..]);
      assert a == [a[0]] + a[1..] && b == [b[0]] + b[1..];
    }
  }

  lemma HeadIn(a: seq<string>)
    ensures a != [] ==> a[0] in a
  {}

  function Hashes(rows: seq<Torrent>): seq<string> {
    seq(|rows|, i requires 0 <= i < |rows| => rows[i].hash)
  }

  lemma InHashes(rows: seq<Torrent>, h: string)
    ensures h in Hashes(rows) <==> exists t :: t in rows && t.hash == h
  {
    if t :| t in rows && t.hash == h {
      var i :| 0 <= i < |rows| && rows[i] == t;
      assert Hashes(rows)[i] == h;
    }
    if h in Hashes(rows) {
      var i :| 0 <= i < |rows| && Hashes(rows)[i] == h;
      assert rows[i] in rows;
    }
  }

  /** A set of rows has one list in hash order. */
  lemma SortedOnce(a: seq<Torrent>, b: seq<Torrent>)
    requires Sorted(a) && Sorted(b) && Unique(a) && Unique(b) && forall t :: t in a <==> t in b
    ensures a == b
  {
    forall h ensures h in Hashes(a) <==> h in Hashes(b) {
      InHashes(a, h);
      InHashes(b, h);
    }
    OrderedOnce(Hashes(a), Hashes(b));
    SameHashesSameRows(a, b);
  }

  lemma SameHashesSameRows(a: seq<Torrent>, b: seq<Torrent>)
    requires Unique(b) && Hashes(a) == Hashes(b) && forall t :: t in a ==> t in b
    ensures a == b
  {
    assert |a| == |Hashes(a)| == |b|;
    forall i | 0 <= i < |a| ensures a[i] == b[i] {
      assert a[i] in b && Hashes(a)[i] == Hashes(b)[i];
      var j :| 0 <= j < |b| && b[j] == a[i];
    }
  }

  lemma {:induction false} InsertHashOrdered(h: string, hashes: seq<string>)
    requires Ordered(hashes) && Distinct(hashes) && h !in hashes
    ensures Ordered(InsertHash(h, hashes)) && Distinct(InsertHash(h, hashes))
  {
    InsertHashMembers(h, hashes);
    if hashes == [] {
    } else if HashLeq(h, hashes[0]) {
      forall j | 0 <= j < |hashes| ensures HashLeq(h, hashes[j]) && h != hashes[j] {
        if j > 0 { HashLeqTransitive(h, hashes[0], hashes[j]); }
      }
    } else {
      var tail := InsertHash(h, hashes[1..]);
      HeadNotInTail(hashes);
      InsertHashOrdered(h, hashes[1..]);
      InsertHashMembers(h, hashes[1..]);
      HashLeqTotal(h, hashes[0]);
      forall j | 0 <= j < |tail| ensures HashLeq(hashes[0], tail[j]) && hashes[0] != tail[j] { assert tail[j] in tail; }
    }
  }

  lemma HeadNotInTail(hashes: seq<string>)
    requires Ordered(hashes) && Distinct(hashes) && hashes != []
    ensures forall h :: h in hashes[1..] ==> h != hashes[0] && HashLeq(hashes[0], h)
  {}

  lemma {:induction false} SortHashesOrdered(hashes: seq<string>)
    requires Distinct(hashes)
    ensures Ordered(SortHashes(hashes)) && Distinct(SortHashes(hashes))
  {
    if hashes == [] {
    } else {
      SortHashesOrdered(hashes[1..]);
      SortHashesMembers(hashes[1..]);
      TailMembers(hashes);
      InsertHashOrdered(hashes[0], SortHashes(hashes[1..]));
    }
  }

  lemma {:induction false} GoneDistinct(base: seq<Torrent>, next: map<string, Torrent>)
    requires Unique(base)
    ensures Distinct(Gone(base, next))
  {
    if base == [] {
    } else {
      var init, last := base[..|base| - 1], base[|base| - 1];
      GoneDistinct(init, next);
      GoneMembers(init, next);
      NotIndexed(init, last.hash);
      var before := Gone(init, next);
      forall i | 0 <= i < |before| ensures before[i] != last.hash { assert before[i] in before; }
    }
  }

  lemma NotIndexed(rows: seq<Torrent>, h: string)
    requires forall i :: 0 <= i < |rows| ==> rows[i].hash != h
    ensures h !in Index(rows)
  {
    if h in Index(rows) { var i := IndexSound(rows, h); }
  }

  /** A delta in hash order. */
  ghost predicate InOrder(d: Delta) {
    Sorted(d.added) && Sorted(d.updated) && Ordered(d.removed) && Distinct(d.removed)
  }

  lemma DiffInOrder(base: Snapshot, next: Snapshot)
    requires Unique(base.torrents) && Unique(next.torrents)
    ensures InOrder(Diff(base, next))
  {
    DiffIsDelta(base, next);
    GoneDistinct(base.torrents, Index(next.torrents));
    SortHashesOrdered(Gone(base.torrents, Index(next.torrents)));
  }

  /** There is one delta in hash order between two snapshots, and `diff` finds it: whatever order the rows come in. */
  lemma OneDelta(base: Snapshot, next: Snapshot, d: Delta)
    requires Unique(base.torrents) && Unique(next.torrents)
    ensures IsDelta(base, next, d) && InOrder(d) <==> d == Diff(base, next)
  {
    DiffIsDelta(base, next);
    DiffInOrder(base, next);
    if IsDelta(base, next, d) && InOrder(d) {
      SortedOnce(d.added, Diff(base, next).added);
      SortedOnce(d.updated, Diff(base, next).updated);
      OrderedOnce(d.removed, Diff(base, next).removed);
    }
  }

  // --- The loops --------------------------------------------------------------

  /** The rows of `rows` under these hashes, pushed in any order. */
  method Collect(rows: map<string, Torrent>, hashes: set<string>) returns (found: seq<Torrent>)
    requires hashes <= rows.Keys && forall h :: h in rows ==> rows[h].hash == h
    ensures Unique(found)
    ensures forall t :: t in found <==> t.hash in hashes && t == rows[t.hash]
  {
    found := [];
    var todo := hashes;
    while todo != {}
      invariant todo <= hashes && Unique(found)
      invariant forall t :: t in found <==> t.hash in hashes && t.hash !in todo && t == rows[t.hash]
      decreases todo
    {
      var h :| h in todo;
      forall i | 0 <= i < |found| ensures found[i].hash != h { assert found[i] in found; }
      found := found + [rows[h]];
      todo := todo - {h};
    }
  }

  method CollectHashes(hashes: set<string>) returns (found: seq<string>)
    ensures Distinct(found) && forall h :: h in found <==> h in hashes
  {
    found := [];
    var todo := hashes;
    while todo != {}
      invariant todo <= hashes && Distinct(found)
      invariant forall h :: h in found <==> h in hashes && h !in todo
      decreases todo
    {
      var h :| h in todo;
      forall i | 0 <= i < |found| ensures found[i] != h { assert found[i] in found; }
      found := found + [h];
      todo := todo - {h};
    }
  }

  /** `diff`: hash sets taken apart in any order, then sorted. */
  method Compute(prev: Snapshot, next: Snapshot) returns (d: Delta)
    requires Unique(prev.torrents) && Unique(next.torrents)
    ensures d == Diff(prev, next)
  {
    var before, after := Index(prev.torrents), Index(next.torrents);
    IndexIsMembership(prev.torrents);
    IndexIsMembership(next.torrents);
    var added := Collect(after, after.Keys - before.Keys);
    var removed := CollectHashes(before.Keys - after.Keys);
    var changed := set h | h in after && h in before && !DiffSame(before[h], after[h]);
    var updated := Collect(after, changed);
    CollectedIsDiff(prev, next, added, updated, removed);
    d := Assemble(prev, next, added, updated, removed);
  }

  /** What the loops collect before it is sorted. */
  ghost predicate Collected(
    prev: Snapshot, next: Snapshot, added: seq<Torrent>, updated: seq<Torrent>, removed: seq<string>
  ) {
    var before, after := Index(prev.torrents), Index(next.torrents);
    && Unique(added) && Unique(updated) && Distinct(removed)
    && (forall t :: t in added <==> t.hash in after && t.hash !in before && t == after[t.hash])
    && (forall t :: t in updated <==>
          t.hash in after && t.hash in before && !DiffSame(before[t.hash], after[t.hash]) && t == after[t.hash])
    && (forall h :: h in removed <==> h in before && h !in after)
  }

  function Assemble(prev: Snapshot, next: Snapshot, added: seq<Torrent>, updated: seq<Torrent>, removed: seq<string>): Delta {
    Delta(next.revision, prev.revision, SortByHash(added), SortByHash(updated), SortHashes(removed),
          next.globals, next.connection)
  }

  lemma CollectedIsDiff(prev: Snapshot, next: Snapshot, added: seq<Torrent>, updated: seq<Torrent>, removed: seq<string>)
    requires Unique(prev.torrents) && Unique(next.torrents) && Collected(prev, next, added, updated, removed)
    ensures Diff(prev, next) == Assemble(prev, next, added, updated, removed)
  {
    CollectedIsDelta(prev, next, added, updated, removed);
    SortIsSorted(added);
    SortIsSorted(updated);
    SortHashesOrdered(removed);
    OneDelta(prev, next, Assemble(prev, next, added, updated, removed));
  }

  lemma CollectedIsDelta(prev: Snapshot, next: Snapshot, added: seq<Torrent>, updated: seq<Torrent>, removed: seq<string>)
    requires Unique(next.torrents) && Collected(prev, next, added, updated, removed)
    ensures IsDelta(prev, next, Assemble(prev, next, added, updated, removed))
  {
    IndexIsMembership(next.torrents);
    SortMembers(added);
    SortMembers(updated);
    SortHashesMembers(removed);
  }

  // --- Applying ---------------------------------------------------------------

  /** `apply`: none unless the delta's base is the snapshot's revision. */
  function Apply(s: Snapshot, d: Delta): Option<Snapshot> {
    if d.baseRevision != s.revision then None
    else Some(Snapshot(d.revision, Merge(s.torrents, d), d.globals, d.connection))
  }

  /** Every row changed only in fields the server does not compare is unchanged in those too. */
  ghost predicate NothingUnseen(base: Snapshot, next: Snapshot) {
    var before, after := Index(base.torrents), Index(next.torrents);
    forall h :: h in before && h in after && DiffSame(before[h], after[h]) ==> before[h] == after[h]
  }

  /** The row a base and its delta give for a hash. */
  function Rebuilt(base: Snapshot, next: Snapshot, h: string): Torrent
    requires h in Index(next.torrents)
  {
    if h in Index(base.torrents) && DiffSame(Index(base.torrents)[h], Index(next.torrents)[h])
    then Index(base.torrents)[h] else Index(next.torrents)[h]
  }

  /** Applying a difference gives each row of the newer snapshot, or the older one the server took for the same. */
  lemma AppliedRows(base: Snapshot, next: Snapshot)
    requires Unique(base.torrents) && Unique(next.torrents)
    ensures var rows := Merge(base.torrents, Diff(base, next));
      && Unique(rows) && Sorted(rows)
      && forall t :: t in rows <==> t.hash in Index(next.torrents) && t == Rebuilt(base, next, t.hash)
  {
    var d := Diff(base, next);
    IndexIsMembership(base.torrents);
    IndexIsMembership(next.torrents);
    DiffIsDelta(base, next);
    IndexIsMembership(d.updated);
    MergeMembers(base.torrents, d);
    SortIsSorted(Kept(base.torrents, d.removed, Index(d.updated)) + d.added);
    forall t: Torrent
      ensures t in Merge(base.torrents, d) <==> t.hash in Index(next.torrents) && t == Rebuilt(base, next, t.hash)
    {
      AppliedRow(base, next, d, t);
    }
  }

  lemma AppliedRow(base: Snapshot, next: Snapshot, d: Delta, t: Torrent)
    requires Unique(base.torrents) && Unique(next.torrents) && IsDelta(base, next, d)
    ensures t in Merge(base.torrents, d) <==> t.hash in Index(next.torrents) && t == Rebuilt(base, next, t.hash)
  {
    IndexIsMembership(base.torrents);
    IndexIsMembership(next.torrents);
    IndexIsMembership(d.updated);
    MergeMembers(base.torrents, d);
    var before, after := Index(base.torrents), Index(next.torrents);
    if t.hash in after && t.hash in before && !DiffSame(before[t.hash], after[t.hash]) {
      assert after[t.hash] in d.updated;
    }
    if t.hash in Index(d.updated) { assert Index(d.updated)[t.hash] in d.updated; }
  }

  /**
   `apply` undoes `diff` - it rebuilds the newer snapshot from the older one - if and only if that one is in hash order
   and no row changed merely in fields the server does not compare.
   */
  lemma ApplyRebuildsExactly(base: Snapshot, next: Snapshot)
    requires Unique(base.torrents) && Unique(next.torrents)
    ensures Apply(base, Diff(base, next)) == Some(next) <==> Sorted(next.torrents) && NothingUnseen(base, next)
  {
    var rows := Merge(base.torrents, Diff(base, next));
    AppliedRows(base, next);
    IndexIsMembership(next.torrents);
    IndexIsMembership(base.torrents);
    if rows == next.torrents {
      forall h | h in Index(base.torrents) && h in Index(next.torrents) &&
                 DiffSame(Index(base.torrents)[h], Index(next.torrents)[h])
        ensures Index(base.torrents)[h] == Index(next.torrents)[h]
      {
        assert Index(next.torrents)[h] in rows;
      }
    }
    if Sorted(next.torrents) && NothingUnseen(base, next) {
      SortedOnce(rows, next.torrents);
    }
  }
}
