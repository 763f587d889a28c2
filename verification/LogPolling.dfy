/** A browser following the log by polling (`fetchLog` and `pollLog` of src/ipc/web.ts). */
module LogPolling {
  import opened Integers
  import opened LogRing
  import opened Options

  /** What `/api/log` answers: entries and the total to ask from next. */
  datatype Answer<T> = Answer(entries: seq<T>, seqNo: nat)

  /**
   A client polling with the total it was given last. `anchor` is where its first answer set the cursor, `answer` the one
   on its way, `totals` those it has taken since, `delivered` the entries handed on, `numbers` their sequence numbers,
   `missed` the numbers the cursor passed without them.
   */
  datatype Follow<T> = Follow(
    history: seq<T>, anchor: Option<nat>, cursor: nat, answer: Option<Answer<T>>, totals: seq<nat>,
    delivered: seq<T>, numbers: seq<nat>, missed: seq<nat>)

  /** `Reads` is the server's part of a fetch; one that fails answers with no entries and the cursor it was asked with. */
  datatype Event<T> = Append(entry: T) | Reads(ok: bool) | Arrives

  /** A client yet to hear from a server that has logged `history`. */
  function Begin<T>(history: seq<T>): Follow<T> {
    Follow(history, None, 0, None, [], [], [], [])
  }

  /** The number of the first entry of an answer. */
  function From<T>(a: Answer<T>): int {
    a.seqNo - |a.entries|
  }

  function Do<T>(f: Follow<T>, e: Event<T>): Follow<T> {
    match e
    case Append(entry) => f.(history := f.history + [entry])
    case Reads(ok) =>
      if f.answer.Some? then f
      else if ok then
        var (entries, seqNo) := Since(f.history, f.cursor);
        f.(answer := Some(Answer(entries, seqNo)))
      else f.(answer := Some(Answer([], f.cursor)))
    case Arrives =>
      if f.answer.None? then f
      else
        var a := f.answer.value;
        if f.anchor.None? then f.(anchor := Some(a.seqNo), cursor := a.seqNo, answer := None)
        else
          var from := if From(a) < 0 then 0 else From(a);
          f.(cursor := a.seqNo, answer := None, totals := f.totals + [a.seqNo], delivered := f.delivered + a.entries,
             numbers := f.numbers + Interval(from, a.seqNo), missed := f.missed + Interval(f.cursor, from))
  }

  function Run<T>(f: Follow<T>, events: seq<Event<T>>): Follow<T> {
    if events == [] then f else Do(Run(f, events[..|events| - 1]), events[|events| - 1])
  }

  /** What an event hands on. */
  function Fresh<T>(f: Follow<T>, e: Event<T>): seq<T> {
    if e.Arrives? && f.answer.Some? && f.anchor.Some? then f.answer.value.entries else []
  }

  // --- The objects ------------------------------------------------------------

  const CAP := 1000

  /** `slice(-n)`. */
  function Last<T>(s: seq<T>, n: nat): seq<T> {
    if |s| <= n then s else s[|s| - n..]
  }

  function AppendAll<T>(shown: seq<T>, entries: seq<T>): seq<T> {
    if entries == [] then shown
    else Last(AppendAll(shown, entries[..|entries| - 1]) + [entries[|entries| - 1]], CAP)
  }

  /** Appending one by one and cutting each time is appending all and cutting once. */
  lemma {:induction false} AppendAllCutsOnce<T>(all: seq<T>, entries: seq<T>)
    ensures AppendAll(Last(all, CAP), entries) == Last(all + entries, CAP)
  {
    if entries == [] {
      assert all + entries == all;
    } else {
      var init, last := entries[..|entries| - 1], entries[|entries| - 1];
      AppendAllCutsOnce(all, init);
      assert all + entries == (all + init) + [last];
    }
  }

  /** The log store of src/store/log.ts. */
  class LogStore<T> {
    var entries: seq<T>

    constructor ()
      ensures entries == []
    {
      entries := [];
    }

    method Hydrate(all: seq<T>)
      modifies this
      ensures entries == Last(all, CAP)
    {
      entries := Last(all, CAP);
    }

    method Append(entry: T)
      modifies this
      ensures entries == Last(old(entries) + [entry], CAP)
    {
      entries := Last(entries + [entry], CAP);
    }
  }

  /** The variables of `pollLog`; `view` is the run they have taken part in. */
  class LogPoll<T> {
    var lastSeq: nat
    var primed: bool
    ghost var view: Follow<T>

    ghost predicate Valid()
      reads this
    {
      primed == view.anchor.Some? && lastSeq == view.cursor && (!primed ==> lastSeq == 0)
    }

    constructor (server: EventLog<T>)
      ensures Valid() && view == Begin(server.history)
    {
      lastSeq, primed, view := 0, false, Begin(server.history);
    }

    /** An entry logged by the server while the client watches. */
    ghost method Logged(entry: T)
      requires Valid()
      modifies this`view
      ensures Valid() && view == Do(old(view), Append(entry))
    {
      view := Do(view, Append(entry));
    }

    /** `fetchLog(primed ? lastSeq : 0)`, up to the answer leaving the server or failing. */
    method FetchLog(server: EventLog<T>, ok: bool) returns (entries: seq<T>, seqNo: nat)
      requires Valid() && server.Valid() && view.history == server.history && view.answer.None?
      modifies this`view
      ensures Valid() && view == Do(old(view), Reads(ok)) && view.answer == Some(Answer(entries, seqNo))
    {
      var after := if primed then lastSeq else 0;
      if ok {
        entries, seqNo := server.LogSince(after);
      } else {
        entries, seqNo := [], after;
      }
      view := Do(view, Reads(ok));
    }

    /** The rest of the tick: the first answer only sets the cursor, each later one is appended entry by entry. */
    method Answered(entries: seq<T>, seqNo: nat, tab: LogStore<T>)
      requires Valid() && view.answer == Some(Answer(entries, seqNo))
      modifies this, tab
      ensures Valid() && view == Do(old(view), Arrives)
      ensures tab.entries == AppendAll(old(tab.entries), Fresh(old(view), Arrives))
    {
      ghost var before, shown := view, tab.entries;
      if !primed {
        primed := true;
      } else {
        var i := 0;
        while i < |entries|
          invariant 0 <= i <= |entries|
          invariant primed && view == before && lastSeq == before.cursor
          invariant tab.entries == AppendAll(shown, entries[..i])
        {
          assert entries[..i + 1][..i] == entries[..i];
          tab.Append(entries[i]);
          i := i + 1;
        }
        assert entries[..|entries|] == entries;
      }
      lastSeq := seqNo;
      view := Do(view, Arrives);
    }
  }

  // --- What every run delivers ------------------------------------------------

  ghost predicate Ascending(s: seq<nat>) {
    forall i, j :: 0 <= i < j < |s| ==> s[i] < s[j]
  }

  /** Everything from `lo` up to `hi` is in exactly one of the two lists, both ascending. */
  ghost predicate Stretch(numbers: seq<nat>, missed: seq<nat>, lo: nat, hi: nat) {
    && lo <= hi
    && Ascending(numbers) && Ascending(missed)
    && (forall k :: k in numbers ==> lo <= k < hi && k !in missed)
    && (forall k :: k in missed ==> lo <= k < hi)
    && (forall k :: lo <= k < hi ==> k in numbers || k in missed)
  }

  lemma InInterval(lo: nat, hi: nat, k: nat)
    ensures k in Interval(lo, hi) <==> lo <= k < hi
  {
    if lo <= k < hi { assert Interval(lo, hi)[k - lo] == k; }
  }

  lemma StretchGrows(numbers: seq<nat>, missed: seq<nat>, lo: nat, mid: nat, from: nat, hi: nat)
    requires Stretch(numbers, missed, lo, mid) && mid <= from <= hi
    ensures Stretch(numbers + Interval(from, hi), missed + Interval(mid, from), lo, hi)
  {
    forall k: nat ensures k in Interval(from, hi) <==> from <= k < hi { InInterval(from, hi, k); }
    forall k: nat ensures k in Interval(mid, from) <==> mid <= k < from { InInterval(mid, from, k); }
    AscendingConcat(numbers, mid, Interval(from, hi));
    AscendingConcat(missed, mid, Interval(mid, from));
  }

  lemma AscendingConcat(a: seq<nat>, bound: nat, b: seq<nat>)
    requires Ascending(a) && Ascending(b)
    requires (forall k :: k in a ==> k < bound) && forall k :: k in b ==> bound <= k
    ensures Ascending(a + b)
  {
    forall i, j | 0 <= i < j < |a + b| ensures (a + b)[i] < (a + b)[j] {
      if i < |a| { assert a[i] in a; }
      if j >= |a| { assert b[j - |a|] in b; }
    }
  }

  /**
   An answer on its way begins at the cursor or, if that had left the ring when it was read, where the ring began. One
   that failed is empty and ends at the cursor.
   */
  ghost predicate AnswerContinues<T>(f: Follow<T>, a: Answer<T>) {
    && a.seqNo <= |f.history|
    && (f.anchor.Some? ==>
          && f.cursor <= From(a)
          && (if a.seqNo == f.cursor then From(a) == f.cursor else From(a) == Max(f.cursor, Oldest(a.seqNo)))
          && a.entries == f.history[From(a)..a.seqNo])
  }

  /** The first of the totals that is beyond `k`: that of the answer with which the cursor passed it. */
  function PassedAt(totals: seq<nat>, k: nat): Option<nat> {
    if totals == [] then None else if totals[0] > k then Some(totals[0]) else PassedAt(totals[1..], k)
  }

  /** Missed are exactly the entries that had left the ring when the answer that passed them was read. */
  ghost predicate MissedAsTheyHadTo(totals: seq<nat>, numbers: seq<nat>, missed: seq<nat>, lo: nat, hi: nat) {
    && (forall k :: lo <= k < hi ==> PassedAt(totals, k).Some?)
    && (forall k :: k in missed ==> PassedAt(totals, k).Some? && k < Oldest(PassedAt(totals, k).value))
    && (forall k :: k in numbers ==> PassedAt(totals, k).Some? && Oldest(PassedAt(totals, k).value) <= k)
  }

  /** Delivered is the history from the anchor to the cursor, in order and without repeats, but for what had to be missed. */
  ghost predicate Followed<T>(f: Follow<T>) {
    && |f.numbers| == |f.delivered|
    && (forall i :: 0 <= i < |f.numbers| ==> f.numbers[i] < |f.history| && f.delivered[i] == f.history[f.numbers[i]])
    && (f.answer.Some? ==> AnswerContinues(f, f.answer.value))
    && match f.anchor
       case None => f.cursor == 0 && f.totals == [] && f.numbers == [] && f.missed == []
       case Some(start) =>
         && f.cursor <= |f.history|
         && Stretch(f.numbers, f.missed, start, f.cursor)
         && (forall k :: k in f.totals ==> k <= f.cursor)
         && MissedAsTheyHadTo(f.totals, f.numbers, f.missed, start, f.cursor)
  }

  lemma {:induction false} PassedLater(totals: seq<nat>, total: nat, k: nat)
    ensures PassedAt(totals + [total], k) ==
      if PassedAt(totals, k).Some? then PassedAt(totals, k) else if total > k then Some(total) else None
    ensures PassedAt(totals, k).Some? ==> PassedAt(totals, k).value in totals && PassedAt(totals, k).value > k
  {
    if totals == [] {
      assert (totals + [total])[1..] == [];
    } else {
      PassedLater(totals[1..], total, k);
      assert (totals + [total])[1..] == totals[1..] + [total];
    }
  }

  lemma ReadFollows<T>(f: Follow<T>, ok: bool)
    requires Followed(f)
    ensures Followed(Do(f, Reads(ok)))
  {}

  lemma AppendFollows<T>(f: Follow<T>, entry: T)
    requires Followed(f)
    ensures Followed(Do(f, Append(entry)))
  {}

  lemma FirstArrivalFollows<T>(f: Follow<T>)
    requires Followed(f) && f.answer.Some? && f.anchor.None?
    ensures Followed(Do(f, Arrives))
  {}

  lemma DoFollows<T>(f: Follow<T>, e: Event<T>)
    requires Followed(f)
    ensures Followed(Do(f, e)) && f.history <= Do(f, e).history
  {
    match e
    case Append(entry) => AppendFollows(f, entry);
    case Reads(ok) => ReadFollows(f, ok);
    case Arrives =>
      if f.answer.None? {
      } else if f.anchor.None? {
        FirstArrivalFollows(f);
      } else {
        ArrivalFollows(f);
      }
  }

  lemma ArrivalFollows<T>(f: Follow<T>)
    requires Followed(f) && f.answer.Some? && f.anchor.Some?
    ensures Followed(Do(f, Arrives))
  {
    var a, g := f.answer.value, Do(f, Arrives);
    StretchGrows(f.numbers, f.missed, f.anchor.value, f.cursor, From(a), a.seqNo);
    ArrivalMisses(f);
    DeliveredMatches(f);
  }

  lemma DeliveredMatches<T>(f: Follow<T>)
    requires Followed(f) && f.answer.Some? && f.anchor.Some?
    ensures var g := Do(f, Arrives);
      && |g.numbers| == |g.delivered|
      && forall i :: 0 <= i < |g.numbers| ==> g.numbers[i] < |g.history| && g.delivered[i] == g.history[g.numbers[i]]
  {}

  lemma ArrivalMisses<T>(f: Follow<T>)
    requires Followed(f) && f.answer.Some? && f.anchor.Some?
    ensures var g := Do(f, Arrives);
      MissedAsTheyHadTo(g.totals, g.numbers, g.missed, f.anchor.value, g.cursor)
  {
    var a, g, start := f.answer.value, Do(f, Arrives), f.anchor.value;
    forall k: nat ensures PassedAt(g.totals, k) ==
        if PassedAt(f.totals, k).Some? then PassedAt(f.totals, k) else if a.seqNo > k then Some(a.seqNo) else None
    {
      PassedLater(f.totals, a.seqNo, k);
    }
    forall k | f.cursor <= k < a.seqNo ensures PassedAt(f.totals, k).None? {
      PassedLater(f.totals, a.seqNo, k);
    }
    forall k | k in g.missed ensures PassedAt(g.totals, k).Some? && k < Oldest(PassedAt(g.totals, k).value) {
      InInterval(f.cursor, From(a), k);
    }
    forall k | k in g.numbers ensures PassedAt(g.totals, k).Some? && Oldest(PassedAt(g.totals, k).value) <= k {
      InInterval(From(a), a.seqNo, k);
    }
  }

  /**
   For any interleaving of appends and polls, failed ones included and however late the answers: what was delivered is
   the history from where the first answer set the cursor to where it is now, in order and without repeats, leaving out
   exactly the entries that had been pushed out of the ring when the answer that passed them was read.
   */
  lemma {:induction false} FollowsWithoutRepeats<T>(history: seq<T>, events: seq<Event<T>>)
    ensures var f := Run(Begin(history), events); history <= f.history && Followed(f)
  {
    if events == [] {
    } else {
      var init := events[..|events| - 1];
      FollowsWithoutRepeats(history, init);
      DoFollows(Run(Begin(history), init), events[|events| - 1]);
    }
  }
}
