/**
 The Log tab: filled once by `getLog`, kept current by the poll (src/web/WebApp.tsx, src/store/log.ts). The two requests
 race, at the server and on their way back.
 */
module LogTab {
  import opened LogRing
  import opened LogPolling
  import opened Options

  /**
   The request of `getLog`: `Filled` once `hydrate` has run. `total` is the server's count when it answered, none if it
   answered with an error; `seam` the poll's cursor when the fill landed, none before the poll's first answer; `shown`
   and `skipped` count what the poll had handed on and missed by then.
   */
  datatype Fill =
    | Asked
    | Answered(total: Option<nat>)
    | Filled(total: Option<nat>, seam: Option<nat>, shown: nat, skipped: nat)

  datatype Tab<T> = Tab(poll: Follow<T>, fill: Fill, entries: seq<T>)

  datatype Step<T> = Polling(event: Event<T>) | FillReads(ok: bool) | FillArrives

  function Open<T>(history: seq<T>): Tab<T> {
    Tab(Begin(history), Asked, [])
  }

  /** What a fill that left when `total` entries existed carries: the answer to a request from 0. */
  function FillEntries<T>(history: seq<T>, total: Option<nat>): (r: seq<T>)
    requires total.Some? ==> total.value <= |history|
    ensures r == if total.Some? then history[Oldest(total.value)..total.value] else []
  {
    if total.Some? then Since(history[..total.value], 0).0 else []
  }

  function DoStep<T>(t: Tab<T>, step: Step<T>): Tab<T>
    requires Sound(t)
  {
    match step
    case Polling(e) => t.(poll := Do(t.poll, e), entries := AppendAll(t.entries, Fresh(t.poll, e)))
    case FillReads(ok) =>
      if t.fill.Asked? then t.(fill := Answered(if ok then Some(|t.poll.history|) else None)) else t
    case FillArrives =>
      if !t.fill.Answered? then t
      else
        var seam := if t.poll.anchor.Some? then Some(t.poll.cursor) else None;
        t.(fill := Filled(t.fill.total, seam, |t.poll.numbers|, |t.poll.missed|),
           entries := Last(FillEntries(t.poll.history, t.fill.total), CAP))
  }

  // --- What every run keeps ---------------------------------------------------

  /** What the tab would list without its cap: the fill, then all that was handed on since; before the fill, just that. */
  function Uncut<T>(t: Tab<T>): seq<T>
    requires TotalKnown(t) && (t.fill.Filled? ==> t.fill.shown <= |t.poll.delivered|)
  {
    if t.fill.Filled? then FillEntries(t.poll.history, t.fill.total) + t.poll.delivered[t.fill.shown..]
    else t.poll.delivered
  }

  predicate TotalKnown<T>(t: Tab<T>) {
    !t.fill.Asked? && t.fill.total.Some? ==> t.fill.total.value <= |t.poll.history|
  }

  /** Where the poll's deliveries since the fill begin: at the cursor it landed on, or the one set first thereafter. */
  function SeamOf<T>(t: Tab<T>): nat
    requires t.fill.Filled? && t.poll.anchor.Some?
  {
    if t.fill.seam.Some? then t.fill.seam.value else t.poll.anchor.value
  }

  ghost predicate Sound<T>(t: Tab<T>) {
    && Followed(t.poll)
    && TotalKnown(t)
    && (t.fill.Filled? ==>
          && t.fill.shown <= |t.poll.numbers| && t.fill.skipped <= |t.poll.missed|
          && (t.fill.seam.Some? ==> t.poll.anchor.Some?)
          && (t.fill.seam.None? ==> t.fill.shown == 0 && t.fill.skipped == 0)
          && (t.poll.anchor.Some? ==>
                Stretch(t.poll.numbers[t.fill.shown..], t.poll.missed[t.fill.skipped..], SeamOf(t), t.poll.cursor)))
    && t.entries == Last(Uncut(t), CAP)
  }

  lemma OpenSound<T>(history: seq<T>)
    ensures Sound(Open(history))
  {}

  lemma FillKeeps<T>(t: Tab<T>, step: Step<T>)
    requires Sound(t) && !step.Polling?
    ensures Sound(DoStep(t, step))
  {
    var after := DoStep(t, step);
    if step.FillArrives? && t.fill.Answered? {
      var f := t.poll;
      assert f.numbers[|f.numbers|..] == [] && f.missed[|f.missed|..] == [] && f.delivered[|f.numbers|..] == [];
      assert Uncut(after) == FillEntries(f.history, t.fill.total);
    }
  }

  /** The part of the numbers or of the missed ones since the fill grows as the whole does. */
  lemma SinceGrows(all: seq<nat>, more: seq<nat>, from: nat)
    requires from <= |all|
    ensures (all + more)[from..] == all[from..] + more
  {}

  lemma PollingKeeps<T>(t: Tab<T>, e: Event<T>)
    requires Sound(t)
    ensures Sound(DoStep(t, Polling(e)))
  {
    var f, after := t.poll, DoStep(t, Polling(e));
    DoFollows(f, e);
    UncutGrows(t, e);
    AppendAllCutsOnce(Uncut(t), Fresh(f, e));
    if t.fill.Filled? && e.Arrives? && f.answer.Some? {
      var a := f.answer.value;
      if f.anchor.Some? {
        SinceGrows(f.numbers, Interval(From(a), a.seqNo), t.fill.shown);
        SinceGrows(f.missed, Interval(f.cursor, From(a)), t.fill.skipped);
        StretchGrows(f.numbers[t.fill.shown..], f.missed[t.fill.skipped..], SeamOf(t), f.cursor, From(a), a.seqNo);
      } else {
        assert f.numbers[0..] == [] && f.missed[0..] == [];
      }
    }
  }

  lemma {:induction false} UncutGrows<T>(t: Tab<T>, e: Event<T>)
    requires Sound(t)
    ensures var after := DoStep(t, Polling(e));
      && TotalKnown(after) && (after.fill.Filled? ==> after.fill.shown <= |after.poll.delivered|)
      && Uncut(after) == Uncut(t) + Fresh(t.poll, e)
  {
    var f, g, more := t.poll, Do(t.poll, e), Fresh(t.poll, e);
    DoGrows(f, e);
    if t.fill.Filled? {
      FillStays(f.history, g.history, t.fill.total);
      DeliveredSince(f.delivered, more, t.fill.shown, FillEntries(f.history, t.fill.total));
    }
  }

  lemma DoGrows<T>(f: Follow<T>, e: Event<T>)
    ensures f.history <= Do(f, e).history && Do(f, e).delivered == f.delivered + Fresh(f, e)
  {}

  lemma FillStays<T>(before: seq<T>, after: seq<T>, total: Option<nat>)
    requires before <= after && (total.Some? ==> total.value <= |before|)
    ensures FillEntries(after, total) == FillEntries(before, total)
  {}

  lemma DeliveredSince<T>(delivered: seq<T>, more: seq<T>, from: nat, fill: seq<T>)
    requires from <= |delivered|
    ensures fill + (delivered + more)[from..] == (fill + delivered[from..]) + more
  {}

  function RunTab<T>(history: seq<T>, steps: seq<Step<T>>): (t: Tab<T>)
    ensures Sound(t)
  {
    if steps == [] then OpenSound(history); Open(history)
    else
      var before, last := RunTab(history, steps[..|steps| - 1]), steps[|steps| - 1];
      StepKeeps(before, last);
      DoStep(before, last)
  }

  lemma StepKeeps<T>(t: Tab<T>, step: Step<T>)
    requires Sound(t)
    ensures Sound(DoStep(t, step))
  {
    if step.Polling? { PollingKeeps(t, step.event); } else { FillKeeps(t, step); }
  }

  // --- The page ---------------------------------------------------------------

  /** The objects behind the tab: the poll, the store both requests write to, and the run they take part in. */
  class Page<T> {
    const poll: LogPoll<T>
    const store: LogStore<T>
    ghost var view: Tab<T>

    ghost predicate Valid()
      reads this, poll, store
    {
      poll.Valid() && view.poll == poll.view && view.entries == store.entries && Sound(view)
    }

    constructor (server: EventLog<T>)
      ensures Valid() && fresh(poll) && fresh(store) && view == Open(server.history)
    {
      poll := new LogPoll(server);
      store := new LogStore();
      view := Open(server.history);
      new;
      OpenSound(server.history);
    }

    /** The server logs an entry while the page is open. */
    method ServerLogs(server: EventLog<T>, entry: T)
      requires Valid() && server.Valid() && view.poll.history == server.history
      modifies this`view, poll, server
      ensures Valid() && server.Valid() && view.poll.history == server.history
      ensures view == DoStep(old(view), Polling(Append(entry)))
    {
      StepKeeps(view, Polling(Append(entry)));
      server.Log(entry);
      poll.Logged(entry);
      view := DoStep(view, Polling(Append(entry)));
    }

    /** `getLog`, up to its answer leaving the server or failing. */
    method GetLog(server: EventLog<T>, ok: bool) returns (entries: seq<T>)
      requires Valid() && server.Valid() && view.poll.history == server.history && view.fill.Asked?
      modifies this`view
      ensures Valid() && view == DoStep(old(view), FillReads(ok))
      ensures view.fill.Answered? && entries == FillEntries(view.poll.history, view.fill.total)
    {
      entries := [];
      if ok {
        var seqNo;
        entries, seqNo := server.LogSince(0);
        assert server.history[..|server.history|] == server.history;
      }
      StepKeeps(view, FillReads(ok));
      view := DoStep(view, FillReads(ok));
    }

    /** `getLog().then(hydrate)`. */
    method GotLog(entries: seq<T>)
      requires Valid() && view.fill.Answered? && entries == FillEntries(view.poll.history, view.fill.total)
      modifies this`view, store
      ensures Valid() && view == DoStep(old(view), FillArrives)
    {
      StepKeeps(view, FillArrives);
      store.Hydrate(entries);
      view := DoStep(view, FillArrives);
    }

    /** A poll's request, up to its answer leaving the server or failing. */
    method Polls(server: EventLog<T>, ok: bool) returns (entries: seq<T>, seqNo: nat)
      requires Valid() && server.Valid() && view.poll.history == server.history && view.poll.answer.None?
      modifies this`view, poll
      ensures Valid() && view == DoStep(old(view), Polling(Reads(ok)))
      ensures view.poll.answer == Some(LogPolling.Answer(entries, seqNo))
    {
      StepKeeps(view, Polling(Reads(ok)));
      entries, seqNo := poll.FetchLog(server, ok);
      view := DoStep(view, Polling(Reads(ok)));
    }

    method Polled(entries: seq<T>, seqNo: nat)
      requires Valid() && view.poll.answer == Some(LogPolling.Answer(entries, seqNo))
      modifies this`view, poll, store
      ensures Valid() && view == DoStep(old(view), Polling(Arrives))
    {
      StepKeeps(view, Polling(Arrives));
      poll.Answered(entries, seqNo, store);
      view := DoStep(view, Polling(Arrives));
    }
  }

  // --- When the tab is whole --------------------------------------------------

  /** Filled by an answer with entries, and polled at least once. */
  predicate Running<T>(t: Tab<T>) {
    t.fill.Filled? && t.fill.total.Some? && t.poll.anchor.Some?
  }

  /** The numbers of the entries listed, without the cap. */
  function UncutNumbers<T>(t: Tab<T>): seq<nat>
    requires Sound(t) && Running(t)
  {
    var total := t.fill.total.value;
    Interval(Oldest(total), total) + t.poll.numbers[t.fill.shown..]
  }

  /** What the poll missed since the fill. */
  function MissedSince<T>(t: Tab<T>): seq<nat>
    requires Sound(t) && t.fill.Filled?
  {
    t.poll.missed[t.fill.skipped..]
  }

  function ListedNumbers<T>(t: Tab<T>): seq<nat>
    requires Sound(t) && Running(t)
  {
    Last(UncutNumbers(t), CAP)
  }

  /** The numbers listed are those of the entries listed. */
  lemma ListedEntries<T>(t: Tab<T>)
    requires Sound(t) && Running(t)
    ensures |t.entries| == |ListedNumbers(t)|
    ensures forall i :: 0 <= i < |t.entries| ==>
      ListedNumbers(t)[i] < |t.poll.history| && t.entries[i] == t.poll.history[ListedNumbers(t)[i]]
  {
    var uncut, numbers, f := Uncut(t), UncutNumbers(t), t.poll;
    assert |uncut| == |numbers|;
    forall i | 0 <= i < |uncut| ensures numbers[i] < |f.history| && uncut[i] == f.history[numbers[i]] {
      var fill := t.fill.total.value - Oldest(t.fill.total.value);
      if i >= fill { assert numbers[i] == f.numbers[t.fill.shown + i - fill]; }
    }
  }

  /** The end of everything from the first entry of the fill to the cursor, once each. */
  ghost predicate Whole<T>(t: Tab<T>)
    requires Sound(t) && Running(t)
  {
    ListedNumbers(t) == Last(Interval(Oldest(t.fill.total.value), t.poll.cursor), CAP)
  }

  /** Where the poll goes on after the fill it skips exactly what the fill holds: nothing, if it goes on at its end. */
  ghost predicate Seamless<T>(t: Tab<T>)
    requires Sound(t) && Running(t)
  {
    SeamOf(t) <= t.fill.total.value && MissedSince(t) == Interval(SeamOf(t), t.fill.total.value)
  }

  /** So much has been handed on without a miss since the fill that the cap has cut the seam off. */
  ghost predicate Outgrown<T>(t: Tab<T>)
    requires Sound(t) && Running(t)
  {
    && SeamOf(t) + CAP <= t.poll.cursor
    && Oldest(t.fill.total.value) + CAP <= t.poll.cursor
    && forall k :: k in MissedSince(t) ==> k < t.poll.cursor - CAP
  }

  lemma HeadIsIn(s: seq<nat>)
    ensures s != [] ==> s[0] in s
  {}

  /** Ascending and with the same elements as an interval: the interval. */
  lemma {:induction false} AscendingInterval(s: seq<nat>, lo: nat, hi: nat)
    requires Ascending(s) && forall k: nat :: k in s <==> lo <= k < hi
    ensures s == Interval(lo, hi)
    decreases hi
  {
    if lo >= hi {
      HeadIsIn(s);
    } else {
      var last := |s| - 1;
      assert hi - 1 in s && s[last] in s;
      var at :| 0 <= at < |s| && s[at] == hi - 1;
      assert at == last;
      var init := s[..last];
      forall k: nat ensures k in init <==> lo <= k < hi - 1 {
        if k in init { var i :| 0 <= i < last && init[i] == k; assert s[i] in s && s[i] < s[last]; }
        if lo <= k < hi - 1 { assert k in s; var i :| 0 <= i < |s| && s[i] == k; assert init[i] == k; }
      }
      AscendingInterval(init, lo, hi - 1);
      assert s == init + [hi - 1];
    }
  }

  lemma IntervalMembers(lo: nat, hi: nat)
    ensures forall k: nat :: k in Interval(lo, hi) <==> lo <= k < hi
  {
    forall k: nat ensures k in Interval(lo, hi) <==> lo <= k < hi { InInterval(lo, hi, k); }
  }

  lemma IntervalsMeet(lo: nat, mid: nat, hi: nat)
    requires lo <= mid <= hi
    ensures Interval(lo, hi) == Interval(lo, mid) + Interval(mid, hi)
  {}

  /** What is handed on begins exactly at `h` and has no gap if and only if exactly what lies before `h` is missed. */
  lemma ResumesAt(numbers: seq<nat>, missed: seq<nat>, lo: nat, hi: nat, h: nat)
    requires Stretch(numbers, missed, lo, hi)
    ensures (h <= hi && numbers == Interval(h, hi)) <==> (lo <= h && missed == Interval(lo, h))
  {
    IntervalMembers(h, hi);
    IntervalMembers(lo, h);
    if h <= hi && numbers == Interval(h, hi) {
      if h < hi { assert h in numbers; }
      AscendingInterval(missed, lo, h);
    }
    if lo <= h && missed == Interval(lo, h) {
      if lo < h { assert missed[h - 1 - lo] == h - 1 && h - 1 in missed; }
      AscendingInterval(numbers, h, hi);
    }
  }

  lemma InLast(numbers: seq<nat>, n: nat, k: nat)
    requires k in Last(numbers, n)
    ensures k in numbers
  {}

  /** The last `CAP` numbers handed on are the last `CAP` of all exactly if none of those was missed. */
  lemma {:induction false} TailOf(numbers: seq<nat>, missed: seq<nat>, lo: nat, hi: nat, n: nat)
    requires Stretch(numbers, missed, lo, hi) && 0 < n <= hi
    ensures (|numbers| >= n && Last(numbers, n) == Interval(hi - n, hi)) <==>
      (lo + n <= hi && forall k :: k in missed ==> k < hi - n)
  {
    IntervalMembers(hi - n, hi);
    if |numbers| >= n && Last(numbers, n) == Interval(hi - n, hi) {
      forall k: nat | hi - n <= k < hi ensures k in numbers {
        assert k in Interval(hi - n, hi);
        InLast(numbers, n, k);
      }
      assert hi - n in numbers;
    }
    if lo + n <= hi && forall k :: k in missed ==> k < hi - n {
      TailIsInterval(numbers, hi - n, hi);
    }
  }

  lemma {:induction false} TailIsInterval(s: seq<nat>, lo: nat, hi: nat)
    requires Ascending(s) && lo <= hi && (forall k :: k in s ==> k < hi) && forall k :: lo <= k < hi ==> k in s
    ensures |s| >= hi - lo && s[|s| - (hi - lo)..] == Interval(lo, hi)
    decreases hi
  {
    if lo == hi {
      assert s[|s|..] == [];
    } else {
      var last := |s| - 1;
      assert hi - 1 in s && s[last] in s;
      var at :| 0 <= at < |s| && s[at] == hi - 1;
      assert at == last;
      var init := s[..last];
      forall k | k in init ensures k < hi - 1 {
        var i :| 0 <= i < last && init[i] == k;
        assert s[i] < s[last];
      }
      forall k | lo <= k < hi - 1 ensures k in init {
        assert k in s;
        var i :| 0 <= i < |s| && s[i] == k;
        assert init[i] == k;
      }
      TailIsInterval(init, lo, hi - 1);
      assert s[|s| - (hi - lo)..] == init[|init| - (hi - 1 - lo)..] + [hi - 1];
    }
  }

  /** The list of numbers, cut or not, against everything there was. */
  lemma CutMatches(fill: nat, total: nat, numbers: seq<nat>, missed: seq<nat>, lo: nat, hi: nat)
    requires Stretch(numbers, missed, lo, hi) && fill <= total && (fill == total ==> total == 0)
    requires |numbers| < CAP
    ensures Last(Interval(fill, total) + numbers, CAP) == Last(Interval(fill, hi), CAP)
      <==> total <= hi && numbers == Interval(total, hi)
  {
    var listed, all := Interval(fill, total) + numbers, Interval(fill, hi);
    if total <= hi && numbers == Interval(total, hi) { IntervalsMeet(fill, total, hi); }
    if Last(listed, CAP) == Last(all, CAP) { CutMatchesBack(fill, total, numbers, hi); }
  }

  lemma CutMatchesBack(fill: nat, total: nat, numbers: seq<nat>, hi: nat)
    requires fill <= total && (fill == total ==> total == 0) && |numbers| < CAP
    requires Last(Interval(fill, total) + numbers, CAP) == Last(Interval(fill, hi), CAP)
    ensures total <= hi && numbers == Interval(total, hi)
  {
    var front, cut := Interval(fill, total), Last(Interval(fill, hi), CAP);
    var n := |cut| - |numbers|;
    EndOfList(front, numbers);
    EndOfInterval(fill, hi);
    if front == [] {
      assert |cut| == hi;
    } else {
      assert front[|front| - 1] == total - 1 == cut[n - 1] == hi - |cut| + (n - 1);
    }
    assert hi == total + |numbers|;
    forall i | 0 <= i < |numbers| ensures numbers[i] == total + i { assert numbers[i] == cut[n..][i] == cut[n + i]; }
    CountsUp(numbers, total);
  }

  lemma CountsUp(numbers: seq<nat>, lo: nat)
    requires forall i :: 0 <= i < |numbers| ==> numbers[i] == lo + i
    ensures numbers == Interval(lo, lo + |numbers|)
  {}

  /** A short list is the end of what is cut off, and what stands before it does there too. */
  lemma EndOfList(front: seq<nat>, back: seq<nat>)
    requires |back| < CAP
    ensures var cut := Last(front + back, CAP);
      var n := |cut| - |back|;
      && n >= 0 && cut[n..] == back
      && (front == [] ==> n == 0) && (front != [] ==> n > 0 && cut[n - 1] == front[|front| - 1])
  {}

  lemma EndOfInterval(lo: nat, hi: nat)
    ensures var cut := Last(Interval(lo, hi), CAP);
      forall i :: 0 <= i < |cut| ==> cut[i] == hi - |cut| + i
  {}

  /**
   Exactly when the tab lists everything from its fill to the poll's cursor, up to its cap: if and only if the poll goes
   on where the fill ends, or the cap has since cut that place off.
   */
  lemma WholeExactly<T>(t: Tab<T>)
    requires Sound(t) && Running(t)
    ensures Whole(t) <==> Seamless(t) || Outgrown(t)
  {
    var total, f := t.fill.total.value, t.poll;
    var numbers, missed, lo, hi := f.numbers[t.fill.shown..], MissedSince(t), SeamOf(t), f.cursor;
    WholeList(numbers, missed, lo, hi, Oldest(total), total);
  }

  lemma WholeList(numbers: seq<nat>, missed: seq<nat>, lo: nat, hi: nat, fill: nat, total: nat)
    requires Stretch(numbers, missed, lo, hi) && fill <= total && (fill == total ==> total == 0)
    ensures Last(Interval(fill, total) + numbers, CAP) == Last(Interval(fill, hi), CAP) <==>
      || (lo <= total && missed == Interval(lo, total))
      || (lo + CAP <= hi && fill + CAP <= hi && forall k :: k in missed ==> k < hi - CAP)
  {
    ResumesAt(numbers, missed, lo, hi, total);
    if |numbers| < CAP {
      CutMatches(fill, total, numbers, missed, lo, hi);
      if CAP <= hi { TailOf(numbers, missed, lo, hi, CAP); }
    } else {
      LongEnd(Interval(fill, total), numbers);
      LongTail(numbers, missed, lo, hi, fill);
      if lo <= total && missed == Interval(lo, total) { IntervalsMeet(fill, total, hi); }
    }
  }

  lemma LongEnd(front: seq<nat>, back: seq<nat>)
    requires |back| >= CAP
    ensures Last(front + back, CAP) == Last(back, CAP)
  {}

  lemma LongTail(numbers: seq<nat>, missed: seq<nat>, lo: nat, hi: nat, oldest: nat)
    requires Stretch(numbers, missed, lo, hi) && |numbers| >= CAP
    ensures Last(numbers, CAP) == Last(Interval(oldest, hi), CAP) <==>
      lo + CAP <= hi && oldest + CAP <= hi && forall k :: k in missed ==> k < hi - CAP
  {
    if CAP <= hi { TailOf(numbers, missed, lo, hi, CAP); }
    if oldest + CAP <= hi { assert Last(Interval(oldest, hi), CAP) == Interval(hi - CAP, hi); }
  }

  /**
   In every run, however the two requests race: once both have answered, what is listed are entries of the log under
   their numbers, and it is everything from the fill's first entry to the poll's cursor, up to the cap, if and only if
   the poll goes on where the fill ends or the cap has cut that place off.
   */
  lemma {:induction false} TabIsWholeExactly<T>(history: seq<T>, steps: seq<Step<T>>)
    ensures var t := RunTab(history, steps);
      Running(t) ==>
        && |t.entries| == |ListedNumbers(t)|
        && (forall i :: 0 <= i < |t.entries| ==>
              ListedNumbers(t)[i] < |t.poll.history| && t.entries[i] == t.poll.history[ListedNumbers(t)[i]])
        && (Whole(t) <==> Seamless(t) || Outgrown(t))
  {
    var t := RunTab(history, steps);
    if Running(t) {
      ListedEntries(t);
      WholeExactly(t);
    }
  }

  /** Both first answers saw the same total, the fill landed before anything was handed on, and nothing was missed. */
  lemma {:induction false} EarlyFillIsWhole<T>(history: seq<T>, steps: seq<Step<T>>)
    ensures var t := RunTab(history, steps);
      Running(t) && SeamOf(t) == t.poll.anchor.value == t.fill.total.value && t.poll.missed == [] ==>
        && t.fill.total.value <= t.poll.cursor <= |t.poll.history|
        && t.entries == Last(t.poll.history[Oldest(t.fill.total.value)..t.poll.cursor], CAP)
  {
    var t := RunTab(history, steps);
    if Running(t) && SeamOf(t) == t.poll.anchor.value == t.fill.total.value && t.poll.missed == [] {
      TabIsWholeExactly(history, steps);
      ListedIsInterval(t);
    }
  }

  lemma ListedIsInterval<T>(t: Tab<T>)
    requires Sound(t) && Running(t) && Whole(t) && SeamOf(t) == t.fill.total.value
    ensures t.fill.total.value <= t.poll.cursor <= |t.poll.history|
    ensures t.entries == Last(t.poll.history[Oldest(t.fill.total.value)..t.poll.cursor], CAP)
  {
    ListedEntries(t);
    NumberedTail(t.poll.history, t.entries, ListedNumbers(t), Oldest(t.fill.total.value), t.poll.cursor);
  }

  /** Entries under the last numbers of an interval are the end of that part of the log. */
  lemma NumberedTail<T>(history: seq<T>, entries: seq<T>, numbers: seq<nat>, lo: nat, hi: nat)
    requires lo <= hi <= |history| && numbers == Last(Interval(lo, hi), CAP) && |entries| == |numbers|
    requires forall i :: 0 <= i < |entries| ==> numbers[i] < |history| && entries[i] == history[numbers[i]]
    ensures entries == Last(history[lo..hi], CAP)
  {
    var start := if hi - lo <= CAP then lo else hi - CAP;
    assert Last(history[lo..hi], CAP) == history[start..hi];
    assert numbers == Interval(start, hi);
  }

  /**
   Equal totals alone are not enough: an entry is logged and handed on while the fill is on its way back, and the fill
   replaces the list. The entry is gone from the tab for good, though nothing was missed by the poll.
   */
  lemma {:induction false} LateFillLosesADelivery<T>(entry: T) returns (steps: seq<Step<T>>)
    ensures Running(RunTab([], steps))
    ensures var t := RunTab([], steps);
      && t.fill.total.value == t.poll.anchor.value == 0 && t.poll.missed == []
      && t.poll.delivered == t.poll.history == [entry] && t.poll.cursor == 1
      && t.entries == [] && !Whole(t)
  {
    steps := EntryShown(entry);
    var shown := RunTab([], steps);
    steps := Took(steps, FillArrives);
    LateFillEmpties(shown);
  }

  lemma BothAnswered<T>() returns (steps: seq<Step<T>>)
    ensures RunTab([], steps) == Tab(Follow([], Some(0), 0, None, [], [], [], []), Answered(Some(0)), [])
  {
    steps := [];
    steps := Took(steps, Polling(Reads(true)));
    steps := Took(steps, Polling(Arrives));
    steps := Took(steps, FillReads(true));
  }

  lemma EntryRead<T>(entry: T) returns (steps: seq<Step<T>>)
    ensures RunTab([], steps) == Tab(
      Follow([entry], Some(0), 0, Some(LogPolling.Answer([entry], 1)), [], [], [], []), Answered(Some(0)), [])
  {
    steps := BothAnswered();
    steps := Took(steps, Polling(Append(entry)));
    steps := Took(steps, Polling(Reads(true)));
  }

  lemma {:induction false} EntryShown<T>(entry: T) returns (steps: seq<Step<T>>)
    ensures RunTab([], steps) == Tab(Follow([entry], Some(0), 1, None, [1], [entry], [0], []), Answered(Some(0)), [entry])
  {
    steps := EntryRead(entry);
    EntryArrives(RunTab([], steps), entry);
    steps := Took(steps, Polling(Arrives));
  }

  lemma EntryArrives<T>(t: Tab<T>, entry: T)
    requires Sound(t) && t.entries == []
    requires t.poll == Follow([entry], Some(0), 0, Some(LogPolling.Answer([entry], 1)), [], [], [], [])
    ensures DoStep(t, Polling(Arrives)) ==
      t.(poll := Follow([entry], Some(0), 1, None, [1], [entry], [0], []), entries := [entry])
  {
    assert Interval(0, 1) == [0];
    AppendsOne(entry);
  }

  lemma AppendsOne<T>(entry: T)
    ensures AppendAll([], [entry]) == [entry]
  {
    assert [entry][..0] == [];
  }

  lemma LateFillEmpties<T>(t: Tab<T>)
    requires Sound(t) && t.fill == Answered(Some(0)) && |t.poll.history| == 1
    requires t.poll.anchor == Some(0) && t.poll.cursor == 1 && t.poll.numbers == [0]
    ensures var after := DoStep(t, FillArrives);
      after.poll == t.poll && after.entries == [] && Sound(after) && Running(after) && !Whole(after)
  {
    StepKeeps(t, FillArrives);
    var after := DoStep(t, FillArrives);
    assert Interval(0, 0) == [] && t.poll.numbers[1..] == [];
    assert Interval(0, 1) == [0];
  }

  lemma Took<T>(steps: seq<Step<T>>, step: Step<T>) returns (more: seq<Step<T>>)
    ensures more == steps + [step] && RunTab([], more) == DoStep(RunTab([], steps), step)
  {
    more := steps + [step];
    assert more[..|steps|] == steps;
  }
}
