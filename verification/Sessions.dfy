/**
 The login sessions of server/src/auth.rs: an in-memory table of hashed tokens, the file it is written to, and what
 restarts leave of them. Wall clock and monotonic clock never run backwards; writes of the file succeed.
 */
module Sessions {
  import opened Options

  const TTL_MS := 30 * 24 * 3600 * 1000
  const PERSIST_EVERY_MS := 300 * 1000

  /** A token's SHA-256: different tokens, different digests. */
  datatype Digest = Sha256(token: string)

  type Table = map<Digest, int>

  /** Memory, the monotonic time of the last write, and the file, written `writes` times; then the two clocks. */
  datatype State = State(tokens: Table, lastPersist: Option<int>, disk: Table, writes: nat, nowMs: int, instantMs: int)

  function Persist(s: State): State {
    s.(lastPersist := Some(s.instantMs), disk := s.tokens, writes := s.writes + 1)
  }

  function Create(s: State, token: string): State {
    Persist(s.(tokens := s.tokens[Sha256(token) := s.nowMs + TTL_MS]))
  }

  predicate PersistDue(s: State) {
    s.lastPersist.None? || s.instantMs - s.lastPersist.value >= PERSIST_EVERY_MS
  }

  function Validate(s: State, token: string): (State, bool) {
    var key := Sha256(token);
    if key !in s.tokens then (s, false)
    else if s.tokens[key] > s.nowMs then
      var refreshed := s.(tokens := s.tokens[key := s.nowMs + TTL_MS]);
      (if PersistDue(s) then Persist(refreshed) else refreshed, true)
    else (Persist(s.(tokens := s.tokens - {key})), false)
  }

  function Revoke(s: State, token: string): State {
    if Sha256(token) in s.tokens then Persist(s.(tokens := s.tokens - {Sha256(token)})) else s
  }

  function RevokeAll(s: State): State {
    if s.tokens != map[] then Persist(s.(tokens := map[])) else s
  }

  /** `with_store` in a new process: what the file holds and has not expired. */
  function Restart(s: State): State {
    s.(tokens := map k | k in s.disk && s.disk[k] > s.nowMs :: s.disk[k], lastPersist := None)
  }

  // --- Runs -------------------------------------------------------------------

  datatype Event =
    | Created(token: string)
    | Validated(token: string)
    | Revoked(token: string)
    | RevokedAll
    | Restarted
    | TimePasses(ms: nat, instant: nat)

  /** What an observer of requests, writes and restarts knows of the tokens; a use is a mint or a successful check. */
  datatype History = History(
    minted: set<string>,
    revoked: set<string>,          // revoked after being minted
    used: map<string, int>,        // when a token was last used
    kept: map<string, int>,        // the last use this process knows of
    keptAt: map<string, int>,      // and when that was on the monotonic clock
    saved: map<string, int>)       // the last use the file knows of

  datatype World = World(state: State, seen: History)

  function Start(nowMs: int): World {
    World(State(map[], None, map[], 0, nowMs, 0), History({}, {}, map[], map[], map[], map[]))
  }

  /** Random tokens never repeat. */
  predicate Can(w: World, e: Event) {
    e.Created? ==> e.token !in w.seen.minted
  }

  function Use(h: History, token: string, s: State): History {
    h.(used := h.used[token := s.nowMs], kept := h.kept[token := s.nowMs], keptAt := h.keptAt[token := s.instantMs])
  }

  /** The state after an event and what the observer makes of it, the file aside. */
  function React(w: World, e: Event): World {
    var s, h := w.state, w.seen;
    match e
    case Created(t) => World(Create(s, t), Use(h.(minted := h.minted + {t}), t, s))
    case Validated(t) => World(Validate(s, t).0, if Validate(s, t).1 then Use(h, t, s) else h)
    case Revoked(t) => World(Revoke(s, t), h.(revoked := h.revoked + ({t} * h.minted)))
    case RevokedAll => World(RevokeAll(s), h.(revoked := h.minted))
    case Restarted => World(Restart(s), h.(kept := h.saved))
    case TimePasses(ms, instant) => World(s.(nowMs := s.nowMs + ms, instantMs := s.instantMs + instant), h)
  }

  function Do(w: World, e: Event): World
    requires Can(w, e)
  {
    var after := React(w, e);
    if after.state.writes > w.state.writes then after.(seen := after.seen.(saved := after.seen.kept)) else after
  }

  predicate IsRun(w: World, events: seq<Event>)
    decreases |events|
  {
    events == [] || (Can(w, events[0]) && IsRun(Do(w, events[0]), events[1..]))
  }

  function Run(w: World, events: seq<Event>): World
    requires IsRun(w, events)
    decreases |events|
  {
    if events == [] then w else Run(Do(w, events[0]), events[1..])
  }

  // --- The invariant ----------------------------------------------------------

  ghost predicate HistoryInv(h: History, nowMs: int) {
    && h.minted == h.used.Keys == h.kept.Keys == h.saved.Keys
    && h.revoked <= h.minted
    && forall t :: t in h.minted ==> h.saved[t] <= h.kept[t] <= h.used[t] <= nowMs
  }

  /** `table` holds, among the entries still alive, exactly the unrevoked tokens, each from its last use in `uses`. */
  ghost predicate Holds(table: Table, h: History, uses: map<string, int>, nowMs: int) {
    HoldsFor(table, h.revoked, uses, nowMs)
  }

  ghost predicate HoldsFor(table: Table, revoked: set<string>, uses: map<string, int>, nowMs: int) {
    && (forall k :: k in table ==> k.token in uses && table[k] == uses[k.token] + TTL_MS)
    && (forall k :: k in table && table[k] > nowMs ==> k.token !in revoked)
    && (forall t :: t in uses && t !in revoked && uses[t] + TTL_MS > nowMs ==> Sha256(t) in table)
  }

  /** A use the file does not know of came less than `PERSIST_EVERY_MS` after the last write. */
  ghost predicate UnsavedIsRecent(s: State, h: History) {
    && h.minted == h.keptAt.Keys == h.kept.Keys == h.saved.Keys
    && forall t :: t in h.minted && h.saved[t] != h.kept[t] ==>
         s.lastPersist.Some? && h.keptAt[t] - s.lastPersist.value < PERSIST_EVERY_MS
  }

  ghost predicate Inv(w: World) {
    TableInv(w) && UnsavedIsRecent(w.state, w.seen)
  }

  ghost predicate TableInv(w: World) {
    var s, h := w.state, w.seen;
    && HistoryInv(h, s.nowMs)
    && Holds(s.tokens, h, h.kept, s.nowMs)
    && Holds(s.disk, h, h.saved, s.nowMs)
    && (forall k :: k in s.tokens ==> k in s.disk && k.token !in h.revoked)
    && (forall k :: k in s.disk && s.disk[k] > s.nowMs ==> k in s.tokens)
  }

  /** Writing a sound memory to the file leaves both sound. */
  lemma PersistKeeps(s: State, h: History)
    requires HistoryInv(h, s.nowMs) && Holds(s.tokens, h, h.kept, s.nowMs) && h.keptAt.Keys == h.minted
    requires forall k :: k in s.tokens ==> k.token !in h.revoked
    ensures Inv(World(Persist(s), h.(saved := h.kept)))
  {}

  /** A token minted at this moment, and the file written. */
  function Minted(s: State, h: History, t: string): World {
    var noted := Use(h.(minted := h.minted + {t}), t, s).(saved := h.saved[t := s.nowMs]);
    World(Persist(s.(tokens := s.tokens[Sha256(t) := s.nowMs + TTL_MS])), noted.(saved := noted.kept))
  }

  lemma CreateEffect(w: World, t: string)
    requires Can(w, Created(t))
    ensures Do(w, Created(t)) == Minted(w.state, w.seen, t)
  {}

  lemma CreateKeeps(w: World, t: string)
    requires Inv(w) && Can(w, Created(t))
    ensures Inv(Do(w, Created(t)))
  {
    MintedInv(w.state, w.seen, t);
    CreateEffect(w, t);
  }

  lemma MintedInv(s: State, h: History, t: string)
    requires HistoryInv(h, s.nowMs) && Holds(s.tokens, h, h.kept, s.nowMs) && t !in h.minted
    requires (forall k :: k in s.tokens ==> k.token !in h.revoked) && h.keptAt.Keys == h.minted
    ensures Inv(Minted(s, h, t))
  {
    MintedPersists(
      s, h, t, s.(tokens := s.tokens[Sha256(t) := s.nowMs + TTL_MS]),
      Use(h.(minted := h.minted + {t}), t, s).(saved := h.saved[t := s.nowMs]));
  }

  lemma MintedPersists(s: State, h: History, t: string, mid: State, noted: History)
    requires HistoryInv(h, s.nowMs) && Holds(s.tokens, h, h.kept, s.nowMs) && t !in h.minted
    requires (forall k :: k in s.tokens ==> k.token !in h.revoked) && h.keptAt.Keys == h.minted
    requires mid == s.(tokens := s.tokens[Sha256(t) := s.nowMs + TTL_MS])
    requires noted == Use(h.(minted := h.minted + {t}), t, s).(saved := h.saved[t := s.nowMs])
    ensures Inv(World(Persist(mid), noted.(saved := noted.kept)))
  {
    assert noted.keptAt.Keys == noted.minted;
    MintKeeps(s, h, t);
    PersistKeeps(mid, noted);
  }

  lemma MintKeeps(s: State, h: History, t: string)
    requires HistoryInv(h, s.nowMs) && Holds(s.tokens, h, h.kept, s.nowMs) && t !in h.minted
    requires forall k :: k in s.tokens ==> k.token !in h.revoked
    ensures var noted := Use(h.(minted := h.minted + {t}), t, s).(saved := h.saved[t := s.nowMs]);
      HistoryInv(noted, s.nowMs) && Holds(s.tokens[Sha256(t) := s.nowMs + TTL_MS], noted, noted.kept, s.nowMs)
      && forall k :: k in s.tokens[Sha256(t) := s.nowMs + TTL_MS] ==> k.token !in noted.revoked
  {
    var noted := Use(h.(minted := h.minted + {t}), t, s).(saved := h.saved[t := s.nowMs]);
    HistoryGrows(h, t, s.nowMs, s.instantMs);
    TableGrows(s.tokens, h.revoked, h.kept, t, s.nowMs);
    assert noted.kept == h.kept[t := s.nowMs] && noted.revoked == h.revoked;
  }

  lemma HistoryGrows(h: History, t: string, nowMs: int, instantMs: int)
    requires HistoryInv(h, nowMs)
    ensures HistoryInv(
      h.(minted := h.minted + {t}, used := h.used[t := nowMs], kept := h.kept[t := nowMs],
         keptAt := h.keptAt[t := instantMs], saved := h.saved[t := nowMs]), nowMs)
  {}

  lemma TableGrows(table: Table, revoked: set<string>, uses: map<string, int>, t: string, nowMs: int)
    requires HoldsFor(table, revoked, uses, nowMs) && t !in revoked
    ensures HoldsFor(table[Sha256(t) := nowMs + TTL_MS], revoked, uses[t := nowMs], nowMs)
  {}

  /** A refreshed expiry: memory moves, the file keeps an earlier one. */
  lemma RefreshKeeps(w: World, t: string)
    requires Inv(w) && Sha256(t) in w.state.tokens && w.state.tokens[Sha256(t)] > w.state.nowMs
    ensures var s, h := w.state, w.seen;
      var after := World(s.(tokens := s.tokens[Sha256(t) := s.nowMs + TTL_MS]), Use(h, t, s));
      TableInv(after) && after.seen.keptAt.Keys == h.minted && (!PersistDue(s) ==> Inv(after))
  {
    var s, h := w.state, w.seen;
    assert t in h.kept && t in h.minted;
    TableGrows(s.tokens, h.revoked, h.kept, t, s.nowMs);
    UseKeepsHistory(h, t, s);
  }

  lemma UseKeepsHistory(h: History, t: string, s: State)
    requires HistoryInv(h, s.nowMs) && UnsavedIsRecent(s, h) && t in h.minted
    ensures HistoryInv(Use(h, t, s), s.nowMs)
    ensures !PersistDue(s) ==> UnsavedIsRecent(s, Use(h, t, s))
  {}

  /** Dropping entries that are revoked, or no longer alive, and writing what is left. */
  lemma DropKeeps(s: State, h: History, revoked: set<string>, tokens: Table)
    requires Inv(World(s, h)) && h.revoked <= revoked <= h.minted
    requires forall k :: k in tokens ==> k in s.tokens && tokens[k] == s.tokens[k] && k.token !in revoked
    requires forall k :: k in s.tokens && k !in tokens ==> k.token in revoked || s.tokens[k] <= s.nowMs
    ensures Inv(World(Persist(s.(tokens := tokens)), h.(revoked := revoked, saved := h.kept)))
  {}

  /** A refresh is written at once or later; an expired token is dropped and the file rewritten. */
  lemma ValidateEffect(w: World, t: string)
    ensures var s, h, key := w.state, w.seen, Sha256(t);
      var refreshed, noted := s.(tokens := s.tokens[key := s.nowMs + TTL_MS]), Use(h, t, s);
      var after := Do(w, Validated(t));
      if key !in s.tokens then after == w
      else if s.tokens[key] > s.nowMs then
        after == if PersistDue(s) then World(Persist(refreshed), noted.(saved := noted.kept)) else World(refreshed, noted)
      else after == World(Persist(s.(tokens := s.tokens - {key})), h.(saved := h.kept))
  {}

  lemma {:induction false} ValidateKeeps(w: World, t: string)
    requires Inv(w)
    ensures Inv(Do(w, Validated(t)))
  {
    var s, h, key := w.state, w.seen, Sha256(t);
    ValidateEffect(w, t);
    if key in s.tokens {
      if s.tokens[key] > s.nowMs {
        RefreshKeeps(w, t);
        PersistKeeps(s.(tokens := s.tokens[key := s.nowMs + TTL_MS]), Use(h, t, s));
      } else {
        DropKeeps(s, h, h.revoked, s.tokens - {key});
        assert h.(revoked := h.revoked) == h;
      }
    }
  }

  /** Revoking tokens the memory does not hold touches nothing alive. */
  lemma RevokeAbsent(w: World, revoked: set<string>)
    requires Inv(w) && w.seen.revoked <= revoked <= w.seen.minted
    requires forall k :: k in w.state.tokens ==> k.token !in revoked
    ensures Inv(w.(seen := w.seen.(revoked := revoked)))
  {}

  lemma {:induction false} RevokeKeeps(w: World, e: Event)
    requires Inv(w) && (e.Revoked? || e.RevokedAll?)
    ensures Inv(Do(w, e))
  {
    var s, h := w.state, w.seen;
    if e.Revoked? {
      var revoked := h.revoked + ({e.token} * h.minted);
      if Sha256(e.token) in s.tokens {
        DropKeeps(s, h, revoked, s.tokens - {Sha256(e.token)});
      } else {
        RevokeAbsent(w, revoked);
      }
    } else if s.tokens != map[] {
      DropKeeps(s, h, h.minted, map[]);
    } else {
      RevokeAbsent(w, h.minted);
    }
  }

  lemma RestartKeeps(w: World, e: Event)
    requires Inv(w) && (e.Restarted? || e.TimePasses?)
    ensures Inv(Do(w, e))
  {}

  lemma {:induction false} StepKeeps(w: World, e: Event)
    requires Inv(w) && Can(w, e)
    ensures Inv(Do(w, e))
  {
    match e
    case Created(t) => CreateKeeps(w, t);
    case Validated(t) => ValidateKeeps(w, t);
    case Revoked(t) => RevokeKeeps(w, e);
    case RevokedAll => RevokeKeeps(w, e);
    case Restarted => RestartKeeps(w, e);
    case TimePasses(_, _) => RestartKeeps(w, e);
  }

  lemma {:induction false} RunKeeps(w: World, events: seq<Event>)
    requires Inv(w) && IsRun(w, events)
    ensures Inv(Run(w, events))
    decreases |events|
  {
    if events == [] {
    } else {
      StepKeeps(w, events[0]);
      RunKeeps(Do(w, events[0]), events[1..]);
    }
  }

  lemma RunInv(nowMs: int, events: seq<Event>)
    requires IsRun(Start(nowMs), events)
    ensures Inv(Run(Start(nowMs), events))
  {
    RunKeeps(Start(nowMs), events);
  }

  /**
   Over any run with restarts: a token is accepted exactly if it was minted, was not revoked since, and the last use
   this process knows of lies within the TTL - so in particular only if it was really used within the TTL.
   */
  lemma AcceptedExactlyIfLive(nowMs: int, events: seq<Event>, token: string)
    requires IsRun(Start(nowMs), events)
    ensures var w := Run(Start(nowMs), events);
      var h := w.seen;
      && (Validate(w.state, token).1 <==>
            token in h.minted && token !in h.revoked && token in h.kept && w.state.nowMs < h.kept[token] + TTL_MS)
      && (Validate(w.state, token).1 ==> token in h.used && w.state.nowMs < h.used[token] + TTL_MS)
  {
    RunInv(nowMs, events);
  }

  /** Every session in memory is in the file with an expiry no later than memory's, and what the file holds is alive in both or dead in both. */
  lemma FileTrailsMemory(nowMs: int, events: seq<Event>)
    requires IsRun(Start(nowMs), events)
    ensures var s := Run(Start(nowMs), events).state;
      && (forall k :: k in s.tokens ==> k in s.disk && s.disk[k] <= s.tokens[k])
      && (forall k :: k in s.disk && s.disk[k] > s.nowMs ==> k in s.tokens && s.tokens[k] > s.nowMs)
  {
    RunInv(nowMs, events);
  }

  /** A restart revives nothing, and keeps every session whose last saved use is within the TTL. */
  lemma RestartRevivesNothing(nowMs: int, events: seq<Event>, token: string)
    requires IsRun(Start(nowMs), events)
    ensures var w := Run(Start(nowMs), events);
      var h := w.seen;
      && (Validate(Restart(w.state), token).1 ==> Validate(w.state, token).1)
      && (Validate(Restart(w.state), token).1 <==>
            token in h.minted && token !in h.revoked && token in h.saved && w.state.nowMs < h.saved[token] + TTL_MS)
  {
    RunInv(nowMs, events);
    var w := Run(Start(nowMs), events);
    RestartKeeps(w, Restarted);
  }

  lemma RevokedGrows(w: World, e: Event)
    requires Inv(w) && Can(w, e)
    ensures w.seen.revoked <= Do(w, e).seen.revoked
  {}

  /** Signing out everywhere is final: no token minted before is ever accepted again, whatever follows. */
  lemma {:induction false} RevokedStaysRevoked(w: World, events: seq<Event>, token: string)
    requires Inv(w) && IsRun(w, events) && token in w.seen.revoked
    ensures !Validate(Run(w, events).state, token).1
    decreases |events|
  {
    if events == [] {
    } else {
      StepKeeps(w, events[0]);
      RevokedGrows(w, events[0]);
      RevokedStaysRevoked(Do(w, events[0]), events[1..], token);
    }
  }

  // --- What a restart may forget ----------------------------------------------

  /**
   A restart signs out a live session exactly if the use the file knows of is beyond the TTL; the later one it lost came
   less than `PERSIST_EVERY_MS` after the last write.
   */
  lemma ForgottenAtRestart(nowMs: int, events: seq<Event>, token: string)
    requires IsRun(Start(nowMs), events)
    requires Validate(Run(Start(nowMs), events).state, token).1
    ensures var w := Run(Start(nowMs), events);
      var s, h := w.state, w.seen;
      && token in h.saved && token in h.kept && token in h.keptAt
      && (!Validate(Restart(s), token).1 <==> h.saved[token] + TTL_MS <= s.nowMs)
      && (!Validate(Restart(s), token).1 ==>
            s.lastPersist.Some? && h.keptAt[token] - s.lastPersist.value < PERSIST_EVERY_MS)
  {
    RunInv(nowMs, events);
    AcceptedExactlyIfLive(nowMs, events, token);
    RestartRevivesNothing(nowMs, events, token);
  }

  /** Over any run every use missing in the file came less than `PERSIST_EVERY_MS` after the last write. */
  lemma UnsavedUsesAreRecent(nowMs: int, events: seq<Event>, token: string)
    requires IsRun(Start(nowMs), events)
    ensures var w := Run(Start(nowMs), events);
      token in w.seen.minted ==>
        && token in w.seen.saved && token in w.seen.kept && token in w.seen.keptAt
        && (w.seen.saved[token] != w.seen.kept[token] ==>
              w.state.lastPersist.Some? && w.seen.keptAt[token] - w.state.lastPersist.value < PERSIST_EVERY_MS)
  {
    RunInv(nowMs, events);
  }

  /** It happens: a session used one second after it was minted, and a restart when only that use keeps it alive. */
  lemma ARefreshIsForgotten(nowMs: int, token: string) returns (events: seq<Event>)
    ensures IsRun(Start(nowMs), events)
    ensures var s := Run(Start(nowMs), events).state; Validate(s, token).1 && !Validate(Restart(s), token).1
  {
    var second, month := TimePasses(1000, 1000), TimePasses(TTL_MS - 1000, TTL_MS - 1000);
    var w1 := Do(Start(nowMs), Created(token));
    var w2 := Do(w1, second);
    var w3 := Do(w2, Validated(token));
    var w4 := Do(w3, month);
    assert w3.state.disk == map[Sha256(token) := nowMs + TTL_MS];
    assert w4.state.tokens == map[Sha256(token) := nowMs + 1000 + TTL_MS];
    assert IsRun(w4, []);
    Prepend(w3, month, []);
    Prepend(w2, Validated(token), [month] + []);
    Prepend(w1, second, [Validated(token)] + ([month] + []));
    Prepend(Start(nowMs), Created(token), [second] + ([Validated(token)] + ([month] + [])));
    events := [Created(token)] + ([second] + ([Validated(token)] + ([month] + [])));
  }

  lemma Prepend(w: World, e: Event, rest: seq<Event>)
    requires Can(w, e) && IsRun(Do(w, e), rest)
    ensures IsRun(w, [e] + rest) && Run(w, [e] + rest) == Run(Do(w, e), rest)
  {
    assert ([e] + rest)[1..] == rest;
  }
}
