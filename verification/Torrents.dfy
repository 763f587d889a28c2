/**
 The torrents store of the browser (src/store/torrents.ts) on values: row comparison, reconciliation,
 rate smoothing, the optimistic overlay, and what one snapshot or one delta does to the store.
 `TorrentStore.dfy` holds the mutable store, proved against these functions.
 */
module Torrents {
  import opened Options

  datatype Status = Downloading | Seeding | Completed | Paused | Stalled | Checking | Error

  /** Fields whose change makes the server send a row and the browser ignore it. */
  datatype Listed = Listed(savePath: string, isPrivate: bool, views: seq<string>, forceStart: bool, throttleRule: string)

  /** Fields whose change neither of them looks at; `size` is one more, kept apart because the ETA needs it. */
  datatype Silent = Silent(
    isOpen: bool, isActive: bool, peersMax: int, peersMin: int, uploadsMax: int, connectionType: string,
    addedBy: string, sourcePath: string, addedAt: int)

  function PerMille(k: int): real {
    k as real / 1000.0
  }

  /** The daemon reports ratios per mille, and `derive::ratio` divides them by a thousand. */
  ghost predicate IsPerMille(r: real) {
    exists k :: r == PerMille(k)
  }

  type Ratio = r: real | IsPerMille(r) witness (assert PerMille(0) == 0.0; 0.0)

  datatype Torrent = Torrent(
    hash: string, name: string, size: int, bytesDone: int, percent: real, status: Status, statusMsg: string,
    errorKind: Option<string>, seedsConnected: int, peersConnected: int, seedsSwarm: int, peersSwarm: int,
    downRate: int, upRate: int, etaSeconds: Option<int>, ratio: Ratio, labelName: string, trackerHost: string,
    priority: int, throttleName: string, downRateLimit: Option<int>, upRateLimit: Option<int>,
    startedAt: int, finishedAt: int, tags: Option<seq<string>>, listed: Listed, silent: Silent)

  datatype Globals = Globals(
    downRate: int, upRate: int, downRateLimit: int, upRateLimit: int, dhtNodes: int,
    freeSpace: Option<int>, diskSize: Option<int>, turtleActive: bool)

  const EMPTY_GLOBALS := Globals(0, 0, 0, 0, 0, None, None, false)

  datatype Phase = Connecting | Connected | Disconnected

  datatype ConnState = ConnState(
    phase: Phase, endpoint: string, daemonVersion: Option<string>, error: Option<string>, retryInSeconds: Option<int>)

  datatype Snapshot = Snapshot(revision: nat, torrents: seq<Torrent>, globals: Globals, connection: ConnState)

  datatype Delta = Delta(
    revision: nat, baseRevision: nat, added: seq<Torrent>, updated: seq<Torrent>, removed: seq<string>,
    globals: Globals, connection: ConnState)

  // --- Rows keyed by hash -----------------------------------------------------

  /** The map `new Map(rows.map((t) => [t.hash, t]))`: a later row with the same hash wins. */
  function Index(rows: seq<Torrent>): map<string, Torrent> {
    if rows == [] then map[]
    else
      var last := rows[|rows| - 1];
      Index(rows[..|rows| - 1])[last.hash := last]
  }

  /** No two rows share a hash. */
  ghost predicate Unique(rows: seq<Torrent>) {
    forall i, j :: 0 <= i < j < |rows| ==> rows[i].hash != rows[j].hash
  }

  // --- Row comparison ---------------------------------------------------------

  function JoinComma(tags: seq<string>): string {
    if tags == [] then ""
    else if |tags| == 1 then tags[0]
    else tags[0] + "," + JoinComma(tags[1..])
  }

  /** Everything `sameTorrent` compares besides status, rates and ETA, in the form it compares it. */
  datatype Facts = Facts(
    bytesDone: int, percent: real, statusMsg: string, errorKind: string, seedsConnected: int,
    peersConnected: int, seedsSwarm: int, peersSwarm: int, ratio: real, labelName: string, tags: string,
    trackerHost: string, priority: int, name: string, throttleName: string,
    downRateLimit: Option<int>, upRateLimit: Option<int>, startedAt: int, finishedAt: int)

  function FactsOf(t: Torrent): Facts {
    Facts(
      t.bytesDone, t.percent, t.statusMsg, t.errorKind.GetOr(""), t.seedsConnected, t.peersConnected,
      t.seedsSwarm, t.peersSwarm, t.ratio, t.labelName, JoinComma(t.tags.GetOr([])), t.trackerHost, t.priority,
      t.name, t.throttleName, t.downRateLimit, t.upRateLimit, t.startedAt, t.finishedAt)
  }

  predicate SameTorrent(a: Torrent, b: Torrent) {
    && a.bytesDone == b.bytesDone
    && a.percent == b.percent
    && a.status == b.status
    && a.statusMsg == b.statusMsg
    && a.errorKind.GetOr("") == b.errorKind.GetOr("")
    && a.downRate == b.downRate
    && a.upRate == b.upRate
    && a.seedsConnected == b.seedsConnected
    && a.peersConnected == b.peersConnected
    && a.seedsSwarm == b.seedsSwarm
    && a.peersSwarm == b.peersSwarm
    && a.etaSeconds == b.etaSeconds
    && a.ratio == b.ratio
    && a.labelName == b.labelName
    && JoinComma(a.tags.GetOr([])) == JoinComma(b.tags.GetOr([]))
    && a.trackerHost == b.trackerHost
    && a.priority == b.priority
    && a.name == b.name
    && a.throttleName == b.throttleName
    && a.downRateLimit == b.downRateLimit
    && a.upRateLimit == b.upRateLimit
    && a.startedAt == b.startedAt
    && a.finishedAt == b.finishedAt
  }

  /** `f64::EPSILON`. */
  const EPSILON := 1.0 / 4503599627370496.0

  predicate SameRatio(a: real, b: real) {
    -EPSILON < a - b < EPSILON
  }

  /** The server's own `same_torrent` (crates/rtorrent/src/delta.rs). */
  predicate DiffSame(a: Torrent, b: Torrent) {
    && a.bytesDone == b.bytesDone
    && a.percent == b.percent
    && a.status == b.status
    && a.statusMsg == b.statusMsg
    && a.errorKind == b.errorKind
    && a.downRate == b.downRate
    && a.upRate == b.upRate
    && a.seedsConnected == b.seedsConnected
    && a.peersConnected == b.peersConnected
    && a.seedsSwarm == b.seedsSwarm
    && a.peersSwarm == b.peersSwarm
    && a.etaSeconds == b.etaSeconds
    && SameRatio(a.ratio, b.ratio)
    && a.labelName == b.labelName
    && a.tags == b.tags
    && a.listed.forceStart == b.listed.forceStart
    && a.listed.throttleRule == b.listed.throttleRule
    && a.trackerHost == b.trackerHost
    && a.priority == b.priority
    && a.name == b.name
    && a.throttleName == b.throttleName
    && a.downRateLimit == b.downRateLimit
    && a.upRateLimit == b.upRateLimit
    && a.startedAt == b.startedAt
    && a.finishedAt == b.finishedAt
    && a.listed.views == b.listed.views
    && a.listed.savePath == b.listed.savePath
    && a.listed.isPrivate == b.listed.isPrivate
  }

  function ReconcileRow(byHash: map<string, Torrent>, t: Torrent): Torrent {
    if t.hash in byHash && SameTorrent(byHash[t.hash], t) then byHash[t.hash] else t
  }

  function Reconcile(prev: seq<Torrent>, next: seq<Torrent>): seq<Torrent> {
    var byHash := Index(prev);
    seq(|next|, i requires 0 <= i < |next| => ReconcileRow(byHash, next[i]))
  }

  // --- Rate smoothing ---------------------------------------------------------

  datatype Ema = Ema(down: int, up: int)

  type EmaState = map<string, Ema>

  /** `Math.round(n / d)`: the nearest integer, halves upwards. */
  function RoundDiv(n: int, d: int): int
    requires d > 0
  {
    (2 * n + d) / (2 * d)
  }

  /** One EMA step with alpha = 1/3; a raw rate of zero resets it. */
  function Smooth(raw: int, prev: Option<int>): int {
    if raw == 0 || prev.None? then raw else RoundDiv(raw + 2 * prev.value, 3)
  }

  function SmoothEta(t: Torrent, down: int): Option<int> {
    if t.etaSeconds.Some? && down > 0 then Some(RoundDiv(t.size - t.bytesDone, down)) else t.etaSeconds
  }

  function SmoothRow(state: EmaState, t: Torrent): Torrent {
    var down := Smooth(t.downRate, if t.hash in state then Some(state[t.hash].down) else None);
    var up := Smooth(t.upRate, if t.hash in state then Some(state[t.hash].up) else None);
    t.(downRate := down, upRate := up, etaSeconds := SmoothEta(t, down))
  }

  /** The `map` pass of `smoothRates`: rows left to right, each one updating the accumulator. */
  function SmoothPass(state: EmaState, rows: seq<Torrent>): (EmaState, seq<Torrent>) {
    if rows == [] then (state, [])
    else
      var t := rows[|rows| - 1];
      var (before, out) := SmoothPass(state, rows[..|rows| - 1]);
      var row := SmoothRow(before, t);
      (before[t.hash := Ema(row.downRate, row.upRate)], out + [row])
  }

  /** `smoothRates`: the pass, then the accumulator forgets hashes that are gone. */
  function SmoothRates(state: EmaState, rows: seq<Torrent>): (EmaState, seq<Torrent>) {
    var (after, out) := SmoothPass(state, rows);
    (map h | h in after && h in Index(rows) :: after[h], out)
  }

  // --- The optimistic overlay -------------------------------------------------

  datatype Override = Override(status: Status, at: int)

  type Overrides = map<string, Override>

  const OPTIMISTIC_TTL_MS := 5000

  /** The overrides that survive: the row is there, disagrees, and the entry is young enough. */
  function LiveOverrides(byHash: map<string, Torrent>, overrides: Overrides, now: int): Overrides {
    map h | h in overrides && h in byHash && byHash[h].status != overrides[h].status
            && now - overrides[h].at <= OPTIMISTIC_TTL_MS :: overrides[h]
  }

  function OverlayRow(overrides: Overrides, t: Torrent): Torrent {
    if t.hash in overrides then t.(status := overrides[t.hash].status) else t
  }

  function ApplyOptimistic(rows: seq<Torrent>, overrides: Overrides, now: int): (seq<Torrent>, Overrides) {
    var live := LiveOverrides(Index(rows), overrides, now);
    (seq(|rows|, i requires 0 <= i < |rows| => OverlayRow(live, rows[i])), live)
  }

  // --- The store --------------------------------------------------------------

  datatype Store = Store(
    torrents: seq<Torrent>, globals: Globals, connection: ConnState, hasLoaded: bool, revision: nat,
    optimistic: Overrides, ema: EmaState)

  const INITIAL_CONN := ConnState(Connecting, "", None, None, None)

  const INITIAL_STORE := Store([], EMPTY_GLOBALS, INITIAL_CONN, false, 0, map[], map[])

  /** The common tail of both updates: smooth, reconcile against the held rows, overlay. */
  function Display(st: Store, next: seq<Torrent>, now: int): Store {
    var (ema, smoothed) := SmoothRates(st.ema, next);
    var (rows, live) := ApplyOptimistic(Reconcile(st.torrents, smoothed), st.optimistic, now);
    st.(torrents := rows, optimistic := live, ema := ema)
  }

  function ApplySnapshot(st: Store, s: Snapshot, now: int): Store {
    Display(st, s.torrents, now).(
      globals := s.globals, connection := s.connection, hasLoaded := true, revision := s.revision)
  }

  /** The loop of `applyDelta` over the held rows: drop removed ones, replace updated ones. */
  function Kept(prev: seq<Torrent>, removed: seq<string>, updated: map<string, Torrent>): seq<Torrent> {
    if prev == [] then []
    else
      var t := prev[|prev| - 1];
      Kept(prev[..|prev| - 1], removed, updated) +
      if t.hash in removed then [] else if t.hash in updated then [updated[t.hash]] else [t]
  }

  /** Code-point order on hashes; `localeCompare` agrees with it on uppercase hexadecimal. */
  predicate HashLeq(a: string, b: string) {
    if a == "" then true
    else if b == "" then false
    else if a[0] != b[0] then a[0] < b[0]
    else HashLeq(a[1..], b[1..])
  }

  function InsertByHash(t: Torrent, rows: seq<Torrent>): seq<Torrent> {
    if rows == [] || HashLeq(t.hash, rows[0].hash) then [t] + rows
    else [rows[0]] + InsertByHash(t, rows[1..])
  }

  function SortByHash(rows: seq<Torrent>): seq<Torrent> {
    if rows == [] then [] else InsertByHash(rows[0], SortByHash(rows[1..]))
  }

  /** The row list `applyDelta` builds before it is displayed. */
  function Merge(prev: seq<Torrent>, d: Delta): seq<Torrent> {
    SortByHash(Kept(prev, d.removed, Index(d.updated)) + d.added)
  }

  /** `applyDelta`: false, and no change, unless the delta's base is the revision held. */
  function ApplyDelta(st: Store, d: Delta, now: int): (Store, bool) {
    if d.baseRevision != st.revision then (st, false)
    else
      (Display(st, Merge(st.torrents, d), now).(
         globals := d.globals, connection := d.connection, revision := d.revision), true)
  }

  function MarkOptimistic(st: Store, updates: map<string, Status>, now: int): Store {
    var marks: Overrides := map h | h in updates :: Override(updates[h], now);
    var (rows, live) := ApplyOptimistic(st.torrents, st.optimistic + marks, now);
    st.(torrents := rows, optimistic := live)
  }

  function ClearOptimistic(st: Store, hashes: seq<string>): Store {
    st.(optimistic := map h | h in st.optimistic && h !in hashes :: st.optimistic[h])
  }
}
