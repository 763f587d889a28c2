/**
 The server side of the synchronisation: how server/src/poller.rs assembles and publishes a snapshot in three
 separately locked writes, and how the handlers of server/src/api.rs answer from what they read.
 */
module Publisher {
  import opened Options
  import opened Torrents
  import opened TorrentLaws
  import opened Deltas

  const FULL_EVERY := 30
  const U64 := 0x1_0000_0000_0000_0000

  // --- Publishing -------------------------------------------------------------

  /** What the delta lock gets: cleared, replaced, or left as it was when the delta does not encode. */
  datatype DeltaWrite = Clear | Put(delta: Delta) | Keep

  /** Where the single poller stands inside a publication. */
  datatype Stage =
    | Idle
    | Assembled(snapshot: Snapshot, write: DeltaWrite)
    | DeltaWritten(snapshot: Snapshot)
    | PrevWritten(snapshot: Snapshot)

  datatype Server = Server(
    revision: nat, cache: Option<Snapshot>, deltaCache: Option<Delta>, prev: Option<Snapshot>,
    conn: ConnState, tick: nat, stage: Stage)

  function InitServer(endpoint: string): Server {
    Server(0, None, None, None, ConnState(Connecting, endpoint, None, None, None), 0, Idle)
  }

  /** What one poll of the daemon brought back, and whether the two bodies encode. */
  datatype Poll = Poll(torrents: seq<Torrent>, globals: Globals, version: Option<string>, bodyOk: bool, deltaOk: bool)

  function ConnAfterPoll(sv: Server, p: Poll): ConnState {
    if sv.conn.phase.Connected? then sv.conn else ConnState(Connected, sv.conn.endpoint, p.version, None, None)
  }

  function SnapshotOf(sv: Server, p: Poll): Snapshot {
    Snapshot(sv.revision + 1, p.torrents, p.globals, ConnAfterPoll(sv, p))
  }

  /** A full publication clears the delta: the first one, one after a reconnect, and every `FULL_EVERY` ticks. */
  predicate ShouldFull(sv: Server) {
    sv.prev.None? || !sv.conn.phase.Connected? || sv.tick % FULL_EVERY == 0
  }

  /** `poll_once` up to the first write of `store`; `d` is the delta against the previous snapshot. */
  function BeginPoll(sv: Server, p: Poll, d: Delta): Server {
    var snapshot := SnapshotOf(sv, p);
    var write := if ShouldFull(sv) then Clear else if p.deltaOk then Put(d) else Keep;
    sv.(revision := sv.revision + 1, conn := ConnAfterPoll(sv, p), tick := (sv.tick + 1) % U64,
        stage := if p.bodyOk then Assembled(snapshot, write) else Idle)
  }

  /** The delta `store` computes for a poll. */
  function PollDelta(sv: Server, p: Poll): Delta {
    Diff(sv.prev.GetOr(SnapshotOf(sv, p)), SnapshotOf(sv, p))
  }

  /** `set_disconnected` up to its first write: an empty snapshot, always full. */
  function BeginFailure(sv: Server, error: string, delay: int): Server {
    var conn := ConnState(Disconnected, sv.conn.endpoint, None, Some(error), Some(delay));
    sv.(revision := sv.revision + 1, conn := conn,
        stage := Assembled(Snapshot(sv.revision + 1, [], EMPTY_GLOBALS, conn), Clear))
  }

  function WriteDelta(sv: Server): Server
    requires sv.stage.Assembled?
  {
    var deltaCache := match sv.stage.write
      case Clear => None
      case Put(d) => Some(d)
      case Keep => sv.deltaCache;
    sv.(deltaCache := deltaCache, stage := DeltaWritten(sv.stage.snapshot))
  }

  function WritePrev(sv: Server): Server
    requires sv.stage.DeltaWritten?
  {
    sv.(prev := Some(sv.stage.snapshot), stage := PrevWritten(sv.stage.snapshot))
  }

  function WriteCache(sv: Server): Server
    requires sv.stage.PrevWritten?
  {
    sv.(cache := Some(sv.stage.snapshot), stage := Idle)
  }

  /** The three writes with nothing in between. */
  function Finish(sv: Server): Server {
    if sv.stage.Assembled? then WriteCache(WritePrev(WriteDelta(sv))) else sv
  }

  /** The revision a request can see: that of the cached snapshot, 0 while the cache is cold. */
  function Published(sv: Server): nat {
    if sv.cache.Some? then sv.cache.value.revision else 0
  }

  /** `store`: the three locks written one after the other. */
  function Stored(sv: Server, snapshot: Snapshot, wasConnected: bool, bodyOk: bool, deltaOk: bool): Server {
    if !bodyOk then sv
    else
      sv.(cache := Some(snapshot), prev := Some(snapshot),
          deltaCache :=
            if sv.prev.None? || !wasConnected || sv.tick % FULL_EVERY == 0 then None
            else if deltaOk then Some(Diff(sv.prev.value, snapshot)) else sv.deltaCache)
  }

  lemma PollDeltaIsDelta(sv: Server, p: Poll)
    requires Unique(p.torrents)
    ensures !ShouldFull(sv) ==> IsDelta(sv.prev.value, SnapshotOf(sv, p), PollDelta(sv, p))
  {
    DiffIsDelta(sv.prev.GetOr(SnapshotOf(sv, p)), SnapshotOf(sv, p));
  }

  /** A poll with its micro-steps taken at once. */
  lemma PollStores(sv: Server, p: Poll)
    requires sv.stage.Idle?
    ensures Finish(BeginPoll(sv, p, PollDelta(sv, p))) ==
      Stored(sv.(revision := sv.revision + 1, conn := ConnAfterPoll(sv, p)), SnapshotOf(sv, p),
             sv.conn.phase.Connected?, p.bodyOk, p.deltaOk).(tick := (sv.tick + 1) % U64)
  {}

  // --- Answering --------------------------------------------------------------

  /** ETags: a digest of the body, except that a cold answer always carries the same one. */
  datatype Tag = SnapshotTag(snapshot: Snapshot) | DeltaTag(delta: Delta) | ConnectingTag

  datatype Body = Full(snapshot: Snapshot) | Partial(delta: Delta)

  datatype Response =
    | Ok(tag: Tag, body: Body)
    | NotModified
    | Conflict(tag: Tag, snapshot: Snapshot)
    | BadRequest

  function JsonBytes(body: Snapshot, tag: Tag, ifNoneMatch: Option<Tag>): Response {
    if ifNoneMatch == Some(tag) then NotModified else Ok(tag, Full(body))
  }

  function ConnectingSnapshot(conn: ConnState): Snapshot {
    Snapshot(0, [], EMPTY_GLOBALS, conn)
  }

  /** `get_state`: the cached snapshot, or a connecting one while the cache is cold. */
  function GetState(cache: Option<Snapshot>, conn: ConnState, ifNoneMatch: Option<Tag>): Response {
    match cache
    case None => JsonBytes(ConnectingSnapshot(conn), ConnectingTag, ifNoneMatch)
    case Some(s) => JsonBytes(s, SnapshotTag(s), ifNoneMatch)
  }

  /** `get_delta` from the cache it read first and the delta cache it reads later. */
  function GetDelta(
    cache: Option<Snapshot>, conn: ConnState, since: Option<nat>, ifNoneMatch: Option<Tag>, deltaCache: Option<Delta>
  ): Response {
    if cache.None? then JsonBytes(ConnectingSnapshot(conn), ConnectingTag, ifNoneMatch)
    else if since.None? then BadRequest
    else if since.value == cache.value.revision then NotModified
    else if deltaCache.Some? && deltaCache.value.baseRevision == since.value
            && deltaCache.value.revision == cache.value.revision then
      if ifNoneMatch == Some(DeltaTag(deltaCache.value)) then NotModified
      else Ok(DeltaTag(deltaCache.value), Partial(deltaCache.value))
    else Conflict(SnapshotTag(cache.value), cache.value)
  }

  // --- The poller over the shared state ---------------------------------------

  class AppState {
    var revision: nat
    var cache: Option<Snapshot>
    var deltaCache: Option<Delta>
    var prevSnapshot: Option<Snapshot>
    var conn: ConnState
    var tick: nat

    /** The state between two publications. */
    ghost function View(): Server
      reads this
    {
      Server(revision, cache, deltaCache, prevSnapshot, conn, tick, Idle)
    }

    /** No two rows of the snapshot the next one is compared with share a hash. */
    ghost predicate Valid()
      reads this
    {
      prevSnapshot.Some? ==> Unique(prevSnapshot.value.torrents)
    }

    constructor (endpoint: string)
      ensures Valid() && View() == InitServer(endpoint)
    {
      revision, cache, deltaCache, prevSnapshot := 0, None, None, None;
      conn, tick := ConnState(Connecting, endpoint, None, None, None), 0;
    }

    method Store(snapshot: Snapshot, wasConnected: bool, bodyOk: bool, deltaOk: bool)
      requires Valid() && Unique(snapshot.torrents)
      modifies this`cache, this`deltaCache, this`prevSnapshot
      ensures Valid() && View() == Stored(old(View()), snapshot, wasConnected, bodyOk, deltaOk)
    {
      if !bodyOk {
        return;
      }
      var prev := prevSnapshot;
      var shouldFull := prev.None? || !wasConnected || tick % FULL_EVERY == 0;
      if shouldFull {
        deltaCache := None;
      } else {
        var delta := Compute(prev.value, snapshot);
        if deltaOk {
          deltaCache := Some(delta);
        }
      }
      prevSnapshot := Some(snapshot);
      cache := Some(snapshot);
    }

    /** The daemon has answered: say so, unless that is known. */
    method Connect(version: Option<string>)
      modifies this`conn
      ensures conn == if old(conn).phase.Connected? then old(conn)
                      else ConnState(Connected, old(conn).endpoint, version, None, None)
    {
      if !conn.phase.Connected? {
        conn := ConnState(Connected, conn.endpoint, version, None, None);
      }
    }

    /** One successful poll, its publication included, ends where the micro-steps from `BeginPoll` lead. */
    method PollOnce(p: Poll)
      requires Valid() && Unique(p.torrents)
      modifies this
      ensures Valid()
      ensures !ShouldFull(old(View())) ==> IsDelta(old(prevSnapshot).value, SnapshotOf(old(View()), p), PollDelta(old(View()), p))
      ensures View() == Finish(BeginPoll(old(View()), p, PollDelta(old(View()), p)))
    {
      ghost var before := View();
      var wasConnected := conn.phase.Connected?;
      Connect(p.version);
      revision := revision + 1;
      var snapshot := Snapshot(revision, p.torrents, p.globals, conn);
      Store(snapshot, wasConnected, p.bodyOk, p.deltaOk);
      assert View() == Stored(
        before.(revision := before.revision + 1, conn := ConnAfterPoll(before, p)), SnapshotOf(before, p),
        before.conn.phase.Connected?, p.bodyOk, p.deltaOk);
      tick := (tick + 1) % U64;
      PollStores(before, p);
      PollDeltaIsDelta(before, p);
    }

    method SetDisconnected(error: string, delay: int)
      modifies this
      ensures Valid() && View() == Finish(BeginFailure(old(View()), error, delay))
    {
      conn := ConnState(Disconnected, conn.endpoint, None, Some(error), Some(delay));
      revision := revision + 1;
      var snapshot := Snapshot(revision, [], EMPTY_GLOBALS, conn);
      deltaCache := None;
      prevSnapshot := Some(snapshot);
      cache := Some(snapshot);
    }
  }
}
