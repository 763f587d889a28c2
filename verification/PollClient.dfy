/**
 The browser side of the synchronisation: the stretches of `pollTick` (src/ipc/web.ts) between its awaits, and the
 handlers of src/web/WebApp.tsx that feed the store and refetch when a delta is refused.
 */
module PollClient {
  import opened Options
  import opened Torrents
  import opened Publisher
  import opened TorrentStore

  /** Which `fetch` a request came from; it decides what happens to the answer. */
  datatype Kind = StateTick | DeltaTick | Fallback | Refetch

  datatype Query = State | DeltaSince(since: Option<nat>)

  datatype Request = Request(kind: Kind, query: Query, ifNoneMatch: Option<Tag>)

  datatype Client = Client(
    pollRevision: Option<nat>, pollEtag: Option<Tag>, pollDeltaEtag: Option<Tag>, store: Store)

  const INITIAL_CLIENT := Client(None, None, None, INITIAL_STORE)

  const REFETCH := Request(Refetch, State, None)

  /** The first stretch of `pollTick`: what it asks for. */
  function TickRequest(c: Client): Request {
    if c.pollRevision.None? then Request(StateTick, State, c.pollEtag)
    else Request(DeltaTick, DeltaSince(c.pollRevision), c.pollDeltaEtag)
  }

  /** Whether the client goes on to read a body. */
  predicate ReadsBody(kind: Kind, resp: Response) {
    resp.Ok? || (kind == DeltaTick && resp.Conflict?)
  }

  /** The stretch after the status and headers arrived: the ETags kept, and a fallback request if one follows. */
  function OnHeaders(c: Client, kind: Kind, resp: Response): (Client, Option<Request>) {
    match kind
    case StateTick => (if resp.Ok? then c.(pollEtag := Some(resp.tag)) else c, None)
    case Fallback => (if resp.Ok? then c.(pollEtag := Some(resp.tag)) else c, None)
    case Refetch => (c, None)
    case DeltaTick =>
      match resp
      case Ok(tag, _) => (c.(pollDeltaEtag := Some(tag)), None)
      case NotModified => (c, None)
      case Conflict(_, _) => (c.(pollDeltaEtag := None), None)
      case BadRequest => (c, Some(Request(Fallback, State, c.pollEtag)))
  }

  /** The stretch after the body arrived: the revision polled from, the store, and a refetch if a delta is refused. */
  function OnBody(c: Client, kind: Kind, resp: Response, now: int): (Client, Option<Request>)
    requires ReadsBody(kind, resp)
  {
    match resp
    case Conflict(tag, s) =>
      (c.(pollEtag := Some(tag), pollRevision := Some(s.revision), store := ApplySnapshot(c.store, s, now)), None)
    case Ok(_, Full(s)) =>
      (match kind
       case Refetch => (c.(store := ApplySnapshot(c.store, s, now)), None)
       case StateTick => (c.(pollRevision := Some(s.revision), store := ApplySnapshot(c.store, s, now)), None)
       case Fallback =>
         (c.(pollRevision := Some(s.revision), pollDeltaEtag := None, store := ApplySnapshot(c.store, s, now)), None)
       case DeltaTick =>
         // A cold server answers the delta route with a snapshot: it has no base revision, so the store refuses it.
         (c.(pollRevision := Some(s.revision)), Some(REFETCH)))
    case Ok(_, Partial(d)) =>
      // Only the delta route answers with a delta.
      if kind != DeltaTick then (c, None)
      else
        var (store, ok) := ApplyDelta(c.store, d, now);
        (c.(pollRevision := Some(d.revision), store := store), if ok then None else Some(REFETCH))
  }

  /** The module variables of `pollTick` with the live store behind them. */
  class PollLoop {
    var pollRevision: Option<nat>
    var pollEtag: Option<Tag>
    var pollDeltaEtag: Option<Tag>
    const store: LiveStore

    ghost function View(): Client
      reads this, store
    {
      Client(pollRevision, pollEtag, pollDeltaEtag, store.View())
    }

    constructor (store: LiveStore)
      requires store.View() == INITIAL_STORE
      ensures this.store == store && View() == INITIAL_CLIENT
    {
      pollRevision, pollEtag, pollDeltaEtag := None, None, None;
      this.store := store;
    }

    method StartTick() returns (req: Request)
      ensures req == TickRequest(View())
    {
      if pollRevision.None? {
        return Request(StateTick, State, pollEtag);
      }
      return Request(DeltaTick, DeltaSince(pollRevision), pollDeltaEtag);
    }

    method HeadersArrived(kind: Kind, resp: Response) returns (followUp: Option<Request>)
      modifies this
      ensures (View(), followUp) == OnHeaders(old(View()), kind, resp)
    {
      followUp := None;
      if kind == StateTick || kind == Fallback {
        if resp.Ok? {
          pollEtag := Some(resp.tag);
        }
      } else if kind == DeltaTick {
        if resp.Ok? {
          pollDeltaEtag := Some(resp.tag);
        } else if resp.Conflict? {
          pollDeltaEtag := None;
        } else if resp.BadRequest? {
          followUp := Some(Request(Fallback, State, pollEtag));
        }
      }
    }

    method BodyArrived(kind: Kind, resp: Response, now: int) returns (followUp: Option<Request>)
      requires ReadsBody(kind, resp)
      modifies this, store
      ensures (View(), followUp) == OnBody(old(View()), kind, resp, now)
    {
      followUp := None;
      if resp.Conflict? {
        pollEtag := Some(resp.tag);
        pollRevision := Some(resp.snapshot.revision);
        store.ApplySnapshot(resp.snapshot, now);
      } else if resp.body.Full? {
        var snap := resp.body.snapshot;
        if kind != Refetch {
          pollRevision := Some(snap.revision);
        }
        if kind == Fallback {
          pollDeltaEtag := None;
        }
        if kind == DeltaTick {
          followUp := Some(REFETCH);
        } else {
          store.ApplySnapshot(snap, now);
        }
      } else if kind == DeltaTick {
        pollRevision := Some(resp.body.delta.revision);
        var ok := store.ApplyDelta(resp.body.delta, now);
        if !ok {
          followUp := Some(REFETCH);
        }
      }
    }
  }
}
