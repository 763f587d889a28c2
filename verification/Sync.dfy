/**
 Server, network and browser as one step system. Publications, the two reads of a handler, and the stretches of the
 browser's ticks interleave freely; what is on the network stays there, so any message may be late, repeated,
 overtaken or never delivered.
 */
module Sync {
  import opened Options
  import opened Torrents
  import opened TorrentLaws
  import opened Publisher
  import opened PollClient

  /** Snapshots by the revision they were published under. */
  type Versions = map<nat, Snapshot>

  datatype Net = Net(
    asked: set<Request>,                    // sent by the browser
    reading: set<(Request, Snapshot)>,      // delta handlers between their two reads
    replied: set<(Request, Response)>,      // answers on their way
    headed: set<(Request, Response)>)       // answers whose headers the browser has, body to come

  datatype World = World(server: Server, net: Net, client: Client, versions: Versions)

  function Init(endpoint: string): World {
    World(InitServer(endpoint), Net({}, {}, {}, {}), INITIAL_CLIENT, map[])
  }

  datatype Step =
    | PollBegins(poll: Poll, delta: Delta)
    | PollFails(error: string, delay: int)
    | WritesDelta
    | WritesPrev
    | WritesCache
    | TickStarts
    | HandlerReadsCache(req: Request)
    | HandlerReadsDelta(req: Request, snapshot: Snapshot)
    | HeadersArrive(req: Request, resp: Response)
    | BodyArrives(req: Request, resp: Response, now: int)
    | Mark(updates: map<string, Status>, now: int)
    | Unmark(hashes: seq<string>)

  predicate IsServerStep(step: Step) {
    step.PollBegins? || step.PollFails? || step.WritesDelta? || step.WritesPrev? || step.WritesCache?
  }

  // --- Server steps -----------------------------------------------------------

  ghost predicate ServerCan(sv: Server, step: Step)
    requires IsServerStep(step)
  {
    match step
    case PollBegins(p, d) =>
      && sv.stage.Idle?
      && Unique(p.torrents)
      && (!ShouldFull(sv) ==> IsDelta(sv.prev.value, SnapshotOf(sv, p), d))
    case PollFails(_, _) => sv.stage.Idle?
    case WritesDelta => sv.stage.Assembled?
    case WritesPrev => sv.stage.DeltaWritten?
    case WritesCache => sv.stage.PrevWritten?
  }

  ghost function ServerStep(sv: Server, step: Step): Server
    requires IsServerStep(step) && ServerCan(sv, step)
  {
    match step
    case PollBegins(p, d) => BeginPoll(sv, p, d)
    case PollFails(error, delay) => BeginFailure(sv, error, delay)
    case WritesDelta => WriteDelta(sv)
    case WritesPrev => WritePrev(sv)
    case WritesCache => WriteCache(sv)
  }

  /** A publication enters the record when it is assembled. */
  ghost function Recorded(versions: Versions, before: Server, after: Server): Versions {
    if before.stage.Idle? && after.stage.Assembled? then versions[after.stage.snapshot.revision := after.stage.snapshot]
    else versions
  }

  // --- All steps --------------------------------------------------------------

  ghost predicate Can(w: World, step: Step) {
    match step
    case TickStarts => true
    case HandlerReadsCache(req) => req in w.net.asked
    case HandlerReadsDelta(req, s) => (req, s) in w.net.reading
    case HeadersArrive(req, resp) => (req, resp) in w.net.replied
    case BodyArrives(req, resp, _) => (req, resp) in w.net.headed
    case Mark(_, _) => true
    case Unmark(_) => true
    case _ => ServerCan(w.server, step)
  }

  /** The handler's first read: it answers at once, unless it has a warm delta request to finish. */
  function FirstRead(sv: Server, req: Request): Option<Response> {
    match req.query
    case State => Some(GetState(sv.cache, sv.conn, req.ifNoneMatch))
    case DeltaSince(since) =>
      if sv.cache.None? || since.None? then Some(GetDelta(sv.cache, sv.conn, since, req.ifNoneMatch, None))
      else None
  }

  /** The handler's second read, of whatever the delta cache holds by now. */
  function SecondRead(sv: Server, req: Request, s: Snapshot): Response {
    match req.query
    case State => BadRequest
    case DeltaSince(since) => GetDelta(Some(s), sv.conn, since, req.ifNoneMatch, sv.deltaCache)
  }

  function Ask(net: Net, followUp: Option<Request>): Net {
    if followUp.Some? then net.(asked := net.asked + {followUp.value}) else net
  }

  ghost function Do(w: World, step: Step): World
    requires Can(w, step)
  {
    match step
    case TickStarts => w.(net := Ask(w.net, Some(TickRequest(w.client))))
    case HandlerReadsCache(req) =>
      var answer := FirstRead(w.server, req);
      if answer.Some? then w.(net := w.net.(replied := w.net.replied + {(req, answer.value)}))
      else w.(net := w.net.(reading := w.net.reading + {(req, w.server.cache.value)}))
    case HandlerReadsDelta(req, s) =>
      w.(net := w.net.(replied := w.net.replied + {(req, SecondRead(w.server, req, s))}))
    case HeadersArrive(req, resp) =>
      var (client, followUp) := OnHeaders(w.client, req.kind, resp);
      var net := Ask(w.net, followUp);
      w.(client := client,
         net := if ReadsBody(req.kind, resp) then net.(headed := net.headed + {(req, resp)}) else net)
    case BodyArrives(req, resp, now) =>
      if !ReadsBody(req.kind, resp) then w
      else
        var (client, followUp) := OnBody(w.client, req.kind, resp, now);
        w.(client := client, net := Ask(w.net, followUp))
    case Mark(updates, now) => w.(client := w.client.(store := MarkOptimistic(w.client.store, updates, now)))
    case Unmark(hashes) => w.(client := w.client.(store := ClearOptimistic(w.client.store, hashes)))
    case _ =>
      var server := ServerStep(w.server, step);
      w.(server := server, versions := Recorded(w.versions, w.server, server))
  }

  /** Every step of the run is possible where it is taken. */
  ghost predicate IsRun(w: World, steps: seq<Step>)
    decreases |steps|
  {
    steps == [] || (Can(w, steps[0]) && IsRun(Do(w, steps[0]), steps[1..]))
  }

  ghost function Run(w: World, steps: seq<Step>): World
    requires IsRun(w, steps)
    decreases |steps|
  {
    if steps == [] then w else Run(Do(w, steps[0]), steps[1..])
  }

  // --- The invariant ----------------------------------------------------------

  /** A snapshot the server may hand out: the record's one for its revision, or the empty one of a cold server. */
  ghost predicate IsVersion(versions: Versions, s: Snapshot) {
    if s.revision == 0 then s.torrents == [] && s.globals == EMPTY_GLOBALS
    else s.revision in versions && versions[s.revision] == s
  }

  /** A delta between two consecutive publications. */
  ghost predicate ValidDelta(versions: Versions, d: Delta) {
    && d.baseRevision in versions
    && d.revision in versions
    && d.baseRevision < d.revision
    && IsDelta(versions[d.baseRevision], versions[d.revision], d)
    && (forall k :: k in versions ==> k <= d.baseRevision || d.revision <= k)
  }

  ghost predicate VersionsInv(versions: Versions, revision: nat) {
    forall k :: k in versions ==>
      0 < k <= revision && versions[k].revision == k && Unique(versions[k].torrents)
  }

  /** `s` is recorded and nothing later is. */
  ghost predicate Latest(versions: Versions, s: Snapshot) {
    s.revision in versions && versions[s.revision] == s && forall k :: k in versions ==> k <= s.revision
  }

  ghost predicate ServerInv(sv: Server, versions: Versions) {
    && VersionsInv(versions, sv.revision)
    && (sv.cache.Some? ==> sv.cache.value.revision in versions && versions[sv.cache.value.revision] == sv.cache.value)
    && (sv.deltaCache.Some? ==> ValidDelta(versions, sv.deltaCache.value))
    && match sv.stage
       case Idle =>
         && sv.cache == sv.prev
         && (if sv.prev.Some? then Latest(versions, sv.prev.value) else versions == map[])
       case Assembled(s, write) =>
         && sv.cache == sv.prev
         && Latest(versions, s)
         && Published(sv) < s.revision
         && (write.Put? ==> ValidDelta(versions, write.delta))
       case DeltaWritten(s) => sv.cache == sv.prev && Latest(versions, s) && Published(sv) < s.revision
       case PrevWritten(s) => sv.prev == Some(s) && Latest(versions, s) && Published(sv) < s.revision
  }

  /** What a request may carry: the tag of an answer whose headers the browser already has. */
  ghost predicate RequestInv(net: Net, req: Request) {
    && (req.kind == DeltaTick ==> req.query.DeltaSince? && req.query.since.Some?)
    && (req.kind != DeltaTick ==> req.query.State?)
    && (req.ifNoneMatch.Some? ==> TagHeld(net, req.ifNoneMatch.value))
  }

  ghost predicate TagHeld(net: Net, tag: Tag) {
    exists held :: held in net.headed && (held.1.Ok? || held.1.Conflict?) && held.1.tag == tag
  }

  ghost predicate ResponseInv(versions: Versions, published: nat, req: Request, resp: Response) {
    match resp
    case Ok(tag, Full(s)) =>
      && IsVersion(versions, s) && s.revision <= published
      && (tag == SnapshotTag(s) || tag == ConnectingTag)
      && (req.kind == DeltaTick ==> s.revision == 0)
    case Ok(tag, Partial(d)) =>
      && req.query == DeltaSince(Some(d.baseRevision))
      && ValidDelta(versions, d) && d.revision <= published
      && tag == DeltaTag(d)
    case Conflict(tag, s) => s.revision > 0 && IsVersion(versions, s) && s.revision <= published && tag == SnapshotTag(s)
    case NotModified => true
    case BadRequest => req.query == DeltaSince(None)
  }

  ghost predicate NetInv(net: Net, versions: Versions, published: nat) {
    && (forall req :: req in net.asked ==> RequestInv(net, req))
    && (forall pair :: pair in net.reading ==>
          && RequestInv(net, pair.0) && pair.0.kind == DeltaTick
          && pair.1.revision > 0 && IsVersion(versions, pair.1) && pair.1.revision <= published)
    && (forall pair :: pair in net.replied ==> RequestInv(net, pair.0) && ResponseInv(versions, published, pair.0, pair.1))
    && (forall pair :: pair in net.headed ==> ResponseInv(versions, published, pair.0, pair.1))
  }

  /** The store shows the snapshot its revision names. */
  ghost predicate StoreInv(versions: Versions, st: Store) {
    && Steady(st)
    && if st.revision == 0 then Agrees(st.torrents, []) && st.globals == EMPTY_GLOBALS
       else
         && st.revision in versions
         && Agrees(st.torrents, versions[st.revision].torrents)
         && st.globals == versions[st.revision].globals
         && st.connection == versions[st.revision].connection
         && st.hasLoaded
  }

  /** No tag names a revision that is not yet published. */
  predicate TagUpTo(tag: Option<Tag>, published: nat) {
    match tag
    case Some(SnapshotTag(s)) => s.revision <= published
    case Some(DeltaTag(d)) => d.revision <= published
    case _ => true
  }

  ghost predicate ClientInv(c: Client, net: Net, versions: Versions, published: nat) {
    && StoreInv(versions, c.store)
    && c.store.revision <= published
    && (c.pollRevision.Some? ==> c.pollRevision.value <= published)
    && TagUpTo(c.pollEtag, published)
    && TagUpTo(c.pollDeltaEtag, published)
    && (c.pollEtag.Some? ==> TagHeld(net, c.pollEtag.value))
    && (c.pollDeltaEtag.Some? ==> TagHeld(net, c.pollDeltaEtag.value))
  }

  ghost predicate Inv(w: World) {
    && ServerInv(w.server, w.versions)
    && NetInv(w.net, w.versions, Published(w.server))
    && ClientInv(w.client, w.net, w.versions, Published(w.server))
  }

  // --- Server steps keep it ---------------------------------------------------

  lemma {:induction false} ServerStepInv(sv: Server, versions: Versions, step: Step)
    requires ServerInv(sv, versions) && IsServerStep(step) && ServerCan(sv, step)
    ensures var after := ServerStep(sv, step);
      && ServerInv(after, Recorded(versions, sv, after))
      && Published(sv) <= Published(after)
  {
    var after := ServerStep(sv, step);
    var recorded := Recorded(versions, sv, after);
    match step
    case PollBegins(p, d) =>
      if p.bodyOk {
        assert forall k :: k in versions ==> k in recorded && recorded[k] == versions[k];
      }
    case PollFails(_, _) =>
      assert forall k :: k in versions ==> k in recorded && recorded[k] == versions[k];
    case WritesDelta =>
    case WritesPrev =>
    case WritesCache =>
  }

  /** Whatever the record gains is newer than everything it held. */
  ghost predicate Extends(before: Versions, after: Versions) {
    && (forall k :: k in before ==> k in after && after[k] == before[k])
    && (forall k, old' :: k in after && k !in before && old' in before ==> old' < k)
  }

  lemma {:induction false} RecordedExtends(sv: Server, versions: Versions, step: Step)
    requires ServerInv(sv, versions) && IsServerStep(step) && ServerCan(sv, step)
    ensures Extends(versions, Recorded(versions, sv, ServerStep(sv, step)))
  {}

  lemma {:induction false} ResponseStays(before: Versions, after: Versions, p: nat, q: nat, req: Request, resp: Response)
    requires Extends(before, after) && p <= q && ResponseInv(before, p, req, resp)
    ensures ResponseInv(after, q, req, resp)
  {}

  lemma {:induction false} ServerStepKeepsRest(w: World, step: Step)
    requires Inv(w) && IsServerStep(step) && Can(w, step)
    ensures Inv(Do(w, step))
  {
    ServerStepInv(w.server, w.versions, step);
    RecordedExtends(w.server, w.versions, step);
    var after := Do(w, step);
    var p, q := Published(w.server), Published(after.server);
    forall pair | pair in w.net.replied ensures ResponseInv(after.versions, q, pair.0, pair.1) {
      ResponseStays(w.versions, after.versions, p, q, pair.0, pair.1);
    }
    forall pair | pair in w.net.headed ensures ResponseInv(after.versions, q, pair.0, pair.1) {
      ResponseStays(w.versions, after.versions, p, q, pair.0, pair.1);
    }
  }

  // --- Handler steps keep it --------------------------------------------------

  lemma {:induction false} FirstReadInv(sv: Server, versions: Versions, net: Net, req: Request)
    requires ServerInv(sv, versions) && RequestInv(net, req)
    ensures FirstRead(sv, req).Some? ==> ResponseInv(versions, Published(sv), req, FirstRead(sv, req).value)
    ensures FirstRead(sv, req).None? ==> sv.cache.Some? && req.kind == DeltaTick
  {}

  lemma {:induction false} SecondReadInv(sv: Server, versions: Versions, net: Net, req: Request, s: Snapshot)
    requires ServerInv(sv, versions) && RequestInv(net, req) && req.kind == DeltaTick
    requires s.revision > 0 && IsVersion(versions, s) && s.revision <= Published(sv)
    ensures ResponseInv(versions, Published(sv), req, SecondRead(sv, req, s))
  {}

  /** An answer on its way, or a handler between its reads, concerns the network alone. */
  lemma {:induction false} NetOnly(w: World, net: Net)
    requires Inv(w) && net.asked == w.net.asked && net.headed == w.net.headed
    requires NetInv(net, w.versions, Published(w.server))
    ensures Inv(w.(net := net))
  {}

  lemma {:induction false} HeldAlike(before: Net, after: Net, req: Request)
    requires before.headed == after.headed
    ensures RequestInv(before, req) <==> RequestInv(after, req)
  {}

  lemma {:induction false} RepliedKeeps(w: World, req: Request, resp: Response)
    requires Inv(w) && RequestInv(w.net, req) && ResponseInv(w.versions, Published(w.server), req, resp)
    ensures Inv(w.(net := w.net.(replied := w.net.replied + {(req, resp)})))
  {
    var net := w.net.(replied := w.net.replied + {(req, resp)});
    forall r: Request ensures RequestInv(w.net, r) <==> RequestInv(net, r) { HeldAlike(w.net, net, r); }
    NetOnly(w, net);
  }

  lemma {:induction false} ReadingKeeps(w: World, req: Request)
    requires Inv(w) && RequestInv(w.net, req) && req.kind == DeltaTick && w.server.cache.Some?
    ensures Inv(w.(net := w.net.(reading := w.net.reading + {(req, w.server.cache.value)})))
  {
    var net := w.net.(reading := w.net.reading + {(req, w.server.cache.value)});
    forall r: Request ensures RequestInv(w.net, r) <==> RequestInv(net, r) { HeldAlike(w.net, net, r); }
    NetOnly(w, net);
  }

  lemma {:induction false} HandlerKeeps(w: World, step: Step)
    requires Inv(w) && Can(w, step) && (step.HandlerReadsCache? || step.HandlerReadsDelta?)
    ensures Inv(Do(w, step))
  {
    match step
    case HandlerReadsCache(req) =>
      FirstReadInv(w.server, w.versions, w.net, req);
      if FirstRead(w.server, req).Some? {
        RepliedKeeps(w, req, FirstRead(w.server, req).value);
      } else {
        ReadingKeeps(w, req);
      }
    case HandlerReadsDelta(req, s) =>
      SecondReadInv(w.server, w.versions, w.net, req, s);
      RepliedKeeps(w, req, SecondRead(w.server, req, s));
  }

  // --- Browser steps keep it --------------------------------------------------

  lemma {:induction false} HeldStays(before: Net, after: Net, req: Request)
    requires before.headed <= after.headed && RequestInv(before, req)
    ensures RequestInv(after, req)
  {}

  lemma {:induction false} HeadersKeepNet(w: World, req: Request, resp: Response)
    requires Inv(w) && (req, resp) in w.net.replied
    ensures NetInv(Do(w, HeadersArrive(req, resp)).net, w.versions, Published(w.server))
  {
    var after := Do(w, HeadersArrive(req, resp));
    forall r | r in after.net.asked ensures RequestInv(after.net, r) {
      HeldStays(w.net, after.net, Request(Fallback, State, w.client.pollEtag));
      if r in w.net.asked { HeldStays(w.net, after.net, r); }
    }
    forall pair | pair in w.net.reading ensures RequestInv(after.net, pair.0) { HeldStays(w.net, after.net, pair.0); }
    forall pair | pair in w.net.replied ensures RequestInv(after.net, pair.0) { HeldStays(w.net, after.net, pair.0); }
  }

  lemma {:induction false} HeadersKeep(w: World, req: Request, resp: Response)
    requires Inv(w) && (req, resp) in w.net.replied
    ensures Inv(Do(w, HeadersArrive(req, resp)))
  {
    var after := Do(w, HeadersArrive(req, resp));
    HeadersKeepNet(w, req, resp);
    HeadersUse(w.client, req.kind, resp);
    TagStays(w.net, after.net, w.client.pollEtag);
    TagStays(w.net, after.net, w.client.pollDeltaEtag);
    if ReadsBody(req.kind, resp) { HeadedIsHeld(after.net, req, resp); }
  }

  lemma {:induction false} TagStays(before: Net, after: Net, tag: Option<Tag>)
    requires before.headed <= after.headed && (tag.Some? ==> TagHeld(before, tag.value))
    ensures tag.Some? ==> TagHeld(after, tag.value)
  {}

  /** What headers do to the browser: at most one ETag changes. */
  lemma {:induction false} HeadersUse(c: Client, kind: Kind, resp: Response)
    ensures var after := OnHeaders(c, kind, resp).0;
      && after.store == c.store && after.pollRevision == c.pollRevision
      && (after.pollEtag == c.pollEtag || (ReadsBody(kind, resp) && after.pollEtag == Some(resp.tag)))
      && (after.pollDeltaEtag == c.pollDeltaEtag || after.pollDeltaEtag.None?
          || (ReadsBody(kind, resp) && after.pollDeltaEtag == Some(resp.tag)))
  {}

  lemma {:induction false} SnapshotKeepsStore(versions: Versions, revision: nat, st: Store, s: Snapshot, now: int)
    requires VersionsInv(versions, revision) && StoreInv(versions, st) && IsVersion(versions, s)
    ensures StoreInv(versions, ApplySnapshot(st, s, now))
  {
    SnapshotAgrees(st, s, now);
    DisplaySteady(st, s.torrents, now);
  }

  lemma {:induction false} DeltaKeepsStore(versions: Versions, revision: nat, st: Store, d: Delta, now: int)
    requires VersionsInv(versions, revision) && StoreInv(versions, st) && ValidDelta(versions, d)
    ensures StoreInv(versions, ApplyDelta(st, d, now).0)
  {
    var base, next := versions[d.baseRevision], versions[d.revision];
    DeltaAgrees(st, base, next, d, now);
    if d.baseRevision == st.revision {
      MergeMembers(st.torrents, d);
      DisplaySteady(st, Merge(st.torrents, d), now);
    }
  }

  lemma {:induction false} SnapshotBodyKeeps(c: Client, net: Net, versions: Versions, revision: nat, published: nat, req: Request, resp: Response, now: int)
    requires VersionsInv(versions, revision) && ClientInv(c, net, versions, published)
    requires (req, resp) in net.headed && ResponseInv(versions, published, req, resp) && ReadsBody(req.kind, resp)
    requires resp.Conflict? || resp.body.Full?
    ensures ClientInv(OnBody(c, req.kind, resp, now).0, net, versions, published)
  {
    var s := if resp.Conflict? then resp.snapshot else resp.body.snapshot;
    SnapshotKeepsStore(versions, revision, c.store, s, now);
    SnapshotBodyUses(c, req.kind, resp, now);
    if resp.Conflict? { HeadedIsHeld(net, req, resp); }
  }

  lemma {:induction false} HeadedIsHeld(net: Net, req: Request, resp: Response)
    requires (req, resp) in net.headed && (resp.Ok? || resp.Conflict?)
    ensures TagHeld(net, resp.tag)
  {}

  /** What a whole snapshot does to the browser. */
  lemma {:induction false} SnapshotBodyUses(c: Client, kind: Kind, resp: Response, now: int)
    requires ReadsBody(kind, resp) && (resp.Conflict? || resp.body.Full?)
    ensures var after, s := OnBody(c, kind, resp, now).0, if resp.Conflict? then resp.snapshot else resp.body.snapshot;
      && (after.store == c.store || after.store == ApplySnapshot(c.store, s, now))
      && (after.pollRevision == c.pollRevision || after.pollRevision == Some(s.revision))
      && (after.pollEtag == c.pollEtag || (resp.Conflict? && after.pollEtag == Some(resp.tag)))
      && (after.pollDeltaEtag == c.pollDeltaEtag || after.pollDeltaEtag.None?)
  {}

  lemma {:induction false} DeltaBodyKeeps(c: Client, net: Net, versions: Versions, revision: nat, published: nat, req: Request, resp: Response, now: int)
    requires VersionsInv(versions, revision) && ClientInv(c, net, versions, published)
    requires ResponseInv(versions, published, req, resp) && resp.Ok? && resp.body.Partial?
    ensures ClientInv(OnBody(c, req.kind, resp, now).0, net, versions, published)
  {
    DeltaKeepsStore(versions, revision, c.store, resp.body.delta, now);
  }

  lemma {:induction false} BodyKeeps(w: World, req: Request, resp: Response, now: int)
    requires Inv(w) && (req, resp) in w.net.headed
    ensures Inv(Do(w, BodyArrives(req, resp, now)))
  {
    if ReadsBody(req.kind, resp) {
      if resp.Conflict? || resp.body.Full? {
        SnapshotBodyKeeps(w.client, w.net, w.versions, w.server.revision, Published(w.server), req, resp, now);
      } else {
        DeltaBodyKeeps(w.client, w.net, w.versions, w.server.revision, Published(w.server), req, resp, now);
      }
      AskKeeps(w, OnBody(w.client, req.kind, resp, now).1, OnBody(w.client, req.kind, resp, now).0);
    }
  }

  /** Sending a refetch, or nothing, keeps the network as it should be. */
  lemma {:induction false} AskKeeps(w: World, followUp: Option<Request>, client: Client)
    requires Inv(w) && (followUp.Some? ==> followUp.value == REFETCH)
    requires ClientInv(client, w.net, w.versions, Published(w.server))
    ensures Inv(w.(client := client, net := Ask(w.net, followUp)))
  {}

  lemma {:induction false} OverlaySteady(st: Store, overrides: Overrides, now: int)
    requires Steady(st)
    ensures var (rows, live) := ApplyOptimistic(st.torrents, overrides, now);
      Steady(st.(torrents := rows, optimistic := live))
  {
    var (rows, live) := ApplyOptimistic(st.torrents, overrides, now);
    SameHashesSameKeys(st.torrents, rows);
    forall i | 0 <= i < |rows| ensures SteadyRow(st.ema, rows[i]) {
      OverlayKeepsSteady(live, st.ema, st.torrents[i]);
    }
  }

  lemma {:induction false} OverlayKeepsStore(versions: Versions, st: Store, overrides: Overrides, now: int)
    requires StoreInv(versions, st)
    ensures var (rows, live) := ApplyOptimistic(st.torrents, overrides, now);
      StoreInv(versions, st.(torrents := rows, optimistic := live))
  {
    OverlaySteady(st, overrides, now);
    OverlayAgrees(st.torrents, overrides, now, if st.revision == 0 then [] else versions[st.revision].torrents);
  }

  lemma {:induction false} BrowserKeeps(w: World, step: Step)
    requires Inv(w) && Can(w, step) && (step.TickStarts? || step.Mark? || step.Unmark?)
    ensures Inv(Do(w, step))
  {
    match step
    case TickStarts =>
    case Mark(updates, now) =>
      var marks: Overrides := map h | h in updates :: Override(updates[h], now);
      OverlayKeepsStore(w.versions, w.client.store, w.client.store.optimistic + marks, now);
    case Unmark(_) =>
  }

  lemma {:induction false} StepKeeps(w: World, step: Step)
    requires Inv(w) && Can(w, step)
    ensures Inv(Do(w, step))
  {
    if IsServerStep(step) {
      ServerStepKeepsRest(w, step);
    } else if step.HandlerReadsCache? || step.HandlerReadsDelta? {
      HandlerKeeps(w, step);
    } else if step.HeadersArrive? {
      HeadersKeep(w, step.req, step.resp);
    } else if step.BodyArrives? {
      BodyKeeps(w, step.req, step.resp, step.now);
    } else {
      BrowserKeeps(w, step);
    }
  }

  lemma {:induction false} RunKeeps(w: World, steps: seq<Step>)
    requires Inv(w) && IsRun(w, steps)
    ensures Inv(Run(w, steps))
    decreases |steps|
  {
    if steps == [] {
    } else {
      StepKeeps(w, steps[0]);
      RunKeeps(Do(w, steps[0]), steps[1..]);
    }
  }
}
