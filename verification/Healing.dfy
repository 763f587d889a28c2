/**
 Catching up: runs in which ticks and refetches finish in order, what one undisturbed tick achieves, when it does not,
 and why any later publication cures even those cases.
 */
module Healing {
  import opened Options
  import opened Torrents
  import opened TorrentLaws
  import opened Deltas
  import opened Publisher
  import opened PollClient
  import opened Sync
  import opened SyncTheorems

  // --- Runs in order ----------------------------------------------------------

  /** The one exchange in progress, if any. */
  datatype Flight =
    | Quiet
    | Asked(req: Request)
    | Reading(req: Request, snapshot: Snapshot)
    | Replied(req: Request, resp: Response)
    | Headed(req: Request, resp: Response)

  datatype Lane = Lane(server: Server, client: Client, flight: Flight, versions: Versions)

  function InitLane(endpoint: string): Lane {
    Lane(InitServer(endpoint), INITIAL_CLIENT, Quiet, map[])
  }

  /** A tick starts only when nothing is outstanding; every answer arrives, once. The server is free as before. */
  ghost predicate LaneCan(l: Lane, step: Step) {
    match step
    case TickStarts => l.flight.Quiet?
    case HandlerReadsCache(req) => l.flight == Asked(req)
    case HandlerReadsDelta(req, s) => l.flight == Reading(req, s)
    case HeadersArrive(req, resp) => l.flight == Replied(req, resp)
    case BodyArrives(req, resp, _) => l.flight == Headed(req, resp)
    case Mark(_, _) => true
    case Unmark(_) => true
    case _ => ServerCan(l.server, step)
  }

  function Next(followUp: Option<Request>): Flight {
    if followUp.Some? then Asked(followUp.value) else Quiet
  }

  ghost function LaneDo(l: Lane, step: Step): Lane
    requires LaneCan(l, step)
  {
    match step
    case TickStarts => l.(flight := Asked(TickRequest(l.client)))
    case HandlerReadsCache(req) =>
      var answer := FirstRead(l.server, req);
      l.(flight := if answer.Some? then Replied(req, answer.value) else Reading(req, l.server.cache.value))
    case HandlerReadsDelta(req, s) => l.(flight := Replied(req, SecondRead(l.server, req, s)))
    case HeadersArrive(req, resp) =>
      var (client, followUp) := OnHeaders(l.client, req.kind, resp);
      l.(client := client, flight := if ReadsBody(req.kind, resp) then Headed(req, resp) else Next(followUp))
    case BodyArrives(req, resp, now) =>
      if !ReadsBody(req.kind, resp) then l
      else
        var (client, followUp) := OnBody(l.client, req.kind, resp, now);
        l.(client := client, flight := Next(followUp))
    case Mark(updates, now) => l.(client := l.client.(store := MarkOptimistic(l.client.store, updates, now)))
    case Unmark(hashes) => l.(client := l.client.(store := ClearOptimistic(l.client.store, hashes)))
    case _ =>
      var server := ServerStep(l.server, step);
      l.(server := server, versions := Recorded(l.versions, l.server, server))
  }

  ghost predicate IsLaneRun(l: Lane, steps: seq<Step>)
    decreases |steps|
  {
    steps == [] || (LaneCan(l, steps[0]) && IsLaneRun(LaneDo(l, steps[0]), steps[1..]))
  }

  ghost function LaneRun(l: Lane, steps: seq<Step>): Lane
    requires IsLaneRun(l, steps)
    decreases |steps|
  {
    if steps == [] then l else LaneRun(LaneDo(l, steps[0]), steps[1..])
  }

  // --- A run in order is a run ------------------------------------------------

  ghost predicate Covers(w: World, l: Lane) {
    && w.server == l.server && w.client == l.client && w.versions == l.versions
    && match l.flight
       case Quiet => true
       case Asked(req) => req in w.net.asked
       case Reading(req, s) => (req, s) in w.net.reading
       case Replied(req, resp) => (req, resp) in w.net.replied
       case Headed(req, resp) => (req, resp) in w.net.headed
  }

  lemma LaneStepIsAStep(w: World, l: Lane, step: Step)
    requires Covers(w, l) && LaneCan(l, step)
    ensures Can(w, step) && Covers(Do(w, step), LaneDo(l, step))
  {}

  lemma {:induction false} LaneRunIsARun(w: World, l: Lane, steps: seq<Step>)
    requires Covers(w, l) && IsLaneRun(l, steps)
    ensures IsRun(w, steps) && Covers(Run(w, steps), LaneRun(l, steps))
    decreases |steps|
  {
    if steps == [] {
    } else {
      LaneStepIsAStep(w, l, steps[0]);
      LaneRunIsARun(Do(w, steps[0]), LaneDo(l, steps[0]), steps[1..]);
    }
  }

  // --- The order of the three revisions ---------------------------------------

  /** The revision the next tick polls from, 0 before the first answer. */
  function PolledFrom(c: Client): nat {
    c.pollRevision.GetOr(0)
  }

  ghost predicate FlightInOrder(c: Client, req: Request) {
    && req.kind != Fallback
    && (req.kind == StateTick ==> c.pollRevision.None?)
    && (req.kind == DeltaTick ==> c.pollRevision.Some? && req.query == DeltaSince(c.pollRevision))
    && (req.kind == Refetch ==> c.pollRevision.Some?)
  }

  /** An answer on its way is no older than what the store shows. */
  ghost predicate NotBehind(c: Client, req: Request, resp: Response) {
    match resp
    case Ok(_, Full(s)) => if req.kind == DeltaTick then PolledFrom(c) == 0 else c.store.revision <= s.revision
    case Ok(_, Partial(d)) => req.kind == DeltaTick && c.store.revision <= d.revision
    case Conflict(_, s) => req.kind == DeltaTick && c.store.revision <= s.revision
    case _ => true
  }

  ghost predicate InOrder(l: Lane) {
    var c := l.client;
    && PolledFrom(c) <= c.store.revision <= Published(l.server)
    && (c.pollRevision.None? ==>
          c.store.revision == 0 && c.pollDeltaEtag.None? && (c.pollEtag.None? || l.flight.Headed?))
    && (forall d :: c.pollDeltaEtag == Some(DeltaTag(d)) ==>
          d.revision <= PolledFrom(c) || (l.flight.Headed? && l.flight.resp == Ok(DeltaTag(d), Partial(d))))
    && match l.flight
       case Quiet => true
       case Asked(req) => FlightInOrder(c, req)
       case Reading(req, s) => FlightInOrder(c, req) && req.kind == DeltaTick && c.store.revision <= s.revision
       case Replied(req, resp) => FlightInOrder(c, req) && NotBehind(c, req, resp)
       case Headed(req, resp) => FlightInOrder(c, req) && NotBehind(c, req, resp) && ReadsBody(req.kind, resp)
  }

  lemma ServerStepInOrder(w: World, l: Lane, step: Step)
    requires Inv(w) && Covers(w, l) && InOrder(l) && IsServerStep(step) && LaneCan(l, step)
    ensures InOrder(LaneDo(l, step))
  {
    ServerStepInv(w.server, w.versions, step);
  }

  lemma ReadInOrder(w: World, l: Lane, step: Step)
    requires Inv(w) && Covers(w, l) && InOrder(l) && LaneCan(l, step)
    requires step.HandlerReadsCache? || step.HandlerReadsDelta?
    ensures InOrder(LaneDo(l, step))
  {
    assert RequestInv(w.net, l.flight.req);
  }

  lemma HeadersInOrder(w: World, l: Lane, step: Step)
    requires Inv(w) && Covers(w, l) && InOrder(l) && LaneCan(l, step) && step.HeadersArrive?
    ensures InOrder(LaneDo(l, step))
  {
    assert RequestInv(w.net, step.req) && ResponseInv(w.versions, Published(w.server), step.req, step.resp);
  }

  lemma BodyInOrder(w: World, l: Lane, step: Step)
    requires Inv(w) && Covers(w, l) && InOrder(l) && LaneCan(l, step) && step.BodyArrives?
    ensures InOrder(LaneDo(l, step))
  {
    assert ResponseInv(w.versions, Published(w.server), step.req, step.resp);
    assert StoreInv(w.versions, w.client.store);
  }

  lemma BrowserInOrder(l: Lane, step: Step)
    requires InOrder(l) && LaneCan(l, step) && (step.TickStarts? || step.Mark? || step.Unmark?)
    ensures InOrder(LaneDo(l, step))
  {}

  lemma {:induction false} StepInOrder(w: World, l: Lane, step: Step)
    requires Inv(w) && Covers(w, l) && InOrder(l) && LaneCan(l, step)
    ensures InOrder(LaneDo(l, step))
  {
    if IsServerStep(step) {
      ServerStepInOrder(w, l, step);
    } else if step.HandlerReadsCache? || step.HandlerReadsDelta? {
      ReadInOrder(w, l, step);
    } else if step.HeadersArrive? {
      HeadersInOrder(w, l, step);
    } else if step.BodyArrives? {
      BodyInOrder(w, l, step);
    } else {
      BrowserInOrder(l, step);
    }
  }

  lemma {:induction false} RunInOrder(w: World, l: Lane, steps: seq<Step>)
    requires Inv(w) && Covers(w, l) && InOrder(l) && IsLaneRun(l, steps)
    ensures InOrder(LaneRun(l, steps))
    decreases |steps|
  {
    if steps == [] {
    } else {
      StepInOrder(w, l, steps[0]);
      LaneStepIsAStep(w, l, steps[0]);
      StepKeeps(w, steps[0]);
      RunInOrder(Do(w, steps[0]), LaneDo(l, steps[0]), steps[1..]);
    }
  }

  /** In every run whose exchanges finish in order: polled revision <= store revision <= server revision, always. */
  lemma RevisionsStayOrdered(endpoint: string, steps: seq<Step>)
    requires IsLaneRun(InitLane(endpoint), steps)
    ensures var l := LaneRun(InitLane(endpoint), steps);
      PolledFrom(l.client) <= l.client.store.revision <= Published(l.server) <= l.server.revision
  {
    InitInv(endpoint);
    RunInOrder(Init(endpoint), InitLane(endpoint), steps);
    LaneRunIsARun(Init(endpoint), InitLane(endpoint), steps);
    RunKeeps(Init(endpoint), steps);
  }

  // --- One undisturbed tick ---------------------------------------------------

  /** The answer when nothing is published between the two reads. */
  function Serve(sv: Server, req: Request): Response {
    var answer := FirstRead(sv, req);
    if answer.Some? then answer.value else SecondRead(sv, req, sv.cache.value)
  }

  /** One request, its answer, and what the browser makes of it. */
  function Exchange(sv: Server, c: Client, req: Request, now: int): (Client, Option<Request>) {
    var resp := Serve(sv, req);
    var (headed, followUp) := OnHeaders(c, req.kind, resp);
    if ReadsBody(req.kind, resp) then OnBody(headed, req.kind, resp, now) else (headed, followUp)
  }

  /** A completed tick with the request that follows from it, nothing being published meanwhile. */
  function QuietRound(sv: Server, c: Client, now: int): Client {
    var (after, followUp) := Exchange(sv, c, TickRequest(c), now);
    if followUp.Some? then Exchange(sv, after, followUp.value, now).0 else after
  }

  function ExchangeSteps(sv: Server, req: Request, now: int): seq<Step> {
    var resp := Serve(sv, req);
    [HandlerReadsCache(req)]
    + (if FirstRead(sv, req).None? then [HandlerReadsDelta(req, sv.cache.value)] else [])
    + [HeadersArrive(req, resp)]
    + (if ReadsBody(req.kind, resp) then [BodyArrives(req, resp, now)] else [])
  }

  function RoundSteps(sv: Server, c: Client, now: int): seq<Step> {
    var (after, followUp) := Exchange(sv, c, TickRequest(c), now);
    [TickStarts] + ExchangeSteps(sv, TickRequest(c), now)
    + if followUp.Some? then ExchangeSteps(sv, followUp.value, now) else []
  }

  lemma {:induction false} LaneRunConcat(l: Lane, a: seq<Step>, b: seq<Step>)
    requires IsLaneRun(l, a) && IsLaneRun(LaneRun(l, a), b)
    ensures IsLaneRun(l, a + b) && LaneRun(l, a + b) == LaneRun(LaneRun(l, a), b)
    decreases |a|
  {
    if a == [] {
      assert a + b == b;
    } else {
      LaneRunConcat(LaneDo(l, a[0]), a[1..], b);
      assert (a + b)[1..] == a[1..] + b;
    }
  }

  lemma OneStep(l: Lane, step: Step)
    requires LaneCan(l, step)
    ensures IsLaneRun(l, [step]) && LaneRun(l, [step]) == LaneDo(l, step)
  {}

  /** From a request in flight to the end of its exchange, step by step. */
  lemma ExchangeIsALaneRun(l: Lane, req: Request, now: int)
    requires l.flight == Asked(req)
    ensures var (after, followUp) := Exchange(l.server, l.client, req, now);
      && IsLaneRun(l, ExchangeSteps(l.server, req, now))
      && LaneRun(l, ExchangeSteps(l.server, req, now)) == l.(client := after, flight := Next(followUp))
  {
    var sv, resp := l.server, Serve(l.server, req);
    var first, second := HandlerReadsCache(req), if FirstRead(sv, req).None? then [HandlerReadsDelta(req, sv.cache.value)] else [];
    var headers, body := HeadersArrive(req, resp), if ReadsBody(req.kind, resp) then [BodyArrives(req, resp, now)] else [];
    OneStep(l, first);
    var l1 := LaneDo(l, first);
    if second != [] { OneStep(l1, second[0]); }
    var l2 := LaneRun(l1, second);
    assert l2 == l.(flight := Replied(req, resp));
    LaneRunConcat(l, [first], second);
    OneStep(l2, headers);
    var l3 := LaneDo(l2, headers);
    LaneRunConcat(l, [first] + second, [headers]);
    if body != [] { OneStep(l3, body[0]); }
    LaneRunConcat(l, [first] + second + [headers], body);
  }

  lemma RoundIsALaneRun(l: Lane, now: int)
    requires l.flight.Quiet?
    ensures IsLaneRun(l, RoundSteps(l.server, l.client, now))
    ensures Exchange(l.server, l.client, TickRequest(l.client), now).1.None?
        || Exchange(l.server, Exchange(l.server, l.client, TickRequest(l.client), now).0,
                    Exchange(l.server, l.client, TickRequest(l.client), now).1.value, now).1.None?
    ensures LaneRun(l, RoundSteps(l.server, l.client, now)) == l.(client := QuietRound(l.server, l.client, now))
  {
    var req := TickRequest(l.client);
    OneStep(l, TickStarts);
    var l1 := LaneDo(l, TickStarts);
    ExchangeIsALaneRun(l1, req, now);
    LaneRunConcat(l, [TickStarts], ExchangeSteps(l.server, req, now));
    var (after, followUp) := Exchange(l.server, l.client, req, now);
    var l2 := l1.(client := after, flight := Next(followUp));
    if followUp.Some? {
      ExchangeIsALaneRun(l2, followUp.value, now);
      LaneRunConcat(l, [TickStarts] + ExchangeSteps(l.server, req, now), ExchangeSteps(l.server, followUp.value, now));
    } else {
      assert [TickStarts] + ExchangeSteps(l.server, req, now) + [] == [TickStarts] + ExchangeSteps(l.server, req, now);
    }
  }

  /** An undisturbed round is a run of the free system too, from any state and whatever is on the network. */
  lemma RoundIsARun(w: World, now: int)
    ensures var steps := RoundSteps(w.server, w.client, now);
      && IsRun(w, steps)
      && Run(w, steps).server == w.server
      && Run(w, steps).versions == w.versions
      && Run(w, steps).client == QuietRound(w.server, w.client, now)
  {
    var l := Lane(w.server, w.client, Quiet, w.versions);
    RoundIsALaneRun(l, now);
    LaneRunIsARun(w, l, RoundSteps(w.server, w.client, now));
  }

  // --- When it heals ----------------------------------------------------------

  /** Polled revision, store revision and server revision are one and the same. */
  predicate InStep(sv: Server, c: Client) {
    c.pollRevision == Some(Published(sv)) && c.store.revision == Published(sv)
  }

  /**
   The cases in which a warm server answers the tick with 304 although the browser is not in step: it polls from the
   current revision but its store is elsewhere, or it holds the ETag of a body it never finished reading.
   */
  predicate IsStalled(sv: Server, c: Client) {
    match c.pollRevision
    case None => c.pollEtag.Some? && sv.cache.Some? && c.pollEtag.value == SnapshotTag(sv.cache.value)
    case Some(p) =>
      if p == Published(sv) then c.store.revision != p
      else
        && sv.deltaCache.Some?
        && sv.deltaCache.value.baseRevision == p
        && sv.deltaCache.value.revision == Published(sv)
        && c.pollDeltaEtag == Some(DeltaTag(sv.deltaCache.value))
  }

  /** Exactly when one undisturbed tick, with its refetch, brings the three revisions together. */
  lemma HealsUnlessStalled(sv: Server, c: Client, now: int)
    requires sv.cache.Some?
    ensures InStep(sv, QuietRound(sv, c, now)) <==> !IsStalled(sv, c)
  {}

  /**
   In order and without loss the browser never stalls: once the poller rests after its last publication, one
   completed tick plus its refetch makes all three revisions equal, from whatever state the run has reached.
   */
  lemma LaneHeals(endpoint: string, steps: seq<Step>, now: int)
    requires IsLaneRun(InitLane(endpoint), steps)
    requires var l := LaneRun(InitLane(endpoint), steps); l.flight.Quiet? && l.server.stage.Idle? && l.server.cache.Some?
    ensures var l := LaneRun(InitLane(endpoint), steps);
      var round := RoundSteps(l.server, l.client, now);
      && IsLaneRun(l, round)
      && InStep(l.server, LaneRun(l, round).client)
      && LaneRun(l, round).server == l.server
  {
    var l := LaneRun(InitLane(endpoint), steps);
    InitInv(endpoint);
    RunInOrder(Init(endpoint), InitLane(endpoint), steps);
    LaneRunIsARun(Init(endpoint), InitLane(endpoint), steps);
    RunKeeps(Init(endpoint), steps);
    RoundIsALaneRun(l, now);
    HealsUnlessStalled(l.server, l.client, now);
  }

  /** Steps of the server alone leave the browser as it was. */
  lemma {:induction false} ServerRunKeepsClient(w: World, steps: seq<Step>)
    requires IsRun(w, steps) && forall i :: 0 <= i < |steps| ==> IsServerStep(steps[i])
    ensures Run(w, steps).client == w.client && Run(w, steps).net == w.net
    decreases |steps|
  {
    if steps == [] {
    } else {
      ServerRunKeepsClient(Do(w, steps[0]), steps[1..]);
    }
  }

  /**
   After any run at all - messages lost, repeated or reordered, the browser stalled or ahead of its store - one more
   publication and one undisturbed tick with its refetch bring everything in step, and the rows shown are current.
   */
  lemma {:induction false} LaterPublicationHeals(endpoint: string, before: seq<Step>, publishing: seq<Step>, now: int)
    requires IsRun(Init(endpoint), before) && IsRun(Run(Init(endpoint), before), publishing)
    requires forall i :: 0 <= i < |publishing| ==> IsServerStep(publishing[i])
    requires var w0 := Run(Init(endpoint), before);
      Published(w0.server) < Published(Run(w0, publishing).server)
    ensures var w := Run(Run(Init(endpoint), before), publishing);
      var round := RoundSteps(w.server, w.client, now);
      && IsRun(w, round)
      && InStep(w.server, Run(w, round).client)
      && Agrees(Run(w, round).client.store.torrents, w.server.cache.value.torrents)
  {
    var w0 := Run(Init(endpoint), before);
    var w := Run(w0, publishing);
    RunInv(endpoint, before);
    ServerRunKeepsClient(w0, publishing);
    RunKeeps(w0, publishing);
    HealsUnlessStalled(w.server, w.client, now);
    RoundIsARun(w, now);
    RunKeeps(w, RoundSteps(w.server, w.client, now));
  }

  // --- A stall that happens ---------------------------------------------------

  lemma Prepend(w: World, step: Step, rest: seq<Step>)
    requires Can(w, step) && IsRun(Do(w, step), rest)
    ensures IsRun(w, [step] + rest) && Run(w, [step] + rest) == Run(Do(w, step), rest)
  {}

  lemma PublicationIsARun(w: World, p: Poll, d: Delta, rest: seq<Step>)
    requires Can(w, PollBegins(p, d)) && p.bodyOk
    requires var server := Finish(BeginPoll(w.server, p, d));
      IsRun(w.(server := server, versions := w.versions[w.server.revision + 1 := SnapshotOf(w.server, p)]), rest)
    ensures var server := Finish(BeginPoll(w.server, p, d));
      var after := w.(server := server, versions := w.versions[w.server.revision + 1 := SnapshotOf(w.server, p)]);
      var steps := [PollBegins(p, d)] + ([WritesDelta] + ([WritesPrev] + ([WritesCache] + rest)));
      IsRun(w, steps) && Run(w, steps) == Run(after, rest)
  {
    var begun := Do(w, PollBegins(p, d));
    WritesAreARun(begun, rest);
    Prepend(w, PollBegins(p, d), [WritesDelta] + ([WritesPrev] + ([WritesCache] + rest)));
  }

  lemma WritesAreARun(w: World, rest: seq<Step>)
    requires w.server.stage.Assembled? && IsRun(w.(server := Finish(w.server)), rest)
    ensures var steps := [WritesDelta] + ([WritesPrev] + ([WritesCache] + rest));
      IsRun(w, steps) && Run(w, steps) == Run(w.(server := Finish(w.server)), rest)
  {
    var w1 := Do(w, WritesDelta);
    var w2 := Do(w1, WritesPrev);
    Prepend(w2, WritesCache, rest);
    Prepend(w1, WritesPrev, [WritesCache] + rest);
    Prepend(w, WritesDelta, [WritesPrev] + ([WritesCache] + rest));
  }

  /**
   From any state in step, a delta whose headers arrive and whose body is lost leaves the browser stalled: every
   further undisturbed tick is answered 304, until something new is published.
   */
  lemma {:induction false} LostDeltaBodyStalls(w: World, p: Poll, d: Delta, now: int) returns (steps: seq<Step>)
    requires Inv(w) && w.server.cache.Some? && InStep(w.server, w.client) && !ShouldFull(w.server)
    requires Can(w, PollBegins(p, d)) && p.bodyOk && p.deltaOk
    ensures IsRun(w, steps)
    ensures var after := Run(w, steps);
      && after.server.stage.Idle? && after.server.cache.Some?
      && IsStalled(after.server, after.client)
      && QuietRound(after.server, after.client, now) == after.client
      && !InStep(after.server, after.client)
  {
    var server := Finish(BeginPoll(w.server, p, d));
    var w0 := w.(server := server, versions := w.versions[w.server.revision + 1 := SnapshotOf(w.server, p)]);
    var rest := LosesTheBody(w0, d);
    PublicationIsARun(w, p, d, rest);
    steps := [PollBegins(p, d)] + ([WritesDelta] + ([WritesPrev] + ([WritesCache] + rest)));
  }

  /** A tick that gets as far as the headers of a delta. */
  lemma LosesTheBody(w: World, d: Delta) returns (steps: seq<Step>)
    requires w.server.cache.Some? && w.server.deltaCache == Some(d) && d.revision == Published(w.server)
    requires w.client.pollRevision == Some(d.baseRevision) && d.baseRevision != d.revision
    requires w.client.pollDeltaEtag != Some(DeltaTag(d))
    ensures IsRun(w, steps)
    ensures var after := Run(w, steps);
      after.server == w.server && after.client == w.client.(pollDeltaEtag := Some(DeltaTag(d)))
  {
    var req, s, resp := TickRequest(w.client), w.server.cache.value, Ok(DeltaTag(d), Partial(d));
    assert SecondRead(w.server, req, s) == resp;
    var w1 := Do(w, TickStarts);
    var w2 := Do(w1, HandlerReadsCache(req));
    var w3 := Do(w2, HandlerReadsDelta(req, s));
    Prepend(w3, HeadersArrive(req, resp), []);
    Prepend(w2, HandlerReadsDelta(req, s), [HeadersArrive(req, resp)] + []);
    Prepend(w1, HandlerReadsCache(req), [HandlerReadsDelta(req, s)] + ([HeadersArrive(req, resp)] + []));
    var rest := [HandlerReadsCache(req)] + ([HandlerReadsDelta(req, s)] + ([HeadersArrive(req, resp)] + []));
    Prepend(w, TickStarts, rest);
    steps := [TickStarts] + rest;
  }

  lemma {:induction false} RunConcat(w: World, a: seq<Step>, b: seq<Step>)
    requires IsRun(w, a) && IsRun(Run(w, a), b)
    ensures IsRun(w, a + b) && Run(w, a + b) == Run(Run(w, a), b)
    decreases |a|
  {
    if a == [] {
      assert a + b == b;
    } else {
      RunConcat(Do(w, a[0]), a[1..], b);
      assert (a + b)[1..] == a[1..] + b;
    }
  }

  const EMPTY_POLL := Poll([], EMPTY_GLOBALS, None, true, true)

  /** A publication followed by one undisturbed tick. */
  lemma PublishAndTick(w: World, p: Poll, d: Delta, now: int) returns (steps: seq<Step>)
    requires Can(w, PollBegins(p, d)) && p.bodyOk
    ensures IsRun(w, steps)
    ensures var server := Finish(BeginPoll(w.server, p, d));
      && Run(w, steps).server == server
      && Run(w, steps).versions == w.versions[w.server.revision + 1 := SnapshotOf(w.server, p)]
      && Run(w, steps).client == QuietRound(server, w.client, now)
  {
    var server := Finish(BeginPoll(w.server, p, d));
    var after := w.(server := server, versions := w.versions[w.server.revision + 1 := SnapshotOf(w.server, p)]);
    var round := RoundSteps(server, w.client, now);
    RoundIsARun(after, now);
    PublicationIsARun(w, p, d, round);
    steps := [PollBegins(p, d)] + ([WritesDelta] + ([WritesPrev] + ([WritesCache] + round)));
  }

  /** The first publication of a server and a browser's first tick. */
  lemma FirstTick(endpoint: string, p: Poll, now: int) returns (steps: seq<Step>)
    requires Unique(p.torrents) && p.bodyOk
    ensures IsRun(Init(endpoint), steps)
    ensures var w, s := Run(Init(endpoint), steps), SnapshotOf(InitServer(endpoint), p);
      && w.server.prev == w.server.cache == Some(s)
      && w.server.stage.Idle? && w.server.conn.phase.Connected? && w.server.tick == w.server.revision == 1
      && !ShouldFull(w.server)
      && InStep(w.server, w.client)
      && w.client.store == ApplySnapshot(INITIAL_STORE, s, now)
      && w.client.pollDeltaEtag.None?
  {
    steps := PublishAndTick(Init(endpoint), p, PollDelta(InitServer(endpoint), p), now);
  }

  /** From the start of the server a run leads to a stall: two publications, and the body of one answer lost. */
  lemma AStallIsReached(endpoint: string, now: int) returns (steps: seq<Step>)
    ensures IsRun(Init(endpoint), steps)
    ensures var w := Run(Init(endpoint), steps);
      w.server.cache.Some? && IsStalled(w.server, w.client) && QuietRound(w.server, w.client, now) == w.client
  {
    var first := FirstTick(endpoint, EMPTY_POLL, now);
    var w := Run(Init(endpoint), first);
    RunInv(endpoint, first);
    var d := PollDelta(w.server, EMPTY_POLL);
    DiffIsDelta(w.server.prev.value, SnapshotOf(w.server, EMPTY_POLL));
    var rest := LostDeltaBodyStalls(w, EMPTY_POLL, d, now);
    RunConcat(Init(endpoint), first, rest);
    steps := first + rest;
  }
}
