/**
 What the synchronisation promises over every run, however publications, handler reads and messages interleave.
 */
module SyncTheorems {
  import opened Options
  import opened Torrents
  import opened TorrentLaws
  import opened Publisher
  import opened PollClient
  import opened Sync

  lemma InitInv(endpoint: string)
    ensures Inv(Init(endpoint))
  {}

  lemma RunInv(endpoint: string, steps: seq<Step>)
    requires IsRun(Init(endpoint), steps)
    ensures Inv(Run(Init(endpoint), steps))
  {
    InitInv(endpoint);
    RunKeeps(Init(endpoint), steps);
  }

  /**
   In every reachable state the rows shown, keyed by hash, have exactly the facts of the server's snapshot with the
   store's revision (revision 0 being the empty one), and its globals and connection are that snapshot's too.
   */
  lemma StoreShowsItsRevision(endpoint: string, steps: seq<Step>)
    requires IsRun(Init(endpoint), steps)
    ensures var w := Run(Init(endpoint), steps);
      var st := w.client.store;
      && st.revision <= Published(w.server)
      && (st.revision == 0 ==> st.torrents == [])
      && (st.revision > 0 ==>
            && st.revision in w.versions
            && w.versions[st.revision].revision == st.revision
            && Index(st.torrents).Keys == Index(w.versions[st.revision].torrents).Keys
            && (forall h :: h in Index(st.torrents) ==>
                  FactsOf(Index(st.torrents)[h]) == FactsOf(Index(w.versions[st.revision].torrents)[h]))
            && st.globals == w.versions[st.revision].globals
            && st.connection == w.versions[st.revision].connection)
  {
    RunInv(endpoint, steps);
    var st := Run(Init(endpoint), steps).client.store;
    if st.revision == 0 && st.torrents != [] {
      IndexComplete(st.torrents, 0);
      assert false;
    }
  }

  /** The displayed rates are a fixed point in every reachable state, and nothing is shown before a first load. */
  lemma StoreIsSteady(endpoint: string, steps: seq<Step>)
    requires IsRun(Init(endpoint), steps)
    ensures var st := Run(Init(endpoint), steps).client.store;
      && st.ema.Keys == Index(st.torrents).Keys
      && SmoothRates(st.ema, st.torrents) == (st.ema, st.torrents)
      && (!st.hasLoaded ==> st.revision == 0)
  {
    RunInv(endpoint, steps);
    SteadyStoreIsFixed(Run(Init(endpoint), steps).client.store);
  }

  /** The browser has received the headers of an answer carrying exactly this delta. */
  ghost predicate HoldsDelta(net: Net, d: Delta) {
    exists req :: (req, Ok(DeltaTag(d), Partial(d))) in net.headed
  }

  lemma HeldDeltaTag(w: World, d: Delta)
    requires Inv(w) && TagHeld(w.net, DeltaTag(d))
    ensures HoldsDelta(w.net, d)
  {}

  /**
   Whatever was published between a delta handler's two reads: a 200 is exactly the difference from the client's
   revision to the snapshot the handler read first, a 409 is that whole published snapshot, and a 304 means the client
   is at that snapshot's revision or already holds that very delta. A 400 does not happen.
   */
  lemma AnswerIsExact(endpoint: string, steps: seq<Step>, req: Request, s: Snapshot)
    requires IsRun(Init(endpoint), steps)
    requires (req, s) in Run(Init(endpoint), steps).net.reading
    ensures var w := Run(Init(endpoint), steps);
      && s.revision in w.versions && w.versions[s.revision] == s && s.revision <= Published(w.server)
      && req.query.DeltaSince? && req.query.since.Some?
      && var since := req.query.since.value;
      match SecondRead(w.server, req, s)
      case Ok(tag, body) =>
        && body.Partial? && tag == DeltaTag(body.delta)
        && since in w.versions && IsDelta(w.versions[since], s, body.delta)
      case Conflict(tag, whole) => whole == s && tag == SnapshotTag(s)
      case NotModified =>
        || since == s.revision
        || exists d :: && req.ifNoneMatch == Some(DeltaTag(d)) && HoldsDelta(w.net, d)
                       && since in w.versions && IsDelta(w.versions[since], s, d)
      case BadRequest => false
  {
    RunInv(endpoint, steps);
    var w := Run(Init(endpoint), steps);
    assert RequestInv(w.net, req);
    if SecondRead(w.server, req, s).NotModified? && req.query.since.value != s.revision {
      var d := w.server.deltaCache.value;
      assert ValidDelta(w.versions, d);
      HeldDeltaTag(w, d);
    }
  }

  /** No answer the browser ever gets is newer than what is published, and each names a snapshot or a valid delta. */
  lemma AnswersAreValid(endpoint: string, steps: seq<Step>, req: Request, resp: Response)
    requires IsRun(Init(endpoint), steps)
    requires (req, resp) in Run(Init(endpoint), steps).net.replied
    ensures var w := Run(Init(endpoint), steps);
      match resp
      case Ok(_, Full(s)) => IsVersion(w.versions, s) && s.revision <= Published(w.server)
      case Ok(_, Partial(d)) => ValidDelta(w.versions, d) && d.revision <= Published(w.server)
      case Conflict(_, s) => IsVersion(w.versions, s) && 0 < s.revision <= Published(w.server)
      case NotModified => true
      case BadRequest => false
  {
    RunInv(endpoint, steps);
  }
}
