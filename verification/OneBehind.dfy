/**
 How far a delta reaches: the delta route promises one to a client "exactly one behind". That is so while every snapshot
 encodes; a snapshot that does not uses up a revision without being published.
 */
module OneBehind {
  import opened Deltas
  import opened Healing
  import opened Options
  import opened PollClient
  import opened Publisher
  import opened Sync
  import opened SyncTheorems
  import opened TorrentLaws
  import opened Torrents

  /** Every snapshot polled in the run encodes. */
  ghost predicate AllEncode(steps: seq<Step>) {
    forall step :: step in steps && step.PollBegins? ==> step.poll.bodyOk
  }

  predicate OneStepOn(d: Delta) {
    d.revision == d.baseRevision + 1
  }

  /** The snapshot compared with next, or in the making, is that of the present revision. */
  ghost predicate Tight(sv: Server) {
    && (sv.deltaCache.Some? ==> OneStepOn(sv.deltaCache.value))
    && match sv.stage
       case Idle => sv.prev.Some? ==> sv.prev.value.revision == sv.revision
       case Assembled(s, write) => s.revision == sv.revision && (write.Put? ==> OneStepOn(write.delta))
       case DeltaWritten(s) => s.revision == sv.revision
       case PrevWritten(s) => s.revision == sv.revision && sv.prev == Some(s)
  }

  ghost predicate RepliesTight(net: Net) {
    forall pair :: pair in net.replied && pair.1.Ok? && pair.1.body.Partial? ==> OneStepOn(pair.1.body.delta)
  }

  lemma TightStep(w: World, step: Step)
    requires Tight(w.server) && RepliesTight(w.net) && Can(w, step)
    requires step.PollBegins? ==> step.poll.bodyOk
    ensures Tight(Do(w, step).server) && RepliesTight(Do(w, step).net)
  {}

  lemma {:induction false} TightRun(w: World, steps: seq<Step>)
    requires Tight(w.server) && RepliesTight(w.net) && IsRun(w, steps) && AllEncode(steps)
    ensures Tight(Run(w, steps).server) && RepliesTight(Run(w, steps).net)
    decreases |steps|
  {
    if steps == [] {
    } else {
      assert steps[0] in steps;
      TightStep(w, steps[0]);
      TightRun(Do(w, steps[0]), steps[1..]);
    }
  }

  /** In every run whose snapshots all encode, a client sent a delta is exactly one revision behind it. */
  lemma DeltasReachOneStep(endpoint: string, steps: seq<Step>, req: Request, tag: Tag, d: Delta)
    requires IsRun(Init(endpoint), steps) && AllEncode(steps)
    requires (req, Ok(tag, Partial(d))) in Run(Init(endpoint), steps).net.replied
    ensures req.query.DeltaSince? && req.query.since.Some? && d.revision == req.query.since.value + 1
  {
    TightRun(Init(endpoint), steps);
    RunInv(endpoint, steps);
    assert ResponseInv(Run(Init(endpoint), steps).versions, Published(Run(Init(endpoint), steps).server), req, Ok(tag, Partial(d)));
  }

  /** At any poll: the delta it computes reaches one step exactly if the last revision used was published. */
  lemma ReachesOneStepExactly(sv: Server, p: Poll, d: Delta)
    requires ServerCan(sv, PollBegins(p, d)) && !ShouldFull(sv)
    ensures OneStepOn(d) <==> sv.prev.value.revision == sv.revision
  {}

  /** A run in which a delta reaches two: the snapshot between its own and its base did not encode. */
  lemma ATwoStepDeltaIsReached(endpoint: string, now: int) returns (steps: seq<Step>)
    ensures IsRun(Init(endpoint), steps)
    ensures var sv := Run(Init(endpoint), steps).server;
      sv.deltaCache.Some? && sv.deltaCache.value.revision == sv.deltaCache.value.baseRevision + 2
  {
    var first := FirstTick(endpoint, EMPTY_POLL, now);
    var w := Run(Init(endpoint), first);
    var lost := EMPTY_POLL.(bodyOk := false);
    var d := PollDelta(w.server, lost);
    DiffIsDelta(w.server.prev.value, SnapshotOf(w.server, lost));
    var w1 := Do(w, PollBegins(lost, d));
    var d1 := PollDelta(w1.server, EMPTY_POLL);
    DiffIsDelta(w1.server.prev.value, SnapshotOf(w1.server, EMPTY_POLL));
    var third := PublishAndTick(w1, EMPTY_POLL, d1, now);
    Prepend(w, PollBegins(lost, d), third);
    RunConcat(Init(endpoint), first, [PollBegins(lost, d)] + third);
    steps := first + ([PollBegins(lost, d)] + third);
  }
}
