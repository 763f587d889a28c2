/**
 The add-request queue (src/externalOpen.ts), the handler it awaits (src/addQueue.ts) and the dialog slot they share
 with the rest of the interface (src/store/ui.ts), as one step system. A step is what runs between two awaits.
 */
module AddQueue {
  import opened Options
  import opened Sequences

  datatype Source = Magnet(uri: string) | Upload(name: string)

  datatype Dialog = AddMagnet | AddFile | Other(name: string)

  /** The dialog slot; `complete` is the callback held for the dialog, named by a ticket. */
  datatype Ui = Ui(dialog: Option<Dialog>, request: Option<Source>, complete: Option<nat>)

  /** What the awaited handler is waiting for; `Settled` once its promise has resolved or rejected. */
  datatype Phase = LoadingSettings | AtDialog(ticket: nat) | Adding | Settled(ok: bool)

  /** One running call of `drain`: suspended in a handler, or done with its `finally` still to run. */
  datatype Drain = Awaiting(source: Source, phase: Phase) | Exited

  datatype Flow = Flow(
    pending: seq<Source>, draining: bool, drains: seq<Drain>, showAddDialog: Option<bool>, ui: Ui,
    nextTicket: nat, called: seq<nat>, handled: seq<Source>, enqueued: seq<Source>)

  const IDLE := Flow([], false, [], None, Ui(None, None, None), 0, [], [], [])

  datatype Step =
    | Enqueue(sources: seq<Source>)
    | SettingsArrive(i: nat, loaded: Option<bool>)
    | AddReturns(i: nat, ok: bool)
    | Resume(i: nat, onErrorThrows: bool)
    | Finally(i: nat)
    | OpenDialog(dialog: Dialog)
    | CloseDialog
    | ChangeSettings(show: bool)

  // --- The dialog slot --------------------------------------------------------

  function OpenExternalAdd(ui: Ui, source: Source, ticket: nat): Ui {
    Ui(Some(if source.Magnet? then AddMagnet else AddFile), Some(source), Some(ticket))
  }

  function OpenOther(ui: Ui, dialog: Dialog): Ui {
    if ui.request.Some? then ui else ui.(dialog := Some(dialog))
  }

  // --- The queue --------------------------------------------------------------

  /** `handleSource` once the settings are known. */
  function Dispatch(f: Flow, source: Source, show: bool): (Flow, Phase) {
    if show then
      (f.(ui := OpenExternalAdd(f.ui, source, f.nextTicket), nextTicket := f.nextTicket + 1), AtDialog(f.nextTicket))
    else (f, Adding)
  }

  /** The synchronous prefix of `handleSource`. */
  function BeginHandler(f: Flow, source: Source): (Flow, Phase) {
    if f.showAddDialog.Some? then Dispatch(f, source, f.showAddDialog.value) else (f, LoadingSettings)
  }

  /** One turn of the loop of `drain`: the next source up to its first await, or the end of the loop. */
  function Turn(f: Flow): (Flow, Drain) {
    if f.pending == [] then (f, Exited)
    else
      var (after, phase) := BeginHandler(f.(pending := f.pending[1..]), f.pending[0]);
      (after, Awaiting(f.pending[0], phase))
  }

  /** `enqueue` after the push: start a drain unless one is under way or there is nothing to do. */
  function Kick(f: Flow): Flow {
    if !f.draining && f.pending != [] then
      var (after, drain) := Turn(f);
      after.(drains := after.drains + [drain], draining := true)
    else f
  }

  /** The drains after the callback `ticket` is called: the handler waiting on it resolves. */
  function Resolve(drains: seq<Drain>, ticket: nat): seq<Drain> {
    seq(|drains|, i requires 0 <= i < |drains| =>
      if drains[i].Awaiting? && drains[i].phase == AtDialog(ticket) then drains[i].(phase := Settled(true)) else drains[i])
  }

  predicate Can(f: Flow, step: Step) {
    match step
    case SettingsArrive(i, _) => i < |f.drains| && f.drains[i].Awaiting? && f.drains[i].phase.LoadingSettings?
    case AddReturns(i, _) => i < |f.drains| && f.drains[i].Awaiting? && f.drains[i].phase.Adding?
    case Resume(i, _) => i < |f.drains| && f.drains[i].Awaiting? && f.drains[i].phase.Settled?
    case Finally(i) => i < |f.drains| && f.drains[i].Exited?
    case _ => true
  }

  function Do(f: Flow, step: Step): Flow
    requires Can(f, step)
  {
    match step
    case Enqueue(sources) => Kick(f.(pending := f.pending + sources, enqueued := f.enqueued + sources))
    case SettingsArrive(i, loaded) =>
      var source := f.drains[i].source;
      // A load that fails rejects the handler.
      if loaded.None? then f.(drains := f.drains[i := Awaiting(source, Settled(false))])
      else
        var (after, phase) := Dispatch(f.(showAddDialog := loaded), source, loaded.value);
        after.(drains := after.drains[i := Awaiting(source, phase)])
    case AddReturns(i, ok) => f.(drains := f.drains[i := Awaiting(f.drains[i].source, Settled(ok))])
    case Resume(i, onErrorThrows) =>
      var g := f.(handled := f.handled + [f.drains[i].source]);
      if !f.drains[i].phase.ok && onErrorThrows then g.(drains := g.drains[i := Exited])
      else
        var (after, drain) := Turn(g);
        after.(drains := after.drains[i := drain])
    case Finally(i) => Kick(f.(drains := f.drains[..i] + f.drains[i + 1..], draining := false))
    case OpenDialog(dialog) => f.(ui := OpenOther(f.ui, dialog))
    case CloseDialog =>
      var closed := f.(ui := Ui(None, None, None));
      if f.ui.complete.None? then closed
      else closed.(called := f.called + [f.ui.complete.value], drains := Resolve(f.drains, f.ui.complete.value))
    case ChangeSettings(show) => f.(showAddDialog := Some(show))
  }

  predicate IsRun(f: Flow, steps: seq<Step>)
    decreases |steps|
  {
    steps == [] || (Can(f, steps[0]) && IsRun(Do(f, steps[0]), steps[1..]))
  }

  function Run(f: Flow, steps: seq<Step>): Flow
    requires IsRun(f, steps)
    decreases |steps|
  {
    if steps == [] then f else Run(Do(f, steps[0]), steps[1..])
  }

  // --- The invariant ----------------------------------------------------------

  /** The sources whose handlers have begun and not been left. */
  function InFlight(drains: seq<Drain>): seq<Source> {
    if drains == [] then []
    else (if drains[0].Awaiting? then [drains[0].source] else []) + InFlight(drains[1..])
  }

  /** The ticket of a handler waiting for its dialog to close. */
  function Waiting(drains: seq<Drain>): Option<nat> {
    if |drains| == 1 && drains[0].Awaiting? && drains[0].phase.AtDialog? then Some(drains[0].phase.ticket) else None
  }

  ghost predicate Inv(f: Flow) {
    && f.handled + InFlight(f.drains) + f.pending == f.enqueued
    && |f.drains| <= 1
    && (f.draining <==> f.drains != [])
    && (f.pending != [] ==> f.draining)
    && f.ui.complete == Waiting(f.drains)
    && (f.ui.complete.Some? ==>
          f.ui.complete.value < f.nextTicket
          && f.ui.request == Some(f.drains[0].source)
          && f.ui.dialog == Some(if f.drains[0].source.Magnet? then AddMagnet else AddFile))
    && (f.ui.complete.None? ==> f.ui.request.None?)
    && (forall i, j :: 0 <= i < j < |f.called| ==> f.called[i] != f.called[j])
    && (forall t: nat :: t in f.called ==> t < f.nextTicket && f.ui.complete != Some(t))
    && (forall t: nat :: t < f.nextTicket ==> t in f.called || f.ui.complete == Some(t))
  }

  /** What `Turn` does from a state whose dialog slot is free. */
  lemma TurnKeeps(f: Flow)
    requires f.ui.complete.None? && f.ui.request.None?
    requires forall i, j :: 0 <= i < j < |f.called| ==> f.called[i] != f.called[j]
    requires forall t: nat :: t in f.called <==> t < f.nextTicket
    ensures var (after, drain) := Turn(f);
      && after.(ui := f.ui, nextTicket := f.nextTicket, pending := f.pending) == f
      && InFlight([drain]) + after.pending == f.pending
      && (drain.Exited? ==> f.pending == [])
      && after.ui.complete == Waiting([drain])
      && (after.ui.complete.Some? ==>
            after.ui.complete.value < after.nextTicket
            && after.ui.request == Some(drain.source)
            && after.ui.dialog == Some(if drain.source.Magnet? then AddMagnet else AddFile))
      && (after.ui.complete.None? ==> after.ui.request.None?)
      && (forall t: nat :: t in after.called ==> t < after.nextTicket && after.ui.complete != Some(t))
      && (forall t: nat :: t < after.nextTicket ==> t in after.called || after.ui.complete == Some(t))
  {}

  lemma KickKeeps(f: Flow)
    requires f.draining ==> Inv(f)
    requires !f.draining ==> f.drains == [] && Inv(f.(pending := [], enqueued := f.handled)) && f.handled + f.pending == f.enqueued
    ensures Inv(Kick(f))
  {}

  lemma {:induction false} StepKeeps(f: Flow, step: Step)
    requires Inv(f) && Can(f, step)
    ensures Inv(Do(f, step))
  {
    if f.drains != [] {
      assert f.drains == [f.drains[0]] && f.drains[1..] == [];
    }
    match step
    case Enqueue(sources) => KickKeeps(f.(pending := f.pending + sources, enqueued := f.enqueued + sources));
    case Resume(i, onErrorThrows) => ResumeKeeps(f, onErrorThrows);
    case Finally(i) =>
      assert f.drains[..0] + f.drains[1..] == [];
      KickKeeps(f.(drains := [], draining := false));
    case _ => HandlerOrDialogKeeps(f, step);
  }

  /** The steps in which no queue loop moves. */
  lemma HandlerOrDialogKeeps(f: Flow, step: Step)
    requires Inv(f) && Can(f, step) && !step.Enqueue? && !step.Resume? && !step.Finally?
    requires f.drains != [] ==> f.drains == [f.drains[0]] && f.drains[1..] == []
    ensures Inv(Do(f, step))
  {}

  lemma ResumeKeeps(f: Flow, onErrorThrows: bool)
    requires Inv(f) && Can(f, Resume(0, onErrorThrows))
    ensures Inv(Do(f, Resume(0, onErrorThrows)))
  {
    assert f.drains == [f.drains[0]] && f.drains[1..] == [];
    var g := f.(handled := f.handled + [f.drains[0].source]);
    TurnKeeps(g);
    assert f.drains[0 := Exited] == [Exited];
    assert f.drains[0 := Turn(g).1] == [Turn(g).1];
  }

  lemma {:induction false} RunKeeps(f: Flow, steps: seq<Step>)
    requires Inv(f) && IsRun(f, steps)
    ensures Inv(Run(f, steps))
    decreases |steps|
  {
    if steps == [] {
    } else {
      StepKeeps(f, steps[0]);
      RunKeeps(Do(f, steps[0]), steps[1..]);
    }
  }

  // --- What every run keeps ---------------------------------------------------

  lemma RunInv(steps: seq<Step>)
    requires IsRun(IDLE, steps)
    ensures Inv(Run(IDLE, steps))
  {
    RunKeeps(IDLE, steps);
  }

  /**
   Nothing is lost or reordered, whatever fails: handled, then in flight, then pending is everything enqueued, in
   order. At most one handler runs at a time, and pending work always has a drain running or a `finally` to come.
   */
  lemma QueueKeepsOrder(steps: seq<Step>)
    requires IsRun(IDLE, steps)
    ensures var f := Run(IDLE, steps);
      && f.handled + InFlight(f.drains) + f.pending == f.enqueued
      && |InFlight(f.drains)| <= |f.drains| <= 1
      && (f.draining <==> |f.drains| == 1)
      && (f.pending != [] ==> |f.drains| == 1)
  {
    RunInv(steps);
    var f := Run(IDLE, steps);
    if f.drains != [] { assert f.drains[1..] == []; }
  }

  /**
   The callback is held exactly while a handler waits for its dialog, that dialog is the one on screen, and every
   callback ever handed over has been called exactly once or is the one still held.
   */
  lemma DialogHandOff(steps: seq<Step>)
    requires IsRun(IDLE, steps)
    ensures var f := Run(IDLE, steps);
      && (f.ui.complete.Some? <==> exists i :: 0 <= i < |f.drains| && f.drains[i].Awaiting? && f.drains[i].phase.AtDialog?)
      && (f.ui.complete.Some? ==>
            && f.ui.request.Some?
            && InFlight(f.drains) == [f.ui.request.value]
            && f.ui.dialog == Some(if f.ui.request.value.Magnet? then AddMagnet else AddFile))
      && (forall t: nat :: multiset(f.called)[t] + (if f.ui.complete == Some(t) then 1 else 0)
                           == if t < f.nextTicket then 1 else 0)
  {
    RunInv(steps);
    var f := Run(IDLE, steps);
    if f.drains != [] { assert f.drains[1..] == []; }
    forall t: nat ensures multiset(f.called)[t] <= 1 { AtMostOnce(f.called, t); }
  }

  /** A held callback leaves the slot only by being called; in particular no `openDialog` touches it. */
  lemma {:induction false} CallbackLeavesByBeingCalled(steps: seq<Step>, step: Step)
    requires IsRun(IDLE, steps) && Can(Run(IDLE, steps), step)
    requires Run(IDLE, steps).ui.complete.Some?
    ensures var f, g := Run(IDLE, steps), Do(Run(IDLE, steps), step);
      && (step.CloseDialog? ==> f.ui.request.Some? && g.ui == Ui(None, None, None) && g.called == f.called + [f.ui.complete.value]
                                && g.drains == [Awaiting(f.ui.request.value, Settled(true))])
      && (!step.CloseDialog? ==> g.ui == f.ui && g.called == f.called && g.drains == f.drains)
  {
    RunInv(steps);
  }

  // --- Everything gets handled ------------------------------------------------

  /** How far the work in hand is from done. */
  function Remaining(f: Flow): nat {
    4 * |f.pending| + if f.drains == [] then 0 else if f.drains[0].Exited? then 1 else
      match f.drains[0].phase
      case LoadingSettings => 4
      case AtDialog(_) => 3
      case Adding => 3
      case Settled(_) => 2
  }

  /** While there is work, some step other than a new request is possible and brings it closer to done. */
  lemma {:induction false} WorkProceeds(f: Flow) returns (step: Step)
    requires Inv(f) && f.drains != []
    ensures Can(f, step) && !step.Enqueue?
    ensures Remaining(Do(f, step)) < Remaining(f)
    ensures Do(f, step).enqueued == f.enqueued
  {
    match f.drains[0]
    case Exited => step := Finally(0); assert f.drains[..0] + f.drains[1..] == [];
    case Awaiting(_, phase) =>
      match phase
      case LoadingSettings => step := SettingsArrive(0, None);
      case AtDialog(t) => step := CloseDialog;
      case Adding => step := AddReturns(0, true);
      case Settled(_) => step := Resume(0, true);
  }

  /** From every state a run can reach, everything enqueued so far can still be handled, in order. */
  lemma {:induction false} EverythingCanBeHandled(f: Flow) returns (steps: seq<Step>)
    requires Inv(f)
    ensures IsRun(f, steps)
    ensures Run(f, steps).handled == f.enqueued && Run(f, steps).drains == [] && Run(f, steps).pending == []
    decreases Remaining(f)
  {
    if f.drains == [] {
      steps := [];
    } else {
      var step := WorkProceeds(f);
      StepKeeps(f, step);
      var rest := EverythingCanBeHandled(Do(f, step));
      steps := [step] + rest;
      assert steps[1..] == rest;
    }
  }

  // --- Why the handler must not enqueue before its first await ------------------

  /** `enqueue(sources)` on an idle queue whose first handler calls `enqueue(inner)` before it awaits anything. */
  function ReentrantEnqueue(f: Flow, sources: seq<Source>, inner: seq<Source>): Flow {
    var pushed := f.(pending := f.pending + sources, enqueued := f.enqueued + sources);
    if pushed.draining || pushed.pending == [] then pushed
    else
      var (begun, drain) := Turn(pushed);
      var nested := Kick(begun.(pending := begun.pending + inner, enqueued := begun.enqueued + inner));
      nested.(drains := nested.drains + [drain], draining := true)
  }

  /** `draining` is assigned only after that prefix has run, so such a call starts a second drain beside the first. */
  lemma {:induction false} ReentrancyBreaksTheQueue(sources: seq<Source>, inner: seq<Source>)
    requires sources != []
    ensures |InFlight(ReentrantEnqueue(IDLE, sources, inner).drains)| == 2 <==> |sources| + |inner| >= 2
    ensures |InFlight(ReentrantEnqueue(IDLE, sources, inner).drains)| == 1 <==> |sources| + |inner| == 1
  {
    var f := ReentrantEnqueue(IDLE, sources, inner);
    var (begun, drain) := Turn(IDLE.(pending := sources, enqueued := sources));
    assert [] + sources == sources;
    assert begun.pending + inner == sources[1..] + inner;
    if |sources| + |inner| >= 2 {
      var nested := Turn(begun.(pending := begun.pending + inner, enqueued := begun.enqueued + inner)).1;
      assert f.drains == [nested, drain] && f.drains[1..] == [drain] && [drain][1..] == [];
      assert InFlight([drain]) == [drain.source];
      assert InFlight(f.drains) == [nested.source] + InFlight([drain]);
    } else {
      assert f.drains == [drain] && f.drains[1..] == [];
    }
  }
}
