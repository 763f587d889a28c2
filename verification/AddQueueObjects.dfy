/** The queue object and the dialog store with their fields, each method proved against the step it takes. */
module AddQueueObjects {
  import opened Options
  import opened AddQueue

  class UiStore {
    var dialog: Option<Dialog>
    var externalAddRequest: Option<Source>
    var externalAddComplete: Option<nat>
    var nextTicket: nat
    var called: seq<nat>

    ghost function View(): Ui
      reads this
    {
      Ui(dialog, externalAddRequest, externalAddComplete)
    }

    constructor ()
      ensures View() == IDLE.ui && nextTicket == 0 && called == []
    {
      dialog, externalAddRequest, externalAddComplete, nextTicket, called := None, None, None, 0, [];
    }

    method OpenDialog(d: Dialog)
      modifies this`dialog
      ensures View() == OpenOther(old(View()), d)
    {
      if externalAddRequest.Some? {
        return;
      }
      dialog := Some(d);
    }

    method OpenExternalAdd(source: Source) returns (ticket: nat)
      modifies this
      ensures View() == AddQueue.OpenExternalAdd(old(View()), source, ticket)
      ensures ticket == old(nextTicket) && nextTicket == ticket + 1 && called == old(called)
    {
      ticket := nextTicket;
      nextTicket := nextTicket + 1;
      dialog := Some(if source.Magnet? then AddMagnet else AddFile);
      externalAddRequest := Some(source);
      externalAddComplete := Some(ticket);
    }
  }

  class OpenRequestQueue {
    const ui: UiStore
    var pending: seq<Source>
    var draining: bool
    var drains: seq<Drain>
    var showAddDialog: Option<bool>
    ghost var handled: seq<Source>
    ghost var enqueued: seq<Source>

    ghost function View(): Flow
      reads this, ui
    {
      Flow(pending, draining, drains, showAddDialog, ui.View(), ui.nextTicket, ui.called, handled, enqueued)
    }

    constructor (ui: UiStore)
      requires ui.View() == IDLE.ui && ui.nextTicket == 0 && ui.called == []
      ensures this.ui == ui && View() == IDLE
    {
      this.ui := ui;
      pending, draining, drains, showAddDialog, handled, enqueued := [], false, [], None, [], [];
    }

    method DispatchSource(source: Source, show: bool) returns (phase: Phase)
      modifies ui
      ensures (View(), phase) == Dispatch(old(View()), source, show)
    {
      if show {
        var ticket := ui.OpenExternalAdd(source);
        return AtDialog(ticket);
      }
      return Adding;
    }

    /** The loop of `drain` from one suspension to the next. */
    method DrainTurn() returns (drain: Drain)
      modifies this`pending, ui
      ensures (View(), drain) == Turn(old(View()))
    {
      if pending == [] {
        return Exited;
      }
      var source := pending[0];
      pending := pending[1..];
      var phase := LoadingSettings;
      if showAddDialog.Some? {
        phase := DispatchSource(source, showAddDialog.value);
      }
      return Awaiting(source, phase);
    }

    method Enqueue(sources: seq<Source>)
      modifies this, ui
      ensures View() == Do(old(View()), Step.Enqueue(sources))
    {
      pending := pending + sources;
      enqueued := enqueued + sources;
      if !draining && pending != [] {
        var drain := DrainTurn();
        drains := drains + [drain];
        draining := true;
      }
    }

    /** The handler goes on when `load` has returned; if that failed, it throws. */
    method SettingsArrived(i: nat, loaded: Option<bool>)
      requires Can(View(), SettingsArrive(i, loaded))
      modifies this, ui
      ensures View() == Do(old(View()), SettingsArrive(i, loaded))
    {
      var source := drains[i].source;
      var phase := Settled(false);
      if loaded.Some? {
        showAddDialog := loaded;
        phase := DispatchSource(source, loaded.value);
      }
      drains := drains[i := Awaiting(source, phase)];
    }

    /** The command or the upload of an instant add has returned, or failed. */
    method AddReturned(i: nat, ok: bool)
      requires Can(View(), AddReturns(i, ok))
      modifies this
      ensures View() == Do(old(View()), AddReturns(i, ok))
    {
      drains := drains[i := Awaiting(drains[i].source, Settled(ok))];
    }

    /** The awaited handler has settled: report a failure, then go on with the loop. */
    method HandlerSettled(i: nat, onErrorThrows: bool)
      requires Can(View(), Resume(i, onErrorThrows))
      modifies this, ui
      ensures View() == Do(old(View()), Resume(i, onErrorThrows))
    {
      handled := handled + [drains[i].source];
      if !drains[i].phase.ok && onErrorThrows {
        drains := drains[i := Exited];
      } else {
        var drain := DrainTurn();
        drains := drains[i := drain];
      }
    }

    method RunFinally(i: nat)
      requires Can(View(), Finally(i))
      modifies this, ui
      ensures View() == Do(old(View()), Finally(i))
    {
      drains := drains[..i] + drains[i + 1..];
      draining := false;
      if pending != [] {
        assert pending + [] == pending && enqueued + [] == enqueued;
        Enqueue([]);
      }
    }

    method CloseDialog()
      modifies this, ui
      ensures View() == Do(old(View()), Step.CloseDialog)
    {
      var complete := ui.externalAddComplete;
      ui.dialog, ui.externalAddRequest, ui.externalAddComplete := None, None, None;
      if complete.Some? {
        ui.called := ui.called + [complete.value];
        drains := Resolve(drains, complete.value);
      }
    }
  }
}
