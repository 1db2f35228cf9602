// The mock quote adapter as an object whose control methods follow the
// two-thread machine.
module MockQuote {
  import opened VenueTypes
  import T = TickGenerator
  import L = QuoteLifecycle

  class MockQuoteApi {
    var config: string   // the connect request
    var connected: bool
    var running: bool
    var instruments: seq<string>
    var thread: L.TickThread
    var basePrice: real  // the tick thread's own
    // What the subscriptions and the tick thread have done so far.
    var installed: seq<seq<string>>
    var sweeps: seq<L.Sweep>
    var published: seq<string>
    var prices: seq<real>
    var acquired: nat

    /** The machine state with the control thread at the given place. */
    ghost function At(control: L.Control): L.Quote
      reads this
    {
      L.Quote(connected, running, control, thread, instruments, installed, sweeps,
              basePrice, published, prices, acquired, false)
    }

    /** Between control calls the object satisfies the machine's invariant. */
    ghost predicate Valid()
      reads this
    {
      L.Inv(At(L.Idle))
    }

    constructor ()
      ensures At(L.Idle) == L.START && Valid()
      ensures !connected && !running && thread.NoThread? && instruments == [] && published == []
    {
      config, connected, running, thread, instruments := "", false, false, L.NoThread, [];
      installed, sweeps, basePrice, published, prices, acquired := [[]], [], T.START_PRICE, [], [], 0;
      new;
      L.InvRun(L.START, []);
    }

    /** A second Connect succeeds too, keeps the first configuration and starts no thread. */
    method Connect(request: string) returns (rc: ErrorCode)
      requires Valid()
      modifies this
      ensures Valid() && rc == Success
      ensures config == if old(connected) then old(config) else request
      ensures At(L.Idle) == L.Exec(old(At(L.Idle)), [L.StartConnect, L.ControlStep, L.ControlStep])
      ensures connected && running && !thread.NoThread?
    {
      ghost var before := At(L.Idle);
      L.InvRun(before, [L.StartConnect, L.ControlStep, L.ControlStep]);
      L.ThreeSteps(before, L.StartConnect, L.ControlStep, L.ControlStep);
      hide L.Exec, L.SweepInv;
      if connected {
        return Success;
      }
      config := request;
      connected := true;
      running := true;
      thread := L.Checking;
      basePrice := T.START_PRICE;
      rc := Success;
    }

    /**
     * Disconnect waits in its join while the tick thread runs on, always comes
     * back and leaves no thread behind. What is published meanwhile is the rest of
     * a sweep in progress, or one whole sweep if the thread was waiting for the mutex.
     */
    method Disconnect()
      requires Valid()
      modifies this
      ensures Valid()
      ensures !connected && !running && thread.NoThread?
      ensures config == old(config) && instruments == old(instruments) && installed == old(installed)
      ensures acquired == old(acquired) + (if old(thread).Waiting? then 1 else 0)
      ensures published == old(published) + (if old(thread).Waiting? then old(instruments) else old(Unsent()))
    {
      if !connected {
        return;
      }
      StopRequested(At(L.Idle));
      hide L.Inv, L.Stopped, L.Work, L.Tick;
      running := false;
      ghost var all := published + Owed(At(L.Joining));
      while !(thread.NoThread? || thread.Exited?)
        invariant L.Inv(At(L.Joining)) && L.Stopped(At(L.Joining))
        invariant config == old(config) && instruments == old(instruments) && installed == old(installed)
        invariant acquired + L.SweepsToCome(At(L.Joining)) == old(acquired) + (if old(thread).Waiting? then 1 else 0)
        invariant published + Owed(At(L.Joining)) == all
        decreases L.Work(At(L.Joining))
      {
        var step: real := *;
        WaitStep(At(L.Joining), step);
        TickThreadStep(L.Joining, step);
      }
      JoinDone(At(L.Joining));
      assert published + [] == published && old(published) + [] == old(published);
      thread := L.NoThread;
      connected := false;
    }

    /** Waits for the mutex, that is for a sweep in progress to end, and installs the list. */
    method Subscribe(list: seq<string>) returns (rc: ErrorCode)
      requires Valid()
      modifies this
      ensures Valid()
      ensures rc == Success && instruments == list && installed == old(installed) + [list]
      ensures config == old(config) && connected == old(connected) && running == old(running)
      ensures published == old(published) + old(Unsent())
    {
      FinishSweep();
      L.LifecycleStep(At(L.Idle), L.Subscribe(list));
      L.SweepStep(At(L.Idle), L.Subscribe(list));
      hide L.SweepInv;
      instruments := list;
      installed := installed + [list];
      rc := Success;
    }

    method Unsubscribe() returns (rc: ErrorCode)
      requires Valid()
      modifies this
      ensures Valid()
      ensures rc == Success && instruments == [] && installed == old(installed) + [[]]
      ensures config == old(config) && connected == old(connected) && running == old(running)
      ensures published == old(published) + old(Unsent())
    {
      FinishSweep();
      L.LifecycleStep(At(L.Idle), L.Unsubscribe);
      L.SweepStep(At(L.Idle), L.Unsubscribe);
      hide L.SweepInv;
      instruments := [];
      installed := installed + [[]];
      rc := Success;
    }

    /** What happens while a control call waits for the mutex: the sweep in progress publishes the rest of its list. */
    method FinishSweep()
      requires Valid()
      modifies this
      ensures Valid() && !thread.Sweeping?
      ensures config == old(config) && connected == old(connected) && running == old(running)
      ensures instruments == old(instruments) && installed == old(installed)
      ensures published == old(published) + old(Unsent())
    {
      hide L.SweepInv, L.LifecycleInv, L.Tick;
      ghost var all := published + Unsent();
      while thread.Sweeping?
        invariant Valid()
        invariant config == old(config) && connected == old(connected) && running == old(running)
        invariant instruments == old(instruments) && installed == old(installed)
        invariant published + Unsent() == all
        decreases thread.Sweeping?, |Unsent()|
      {
        var step: real := *;
        ghost var q := At(L.Idle);
        SentWithinList(q);
        SweepProgress(q, step);
        L.LifecycleStep(q, L.TickStep(step));
        L.SweepStep(q, L.TickStep(step));
        TickThreadStep(L.Idle, step);
      }
      assert published + [] == published && old(published) + [] == old(published);
    }

    /** What the sweep in progress has still to publish. */
    ghost function Unsent(): seq<string>
      reads this
    {
      Rest(At(L.Idle))
    }

    /** One tick of a sweep. */
    method Publish(instrument: string, step: real)
      modifies `basePrice, `published, `prices
      ensures basePrice == old(basePrice) + step
      ensures published == old(published) + [instrument] && prices == old(prices) + [basePrice]
    {
      basePrice := basePrice + step;
      published := published + [instrument];
      prices := prices + [basePrice];
    }

    /** One step of the tick thread, wherever the control thread is; a tick it publishes moves the price by step. */
    method TickThreadStep(ghost control: L.Control, step: real)
      requires thread.Sweeping? ==> |thread.sent| <= |instruments|
      modifies this
      ensures At(control) == L.Tick(old(At(control)), step) && config == old(config)
    {
      match thread
      case NoThread =>
      case Exited =>
      case Checking =>
        thread := if running then L.Waiting else L.Exited;
      case Waiting =>
        thread := L.Sweeping(|installed|, []);
        acquired := acquired + 1;
      case Sweeping(version, sent) =>
        if |sent| < |instruments| {
          Publish(instruments[|sent|], step);
          thread := L.Sweeping(version, sent + [instruments[|sent|]]);
        } else {
          thread := L.Resting;
          sweeps := sweeps + [L.Sweep(version, sent)];
        }
      case Resting =>
        thread := L.Checking;
    }
  }

  lemma StopRequested(q: L.Quote)
    requires L.Inv(q) && q.control.Idle? && q.connected
    ensures var w := q.(running := false, control := L.Joining);
            && L.Inv(w) && L.Stopped(w) && (w.thread.Sweeping? ==> |w.thread.sent| <= |w.instruments|)
  {
  }

  /** A thread told to stop publishes what it still owes. */
  lemma OwedStep(q: L.Quote, step: real)
    requires L.Stopped(q) && (q.thread.Sweeping? ==> |q.thread.sent| <= |q.instruments|)
    ensures L.Tick(q, step).published + Owed(L.Tick(q, step)) == q.published + Owed(q)
  {
  }

  lemma WaitStep(q: L.Quote, step: real)
    requires L.Inv(q) && L.Stopped(q) && q.control.Joining? && !q.thread.NoThread? && !q.thread.Exited?
    ensures q.thread.Sweeping? ==> |q.thread.sent| <= |q.instruments|
    ensures var w := L.Tick(q, step);
            && L.Inv(w) && L.Stopped(w) && L.Work(w) < L.Work(q)
            && w.acquired + L.SweepsToCome(w) == q.acquired + L.SweepsToCome(q)
            && w.published + Owed(w) == q.published + Owed(q)
            && w.instruments == q.instruments && w.installed == q.installed && w.control == q.control
            && w.connected == q.connected && w.running == q.running
  {
    OwedStep(q, step);
    L.StoppedStep(q, L.TickStep(step));
    L.LifecycleStep(q, L.TickStep(step));
    L.SweepStep(q, L.TickStep(step));
    hide L.SweepInv, Owed;
  }

  lemma JoinDone(q: L.Quote)
    requires L.Inv(q) && q.control.Joining? && (q.thread.NoThread? || q.thread.Exited?)
    ensures L.Inv(q.(thread := L.NoThread, connected := false, control := L.Idle)) && !q.running
  {
  }

  ghost function Rest(q: L.Quote): seq<string> {
    if q.thread.Sweeping? && |q.thread.sent| <= |q.instruments| then q.instruments[|q.thread.sent|..] else []
  }

  /** What the tick thread still publishes once it has been told to stop. */
  ghost function Owed(q: L.Quote): seq<string> {
    if q.thread.Waiting? then q.instruments else Rest(q)
  }

  lemma SweepProgress(q: L.Quote, step: real)
    requires q.thread.Sweeping? && |q.thread.sent| <= |q.instruments|
    ensures var w := L.Tick(q, step);
            && w.published + Rest(w) == q.published + Rest(q)
            && (!w.thread.Sweeping? || |Rest(w)| < |Rest(q)|)
            && w.instruments == q.instruments && w.installed == q.installed
            && w.connected == q.connected && w.running == q.running
  {
  }

  lemma SentWithinList(q: L.Quote)
    requires L.SweepInv(q) && q.thread.Sweeping?
    ensures |q.thread.sent| <= |q.instruments|
  {
  }
}
