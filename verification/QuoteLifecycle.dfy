// The mock tick generator's two threads: a control thread that connects,
// subscribes and disconnects, and a tick thread that publishes one sweep of the
// subscription at a time under the mutex, walking its price from tick to tick.
module QuoteLifecycle {
  import opened TickGenerator

  /** Where the control thread stands; the sub-steps of Connect and Disconnect are separate. */
  datatype Control =
    | Idle
    | MarkedConnected   // Connect: connected set, running still to set
    | MarkedRunning     // Connect: running set, thread still to start
    | Stopping          // Disconnect: found connected, running still to clear
    | Joining           // Disconnect: running cleared, waiting for the tick thread
    | Joined            // Disconnect: thread gone, connected still to clear

  datatype TickThread =
    | NoThread
    | Checking                                      // about to test running
    | Waiting                                       // about to take the mutex
    | Sweeping(version: nat, sent: seq<string>)     // holds the mutex
    | Resting                                       // mutex released, asleep
    | Exited                                        // finished, not joined yet

  /** A finished sweep: how many subscriptions had been installed by then, and what it published. */
  datatype Sweep = Sweep(version: nat, ticks: seq<string>)

  datatype Quote = Quote(
    connected: bool,
    running: bool,
    control: Control,
    thread: TickThread,
    instruments: seq<string>,
    installed: seq<seq<string>>,   // every subscription list so far, the empty one first
    sweeps: seq<Sweep>,            // finished sweeps
    basePrice: real,               // the tick thread's own, from its start on
    published: seq<string>,        // every tick, by instrument
    prices: seq<real>,             // and by its last price
    acquired: nat,                 // times the tick thread took the mutex
    aborted: bool)                 // a joinable thread was replaced, which terminates the process

  const START := Quote(false, false, Idle, NoThread, [], [[]], [], START_PRICE, [], [], 0, false)

  datatype Action =
    | StartConnect
    | StartDisconnect
    | Subscribe(instruments: seq<string>)
    | Unsubscribe
    | ControlStep   // the next sub-step of the Connect or Disconnect in progress
    | TickStep(step: real)   // the next step of the tick thread; a tick it publishes moves the price by this much

  function Install(q: Quote, list: seq<string>): Quote {
    q.(instruments := list, installed := q.installed + [list])
  }

  /** The mutex is free for the control thread. */
  predicate MutexFree(q: Quote) {
    !q.thread.Sweeping?
  }

  function AdvanceControl(q: Quote): Quote {
    match q.control
    case Idle => q
    case MarkedConnected => q.(running := true, control := MarkedRunning)
    case MarkedRunning =>
      q.(thread := Checking, basePrice := START_PRICE, aborted := q.aborted || !q.thread.NoThread?, control := Idle)
    case Stopping => q.(running := false, control := Joining)
    case Joining =>
      if q.thread.NoThread? || q.thread.Exited? then q.(thread := NoThread, control := Joined) else q
    case Joined => q.(connected := false, control := Idle)
  }

  function Tick(q: Quote, step: real): Quote {
    match q.thread
    case NoThread => q
    case Checking => if q.running then q.(thread := Waiting) else q.(thread := Exited)
    case Waiting => q.(thread := Sweeping(|q.installed|, []), acquired := q.acquired + 1)
    case Sweeping(version, sent) =>
      if |sent| < |q.instruments|
      then q.(thread := Sweeping(version, sent + [q.instruments[|sent|]]),
              basePrice := q.basePrice + step,
              published := q.published + [q.instruments[|sent|]],
              prices := q.prices + [q.basePrice + step])
      else q.(thread := Resting, sweeps := q.sweeps + [Sweep(version, sent)])
    case Resting => q.(thread := Checking)
    case Exited => q
  }

  /** One step of either thread. A step that is not possible leaves the state as it is. */
  function Apply(q: Quote, a: Action): Quote {
    match a
    case StartConnect =>
      if q.control.Idle? && !q.connected then q.(connected := true, control := MarkedConnected) else q
    case StartDisconnect => if q.control.Idle? && q.connected then q.(control := Stopping) else q
    case Subscribe(list) => if q.control.Idle? && MutexFree(q) then Install(q, list) else q
    case Unsubscribe => if q.control.Idle? && MutexFree(q) then Install(q, []) else q
    case ControlStep => AdvanceControl(q)
    case TickStep(step) => Tick(q, step)
  }

  function Exec(q: Quote, run: seq<Action>): Quote
    decreases |run|
  {
    if run == [] then q else Exec(Apply(q, run[0]), run[1..])
  }

  // ---- the lifecycle of the tick thread ----

  ghost predicate LifecycleInv(q: Quote) {
    && !q.aborted
    && match q.control
       case Idle =>
         if q.connected then q.running && !q.thread.NoThread? && !q.thread.Exited?
         else !q.running && q.thread.NoThread?
       case MarkedConnected => q.connected && !q.running && q.thread.NoThread?
       case MarkedRunning => q.connected && q.running && q.thread.NoThread?
       case Stopping => q.connected && q.running && !q.thread.NoThread? && !q.thread.Exited?
       case Joining => q.connected && !q.running && !q.thread.NoThread?
       case Joined => q.connected && !q.running && q.thread.NoThread?
  }

  // ---- what a sweep publishes ----

  ghost predicate SweepInv(q: Quote) {
    && 0 < |q.installed| && q.installed[|q.installed| - 1] == q.instruments
    && (q.thread.Sweeping? ==> q.thread.version == |q.installed| && q.thread.sent <= q.instruments)
    && (forall i :: 0 <= i < |q.sweeps| ==>
          1 <= q.sweeps[i].version <= |q.installed| && q.sweeps[i].ticks == q.installed[q.sweeps[i].version - 1])
    && (forall i, j :: 0 <= i < j < |q.sweeps| ==> q.sweeps[i].version <= q.sweeps[j].version)
    && q.published == Ticks(q.sweeps) + InProgress(q)
    && |q.prices| == |q.published|
  }

  function InProgress(q: Quote): seq<string> {
    if q.thread.Sweeping? then q.thread.sent else []
  }

  function Ticks(sweeps: seq<Sweep>): seq<string> {
    if sweeps == [] then [] else Ticks(sweeps[..|sweeps| - 1]) + sweeps[|sweeps| - 1].ticks
  }

  ghost predicate Inv(q: Quote) {
    LifecycleInv(q) && SweepInv(q)
  }

  lemma LifecycleStep(q: Quote, a: Action)
    requires LifecycleInv(q)
    ensures LifecycleInv(Apply(q, a))
  {
  }

  lemma InstallKeepsSweeps(q: Quote, list: seq<string>)
    requires SweepInv(q) && MutexFree(q)
    ensures SweepInv(Install(q, list))
  {
  }

  lemma PublishKeepsSweeps(q: Quote, step: real)
    requires SweepInv(q) && q.thread.Sweeping? && |q.thread.sent| < |q.instruments|
    ensures SweepInv(Tick(q, step))
  {
  }

  lemma FinishKeepsSweeps(q: Quote, step: real)
    requires SweepInv(q) && q.thread.Sweeping? && |q.thread.sent| == |q.instruments|
    ensures SweepInv(Tick(q, step))
  {
  }

  /** A step that neither publishes nor installs, and starts at most an empty sweep. */
  lemma SameSweeps(q: Quote, w: Quote)
    requires SweepInv(q) && w.instruments == q.instruments && w.installed == q.installed
    requires w.sweeps == q.sweeps && w.published == q.published && w.prices == q.prices
    requires w.thread == q.thread ||
             (!q.thread.Sweeping? && (w.thread.Sweeping? ==> w.thread == Sweeping(|q.installed|, [])))
    ensures SweepInv(w)
  {
  }

  lemma TickKeepsSweeps(q: Quote, step: real)
    requires SweepInv(q)
    ensures SweepInv(Tick(q, step))
  {
    if !q.thread.Sweeping? {
      SameSweeps(q, Tick(q, step));
    } else if |q.thread.sent| < |q.instruments| {
      PublishKeepsSweeps(q, step);
    } else {
      FinishKeepsSweeps(q, step);
    }
  }

  lemma SweepStep(q: Quote, a: Action)
    requires LifecycleInv(q) && SweepInv(q)
    ensures SweepInv(Apply(q, a))
  {
    hide SweepInv;
    match a
    case Subscribe(list) => if q.control.Idle? && MutexFree(q) { InstallKeepsSweeps(q, list); }
    case Unsubscribe => if q.control.Idle? && MutexFree(q) { InstallKeepsSweeps(q, []); }
    case TickStep(step) => TickKeepsSweeps(q, step);
    case _ => SameSweeps(q, Apply(q, a));
  }

  lemma {:induction false} InvRun(q: Quote, run: seq<Action>)
    requires Inv(q)
    ensures Inv(Exec(q, run))
    decreases |run|
  {
    if run != [] {
      LifecycleStep(q, run[0]);
      SweepStep(q, run[0]);
      InvRun(Apply(q, run[0]), run[1..]);
    }
  }

  /**
   * In every interleaving each finished sweep publishes exactly one tick per
   * entry, in order, of one installed subscription; sweeps use subscriptions in
   * the order they were installed; the sweep in progress has published a prefix
   * of the current one; and nothing else is ever published.
   */
  lemma EverySweepIsOneSubscription(run: seq<Action>)
    ensures SweepInv(Exec(START, run))
  {
    InvRun(START, run);
  }

  /** Connect never replaces a thread that is still joinable. */
  lemma ConnectNeverReplacesThread(run: seq<Action>)
    ensures !Exec(START, run).aborted
    ensures Exec(START, run).control.MarkedRunning? ==> Exec(START, run).thread.NoThread?
  {
    InvRun(START, run);
  }

  // ---- after Disconnect has been requested ----

  /** Disconnect has cleared the running flag and no Connect has set it since. */
  ghost predicate Stopped(q: Quote) {
    && !q.running
    && (q.control.Joining? || q.control.Joined? || (q.control.Idle? && !q.connected))
  }

  /** Steps the tick thread still takes once running is cleared. */
  function Work(q: Quote): nat {
    match q.thread
    case NoThread => 0
    case Exited => 0
    case Checking => 1
    case Resting => 2
    case Sweeping(_, sent) => if |sent| <= |q.instruments| then |q.instruments| - |sent| + 3 else 3
    case Waiting => |q.instruments| + 4
  }

  function SweepsToCome(q: Quote): nat {
    if q.thread.Waiting? then 1 else 0
  }

  function TickSteps(run: seq<Action>): nat {
    if run == [] then 0 else (if run[0].TickStep? then 1 else 0) + TickSteps(run[1..])
  }

  ghost predicate NoConnect(run: seq<Action>) {
    forall a :: a in run ==> !a.StartConnect?
  }

  lemma StoppedStep(q: Quote, a: Action)
    requires Inv(q) && Stopped(q) && !a.StartConnect?
    ensures var w := Apply(q, a);
            && Stopped(w)
            && w.acquired + SweepsToCome(w) == q.acquired + SweepsToCome(q)
            && (if a.TickStep? && 0 < Work(q) then Work(w) == Work(q) - 1 else Work(w) == 0 || Work(w) == Work(q))
            && (Work(q) == 0 ==> w.published == q.published && w.sweeps == q.sweeps && Work(w) == 0)
  {
  }

  lemma {:induction false} StoppedRun(q: Quote, run: seq<Action>)
    requires Inv(q) && Stopped(q) && NoConnect(run)
    ensures Stopped(Exec(q, run))
    ensures Exec(q, run).acquired <= q.acquired + SweepsToCome(q)
    ensures Work(q) <= TickSteps(run) ==> Work(Exec(q, run)) == 0
    ensures Work(q) == 0 ==> Exec(q, run).published == q.published
    decreases |run|
  {
    if run != [] {
      StoppedStep(q, run[0]);
      LifecycleStep(q, run[0]);
      SweepStep(q, run[0]);
      assert run == [run[0]] + run[1..];
      StoppedRun(Apply(q, run[0]), run[1..]);
    }
  }

  /**
   * From the moment Disconnect clears the running flag, and until the next
   * Connect, the tick thread takes the mutex at most once more, and not at all
   * unless it was already waiting for it.
   */
  lemma AtMostOneMoreSweep(before: seq<Action>, after: seq<Action>)
    requires Exec(START, before).control.Joining? && NoConnect(after)
    ensures var q := Exec(START, before);
            Exec(q, after).acquired <= q.acquired + (if q.thread.Waiting? then 1 else 0)
  {
    InvRun(START, before);
    StoppedRun(Exec(START, before), after);
  }

  /**
   * The join terminates: once the tick thread has been scheduled as often as its
   * remaining work, it has finished, and two more control steps end Disconnect.
   */
  lemma DisconnectTerminates(before: seq<Action>, after: seq<Action>)
    requires Exec(START, before).control.Joining? && NoConnect(after)
    requires Work(Exec(START, before)) <= TickSteps(after)
    ensures var q := Exec(Exec(START, before), after);
            && (q.thread.NoThread? || q.thread.Exited?)
            && var w := Apply(Apply(q, ControlStep), ControlStep);
               w.control.Idle? && !w.connected && w.thread.NoThread?
  {
    hide Exec, Apply;
    InvRun(START, before);
    InvRun(Exec(START, before), after);
    StoppedRun(Exec(START, before), after);
    TwoStepsFinish(Exec(Exec(START, before), after));
  }

  lemma TwoStepsFinish(q: Quote)
    requires LifecycleInv(q) && Stopped(q) && Work(q) == 0
    ensures q.thread.NoThread? || q.thread.Exited?
    ensures var w := Apply(Apply(q, ControlStep), ControlStep);
            w.control.Idle? && !w.connected && w.thread.NoThread?
  {
  }

  /** While disconnected, and until the next Connect, no tick is published. */
  lemma NoTicksWhileDisconnected(before: seq<Action>, after: seq<Action>)
    requires Exec(START, before).control.Idle? && !Exec(START, before).connected && NoConnect(after)
    ensures Exec(Exec(START, before), after).published == Exec(START, before).published
  {
    InvRun(START, before);
    StoppedRun(Exec(START, before), after);
  }

  // ---- a running generator goes on publishing ----

  ghost predicate OnlyTicks(run: seq<Action>) {
    forall a :: a in run ==> a.TickStep?
  }

  predicate Alive(q: Quote) {
    q.running && !q.thread.NoThread? && !q.thread.Exited?
  }

  /** How many steps the tick thread is from the end of its next sweep. */
  function StepsToSweep(q: Quote): (n: nat)
    ensures n <= |q.instruments| + 4
  {
    match q.thread
    case NoThread => 0
    case Exited => 0
    case Resting => |q.instruments| + 4
    case Checking => |q.instruments| + 3
    case Waiting => |q.instruments| + 2
    case Sweeping(_, sent) => if |sent| <= |q.instruments| then |q.instruments| - |sent| + 1 else 1
  }

  /** What the sweep in progress, or else the next one, has still to publish. */
  function StillToPublish(q: Quote): seq<string> {
    if q.thread.Sweeping? && |q.thread.sent| <= |q.instruments| then q.instruments[|q.thread.sent|..] else q.instruments
  }

  lemma TickTowardsSweep(q: Quote, step: real)
    requires Inv(q) && Alive(q) && 1 < StepsToSweep(q)
    ensures var w := Tick(q, step);
            && Alive(w) && StepsToSweep(w) == StepsToSweep(q) - 1
            && w.sweeps == q.sweeps && w.published + StillToPublish(w) == q.published + StillToPublish(q)
            && w.instruments == q.instruments && w.installed == q.installed
  {
    if q.thread.Sweeping? {
      TickWithinSweep(q, step);
    } else {
      hide SweepInv;
    }
  }

  lemma TickWithinSweep(q: Quote, step: real)
    requires q.thread.Sweeping? && |q.thread.sent| < |q.instruments|
    ensures var w := Tick(q, step);
            && w.thread == Sweeping(q.thread.version, q.thread.sent + [q.instruments[|q.thread.sent|]])
            && w.published + StillToPublish(w) == q.published + StillToPublish(q)
            && w.sweeps == q.sweeps && w.instruments == q.instruments && w.installed == q.installed
  {
    assert q.instruments[|q.thread.sent|..] == [q.instruments[|q.thread.sent|]] + q.instruments[|q.thread.sent| + 1..];
  }

  lemma TickEndsSweep(q: Quote, step: real)
    requires Inv(q) && Alive(q) && StepsToSweep(q) <= 1
    ensures var w := Tick(q, step);
            && StepsToSweep(q) == 1 && StillToPublish(q) == []
            && w.thread.Resting? && w.running && w.instruments == q.instruments && w.installed == q.installed
            && w.sweeps == q.sweeps + [Sweep(|q.installed|, q.instruments)] && w.published == q.published
  {
    assert q.thread.sent == q.instruments;
  }

  /** The tick thread left to itself finishes its sweep in that many steps, publishing exactly the current list. */
  lemma {:induction false} SweepCompletes(q: Quote, run: seq<Action>)
    requires Inv(q) && Alive(q) && OnlyTicks(run) && |run| == StepsToSweep(q)
    ensures var w := Exec(q, run);
            && w.thread.Resting? && w.running && w.instruments == q.instruments && w.installed == q.installed
            && w.sweeps == q.sweeps + [Sweep(|q.installed|, q.instruments)]
            && w.published == q.published + StillToPublish(q)
    decreases |run|
  {
    if 1 < StepsToSweep(q) {
      var step := run[0].step;
      TickTowardsSweep(q, step);
      LifecycleStep(q, run[0]);
      SweepStep(q, run[0]);
      assert OnlyTicks(run[1..]);
      SweepCompletes(Tick(q, step), run[1..]);
    } else {
      assert StepsToSweep(q) > 0;
      TickEndsSweep(q, run[0].step);
      assert Exec(q, run) == Exec(Tick(q, run[0].step), run[1..]);
      assert q.published + [] == q.published;
    }
  }

  lemma {:induction false} ExecConcat(q: Quote, a: seq<Action>, b: seq<Action>)
    ensures Exec(q, a + b) == Exec(Exec(q, a), b)
    decreases |a|
  {
    if a == [] {
      assert a + b == b;
    } else {
      assert (a + b)[1..] == a[1..] + b;
      ExecConcat(Apply(q, a[0]), a[1..], b);
    }
  }

  lemma {:induction false} SweepsGrow(q: Quote, run: seq<Action>)
    ensures q.sweeps <= Exec(q, run).sweeps
    decreases |run|
  {
    if run != [] {
      SweepsGrow(Apply(q, run[0]), run[1..]);
    }
  }

  lemma InvStart(run: seq<Action>)
    ensures Inv(Exec(START, run))
  {
    InvRun(START, run);
  }

  /**
   * Progress: from every reachable state with the generator running, however many
   * more steps the tick thread takes beyond the length of the list plus four, one
   * more sweep has been completed, and it published exactly the current list.
   */
  lemma RunningSweepsGoOn(before: seq<Action>, ticks: seq<Action>)
    requires Alive(Exec(START, before)) && OnlyTicks(ticks)
    requires |Exec(START, before).instruments| + 4 <= |ticks|
    ensures var q, w := Exec(START, before), Exec(Exec(START, before), ticks);
            && |q.sweeps| < |w.sweeps| && q.sweeps <= w.sweeps
            && w.sweeps[|q.sweeps|].ticks == q.instruments
  {
    hide Exec, Inv, Alive, StepsToSweep;
    var q := Exec(START, before);
    InvStart(before);
    var n := StepsToSweep(q);
    SweepCompletes(q, ticks[..n]);
    assert ticks == ticks[..n] + ticks[n..];
    ExecConcat(q, ticks[..n], ticks[n..]);
    SweepsGrow(Exec(q, ticks[..n]), ticks[n..]);
    var w := Exec(q, ticks[..n]);
    assert w.sweeps[|q.sweeps|] == Sweep(|q.installed|, q.instruments);
  }

  /** From a subscription on, the tick thread publishes just the new list next. */
  lemma SubscribeThenTicks(q: Quote, list: seq<string>, ticks: seq<Action>)
    requires Inv(q) && q.control.Idle? && q.connected && MutexFree(q) && OnlyTicks(ticks)
    requires |ticks| == StepsToSweep(q.(instruments := list))
    ensures var w := Exec(q, [Subscribe(list)] + ticks);
            && w.published == q.published + list && w.sweeps == q.sweeps + [Sweep(|q.installed| + 1, list)]
            && w.running
  {
    var u := Apply(q, Subscribe(list));
    LifecycleStep(q, Subscribe(list));
    SweepStep(q, Subscribe(list));
    OneStep(q, Subscribe(list));
    ExecConcat(q, [Subscribe(list)], ticks);
    assert StepsToSweep(u) == StepsToSweep(q.(instruments := list)) && StillToPublish(u) == list && Alive(u);
    assert u.published == q.published && u.sweeps == q.sweeps && |u.installed| == |q.installed| + 1;
    hide Exec, Apply, Inv, Alive, StepsToSweep, StillToPublish;
    SweepCompletes(u, ticks);
  }

  lemma OneStep(q: Quote, a: Action)
    ensures Exec(q, [a]) == Apply(q, a)
  {
    hide Apply;
    assert Exec(q, [a]) == Exec(Apply(q, a), []);
  }

  /** A subscription made while connected is published, whole and in order, within its length plus four steps. */
  lemma SubscriptionIsPublished(before: seq<Action>, list: seq<string>, ticks: seq<Action>) returns (n: nat)
    requires var q := Exec(START, before); q.control.Idle? && q.connected && MutexFree(q)
    requires OnlyTicks(ticks) && |list| + 4 <= |ticks|
    ensures n <= |list| + 4
    ensures var q, w := Exec(START, before), Exec(Exec(START, before), [Subscribe(list)] + ticks[..n]);
            w.published == q.published + list && w.sweeps == q.sweeps + [Sweep(|q.installed| + 1, list)]
  {
    hide Exec, Inv, StepsToSweep;
    var q := Exec(START, before);
    InvStart(before);
    n := StepsToSweep(q.(instruments := list));
    SubscribeThenTicks(q, list, ticks[..n]);
  }

  /** The first list subscribed after the first Connect is the first thing published. */
  lemma FirstSubscriptionIsPublished(list: seq<string>, ticks: seq<Action>)
    requires OnlyTicks(ticks) && |ticks| == |list| + 3
    ensures var w := Exec(START, [StartConnect, ControlStep, ControlStep] + ([Subscribe(list)] + ticks));
            w.published == list && |w.sweeps| == 1 && w.sweeps[0].ticks == list && w.running
  {
    var run := [StartConnect, ControlStep, ControlStep];
    var u := Exec(START, run);
    ThreeSteps(START, run[0], run[1], run[2]);
    assert u.published == [] && u.sweeps == [] && u.thread == Checking && u.control.Idle? && u.connected;
    InvStart(run);
    ExecConcat(START, run, [Subscribe(list)] + ticks);
    hide Exec, Inv;
    SubscribeThenTicks(u, list, ticks);
    assert [] + list == list;
  }

  lemma ThreeSteps(q: Quote, a: Action, b: Action, c: Action)
    ensures Exec(q, [a, b, c]) == Apply(Apply(Apply(q, a), b), c)
  {
    hide Apply;
    assert [a, b, c][1..] == [b, c] && [b, c][1..] == [c];
    assert Exec(Apply(q, a), [b, c]) == Exec(Apply(Apply(q, a), b), [c]);
    OneStep(Apply(Apply(q, a), b), c);
  }

  predicate AcquiredInv(q: Quote) {
    q.acquired == |q.sweeps| + (if q.thread.Sweeping? then 1 else 0)
  }

  lemma AcquiredStep(q: Quote, a: Action)
    requires LifecycleInv(q) && AcquiredInv(q)
    ensures AcquiredInv(Apply(q, a))
  {
  }

  lemma {:induction false} AcquiredRun(q: Quote, run: seq<Action>)
    requires LifecycleInv(q) && AcquiredInv(q)
    ensures AcquiredInv(Exec(q, run))
    decreases |run|
  {
    if run != [] {
      LifecycleStep(q, run[0]);
      AcquiredStep(q, run[0]);
      hide LifecycleInv, AcquiredInv, Apply;
      AcquiredRun(Apply(q, run[0]), run[1..]);
    }
  }

  /** In every interleaving the tick thread takes the mutex once for every sweep finished or in progress. */
  lemma OneAcquisitionPerSweep(run: seq<Action>)
    ensures var q := Exec(START, run);
            q.acquired == |q.sweeps| + (if q.thread.Sweeping? then 1 else 0)
  {
    AcquiredRun(START, run);
  }

  lemma {:induction false} NothingToPublish(q: Quote, run: seq<Action>)
    requires q.instruments == [] && forall a :: a in run ==> !a.Subscribe?
    ensures Exec(q, run).published == q.published
    decreases |run|
  {
    if run != [] {
      assert run == [run[0]] + run[1..];
      NothingToPublish(Apply(q, run[0]), run[1..]);
    }
  }

  /** After Unsubscribe nothing is published until the next Subscribe. */
  lemma UnsubscribeSilences(before: seq<Action>, after: seq<Action>)
    requires var q := Exec(START, before); q.control.Idle? && MutexFree(q)
    requires forall a :: a in after ==> !a.Subscribe?
    ensures Exec(START, before + [Unsubscribe] + after).published == Exec(START, before).published
  {
    var q := Exec(START, before);
    ExecConcat(START, before, [Unsubscribe]);
    ExecConcat(START, before + [Unsubscribe], after);
    OneStep(q, Unsubscribe);
    NothingToPublish(Apply(q, Unsubscribe), after);
  }

  // ---- the prices of every interleaving ----

  ghost predicate DrawsInRange(run: seq<Action>) {
    forall a :: a in run && a.TickStep? ==> -0.5 <= a.step < 0.5
  }

  /** The n-th tick from place base on is the n-th of the walk these draws make. */
  ghost predicate WalkTick(q: Quote, base: nat, draws: seq<Draw>, n: nat)
    requires n < |draws| && |q.prices| == |q.published| == base + |draws|
  {
    q.published[base + n] == draws[n].instrument && q.prices[base + n] == PriceAt(draws, n)
  }

  /** The ticks from place base on, and no others, are those of the walk these draws make. */
  ghost predicate OneWalk(q: Quote, base: nat, draws: seq<Draw>) {
    && |q.prices| == |q.published| == base + |draws|
    && InRange(draws)
    && forall n: nat :: n < |draws| ==> WalkTick(q, base, draws, n)
  }

  /** The present tick thread has made the walk; or it is still to be started and has made none. */
  ghost predicate WalkInv(q: Quote, base: nat, draws: seq<Draw>) {
    && OneWalk(q, base, draws)
    && (if q.control.MarkedRunning? then q.thread.NoThread? && draws == []
        else !q.control.MarkedConnected? && q.basePrice == Price(draws))
  }

  lemma WalkOn(q: Quote, step: real, base: nat, draws: seq<Draw>, d: Draw)
    requires WalkInv(q, base, draws) && !q.control.MarkedRunning? && d.step == step && -0.5 <= step < 0.5
    requires q.thread.Sweeping? && |q.thread.sent| < |q.instruments| && d.instrument == q.instruments[|q.thread.sent|]
    ensures WalkInv(Tick(q, step), base, draws + [d])
  {
    hide Price;
    var w, more := Tick(q, step), draws + [d];
    PriceAppend(draws, d);
    assert more[..|draws| + 1] == more;
    assert w.published == q.published + [d.instrument] && w.prices == q.prices + [Price(more)];
    assert WalkTick(w, base, more, |draws|);
    forall n: nat | n < |draws| ensures WalkTick(w, base, more, n) {
      assert WalkTick(q, base, draws, n);
      assert more[..n + 1] == draws[..n + 1];
    }
  }

  /** Nothing published, and the control thread not before the start of the tick thread. */
  lemma WalkUnchanged(q: Quote, w: Quote, base: nat, draws: seq<Draw>)
    requires WalkInv(q, base, draws) && w.published == q.published && w.prices == q.prices
    requires if w.control.MarkedRunning? then w.thread.NoThread? && draws == []
             else !w.control.MarkedConnected? && w.basePrice == Price(draws)
    ensures WalkInv(w, base, draws)
  {
    forall n: nat | n < |draws| ensures WalkTick(w, base, draws, n) {
      assert WalkTick(q, base, draws, n);
    }
  }

  lemma WalkStep(q: Quote, a: Action, base: nat, draws: seq<Draw>) returns (more: seq<Draw>)
    requires WalkInv(q, base, draws) && !a.StartConnect? && (a.TickStep? ==> -0.5 <= a.step < 0.5)
    ensures WalkInv(Apply(q, a), base, more)
  {
    hide Price;
    more := draws;
    if a.TickStep? && q.thread.Sweeping? && |q.thread.sent| < |q.instruments| {
      var d := Draw(q.instruments[|q.thread.sent|], a.step);
      more := draws + [d];
      WalkOn(q, a.step, base, draws, d);
    } else {
      assert Price([]) == START_PRICE by { NothingFlattened([]); }
      hide OneWalk;
      WalkUnchanged(q, Apply(q, a), base, draws);
    }
  }

  lemma {:induction false} WalkRun(q: Quote, run: seq<Action>, base: nat, draws: seq<Draw>) returns (more: seq<Draw>)
    requires WalkInv(q, base, draws) && NoConnect(run) && DrawsInRange(run)
    ensures WalkInv(Exec(q, run), base, more)
    decreases |run|
  {
    if run == [] {
      more := draws;
    } else {
      var next := WalkStep(q, run[0], base, draws);
      assert run == [run[0]] + run[1..];
      hide WalkInv, Apply;
      more := WalkRun(Apply(q, run[0]), run[1..], base, next);
    }
  }

  /** The price is within n/2 of 100. */
  predicate NearStart(price: real, n: nat) {
    -0.5 * (n as real) <= price - 100.0 < 0.5 * (n as real)
  }

  /**
   * In every interleaving the ticks since a Connect carry the prices of one walk
   * that starts at the start price again, and the n-th of them is within n/2 of it.
   */
  lemma PricesSinceConnect(before: seq<Action>, after: seq<Action>) returns (draws: seq<Draw>)
    requires Exec(START, before).control.MarkedRunning? && NoConnect(after) && DrawsInRange(after)
    ensures OneWalk(Exec(Exec(START, before), after), |Exec(START, before).published|, draws)
    ensures forall n: nat :: n < |draws| ==> NearStart(PriceAt(draws, n), n + 1)
  {
    var v := Exec(START, before);
    InvRun(START, before);
    NoWalkYet(v);
    draws := WalkRun(v, after, |v.published|, []);
    assert InRange(draws);
    hide Exec, Inv, WalkInv, OneWalk, Price, NearStart;
    forall n: nat | n < |draws| ensures NearStart(PriceAt(draws, n), n + 1) {
      StaysNearStart(draws[..n + 1]);
    }
  }

  lemma NoWalkYet(q: Quote)
    requires Inv(q) && q.control.MarkedRunning?
    ensures WalkInv(q, |q.published|, [])
  {
  }

  lemma StaysNearStart(draws: seq<Draw>)
    requires InRange(draws) && draws != []
    ensures NearStart(Price(draws), |draws|)
  {
    PriceStaysNear(draws);
  }
}
