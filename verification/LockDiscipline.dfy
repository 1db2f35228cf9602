// Which callbacks may call back into an adapter that guards its state with a
// non-recursive mutex. A single thread runs a tree of calls; acquiring the mutex
// while holding it never returns.
module LockDiscipline {

  datatype Event = Acquire | Release | Enter | Leave   // Enter and Leave bracket a user callback

  /** Calls on the mock trader, one after the other, with the calls their callbacks make. */
  datatype Calls =
    | NoCalls
    | SendCall(connected: bool, notifies: bool, fills: bool, inOrder: Calls, inTrade: Calls, rest: Calls)
    | CancelCall(connected: bool, accepted: bool, notifies: bool, inOrder: Calls, rest: Calls)
    | QueryCall(rest: Calls)

  function Callback(body: seq<Event>): seq<Event> {
    [Enter] + body + [Leave]
  }

  function SendEvents(notifies: bool, fills: bool, inOrder: seq<Event>, inTrade: seq<Event>): seq<Event> {
    [Acquire, Release]
    + (if notifies then Callback(inOrder) else [])
    + (if fills then Callback(inTrade) + [Acquire, Release] else [])
  }

  function CancelEvents(notifies: bool, inOrder: seq<Event>): seq<Event> {
    [Acquire, Release] + (if notifies then Callback(inOrder) else [])
  }

  /** The mutex operations and callbacks of the calls, in program order. */
  function Trace(calls: Calls): seq<Event> {
    match calls
    case NoCalls => []
    case SendCall(connected, notifies, fills, o, t, rest) =>
      (if connected then SendEvents(notifies, fills, Trace(o), Trace(t)) else []) + Trace(rest)
    case CancelCall(connected, accepted, notifies, o, rest) =>
      (if connected then CancelEvents(accepted && notifies, Trace(o)) else []) + Trace(rest)
    case QueryCall(rest) => [Acquire, Release] + Trace(rest)
  }

  /** Whether the mutex is free, held, or waited for by its own holder. */
  datatype Mutex = Free | Held | Deadlocked

  function Step(m: Mutex, e: Event): Mutex {
    match (m, e)
    case (Free, Acquire) => Held
    case (Held, Release) => Free
    case (Held, Acquire) => Deadlocked
    case (_, _) => m
  }

  function Run(m: Mutex, trace: seq<Event>): Mutex
    decreases |trace|
  {
    if trace == [] then m else Run(Step(m, trace[0]), trace[1..])
  }

  /** Every callback of the trace starts with the mutex free. */
  ghost predicate CallbacksUnlocked(m: Mutex, trace: seq<Event>)
    decreases |trace|
  {
    trace == [] || ((trace[0].Enter? ==> m.Free?) && CallbacksUnlocked(Step(m, trace[0]), trace[1..]))
  }

  /** The trace leaves the mutex free, never blocks on it, and calls no callback under it. */
  ghost predicate Clean(trace: seq<Event>) {
    Run(Free, trace) == Free && CallbacksUnlocked(Free, trace)
  }

  lemma {:induction false} RunConcat(m: Mutex, a: seq<Event>, b: seq<Event>)
    ensures Run(m, a + b) == Run(Run(m, a), b)
    ensures CallbacksUnlocked(m, a + b) <==> CallbacksUnlocked(m, a) && CallbacksUnlocked(Run(m, a), b)
    decreases |a|
  {
    if a == [] {
      assert a + b == b;
    } else {
      assert (a + b)[1..] == a[1..] + b;
      RunConcat(Step(m, a[0]), a[1..], b);
    }
  }

  lemma CleanConcat(a: seq<Event>, b: seq<Event>)
    requires Clean(a) && Clean(b)
    ensures Clean(a + b)
  {
    RunConcat(Free, a, b);
  }

  lemma CleanCallback(body: seq<Event>)
    requires Clean(body)
    ensures Clean(Callback(body))
  {
    RunConcat(Free, [Enter], body);
    RunConcat(Free, [Enter] + body, [Leave]);
    OneEvent(Free, Enter);
    OneEvent(Free, Leave);
  }

  lemma OneEvent(m: Mutex, e: Event)
    ensures Run(m, [e]) == Step(m, e)
    ensures CallbacksUnlocked(m, [e]) <==> (e.Enter? ==> m.Free?)
  {
  }

  lemma CleanSection()
    ensures Clean([Acquire, Release])
  {
  }

  lemma CleanNothing()
    ensures Clean([])
  {
  }

  /**
   * Any finite tree of sends, cancels and queries, however nested in order and
   * trade callbacks, runs to completion: no acquisition blocks and no callback
   * runs while the mutex is held.
   */
  lemma {:induction false} TraderCallbacksMayReenter(calls: Calls)
    ensures Clean(Trace(calls))
  {
    CleanNothing();
    CleanSection();
    match calls
    case NoCalls =>
    case SendCall(connected, notifies, fills, o, t, rest) =>
      TraderCallbacksMayReenter(o);
      TraderCallbacksMayReenter(t);
      TraderCallbacksMayReenter(rest);
      CleanCallback(Trace(o));
      CleanCallback(Trace(t));
      CleanConcat(Callback(Trace(t)), [Acquire, Release]);
      var notify := if notifies then Callback(Trace(o)) else [];
      var fill := if fills then Callback(Trace(t)) + [Acquire, Release] else [];
      CleanConcat([Acquire, Release], notify);
      CleanConcat([Acquire, Release] + notify, fill);
      CleanConcat(if connected then [Acquire, Release] + notify + fill else [], Trace(rest));
    case CancelCall(connected, accepted, notifies, o, rest) =>
      TraderCallbacksMayReenter(o);
      TraderCallbacksMayReenter(rest);
      CleanCallback(Trace(o));
      var notify := if accepted && notifies then Callback(Trace(o)) else [];
      CleanConcat([Acquire, Release], notify);
      CleanConcat(if connected then [Acquire, Release] + notify else [], Trace(rest));
    case QueryCall(rest) =>
      TraderCallbacksMayReenter(rest);
      CleanConcat([Acquire, Release], Trace(rest));
  }

  // ---- how often the mutex is taken ----

  function Acquisitions(trace: seq<Event>): nat {
    if trace == [] then 0 else (if trace[0].Acquire? then 1 else 0) + Acquisitions(trace[1..])
  }

  /** Two sections for a send that fills, one for any other connected send or cancel and for every query. */
  function Sections(calls: Calls): nat {
    match calls
    case NoCalls => 0
    case QueryCall(rest) => 1 + Sections(rest)
    case CancelCall(connected, accepted, notifies, o, rest) =>
      (if connected then 1 else 0) + (if connected && accepted && notifies then Sections(o) else 0) + Sections(rest)
    case SendCall(connected, notifies, fills, o, t, rest) =>
      if !connected then Sections(rest)
      else 1 + (if notifies then Sections(o) else 0) + (if fills then Sections(t) + 1 else 0) + Sections(rest)
  }

  lemma {:induction false} AcquisitionsConcat(a: seq<Event>, b: seq<Event>)
    ensures Acquisitions(a + b) == Acquisitions(a) + Acquisitions(b)
    decreases |a|
  {
    if a == [] {
      assert a + b == b;
    } else {
      assert (a + b)[1..] == a[1..] + b;
      AcquisitionsConcat(a[1..], b);
    }
  }

  lemma AcquisitionsInCallback(body: seq<Event>)
    ensures Acquisitions(Callback(body)) == Acquisitions(body)
  {
    AcquisitionsConcat([Enter], body);
    AcquisitionsConcat([Enter] + body, [Leave]);
  }

  /** Whatever is nested where, the mutex is taken once for every section the calls have. */
  lemma {:induction false} OneAcquisitionPerSection(calls: Calls)
    ensures Acquisitions(Trace(calls)) == Sections(calls)
  {
    var section := [Acquire, Release];
    assert section[1..] == [Release] && Acquisitions(section) == 1;
    match calls
    case NoCalls =>
    case SendCall(connected, notifies, fills, o, t, rest) =>
      OneAcquisitionPerSection(o);
      OneAcquisitionPerSection(t);
      OneAcquisitionPerSection(rest);
      AcquisitionsInCallback(Trace(o));
      AcquisitionsInCallback(Trace(t));
      var notify := if notifies then Callback(Trace(o)) else [];
      var fill := if fills then Callback(Trace(t)) + section else [];
      AcquisitionsConcat(Callback(Trace(t)), section);
      AcquisitionsConcat(section, notify);
      AcquisitionsConcat(section + notify, fill);
      AcquisitionsConcat(if connected then section + notify + fill else [], Trace(rest));
    case CancelCall(connected, accepted, notifies, o, rest) =>
      OneAcquisitionPerSection(o);
      OneAcquisitionPerSection(rest);
      AcquisitionsInCallback(Trace(o));
      var notify := if accepted && notifies then Callback(Trace(o)) else [];
      AcquisitionsConcat(section, notify);
      AcquisitionsConcat(if connected then section + notify else [], Trace(rest));
    case QueryCall(rest) =>
      OneAcquisitionPerSection(rest);
      AcquisitionsConcat(section, Trace(rest));
  }

  // ---- the tick generator, which publishes under its mutex ----

  /** What a tick callback does: whether it changes the subscription, call by call. */
  datatype QuoteCall = ChangesSubscription | OtherCall

  function QuoteCallEvents(c: QuoteCall): seq<Event> {
    if c.ChangesSubscription? then [Acquire, Release] else []
  }

  function BodyEvents(calls: seq<QuoteCall>): seq<Event> {
    if calls == [] then [] else QuoteCallEvents(calls[0]) + BodyEvents(calls[1..])
  }

  /** One tick callback per subscribed instrument, all under one acquisition. */
  function PublishEvents(bodies: seq<seq<QuoteCall>>): seq<Event> {
    if bodies == [] then [] else Callback(BodyEvents(bodies[0])) + PublishEvents(bodies[1..])
  }

  function SweepTrace(bodies: seq<seq<QuoteCall>>): seq<Event> {
    [Acquire] + PublishEvents(bodies) + [Release]
  }

  ghost predicate LeavesSubscriptionAlone(calls: seq<QuoteCall>) {
    forall c :: c in calls ==> c.OtherCall?
  }

  lemma {:induction false} StuckForever(trace: seq<Event>)
    ensures Run(Deadlocked, trace) == Deadlocked
    decreases |trace|
  {
    if trace != [] {
      StuckForever(trace[1..]);
    }
  }

  lemma {:induction false} BodyUnderLock(calls: seq<QuoteCall>)
    ensures Run(Held, BodyEvents(calls)) == if LeavesSubscriptionAlone(calls) then Held else Deadlocked
  {
    if calls != [] {
      var first := QuoteCallEvents(calls[0]);
      RunConcat(Held, first, BodyEvents(calls[1..]));
      assert calls == [calls[0]] + calls[1..];
      if calls[0].ChangesSubscription? {
        assert calls[0] in calls && !LeavesSubscriptionAlone(calls);
        assert [Acquire, Release][1..] == [Release];
        OneEvent(Deadlocked, Release);
        assert Run(Held, first) == Run(Deadlocked, [Release]);
        StuckForever(BodyEvents(calls[1..]));
      } else {
        BodyUnderLock(calls[1..]);
      }
    }
  }

  lemma CallbackUnderLock(calls: seq<QuoteCall>)
    ensures Run(Held, Callback(BodyEvents(calls))) == if LeavesSubscriptionAlone(calls) then Held else Deadlocked
  {
    BodyUnderLock(calls);
    OneEvent(Held, Enter);
    RunConcat(Held, [Enter], BodyEvents(calls));
    RunConcat(Held, [Enter] + BodyEvents(calls), [Leave]);
    OneEvent(Run(Held, BodyEvents(calls)), Leave);
  }

  lemma {:induction false} PublishUnderLock(bodies: seq<seq<QuoteCall>>)
    ensures Run(Held, PublishEvents(bodies))
         == if forall b :: b in bodies ==> LeavesSubscriptionAlone(b) then Held else Deadlocked
  {
    if bodies != [] {
      var first := Callback(BodyEvents(bodies[0]));
      CallbackUnderLock(bodies[0]);
      RunConcat(Held, first, PublishEvents(bodies[1..]));
      assert bodies == [bodies[0]] + bodies[1..];
      if LeavesSubscriptionAlone(bodies[0]) {
        PublishUnderLock(bodies[1..]);
      } else {
        StuckForever(PublishEvents(bodies[1..]));
      }
    }
  }

  /**
   * The contrast: a sweep publishes with its mutex held, so it completes if and
   * only if none of its tick callbacks subscribes or unsubscribes.
   */
  lemma SweepCompletesExact(bodies: seq<seq<QuoteCall>>)
    ensures Run(Free, SweepTrace(bodies)) == Free <==> forall b :: b in bodies ==> LeavesSubscriptionAlone(b)
    ensures Run(Free, SweepTrace(bodies)) == Free || Run(Free, SweepTrace(bodies)) == Deadlocked
  {
    OneEvent(Free, Acquire);
    PublishUnderLock(bodies);
    RunConcat(Free, [Acquire], PublishEvents(bodies));
    RunConcat(Free, [Acquire] + PublishEvents(bodies), [Release]);
    OneEvent(Run(Held, PublishEvents(bodies)), Release);
  }

  /** One tick callback that subscribes is enough: the sweep never ends. */
  lemma SubscribingCallbackBlocks()
    ensures Run(Free, SweepTrace([[ChangesSubscription]])) == Deadlocked
  {
    var bodies := [[ChangesSubscription]];
    SweepCompletesExact(bodies);
    assert bodies[0] in bodies && bodies[0][0] in bodies[0] && !bodies[0][0].OtherCall?;
  }
}
