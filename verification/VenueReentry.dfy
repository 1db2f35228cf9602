// Calls made from inside the venue's own callbacks, on one thread: what nested
// calls mean, and the interleaving of the machine they are. Each call of the
// machine is identified by its stack depth.
module VenueReentry {
  import opened VenueTypes
  import opened VenueMachine
  import opened VenueSequential
  import opened VenueFills

  /**
   * Calls made one after the other, each with the calls its callbacks make while
   * it runs; a callback that is never called makes none. Queries change nothing
   * and are not listed.
   */
  datatype Forest =
    | Leaf
    | Tree(req: OrderRequest, inOrder: Forest, inTrade: Forest, rest: Forest)
    | CancelTree(cancel: CancelOrderRequest, inOrder: Forest, rest: Forest)
    | Setting(flags: Flags, rest: Forest)   // connect, disconnect, set callbacks, set auto fill

  // ---- what nested calls mean ----

  /** The state nested calls lead to, and the fills made on the way. */
  datatype Outcome = Outcome(after: Venue, fills: Fills)

  predicate Fillable(v: Venue) {
    v.flags.autoFill && v.flags.onTrade
  }

  predicate CancelNotifies(v: Venue, req: CancelOrderRequest) {
    v.flags.connected && v.flags.onOrder && CancelOutcome(v.orders, req.brokerOrderId) == Success
  }

  function AnnounceNow(v: Venue, t: Trade): Venue {
    v.(nextTradeId := v.nextTradeId + 1, tradeEvents := v.tradeEvents + [t])
  }

  function RecordNow(v: Venue, t: Trade): Venue {
    if t.brokerOrderId in v.orders
    then v.(trades := v.trades + [t],
            orders := v.orders[t.brokerOrderId := FillOrder(v.orders[t.brokerOrderId], t.tradeAmount)])
    else v.(trades := v.trades + [t], fault := true)
  }

  /**
   * Running the calls: a send accepts its order, runs what its order callback
   * calls, decides on the flags these left behind, announces its trade, runs what
   * the trade callback calls, and records the trade only then. No call is left in
   * progress.
   */
  function Eval(v: Venue, f: Forest): (r: Outcome)
    ensures r.after.sends == v.sends && r.after.cancels == v.cancels
    decreases f, 0
  {
    match f
    case Leaf => Outcome(v, NoFills)
    case Setting(flags, rest) => Eval(v.(flags := flags), rest)
    case CancelTree(req, o, rest) =>
      var told := Nested(CancelNotifies(v, req), CancelNow(v, req), o);
      var next := Eval(told.after, rest);
      Outcome(next.after, Unfilled(told.fills, next.fills))
    case Tree(req, o, t, rest) =>
      if !v.flags.connected then Eval(v, rest)
      else
        var told := Nested(v.flags.onOrder, AcceptNow(v, req), o);
        if !Fillable(told.after) then
          var next := Eval(told.after, rest);
          Outcome(next.after, Unfilled(told.fills, next.fills))
        else
          var fill := Fill(req, IdFor(v, req), told.after.nextTradeId);
          var seen := Eval(AnnounceNow(told.after, FillTrade(fill)), t);
          var next := Eval(RecordNow(seen.after, FillTrade(fill)), rest);
          Outcome(next.after, Own(fill, told.fills, seen.fills, next.fills))
  }

  /** The calls of a callback, if it is called. */
  function Nested(called: bool, v: Venue, f: Forest): (r: Outcome)
    ensures r.after.sends == v.sends && r.after.cancels == v.cancels
    decreases f, 1
  {
    if called then Eval(v, f) else Outcome(v, NoFills)
  }

  // ---- the interleaving they are ----

  function Enter(c: nat, req: OrderRequest): seq<Action> {
    [StartSend(c, req)] + Steps(c, 3)
  }

  /**
   * The machine actions of the calls, run from v at stack depth c. The calls of a
   * callback are made just where the machine calls it, and only if it does; the
   * steps of a call that has returned already do nothing.
   */
  function Schedule(v: Venue, f: Forest, c: nat): seq<Action>
    decreases f, 0
  {
    match f
    case Leaf => []
    case Setting(flags, rest) => [Configure(flags)] + Schedule(Apply(v, Configure(flags)), rest, c)
    case CancelTree(req, o, rest) =>
      var run := CancelAlone(c, req) + InOrderCallback(v, CancelAlone(c, req), o, c);
      run + Schedule(Exec(v, run), rest, c)
    case Tree(req, o, t, rest) =>
      var u := ToDecision(v, req, o, c);
      var run := u + Steps(c, 3) + InTradeCallback(Exec(v, u), Steps(c, 3), t, c) + [StepSend(c)];
      run + Schedule(Exec(v, run), rest, c)
  }

  /** A send up to its fill decision. */
  function ToDecision(v: Venue, req: OrderRequest, o: Forest, c: nat): seq<Action>
    decreases o, 2
  {
    Enter(c, req) + InOrderCallback(v, Enter(c, req), o, c)
  }

  /** The calls of the order callback, if these steps call it. */
  function InOrderCallback(v: Venue, steps: seq<Action>, o: Forest, c: nat): seq<Action>
    decreases o, 1
  {
    if Exec(v, steps).orderEvents != v.orderEvents then Schedule(Exec(v, steps), o, c + 1) else []
  }

  function InTradeCallback(v: Venue, steps: seq<Action>, t: Forest, c: nat): seq<Action>
    decreases t, 1
  {
    if Exec(v, steps).tradeEvents != v.tradeEvents then Schedule(Exec(v, steps), t, c + 1) else []
  }

  /** No call in progress at depth c or deeper. */
  ghost predicate FreeFrom(v: Venue, c: nat) {
    && (forall d :: d in v.sends ==> d < c)
    && (forall d :: d in v.cancels ==> d < c)
  }

  /** The venue without its calls in progress. */
  function Core(v: Venue): Venue {
    v.(sends := map[], cancels := map[])
  }

  /** The state of one venue with the calls in progress of another. */
  function Beside(v: Venue, x: Venue): Venue {
    x.(sends := v.sends, cancels := v.cancels)
  }

  /** The send at depth c has accepted its order and is about to decide on its fill, or was refused. */
  lemma RunEnter(v: Venue, c: nat, req: OrderRequest) returns (w: Venue)
    requires FreeFrom(v, c)
    ensures w == Exec(v, Enter(c, req))
    ensures !v.flags.connected ==> w == v
    ensures v.flags.connected ==>
              w == AcceptNow(v, req).(sends := v.sends[c := Send(req, Notified, IdFor(v, req), 0)])
  {
    if v.flags.connected {
      w := RunAccept(v, c, req);
    } else {
      w := v;
      ExecConcat(v, [StartSend(c, req)], Steps(c, 3));
      ExecThen(v, [], StartSend(c, req));
      assert [] + [StartSend(c, req)] == [StartSend(c, req)];
      NothingYet(v);
      IdleSteps(v, c, 3);
    }
  }

  lemma RunDecision(v: Venue, c: nat) returns (w: Venue)
    requires c in v.sends && v.sends[c].phase.Notified?
    ensures w == Exec(v, Steps(c, 3))
    ensures !Fillable(v) ==> w == v.(sends := v.sends - {c})
    ensures Fillable(v) ==>
              var s := v.sends[c].(phase := Announced, tradeNo := v.nextTradeId);
              w == AnnounceNow(v, TradeOf(s)).(sends := v.sends[c := s])
  {
    if Fillable(v) {
      w := RunAnnounce(v, c);
    } else {
      w := v.(sends := v.sends - {c});
      ExecThenStep(v, [], c, v, w) by { NothingYet(v); }
      StepsSplit(c, 1, 2);
      ThreeSteps(c);
      assert Steps(c, 1) == [] + [StepSend(c)];
      ExecConcat(v, Steps(c, 1), Steps(c, 2));
      IdleSteps(w, c, 2);
    }
  }

  /** The calls of a callback run on top of the steps that call it. */
  lemma {:induction false} OrderCallbackRuns(v: Venue, steps: seq<Action>, o: Forest, c: nat, u: Venue)
    requires u == Exec(v, steps) && FreeFrom(u, c + 1)
    ensures Exec(v, steps + InOrderCallback(v, steps, o, c))
         == Beside(u, Nested(u.orderEvents != v.orderEvents, Core(u), o).after)
    decreases o, 6
  {
    hide Exec, Schedule, Eval;
    if u.orderEvents != v.orderEvents {
      ForestRuns(u, o, c + 1);
      ExecConcat(v, steps, Schedule(u, o, c + 1));
    } else {
      assert steps + [] == steps;
    }
  }

  lemma {:induction false} TradeCallbackRuns(v: Venue, steps: seq<Action>, t: Forest, c: nat, u: Venue)
    requires u == Exec(v, steps) && FreeFrom(u, c + 1)
    ensures Exec(v, steps + InTradeCallback(v, steps, t, c))
         == Beside(u, Nested(u.tradeEvents != v.tradeEvents, Core(u), t).after)
    decreases t, 6
  {
    hide Exec, Schedule, Eval;
    if u.tradeEvents != v.tradeEvents {
      ForestRuns(u, t, c + 1);
      ExecConcat(v, steps, Schedule(u, t, c + 1));
    } else {
      assert steps + [] == steps;
    }
  }

  lemma CancelAtCore(v: Venue, req: CancelOrderRequest)
    ensures var u := CancelNow(v, req);
            && Core(u) == CancelNow(Core(v), req)
            && u.sends == v.sends && u.cancels == v.cancels
            && (u.orderEvents != v.orderEvents <==> CancelNotifies(v, req))
  {
    hide CancelOf;
    if CancelNotifies(v, req) {
      assert |CancelNow(v, req).orderEvents| == |v.orderEvents| + 1;
    }
  }

  lemma {:induction false} CancelRuns(v: Venue, f: Forest, c: nat)
    requires f.CancelTree? && FreeFrom(v, c)
    ensures Exec(v, Schedule(v, f, c)) == Beside(v, Eval(Core(v), f).after)
    decreases f, 4
  {
    hide Exec, CancelAlone, CancelNow;
    var steps := CancelAlone(c, f.cancel);
    CancelAloneIsCancelNow(v, c, f.cancel);
    var u := CancelNow(v, f.cancel);
    CancelAtCore(v, f.cancel);
    OrderCallbackRuns(v, steps, f.inOrder, c, u);
    var run := steps + InOrderCallback(v, steps, f.inOrder, c);
    var w := Exec(v, run);
    ForestRuns(w, f.rest, c);
    ExecConcat(v, run, Schedule(w, f.rest, c));
  }

  lemma RecordStepIsRecordNow(v: Venue, c: nat)
    requires c in v.sends && v.sends[c].phase.Announced?
    ensures var w := Apply(v, StepSend(c));
            && w.sends == v.sends - {c} && w.cancels == v.cancels
            && Core(w) == RecordNow(Core(v), TradeOf(v.sends[c]))
  {
  }

  lemma AnnounceAtCore(v: Venue, c: nat, s: Send, t: Trade)
    ensures var w := AnnounceNow(v, t).(sends := v.sends[c := s]);
            Core(w) == AnnounceNow(Core(v), t) && w.tradeEvents != v.tradeEvents
  {
    assert (v.tradeEvents + [t])[|v.tradeEvents|] == t;
  }

  /** The fill decision at depth c, what the trade callback calls, and the record. */
  lemma {:induction false} FillRuns(v: Venue, t: Forest, c: nat) returns (w: Venue)
    requires FreeFrom(v, c + 1) && c in v.sends && v.sends[c].phase.Notified? && Fillable(v)
    ensures w == Exec(v, Steps(c, 3) + InTradeCallback(v, Steps(c, 3), t, c) + [StepSend(c)])
    ensures w.sends == v.sends - {c} && w.cancels == v.cancels
    ensures var trade := TradeOf(v.sends[c].(tradeNo := v.nextTradeId));
            Core(w) == RecordNow(Eval(AnnounceNow(Core(v), trade), t).after, trade)
    decreases t, 7
  {
    hide Exec, Steps, Eval, NewTrade, Apply, RecordNow;
    var s := v.sends[c].(phase := Announced, tradeNo := v.nextTradeId);
    var u := RunDecision(v, c);
    AnnounceAtCore(v, c, s, TradeOf(s));
    hide AnnounceNow;
    TradeCallbackRuns(v, Steps(c, 3), t, c, u);
    var run := Steps(c, 3) + InTradeCallback(v, Steps(c, 3), t, c);
    var u1 := Exec(v, run);
    ExecThen(v, run, StepSend(c));
    w := Apply(u1, StepSend(c));
    RecordStepIsRecordNow(u1, c);
    assert w.sends == v.sends - {c};
  }

  lemma {:induction false} DeclineRuns(v: Venue, t: Forest, c: nat) returns (w: Venue)
    requires c in v.sends && v.sends[c].phase.Notified? && !Fillable(v)
    ensures w == Exec(v, Steps(c, 3) + InTradeCallback(v, Steps(c, 3), t, c) + [StepSend(c)])
    ensures w == v.(sends := v.sends - {c})
  {
    hide Exec, Steps;
    w := RunDecision(v, c);
    assert Steps(c, 3) + [] == Steps(c, 3);
    ExecThen(v, Steps(c, 3), StepSend(c));
  }

  lemma TreeSchedule(v: Venue, f: Forest, c: nat, u: Venue)
    requires f.Tree? && u == Exec(v, ToDecision(v, f.req, f.inOrder, c))
    ensures var told := ToDecision(v, f.req, f.inOrder, c);
            var tail := Steps(c, 3) + InTradeCallback(u, Steps(c, 3), f.inTrade, c) + [StepSend(c)];
            && Exec(v, told + tail) == Exec(u, tail)
            && Schedule(v, f, c) == told + tail + Schedule(Exec(u, tail), f.rest, c)
  {
    var told := ToDecision(v, f.req, f.inOrder, c);
    var tail := Steps(c, 3) + InTradeCallback(u, Steps(c, 3), f.inTrade, c) + [StepSend(c)];
    ExecConcat(v, told, tail);
    assert told + Steps(c, 3) + InTradeCallback(u, Steps(c, 3), f.inTrade, c) + [StepSend(c)] == told + tail;
  }

  lemma AcceptAtCore(v: Venue, c: nat, req: OrderRequest, u: Venue)
    requires u == AcceptNow(v, req).(sends := v.sends[c := Send(req, Notified, IdFor(v, req), 0)])
    ensures Core(u) == AcceptNow(Core(v), req)
    ensures u.flags == v.flags && u.cancels == v.cancels
    ensures (u.orderEvents != v.orderEvents) <==> v.flags.onOrder
  {
    if v.flags.onOrder {
      assert |u.orderEvents| == |v.orderEvents| + 1;
    }
  }

  /** A send up to its fill decision has accepted its order and run what its order callback calls. */
  lemma {:induction false} ToDecisionRuns(v: Venue, f: Forest, c: nat) returns (u: Venue)
    requires f.Tree? && FreeFrom(v, c) && v.flags.connected
    ensures u == Exec(v, ToDecision(v, f.req, f.inOrder, c))
    ensures u.sends == v.sends[c := Send(f.req, Notified, IdFor(v, f.req), 0)] && u.cancels == v.cancels
    ensures Core(u) == Nested(v.flags.onOrder, AcceptNow(Core(v), f.req), f.inOrder).after
    decreases f, 3
  {
    var u0 := RunEnter(v, c, f.req);
    AcceptAtCore(v, c, f.req, u0);
    hide Exec, Steps, Schedule, AcceptNow, Eval;
    OrderCallbackRuns(v, Enter(c, f.req), f.inOrder, c, u0);
    u := Exec(v, ToDecision(v, f.req, f.inOrder, c));
  }

  lemma EvalOfSend(v: Venue, f: Forest, told: Venue)
    requires f.Tree? && v.flags.connected
    requires told == Nested(v.flags.onOrder, AcceptNow(v, f.req), f.inOrder).after
    ensures var trade := NewTrade(f.req, IdFor(v, f.req), told.nextTradeId);
            var seen := Eval(AnnounceNow(told, trade), f.inTrade);
            var next := if Fillable(told) then RecordNow(seen.after, trade) else told;
            Eval(v, f).after == Eval(next, f.rest).after
  {
    hide AcceptNow, NewTrade, RecordNow, AnnounceNow;
  }

  lemma {:induction false} SendRuns(v: Venue, f: Forest, c: nat)
    requires f.Tree? && FreeFrom(v, c) && v.flags.connected
    ensures Exec(v, Schedule(v, f, c)) == Beside(v, Eval(Core(v), f).after)
    decreases f, 4
  {
    hide Exec, NewTrade, Steps, Schedule, RecordNow, AnnounceNow, AcceptNow, Eval, InTradeCallback, ToDecision;
    var u := ToDecisionRuns(v, f, c);
    TreeSchedule(v, f, c, u);
    EvalOfSend(Core(v), f, Core(u));
    var w;
    if Fillable(u) {
      w := FillRuns(u, f.inTrade, c);
    } else {
      w := DeclineRuns(u, f.inTrade, c);
    }
    ForestRuns(w, f.rest, c);
    var tail := Steps(c, 3) + InTradeCallback(u, Steps(c, 3), f.inTrade, c) + [StepSend(c)];
    ExecConcat(v, ToDecision(v, f.req, f.inOrder, c) + tail, Schedule(w, f.rest, c));
    assert u.sends - {c} == v.sends;
  }

  /** A send that is refused makes no callback and changes nothing. */
  lemma {:induction false} RefusedRuns(v: Venue, f: Forest, c: nat)
    requires f.Tree? && FreeFrom(v, c) && !v.flags.connected
    ensures Exec(v, Schedule(v, f, c)) == Beside(v, Eval(Core(v), f).after)
    decreases f, 4
  {
    var u := RunEnter(v, c, f.req);
    assert Enter(c, f.req) + [] == Enter(c, f.req);
    IdleSteps(v, c, 3);
    hide Exec, Steps, Schedule;
    TreeSchedule(v, f, c, v);
    assert Steps(c, 3) + [] + [StepSend(c)] == Steps(c, 3) + [StepSend(c)];
    ExecThen(v, Steps(c, 3), StepSend(c));
    ForestRuns(v, f.rest, c);
    ExecConcat(v, ToDecision(v, f.req, f.inOrder, c) + (Steps(c, 3) + [StepSend(c)]), Schedule(v, f.rest, c));
  }

  /**
   * Whatever is nested in whichever callback, and whatever flags callbacks change
   * on the way: the machine, run along the calls, ends in exactly the state that
   * the meaning of nested calls gives, with no call of its own left in progress.
   */
  lemma {:induction false} ForestRuns(v: Venue, f: Forest, c: nat)
    requires FreeFrom(v, c)
    ensures Exec(v, Schedule(v, f, c)) == Beside(v, Eval(Core(v), f).after)
    decreases f, 5
  {
    match f
    case Leaf =>
    case Setting(flags, rest) =>
      ForestRuns(Apply(v, Configure(flags)), rest, c);
      ExecConcat(v, [Configure(flags)], Schedule(Apply(v, Configure(flags)), rest, c));
    case CancelTree(_, _, _) => CancelRuns(v, f, c);
    case Tree(_, _, _, _) => if v.flags.connected { SendRuns(v, f, c); } else { RefusedRuns(v, f, c); }
  }
}
