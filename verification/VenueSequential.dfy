// A send or cancel that nothing interrupts, as one transition of the machine.
module VenueSequential {
  import opened VenueTypes
  import opened VenueMachine

  /** The actions of one uninterrupted send; once it has returned, steps do nothing. */
  function SendAlone(c: nat, req: OrderRequest): seq<Action> {
    [StartSend(c, req)] + Steps(c, 7)
  }

  function Steps(c: nat, n: nat): seq<Action> {
    if n == 0 then [] else Steps(c, n - 1) + [StepSend(c)]
  }

  function CancelAlone(c: nat, req: CancelOrderRequest): seq<Action> {
    [StartCancel(c, req), StepCancel(c), StepCancel(c)]
  }

  /** The broker id a send gets: the client's, or the next of the venue. */
  function IdFor(v: Venue, req: OrderRequest): nat {
    if req.brokerOrderId != 0 then req.brokerOrderId else v.nextOrderId
  }

  /** The order is accepted, stored and announced. */
  function AcceptNow(v: Venue, req: OrderRequest): Venue {
    var id := IdFor(v, req);
    var order := NewOrder(req, id);
    v.(nextOrderId := if req.brokerOrderId != 0 then v.nextOrderId else v.nextOrderId + 1,
       numbered := if req.brokerOrderId != 0 then v.numbered else v.numbered + [v.nextOrderId],
       orders := v.orders[id := order],
       stored := v.stored + [Issue(id, req.brokerOrderId == 0)],
       orderEvents := if v.flags.onOrder then v.orderEvents + [order] else v.orderEvents)
  }

  /** The order is traded in full, announced and then recorded. */
  function FillNow(v: Venue, req: OrderRequest, id: nat): Venue
    requires id in v.orders
  {
    var trade := NewTrade(req, id, v.nextTradeId);
    v.(nextTradeId := v.nextTradeId + 1,
       tradeEvents := v.tradeEvents + [trade],
       trades := v.trades + [trade],
       orders := v.orders[id := FillOrder(v.orders[id], trade.tradeAmount)])
  }

  function SendNow(v: Venue, req: OrderRequest): Venue {
    if !v.flags.connected then v
    else
      var u := AcceptNow(v, req);
      var id := IdFor(v, req);
      if v.flags.autoFill && v.flags.onTrade then FillNow(u, req, id) else u
  }

  lemma {:induction false} IdleSteps(v: Venue, c: nat, n: nat)
    requires c !in v.sends
    ensures Exec(v, Steps(c, n)) == v
  {
    if n > 0 {
      IdleSteps(v, c, n - 1);
      ExecThen(v, Steps(c, n - 1), StepSend(c));
    }
  }

  lemma StepsSplit(c: nat, m: nat, n: nat)
    ensures Steps(c, m + n) == Steps(c, m) + Steps(c, n)
    decreases n
  {
    if n > 0 {
      StepsSplit(c, m, n - 1);
      assert Steps(c, m + n) == Steps(c, m + (n - 1)) + [StepSend(c)];
    }
  }

  lemma ThreeSteps(c: nat)
    ensures Steps(c, 1) == [StepSend(c)]
    ensures Steps(c, 3) == [StepSend(c), StepSend(c), StepSend(c)]
  {
  }

  /** Moving one send on twice is moving it to the later place. */
  lemma Replaced(sends: map<nat, Send>, c: nat, s: Send, t: Send)
    ensures sends[c := s][c := t] == sends[c := t]
  {
  }

  lemma RunAccept(v: Venue, c: nat, req: OrderRequest) returns (w: Venue)
    requires v.flags.connected && c !in v.sends
    ensures w == Exec(v, [StartSend(c, req)] + Steps(c, 3))
    ensures var id := IdFor(v, req);
            w == AcceptNow(v, req).(sends := v.sends[c := Send(req, Notified, id, 0)])
  {
    hide NewOrder;
    var start := [StartSend(c, req)];
    var id := IdFor(v, req);
    var next := if req.brokerOrderId != 0 then v.nextOrderId else v.nextOrderId + 1;
    var given := if req.brokerOrderId != 0 then v.numbered else v.numbered + [v.nextOrderId];
    var s := Send(req, Entered, 0, 0);
    var v1 := v.(sends := v.sends[c := s]);
    ExecThen(v, [], StartSend(c, req));
    NothingYet(v);
    assert [] + start == start;
    hide Exec, Steps, Apply;
    var v2 := v.(nextOrderId := next, numbered := given, sends := v.sends[c := s.(phase := Allocated, id := id)]);
    Replaced(v.sends, c, s, s.(phase := Allocated, id := id));
    ExecThenStep(v, start, c, v1, v2);
    var issue := Issue(id, req.brokerOrderId == 0);
    var v3 := v.(nextOrderId := next, numbered := given, orders := v.orders[id := NewOrder(req, id)],
                 stored := v.stored + [issue], sends := v.sends[c := s.(phase := Stored, id := id)]);
    Replaced(v.sends, c, s.(phase := Allocated, id := id), s.(phase := Stored, id := id));
    ExecThenStep(v, start + [StepSend(c)], c, v2, v3);
    w := AcceptNow(v, req).(sends := v.sends[c := Send(req, Notified, id, 0)]);
    Replaced(v.sends, c, s.(phase := Stored, id := id), Send(req, Notified, id, 0));
    ExecThenStep(v, start + [StepSend(c)] + [StepSend(c)], c, v3, w);
    ThreeSteps(c);
    assert start + Steps(c, 3) == start + [StepSend(c)] + [StepSend(c)] + [StepSend(c)];
  }

  lemma RunAnnounce(v: Venue, c: nat) returns (w: Venue)
    requires v.flags.autoFill && v.flags.onTrade
    requires c in v.sends && v.sends[c].phase.Notified?
    ensures w == Exec(v, Steps(c, 3))
    ensures var s := v.sends[c].(phase := Announced, tradeNo := v.nextTradeId);
            w == v.(sends := v.sends[c := s], nextTradeId := v.nextTradeId + 1,
                    tradeEvents := v.tradeEvents + [TradeOf(s)])
  {
    NothingYet(v);
    hide Exec, Steps;
    ThreeSteps(c);
    var step := StepSend(c);
    var v1 := DecideStep(v, c, v.sends[c]);
    ExecThenStep(v, [], c, v, v1);
    var v2 := NumberStep(v1, c, v1.sends[c]);
    ExecThenStep(v, [] + [step], c, v1, v2);
    w := AnnounceStep(v2, c, v2.sends[c]);
    ExecThenStep(v, [] + [step] + [step], c, v2, w);
    assert Steps(c, 3) == [] + [step] + [step] + [step];
    assert w.sends == v.sends[c := w.sends[c]];
  }

  lemma RunFill(v: Venue, c: nat) returns (w: Venue)
    requires v.flags.autoFill && v.flags.onTrade
    requires c in v.sends && v.sends[c].phase.Notified? && v.sends[c].id in v.orders
    ensures w == Exec(v, Steps(c, 4))
    ensures w == FillNow(v, v.sends[c].req, v.sends[c].id).(sends := v.sends - {c})
  {
    hide NewTrade, FillOrder, Exec;
    var u := RunAnnounce(v, c);
    w := RecordStep(u, c, u.sends[c]);
    ExecThenStep(v, Steps(c, 3), c, u, w);
    assert Steps(c, 4) == Steps(c, 3) + [StepSend(c)];
    assert w.sends == v.sends - {c};
  }

  lemma RunDecline(v: Venue, c: nat) returns (w: Venue)
    requires !(v.flags.autoFill && v.flags.onTrade)
    requires c in v.sends && v.sends[c].phase.Notified?
    ensures w == Exec(v, Steps(c, 4)) && w == v.(sends := v.sends - {c})
  {
    w := v.(sends := v.sends - {c});
    assert w == DecideStep(v, c, v.sends[c]);
    ExecThenStep(v, [], c, v, w);
    StepsSplit(c, 1, 3);
    ThreeSteps(c);
    assert Steps(c, 1) == [] + [StepSend(c)];
    ExecConcat(v, Steps(c, 1), Steps(c, 3));
    IdleSteps(w, c, 3);
  }

  lemma RefusedSend(v: Venue, c: nat, req: OrderRequest)
    requires c !in v.sends && !v.flags.connected
    ensures Exec(v, SendAlone(c, req)) == v
  {
    ExecConcat(v, [StartSend(c, req)], Steps(c, 7));
    assert Exec(v, [StartSend(c, req)]) == Exec(v, []);
    IdleSteps(v, c, 7);
  }

  lemma AcceptKeeps(v: Venue, req: OrderRequest)
    ensures var w := AcceptNow(v, req);
            && w.flags == v.flags && w.sends == v.sends && w.nextTradeId == v.nextTradeId
            && IdFor(v, req) in w.orders
  {
  }

  /** An uninterrupted send is one transition; it leaves no call in progress behind. */
  lemma SendAloneIsSendNow(v: Venue, c: nat, req: OrderRequest)
    requires c !in v.sends
    ensures Exec(v, SendAlone(c, req)) == SendNow(v, req)
  {
    hide Exec, AcceptNow, NewTrade, FillOrder, NewOrder, Steps;
    if !v.flags.connected {
      RefusedSend(v, c, req);
    } else {
      var u := RunAccept(v, c, req);
      StepsSplit(c, 3, 4);
      assert SendAlone(c, req) == ([StartSend(c, req)] + Steps(c, 3)) + Steps(c, 4);
      ExecConcat(v, [StartSend(c, req)] + Steps(c, 3), Steps(c, 4));
      AcceptKeeps(v, req);
      assert u.sends - {c} == v.sends;
      if v.flags.autoFill && v.flags.onTrade {
        var w := RunFill(u, c);
      } else {
        var w := RunDecline(u, c);
      }
    }
  }

  function CancelNow(v: Venue, req: CancelOrderRequest): Venue {
    if !v.flags.connected || CancelOutcome(v.orders, req.brokerOrderId) != Success then v
    else
      var order := CancelOf(v.orders[req.brokerOrderId], req);
      v.(orders := v.orders[req.brokerOrderId := order],
         canceled := v.canceled + [req.brokerOrderId],
         orderEvents := if v.flags.onOrder then v.orderEvents + [order] else v.orderEvents)
  }

  lemma CancelAloneIsCancelNow(v: Venue, c: nat, req: CancelOrderRequest)
    requires c !in v.cancels
    ensures Exec(v, CancelAlone(c, req)) == CancelNow(v, req)
  {
    hide CancelOf, Exec;
    var start := [StartCancel(c, req)];
    var v1 := if v.flags.connected then v.(cancels := v.cancels[c := Cancel(req, None)]) else v;
    ExecThen(v, [], StartCancel(c, req));
    NothingYet(v);
    assert [] + start == start;
    var v2 := if v.flags.connected then AdvanceCancel(v1, c, v1.cancels[c]) else v;
    ExecThen(v, start, StepCancel(c));
    var v3 := if c in v2.cancels then AdvanceCancel(v2, c, v2.cancels[c]) else v2;
    ExecThen(v, start + [StepCancel(c)], StepCancel(c));
    assert CancelAlone(c, req) == start + [StepCancel(c)] + [StepCancel(c)];
    assert v3.cancels == v.cancels;
  }

  lemma NothingYet(v: Venue)
    ensures Exec(v, []) == v
  {
  }
}
