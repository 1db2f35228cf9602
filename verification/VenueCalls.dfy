// One call that nothing interrupts, told field by field: what a client can rely
// on without knowing the steps.
module VenueCalls {
  import opened VenueTypes
  import opened TradeIds
  import opened VenueMachine
  import opened VenueSequential
  import opened VenueNotices

  /** The trade carries what the request asked for, under the broker id and the trade number. */
  predicate TradeCarries(t: Trade, req: OrderRequest, id: nat, number: nat) {
    && t.tradeId == TradeId(number) && t.orderId == "" && t.brokerOrderId == id
    && t.clientOrderId == req.clientOrderId && t.instrument == req.instrument && t.market == req.market
    && t.price == req.price && t.volume == req.volume && t.tradeAmount == req.price * (req.volume as real)
    && t.side == req.side && t.positionEffect == req.positionEffect && t.businessType == req.businessType
  }

  /** The order was filled in full, and nothing else happened to it. */
  predicate FilledInFull(o: Order) {
    && o.orderId == "" && o.status == Filled && o.submitStatus == InsertAccepted
    && o.leftVolume == 0 && o.tradedVolume == o.volume && o.tradeAmount == o.price * (o.volume as real)
  }

  /** The order table after a send, against the one before. */
  ghost predicate SendsOrder(v: Venue, w: Venue, req: OrderRequest, id: nat, fills: bool) {
    && w.orders.Keys == v.orders.Keys + {id}
    && (forall k :: k in v.orders && k != id ==> w.orders[k] == v.orders[k])
    && Carries(w.orders[id], req, id)
    && (if fills then FilledInFull(w.orders[id]) else Untouched(w.orders[id]))
  }

  /** The order callback is handed the accepted order, if there is one. */
  ghost predicate TellsOrder(v: Venue, w: Venue, req: OrderRequest, id: nat) {
    if v.flags.onOrder
    then && |w.orderEvents| == |v.orderEvents| + 1 && v.orderEvents <= w.orderEvents
         && Carries(w.orderEvents[|v.orderEvents|], req, id) && Untouched(w.orderEvents[|v.orderEvents|])
    else w.orderEvents == v.orderEvents
  }

  /** One trade in the log, the same for the trade callback, or neither. */
  ghost predicate Trades(v: Venue, w: Venue, req: OrderRequest, id: nat, fills: bool) {
    if fills
    then && |w.trades| == |v.trades| + 1 && v.trades <= w.trades
         && |w.tradeEvents| == |v.tradeEvents| + 1 && v.tradeEvents <= w.tradeEvents
         && TradeCarries(w.trades[|v.trades|], req, id, v.nextTradeId)
         && w.tradeEvents[|v.tradeEvents|] == w.trades[|v.trades|]
         && w.nextTradeId == v.nextTradeId + 1
    else w.trades == v.trades && w.tradeEvents == v.tradeEvents && w.nextTradeId == v.nextTradeId
  }

  /**
   * An uninterrupted send. Not connected, it changes nothing. Connected, it takes
   * the client's id or the venue's next one, puts the order as requested under it
   * and leaves every other order alone, tells the order callback of the order as
   * accepted, and fills it, announced and recorded as one and the same trade, if
   * and only if auto fill is on and there is a trade callback.
   */
  lemma SendAloneFieldByField(v: Venue, c: nat, req: OrderRequest)
    requires c !in v.sends
    ensures !v.flags.connected ==> Exec(v, SendAlone(c, req)) == v
    ensures v.flags.connected ==>
              var w := Exec(v, SendAlone(c, req));
              var id := if req.brokerOrderId != 0 then req.brokerOrderId else v.nextOrderId;
              var fills := v.flags.autoFill && v.flags.onTrade;
              && SendsOrder(v, w, req, id, fills) && TellsOrder(v, w, req, id) && Trades(v, w, req, id, fills)
              && w.nextOrderId == (if req.brokerOrderId != 0 then v.nextOrderId else v.nextOrderId + 1)
              && w.stored == v.stored + [Issue(id, req.brokerOrderId == 0)]
              && w.flags == v.flags && w.canceled == v.canceled && w.sends == v.sends && w.cancels == v.cancels
  {
    SendAloneIsSendNow(v, c, req);
    hide Exec, SendAlone, AcceptNow, FillNow;
    if v.flags.connected {
      var id := IdFor(v, req);
      AcceptFieldByField(v, req, id);
      if v.flags.autoFill && v.flags.onTrade {
        FillFieldByField(AcceptNow(v, req), req, id);
        FillOfAccepted(v, AcceptNow(v, req), FillNow(AcceptNow(v, req), req, id), req, id);
      }
    }
  }

  lemma AcceptFieldByField(v: Venue, req: OrderRequest, id: nat)
    requires id == IdFor(v, req)
    ensures var u := AcceptNow(v, req);
            && SendsOrder(v, u, req, id, false) && TellsOrder(v, u, req, id) && Trades(v, u, req, id, false)
            && u.stored == v.stored + [Issue(id, req.brokerOrderId == 0)]
            && u.nextOrderId == (if req.brokerOrderId != 0 then v.nextOrderId else v.nextOrderId + 1)
            && u.flags == v.flags && u.canceled == v.canceled && u.sends == v.sends && u.cancels == v.cancels
  {
  }

  lemma FillFieldByField(u: Venue, req: OrderRequest, id: nat)
    requires id in u.orders && Carries(u.orders[id], req, id) && Untouched(u.orders[id])
    ensures var w := FillNow(u, req, id);
            && SendsOrder(u, w, req, id, true) && Trades(u, w, req, id, true)
            && w == u.(orders := w.orders, trades := w.trades, tradeEvents := w.tradeEvents,
                       nextTradeId := w.nextTradeId)
  {
    hide TradeId;
    assert u.orders.Keys + {id} == u.orders.Keys;
  }

  lemma FillOfAccepted(v: Venue, u: Venue, w: Venue, req: OrderRequest, id: nat)
    requires SendsOrder(v, u, req, id, false) && Trades(v, u, req, id, false)
    requires SendsOrder(u, w, req, id, true) && Trades(u, w, req, id, true)
    ensures SendsOrder(v, w, req, id, true) && Trades(v, w, req, id, true)
  {
    hide TradeCarries, Carries, FilledInFull, Untouched;
  }

  /**
   * An uninterrupted cancel. It changes nothing unless the venue is connected and
   * the order is there and queueing or of unknown status; then it marks just this
   * order canceled, under the cancel's order id, and tells the order callback of it.
   */
  lemma CancelAloneFieldByField(v: Venue, c: nat, req: CancelOrderRequest)
    requires c !in v.cancels
    ensures var w := Exec(v, CancelAlone(c, req));
            var id := req.brokerOrderId;
            if v.flags.connected && id in v.orders && v.orders[id].status != Filled
               && v.orders[id].status != Canceled && v.orders[id].status != Rejected
            then && w.orders.Keys == v.orders.Keys
                 && (forall k :: k in v.orders && k != id ==> w.orders[k] == v.orders[k])
                 && CanceledAs(w.orders[id], req) && SameTerms(w.orders[id], v.orders[id])
                 && w.orderEvents == v.orderEvents + (if v.flags.onOrder then [w.orders[id]] else [])
                 && w.canceled == v.canceled + [id]
                 && w == v.(orders := w.orders, orderEvents := w.orderEvents, canceled := w.canceled)
            else w == v
  {
    CancelAloneIsCancelNow(v, c, req);
    hide Exec, CancelAlone;
    assert v.orderEvents + [] == v.orderEvents;
  }

  /** The record of a fill, wherever a cancel may have left the order: four fields of the one order, and the log. */
  lemma RecordTouchesOnlyTheFill(v: Venue, c: nat)
    requires c in v.sends && v.sends[c].phase.Announced? && v.sends[c].id in v.orders
    ensures var s, w := v.sends[c], Apply(v, StepSend(c));
            && w.orders.Keys == v.orders.Keys
            && (forall k :: k in v.orders && k != s.id ==> w.orders[k] == v.orders[k])
            && w.orders[s.id] == v.orders[s.id].(status := Filled, leftVolume := 0,
                 tradedVolume := v.orders[s.id].volume, tradeAmount := s.req.price * (s.req.volume as real))
            && |w.trades| == |v.trades| + 1 && v.trades <= w.trades
            && TradeCarries(w.trades[|v.trades|], s.req, s.id, s.tradeNo)
            && w.tradeEvents == v.tradeEvents && w.orderEvents == v.orderEvents
  {
    hide TradeId;
  }
}
