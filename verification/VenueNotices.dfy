// What the order callback is handed: every notice is an order just as a send
// stored it or just as a cancel left it, told field by field.
module VenueNotices {
  import opened VenueTypes
  import opened VenueMachine
  import opened VenueSequential

  /** The order carries what the request asked for, under the broker id. */
  predicate Carries(o: Order, req: OrderRequest, id: nat) {
    && o.brokerOrderId == id
    && o.clientOrderId == req.clientOrderId && o.instrument == req.instrument && o.market == req.market
    && o.price == req.price && o.volume == req.volume && o.side == req.side
    && o.positionEffect == req.positionEffect && o.businessType == req.businessType
  }

  /** An accepted order nothing has happened to yet. */
  predicate Untouched(o: Order) {
    && o.orderId == "" && o.status == NotTradedQueueing && o.submitStatus == InsertAccepted
    && o.leftVolume == o.volume && o.tradedVolume == 0 && o.tradeAmount == 0.0
  }

  /** The two orders are the same but for status, submit status and order id. */
  predicate SameTerms(o: Order, p: Order) {
    && o.brokerOrderId == p.brokerOrderId && o.clientOrderId == p.clientOrderId
    && o.instrument == p.instrument && o.market == p.market && o.price == p.price && o.side == p.side
    && o.positionEffect == p.positionEffect && o.businessType == p.businessType
    && o.volume == p.volume && o.leftVolume == p.leftVolume
    && o.tradedVolume == p.tradedVolume && o.tradeAmount == p.tradeAmount
  }

  predicate CanceledAs(o: Order, req: CancelOrderRequest) {
    o.status == Canceled && o.submitStatus == CancelAccepted && o.orderId == req.orderId
  }

  /** The n-th step of the run is the store of a send, and leaves this order under the send's id. */
  ghost predicate StoredAt(run: seq<Action>, n: nat, req: OrderRequest, id: nat, o: Order)
    requires n < |run|
  {
    var u, w := Exec(INITIAL, run[..n]), Exec(INITIAL, run[..n + 1]);
    && run[n].StepSend? && run[n].call in u.sends
    && u.sends[run[n].call].phase.Allocated? && u.sends[run[n].call].req == req && u.sends[run[n].call].id == id
    && (if req.brokerOrderId != 0 then id == req.brokerOrderId else id in u.numbered)
    && id in w.orders && w.orders[id] == o && Carries(o, req, id) && Untouched(o)
  }

  /** The n-th step of the run is the critical section of a cancel, and leaves this order canceled. */
  ghost predicate CanceledAt(run: seq<Action>, n: nat, req: CancelOrderRequest, o: Order)
    requires n < |run|
  {
    var u, w := Exec(INITIAL, run[..n]), Exec(INITIAL, run[..n + 1]);
    && run[n].StepCancel? && run[n].call in u.cancels && u.cancels[run[n].call] == Cancel(req, None)
    && req.brokerOrderId in u.orders && req.brokerOrderId in w.orders
    && w.orders[req.brokerOrderId] == o
    && CanceledAs(o, req) && SameTerms(o, u.orders[req.brokerOrderId])
  }

  ghost predicate FromSend(run: seq<Action>, req: OrderRequest, id: nat, o: Order) {
    exists n: nat :: n < |run| && StoredAt(run, n, req, id, o)
  }

  ghost predicate FromCancel(run: seq<Action>, req: CancelOrderRequest, o: Order) {
    exists n: nat :: n < |run| && CanceledAt(run, n, req, o)
  }

  ghost predicate Justified(run: seq<Action>, o: Order) {
    (exists req, id :: FromSend(run, req, id, o)) || (exists req :: FromCancel(run, req, o))
  }

  /** Ids, sends just past their store and cancels just past their section are accounted for. */
  ghost predicate Accounted(run: seq<Action>, v: Venue) {
    && (forall c :: c in v.sends && !v.sends[c].phase.Entered? ==>
          if v.sends[c].req.brokerOrderId != 0 then v.sends[c].id == v.sends[c].req.brokerOrderId
          else v.sends[c].id in v.numbered)
    && (forall c :: c in v.sends && v.sends[c].phase.Stored? ==>
          exists o :: FromSend(run, v.sends[c].req, v.sends[c].id, o))
    && (forall k :: k in v.cancels && v.cancels[k].snapshot.Some? ==>
          FromCancel(run, v.cancels[k].req, v.cancels[k].snapshot.value))
  }

  ghost predicate NoticeInv(run: seq<Action>) {
    && Accounted(run, Exec(INITIAL, run))
    && forall o :: o in Exec(INITIAL, run).orderEvents ==> Justified(run, o)
  }

  lemma FromSendStays(run: seq<Action>, a: Action, req: OrderRequest, id: nat, o: Order)
    requires FromSend(run, req, id, o)
    ensures FromSend(run + [a], req, id, o)
  {
    var n: nat :| n < |run| && StoredAt(run, n, req, id, o);
    hide Exec;
    assert (run + [a])[..n] == run[..n] && (run + [a])[..n + 1] == run[..n + 1];
    assert StoredAt(run + [a], n, req, id, o);
  }

  lemma FromCancelStays(run: seq<Action>, a: Action, req: CancelOrderRequest, o: Order)
    requires FromCancel(run, req, o)
    ensures FromCancel(run + [a], req, o)
  {
    var n: nat :| n < |run| && CanceledAt(run, n, req, o);
    hide Exec;
    assert (run + [a])[..n] == run[..n] && (run + [a])[..n + 1] == run[..n + 1];
    assert CanceledAt(run + [a], n, req, o);
  }

  lemma JustifiedStays(run: seq<Action>, a: Action, o: Order)
    requires Justified(run, o)
    ensures Justified(run + [a], o)
  {
    if req, id :| FromSend(run, req, id, o) {
      FromSendStays(run, a, req, id, o);
    } else {
      var req :| FromCancel(run, req, o);
      FromCancelStays(run, a, req, o);
    }
  }

  /** A request and an id leave only one order they can carry untouched. */
  lemma OneUntouched(o: Order, p: Order, req: OrderRequest, id: nat)
    requires Carries(o, req, id) && Carries(p, req, id) && Untouched(o) && Untouched(p)
    ensures o == p
  {
  }

  lemma LastPrefixes(run: seq<Action>, a: Action)
    ensures (run + [a])[..|run|] == run && (run + [a])[..|run| + 1] == run + [a]
  {
  }

  lemma StoreIsFromSend(run: seq<Action>, c: nat)
    requires c in Exec(INITIAL, run).sends && Exec(INITIAL, run).sends[c].phase.Allocated?
    requires Accounted(run, Exec(INITIAL, run))
    ensures var s := Exec(INITIAL, run).sends[c];
            exists o :: FromSend(run + [StepSend(c)], s.req, s.id, o)
  {
    var v, more := Exec(INITIAL, run), run + [StepSend(c)];
    var s := v.sends[c];
    ExecThen(INITIAL, run, StepSend(c));
    LastPrefixes(run, StepSend(c));
    hide Exec;
    var o := Exec(INITIAL, more).orders[s.id];
    assert StoredAt(more, |run|, s.req, s.id, o);
    assert FromSend(more, s.req, s.id, o);
  }

  lemma SectionIsFromCancel(run: seq<Action>, k: nat)
    requires k in Exec(INITIAL, run).cancels && Exec(INITIAL, run).cancels[k].snapshot.None?
    ensures var v, w := Exec(INITIAL, run), Exec(INITIAL, run + [StepCancel(k)]);
            k in w.cancels && w.cancels[k].snapshot.Some? ==>
              FromCancel(run + [StepCancel(k)], w.cancels[k].req, w.cancels[k].snapshot.value)
  {
    var v, more := Exec(INITIAL, run), run + [StepCancel(k)];
    ExecThen(INITIAL, run, StepCancel(k));
    LastPrefixes(run, StepCancel(k));
    hide Exec;
    var w := Exec(INITIAL, more);
    if k in w.cancels && w.cancels[k].snapshot.Some? {
      assert CanceledAt(more, |run|, v.cancels[k].req, w.cancels[k].snapshot.value);
    }
  }

  /** What a step of one send changes of the sends. */
  lemma SendStepMoves(v: Venue, c: nat, w: Venue)
    requires c in v.sends && w == AdvanceSend(v, c, v.sends[c]) && c in w.sends
    ensures w.sends[c].req == v.sends[c].req && !w.sends[c].phase.Entered?
    ensures w.sends[c].phase.Stored? <==> v.sends[c].phase.Allocated?
    ensures !v.sends[c].phase.Entered? ==> w.sends[c].id == v.sends[c].id
    ensures v.sends[c].phase.Entered? ==>
              if v.sends[c].req.brokerOrderId != 0 then w.sends[c].id == v.sends[c].req.brokerOrderId
              else w.sends[c].id in w.numbered
  {
    hide NewTrade, NewOrder, FillOrder, TradeOf;
    match v.sends[c].phase
    case Entered =>
    case Allocated =>
    case Stored =>
    case Notified =>
    case Filling =>
    case Numbered =>
    case Announced =>
  }

  lemma NumberedGrows(v: Venue, a: Action)
    ensures v.numbered <= Apply(v, a).numbered
  {
    hide NewTrade, NewOrder, FillOrder, CancelOf;
  }

  /** What a step of one send hands the order callback. */
  lemma SendStepNotice(v: Venue, c: nat, w: Venue)
    requires c in v.sends && w == AdvanceSend(v, c, v.sends[c])
    ensures if v.sends[c].phase.Stored? && v.flags.onOrder
            then exists o :: w.orderEvents == v.orderEvents + [o]
                          && Carries(o, v.sends[c].req, v.sends[c].id) && Untouched(o)
            else w.orderEvents == v.orderEvents
  {
    hide NewTrade, FillOrder;
    if v.sends[c].phase.Stored? && v.flags.onOrder {
      var o := NewOrder(v.sends[c].req, v.sends[c].id);
      assert w.orderEvents == v.orderEvents + [o];
    }
  }

  lemma CancelStepMoves(v: Venue, k: nat, w: Venue)
    requires k in v.cancels && w == AdvanceCancel(v, k, v.cancels[k])
    ensures w.sends == v.sends
    ensures forall l :: l in w.cancels && l != k ==> l in v.cancels && w.cancels[l] == v.cancels[l]
    ensures k in w.cancels ==> v.cancels[k].snapshot.None? && w.cancels[k].snapshot.Some?
    ensures if v.cancels[k].snapshot.Some? && v.flags.onOrder
            then w.orderEvents == v.orderEvents + [v.cancels[k].snapshot.value]
            else w.orderEvents == v.orderEvents
  {
    hide CancelOf;
  }

  lemma SendsStayAccounted(run: seq<Action>, c: nat)
    requires Accounted(run, Exec(INITIAL, run)) && c in Exec(INITIAL, run).sends
    ensures Accounted(run + [StepSend(c)], Exec(INITIAL, run + [StepSend(c)]))
  {
    var v, a := Exec(INITIAL, run), StepSend(c);
    var w := Exec(INITIAL, run + [a]);
    ExecThen(INITIAL, run, a);
    OnlyThisSend(v, c);
    NumberedGrows(v, a);
    if c in w.sends {
      SendStepMoves(v, c, w);
    }
    if v.sends[c].phase.Allocated? {
      StoreIsFromSend(run, c);
    }
    hide Exec, Apply, AdvanceSend, FromSend, FromCancel;
    forall d | d in w.sends && w.sends[d].phase.Stored?
      ensures exists o :: FromSend(run + [a], w.sends[d].req, w.sends[d].id, o)
    {
      if d != c {
        var o :| FromSend(run, v.sends[d].req, v.sends[d].id, o);
        FromSendStays(run, a, v.sends[d].req, v.sends[d].id, o);
      }
    }
    forall k | k in w.cancels && w.cancels[k].snapshot.Some?
      ensures FromCancel(run + [a], w.cancels[k].req, w.cancels[k].snapshot.value)
    {
      FromCancelStays(run, a, v.cancels[k].req, v.cancels[k].snapshot.value);
    }
  }

  /** A step that moves no send, and brings no cancel past its section but the one given. */
  lemma OthersStayAccounted(run: seq<Action>, a: Action)
    requires Accounted(run, Exec(INITIAL, run))
    requires !a.StepSend? || a.call !in Exec(INITIAL, run).sends
    ensures Accounted(run + [a], Exec(INITIAL, run + [a]))
  {
    hide Exec, AdvanceSend, AdvanceCancel;
    var v, w := Exec(INITIAL, run), Exec(INITIAL, run + [a]);
    ExecThen(INITIAL, run, a);
    NewCallsAreFresh(v, a);
    NumberedGrows(v, a);
    if a.StepCancel? && a.call in v.cancels && v.cancels[a.call].snapshot.None? {
      SectionIsFromCancel(run, a.call);
    }
    hide Apply, FromSend, FromCancel;
    forall d | d in w.sends && w.sends[d].phase.Stored?
      ensures exists o :: FromSend(run + [a], w.sends[d].req, w.sends[d].id, o)
    {
      var o :| FromSend(run, v.sends[d].req, v.sends[d].id, o);
      FromSendStays(run, a, v.sends[d].req, v.sends[d].id, o);
    }
    forall k | k in w.cancels && w.cancels[k].snapshot.Some?
      ensures FromCancel(run + [a], w.cancels[k].req, w.cancels[k].snapshot.value)
    {
      if k in v.cancels && v.cancels[k] == w.cancels[k] {
        FromCancelStays(run, a, v.cancels[k].req, v.cancels[k].snapshot.value);
      }
    }
  }

  lemma NewCallsAreFresh(v: Venue, a: Action)
    requires !a.StepSend? || a.call !in v.sends
    ensures var w := Apply(v, a);
            && (forall d :: d in w.sends && !w.sends[d].phase.Entered? ==> d in v.sends && w.sends[d] == v.sends[d])
            && (forall k :: k in w.cancels && w.cancels[k].snapshot.Some? ==>
                  k in v.cancels && (w.cancels[k] == v.cancels[k]
                                     || (a == StepCancel(k) && v.cancels[k].snapshot.None?)))
  {
    hide CancelOf, AdvanceSend, AdvanceCancel;
    if a.StepCancel? && a.call in v.cancels {
      CancelStepMoves(v, a.call, Apply(v, a));
    }
  }

  lemma NoticesJustified(run: seq<Action>, a: Action)
    requires NoticeInv(run)
    ensures forall o :: o in Exec(INITIAL, run + [a]).orderEvents ==> Justified(run + [a], o)
  {
    var v, w := Exec(INITIAL, run), Exec(INITIAL, run + [a]);
    ExecThen(INITIAL, run, a);
    ApplyCases(v, a);
    if a.StepSend? && a.call in v.sends {
      SendStepNotice(v, a.call, w);
    } else if a.StepCancel? && a.call in v.cancels {
      CancelStepMoves(v, a.call, w);
    }
    hide Exec, Apply, AdvanceSend, AdvanceCancel, FromSend, FromCancel, Justified, Carries, Untouched;
    forall o | o in w.orderEvents ensures Justified(run + [a], o) {
      if o in v.orderEvents {
        JustifiedStays(run, a, o);
      } else if a.StepSend? {
        NoticeOfSend(run, a.call, o);
      } else {
        NoticeOfCancel(run, a.call, o);
      }
    }
  }

  lemma NoticeOfSend(run: seq<Action>, c: nat, o: Order)
    requires Accounted(run, Exec(INITIAL, run)) && c in Exec(INITIAL, run).sends
    requires var s := Exec(INITIAL, run).sends[c]; s.phase.Stored? && Carries(o, s.req, s.id) && Untouched(o)
    ensures Justified(run + [StepSend(c)], o)
  {
    hide Exec;
    var s := Exec(INITIAL, run).sends[c];
    var p :| FromSend(run, s.req, s.id, p);
    OneUntouched(o, p, s.req, s.id);
    FromSendStays(run, StepSend(c), s.req, s.id, o);
  }

  lemma NoticeOfCancel(run: seq<Action>, k: nat, o: Order)
    requires Accounted(run, Exec(INITIAL, run)) && k in Exec(INITIAL, run).cancels
    requires Exec(INITIAL, run).cancels[k].snapshot == Some(o)
    ensures Justified(run + [StepCancel(k)], o)
  {
    hide Exec;
    FromCancelStays(run, StepCancel(k), Exec(INITIAL, run).cancels[k].req, o);
  }

  lemma {:induction false} NoticeRun(run: seq<Action>)
    ensures NoticeInv(run)
    decreases |run|
  {
    if run == [] {
      assert Exec(INITIAL, []) == INITIAL;
    } else {
      var init, a := run[..|run| - 1], run[|run| - 1];
      NoticeRun(init);
      assert run == init + [a];
      hide Accounted, Exec;
      NoticesJustified(init, a);
      if a.StepSend? && a.call in Exec(INITIAL, init).sends {
        SendsStayAccounted(init, a.call);
      } else {
        OthersStayAccounted(init, a);
      }
    }
  }

  /**
   * Over every run: each order handed to the order callback is either the order a
   * send had just stored, carrying its request under its broker id, queueing, insert
   * accepted, without an order id and with everything left; or the order a cancel
   * had just left in the table, canceled, cancel accepted, under the cancel's order
   * id and otherwise as it was.
   */
  lemma EveryNoticeIsAStoreOrACancel(run: seq<Action>, o: Order)
    requires o in Exec(INITIAL, run).orderEvents
    ensures (exists n: nat, req, id :: n < |run| && StoredAt(run, n, req, id, o))
         || (exists n: nat, req :: n < |run| && CanceledAt(run, n, req, o))
  {
    NoticeRun(run);
    hide Exec;
    if req, id :| FromSend(run, req, id, o) {
      var n: nat :| n < |run| && StoredAt(run, n, req, id, o);
    } else {
      var req :| FromCancel(run, req, o);
      var n: nat :| n < |run| && CanceledAt(run, n, req, o);
    }
  }
}
