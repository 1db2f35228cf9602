// What every run keeps of the order table, colliding ids included, and the
// exact condition under which no stored order is ever overwritten.
module VenueTable {
  import opened VenueTypes
  import opened VenueMachine

  ghost predicate OrderOk(id: nat, o: Order) {
    && o.brokerOrderId == id
    && o.tradedVolume + o.leftVolume == o.volume
    && (o.status.NotTradedQueueing? || o.status.Filled? || o.status.Canceled?)
    && (o.status.Filled? ==> o.leftVolume == 0 && o.tradedVolume == o.volume)
    && (!o.status.Filled? ==> o.tradedVolume == 0 && o.tradeAmount == 0.0)
  }

  ghost predicate TableInv(v: Venue) {
    && !v.fault
    && (forall id :: id in v.orders ==> OrderOk(id, v.orders[id]))
    && (forall c :: c in v.sends && v.sends[c].PastStore() ==> v.sends[c].id in v.orders)
  }

  lemma TableRecord(v: Venue, c: nat, w: Venue)
    requires TableInv(v) && c in v.sends && v.sends[c].phase.Announced? && w == RecordStep(v, c, v.sends[c])
    ensures TableInv(w) && v.orders.Keys <= w.orders.Keys
  {
  }

  lemma TableStore(v: Venue, c: nat, w: Venue)
    requires TableInv(v) && c in v.sends && w == StoreStep(v, c, v.sends[c])
    ensures TableInv(w) && v.orders.Keys <= w.orders.Keys
  {
  }

  lemma TableSendStep(v: Venue, c: nat, w: Venue)
    requires TableInv(v) && c in v.sends && w == AdvanceSend(v, c, v.sends[c])
    ensures TableInv(w) && v.orders.Keys <= w.orders.Keys
  {
    hide NewTrade, RecordStep, StoreStep, NewOrder;
    if v.sends[c].phase.Announced? {
      TableRecord(v, c, w);
    } else if v.sends[c].phase.Allocated? {
      TableStore(v, c, w);
    } else {
      OnlyThisSend(v, c);
    }
  }

  lemma TableCancelStep(v: Venue, c: nat, w: Venue)
    requires TableInv(v) && c in v.cancels && w == AdvanceCancel(v, c, v.cancels[c])
    ensures TableInv(w) && v.orders.Keys <= w.orders.Keys
  {
  }

  lemma TableStep(v: Venue, a: Action)
    requires TableInv(v)
    ensures TableInv(Apply(v, a))
    ensures v.orders.Keys <= Apply(v, a).orders.Keys
  {
    hide AdvanceSend, AdvanceCancel;
    match a
    case StepSend(c) => if c in v.sends { TableSendStep(v, c, Apply(v, a)); }
    case StepCancel(c) => if c in v.cancels { TableCancelStep(v, c, Apply(v, a)); }
    case _ =>
  }

  lemma {:induction false} TableRun(v: Venue, run: seq<Action>)
    requires TableInv(v)
    ensures TableInv(Exec(v, run))
    ensures v.orders.Keys <= Exec(v, run).orders.Keys
    decreases |run|
  {
    if run != [] {
      TableStep(v, run[0]);
      TableRun(Apply(v, run[0]), run[1..]);
    }
  }

  /**
   * In every reachable state of every interleaving, colliding ids included, each
   * order carries its key and balanced volumes, only filled orders have traded
   * anything, no order is ever dropped, and the fill always finds its order.
   */
  lemma TableAlwaysConsistent(run: seq<Action>, more: seq<Action>)
    ensures TableInv(Exec(INITIAL, run))
    ensures Exec(INITIAL, run).orders.Keys <= Exec(INITIAL, run + more).orders.Keys
  {
    TableRun(INITIAL, run);
    TableRun(Exec(INITIAL, run), more);
    ExecConcat(INITIAL, run, more);
  }
}
