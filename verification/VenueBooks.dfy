// The two views of the venue, trade log and order table, reconciled on every
// run that overwrites no order: trade by trade and instrument by instrument.
module VenueBooks {
  import opened VenueTypes
  import opened Netting
  import opened VenueMachine
  import opened VenueTable
  import opened VenueIds

  ghost predicate PastStore(v: Venue, c: nat) {
    c in v.sends && v.sends[c].PastStore()
  }

  /** The order still carries what its request asked for. */
  ghost predicate OrderFor(o: Order, req: OrderRequest) {
    && o.clientOrderId == req.clientOrderId && o.instrument == req.instrument && o.market == req.market
    && o.price == req.price && o.volume == req.volume && o.side == req.side
    && o.positionEffect == req.positionEffect && o.businessType == req.businessType
  }

  /** The order was filled by exactly this trade. */
  ghost predicate FilledBy(o: Order, t: Trade) {
    && o.status.Filled?
    && o.clientOrderId == t.clientOrderId && o.instrument == t.instrument && o.market == t.market
    && o.price == t.price && o.side == t.side
    && o.positionEffect == t.positionEffect && o.businessType == t.businessType
    && o.tradedVolume == o.volume == t.volume
    && o.tradeAmount == t.tradeAmount == t.price * (t.volume as real)
  }

  ghost predicate SendsInv(v: Venue) {
    && (forall c, d :: PastStore(v, c) && PastStore(v, d) && c != d ==> v.sends[c].id != v.sends[d].id)
    && (forall c :: PastStore(v, c) ==>
          && v.sends[c].id in v.orders
          && OrderFor(v.orders[v.sends[c].id], v.sends[c].req)
          && !v.orders[v.sends[c].id].status.Filled?)
  }

  ghost predicate LogInv(v: Venue) {
    && (forall t :: t in v.trades ==> t.brokerOrderId in v.orders && FilledBy(v.orders[t.brokerOrderId], t))
    && (forall i, j :: 0 <= i < j < |v.trades| ==> v.trades[i].brokerOrderId != v.trades[j].brokerOrderId)
    && (forall id :: id in v.orders && v.orders[id].status.Filled? ==>
          exists t :: t in v.trades && t.brokerOrderId == id)
  }

  ghost predicate SumsInv(v: Venue) {
    forall instrument ::
      && NetVolume(v.trades, instrument) as real == TableSum(v.orders, VolumeIn(instrument))
      && Turnover(v.trades, instrument) == TableSum(v.orders, MoneyIn(instrument))
  }

  ghost predicate BooksInv(v: Venue) {
    SendsInv(v) && LogInv(v) && SumsInv(v)
  }

  /** Everything BooksInv speaks about is the same, but for sends that went away or moved past their store. */
  ghost predicate SameBooks(v: Venue, w: Venue) {
    && w.orders == v.orders
    && w.trades == v.trades
    && (forall c :: PastStore(w, c) ==>
          PastStore(v, c) && w.sends[c].id == v.sends[c].id && w.sends[c].req == v.sends[c].req)
  }

  ghost predicate Cancels(v: Venue, a: Action) {
    && a.StepCancel? && a.call in v.cancels && v.cancels[a.call].snapshot.None?
    && CancelOutcome(v.orders, v.cancels[a.call].req.brokerOrderId) == Success
  }

  ghost predicate Records(v: Venue, a: Action) {
    a.StepSend? && a.call in v.sends && v.sends[a.call].phase.Announced?
  }

  lemma LaterSendStepsKeepBooks(v: Venue, c: nat)
    requires c in v.sends && !v.sends[c].phase.Allocated? && !v.sends[c].phase.Announced?
    ensures SameBooks(v, AdvanceSend(v, c, v.sends[c]))
  {
    OnlyThisSend(v, c);
  }

  lemma OtherStepsKeepBooks(v: Venue, a: Action)
    requires !Stores(v, a) && !Records(v, a) && !Cancels(v, a)
    ensures SameBooks(v, Apply(v, a))
  {
    match a
    case StepSend(c) => if c in v.sends { LaterSendStepsKeepBooks(v, c); }
    case StepCancel(c) => if c in v.cancels { assert Apply(v, a) == AdvanceCancel(v, c, v.cancels[c]); }
    case _ =>
  }

  lemma SameBooksKeepInv(v: Venue, w: Venue)
    requires BooksInv(v) && SameBooks(v, w)
    ensures BooksInv(w)
  {
  }

  // ---- storing a new order ----

  /** A send of this order is past its store: its fill can still land. */
  ghost predicate FillPossible(v: Venue, id: nat) {
    exists c :: PastStore(v, c) && v.sends[c].id == id
  }

  /** The step stores over an order that is filled, or that a send in progress can still fill. */
  ghost predicate Clobbers(v: Venue, a: Action) {
    && Stores(v, a)
    && v.sends[a.call].id in v.orders
    && (v.orders[v.sends[a.call].id].status.Filled? || FillPossible(v, v.sends[a.call].id))
  }

  lemma StoringKeepsSends(v: Venue, c: nat, w: Venue)
    requires SendsInv(v) && Waiting(v, c) && !Clobbers(v, StepSend(c)) && w == StoreStep(v, c, v.sends[c])
    ensures SendsInv(w)
  {
  }

  lemma StoringKeepsLog(v: Venue, c: nat, w: Venue)
    requires LogInv(v) && Waiting(v, c) && !Clobbers(v, StepSend(c)) && w == StoreStep(v, c, v.sends[c])
    ensures LogInv(w)
  {
  }

  lemma StoringKeepsBooks(v: Venue, c: nat, w: Venue)
    requires TableInv(v) && BooksInv(v) && Waiting(v, c) && w == StoreStep(v, c, v.sends[c])
    requires !Clobbers(v, StepSend(c))
    ensures BooksInv(w)
  {
    StoringKeepsSends(v, c, w);
    StoringKeepsLog(v, c, w);
    hide FillPossible, SendsInv, LogInv;
    var s := v.sends[c];
    forall instrument
      ensures NetVolume(w.trades, instrument) as real == TableSum(w.orders, VolumeIn(instrument))
      ensures Turnover(w.trades, instrument) == TableSum(w.orders, MoneyIn(instrument))
    {
      TableUpdate(v.orders, s.id, NewOrder(s.req, s.id), VolumeIn(instrument));
      TableUpdate(v.orders, s.id, NewOrder(s.req, s.id), MoneyIn(instrument));
    }
  }

  // ---- an accepted cancel ----

  lemma CancelingKeepsBooks(v: Venue, c: nat, w: Venue)
    requires TableInv(v) && BooksInv(v) && Cancels(v, StepCancel(c)) && w == AdvanceCancel(v, c, v.cancels[c])
    ensures BooksInv(w)
  {
    var id := v.cancels[c].req.brokerOrderId;
    var o := CancelOf(v.orders[id], v.cancels[c].req);
    assert forall d :: PastStore(w, d) <==> PastStore(v, d);
    forall instrument
      ensures NetVolume(w.trades, instrument) as real == TableSum(w.orders, VolumeIn(instrument))
      ensures Turnover(w.trades, instrument) == TableSum(w.orders, MoneyIn(instrument))
    {
      TableUpdate(v.orders, id, o, VolumeIn(instrument));
      TableUpdate(v.orders, id, o, MoneyIn(instrument));
    }
  }

  // ---- recording a fill ----

  lemma RecordMovesSend(v: Venue, c: nat, w: Venue)
    requires Records(v, StepSend(c)) && w == RecordStep(v, c, v.sends[c]) && v.sends[c].id in v.orders
    ensures var s, t := v.sends[c], TradeOf(v.sends[c]);
            && w.orders == v.orders[s.id := FillOrder(v.orders[s.id], t.tradeAmount)]
            && w.trades == v.trades + [t]
            && t.brokerOrderId == s.id
    ensures forall d :: PastStore(w, d) ==> PastStore(v, d) && d != c && w.sends[d] == v.sends[d]
    ensures forall x :: x in w.trades <==> x in v.trades || x == TradeOf(v.sends[c])
  {
  }

  lemma RecordingKeepsLog(v: Venue, c: nat, w: Venue)
    requires TableInv(v) && SendsInv(v) && LogInv(v) && Records(v, StepSend(c)) && w == RecordStep(v, c, v.sends[c])
    ensures SendsInv(w) && LogInv(w)
  {
    var s := v.sends[c];
    var t := TradeOf(s);
    assert PastStore(v, c);
    assert FilledBy(FillOrder(v.orders[s.id], t.tradeAmount), t);
    RecordMovesSend(v, c, w);
    hide NewTrade, TradeOf, FillOrder, RecordStep, TableInv;
    assert FilledBy(w.orders[s.id], t);
    forall id | id in w.orders && w.orders[id].status.Filled?
      ensures exists x :: x in w.trades && x.brokerOrderId == id
    {
      if id == s.id {
        assert t in w.trades;
      } else {
        var x :| x in v.trades && x.brokerOrderId == id;
        assert x in w.trades;
      }
    }
    assert forall i :: 0 <= i < |v.trades| ==> v.trades[i] in v.trades;
  }

  lemma RecordingKeepsBooks(v: Venue, c: nat, w: Venue)
    requires TableInv(v) && BooksInv(v) && Records(v, StepSend(c)) && w == RecordStep(v, c, v.sends[c])
    ensures BooksInv(w)
  {
    RecordingKeepsLog(v, c, w);
    var s := v.sends[c];
    var t := TradeOf(s);
    assert PastStore(v, c);
    forall instrument
      ensures NetVolume(w.trades, instrument) as real == TableSum(w.orders, VolumeIn(instrument))
      ensures Turnover(w.trades, instrument) == TableSum(w.orders, MoneyIn(instrument))
    {
      NetVolumeAppend(v.trades, t, instrument);
      TableUpdate(v.orders, s.id, FillOrder(v.orders[s.id], t.tradeAmount), VolumeIn(instrument));
      TableUpdate(v.orders, s.id, FillOrder(v.orders[s.id], t.tradeAmount), MoneyIn(instrument));
    }
  }

  lemma BooksStep(v: Venue, a: Action)
    requires TableInv(v) && BooksInv(v) && !Clobbers(v, a)
    ensures BooksInv(Apply(v, a))
  {
    ApplyCases(v, a);
    hide BooksInv, TableInv, Apply, StoreStep, RecordStep, AdvanceCancel, FillPossible;
    if Stores(v, a) {
      StoringKeepsBooks(v, a.call, Apply(v, a));
    } else if Records(v, a) {
      RecordingKeepsBooks(v, a.call, Apply(v, a));
    } else if Cancels(v, a) {
      CancelingKeepsBooks(v, a.call, Apply(v, a));
    } else {
      OtherStepsKeepBooks(v, a);
      SameBooksKeepInv(v, Apply(v, a));
    }
  }

  lemma InitialBooks()
    ensures TableInv(INITIAL) && BooksInv(INITIAL)
  {
  }

  ghost predicate NeverClobbers(v: Venue, run: seq<Action>)
    decreases |run|
  {
    run == [] || (!Clobbers(v, run[0]) && NeverClobbers(Apply(v, run[0]), run[1..]))
  }

  lemma {:induction false} BooksRun(v: Venue, run: seq<Action>)
    requires TableInv(v) && BooksInv(v) && NeverClobbers(v, run)
    ensures BooksInv(Exec(v, run))
    decreases |run|
  {
    if run != [] {
      TableStep(v, run[0]);
      BooksStep(v, run[0]);
      BooksRun(Apply(v, run[0]), run[1..]);
    }
  }

  lemma {:induction false} NeverOverwritesNeverClobbers(v: Venue, run: seq<Action>)
    requires NeverOverwrites(v, run)
    ensures NeverClobbers(v, run)
    decreases |run|
  {
    if run != [] {
      NeverOverwritesNeverClobbers(Apply(v, run[0]), run[1..]);
    }
  }

  /**
   * After every run that stores over no filled or still fillable order, sends in
   * flight or not and cancels landed before their fill or not: recorded trades
   * and filled orders correspond one to one, per instrument the log and the table
   * agree on signed traded volume and on traded money, and every send past its
   * store still finds its own unfilled order, as requested, under its own id.
   */
  lemma BooksReconcile(run: seq<Action>)
    requires NeverClobbers(INITIAL, run)
    ensures LogInv(Exec(INITIAL, run)) && SumsInv(Exec(INITIAL, run)) && SendsInv(Exec(INITIAL, run))
  {
    InitialBooks();
    BooksRun(INITIAL, run);
  }
}
