// The mock venue as a machine whose steps are the points where another thread,
// or a call made from inside a user callback, can interleave. A send moves
// through the phases below; its shared-state accesses are one step each and a
// critical section is one step.
module VenueMachine {
  import opened VenueTypes
  import opened TradeIds

  datatype Flags = Flags(connected: bool, autoFill: bool, onOrder: bool, onTrade: bool)

  /** Where a send that passed the connection check stands. */
  datatype Phase =
    | Entered     // connected, no broker id yet
    | Allocated   // broker id chosen, order not in the table
    | Stored      // order in the table, order callback still to run
    | Notified    // order callback done or absent, fill decision still to make
    | Filling     // fill decided, trade number still to take
    | Numbered    // trade built, trade callback still to run
    | Announced   // trade callback has the trade, log and table still to update

  datatype Send = Send(req: OrderRequest, phase: Phase, id: nat, tradeNo: nat) {
    predicate Auto() { req.brokerOrderId == 0 }

    predicate PastStore() {
      !phase.Entered? && !phase.Allocated?
    }

    predicate HasTrade() {
      phase.Numbered? || phase.Announced?
    }
  }

  /** A cancel: the snapshot is present once its critical section has accepted it. */
  datatype Cancel = Cancel(req: CancelOrderRequest, snapshot: Option<Order>)

  /** A broker id that reached the order table, and whether the venue chose it. */
  datatype Issue = Issue(id: nat, auto: bool)

  /** The fields of the venue, its calls in progress, and what it has done so far. */
  datatype Venue = Venue(
    flags: Flags,
    nextOrderId: nat,
    nextTradeId: nat,
    orders: map<nat, Order>,
    trades: seq<Trade>,
    sends: map<nat, Send>,
    cancels: map<nat, Cancel>,
    stored: seq<Issue>,          // every store into the table, in order
    numbered: seq<nat>,          // every broker id the venue chose, in order
    canceled: seq<nat>,          // every accepted cancel, in order
    orderEvents: seq<Order>,     // calls made to the order callback
    tradeEvents: seq<Trade>,     // calls made to the trade callback
    fault: bool)                 // the fill looked up an id that was not in the table

  const INITIAL := Venue(Flags(false, true, false, false), 1, 1, map[], [], map[], map[], [], [], [], [], [], false)

  const EVERYTHING_ON := Flags(true, true, true, true)

  datatype Action =
    | Configure(flags: Flags)                           // connect, disconnect, set callbacks, set auto fill
    | StartSend(call: nat, req: OrderRequest)
    | StepSend(call: nat)
    | StartCancel(call: nat, cancel: CancelOrderRequest)
    | StepCancel(call: nat)

  function NewOrder(req: OrderRequest, id: nat): Order {
    Order(req.clientOrderId, "", req.instrument, req.market, id, req.price, req.volume, req.volume, 0, 0.0,
          req.side, req.positionEffect, req.businessType, NotTradedQueueing, InsertAccepted)
  }

  function NewTrade(req: OrderRequest, id: nat, tradeNo: nat): Trade {
    Trade(TradeId(tradeNo), "", id, req.clientOrderId, req.instrument, req.market, req.price, req.volume,
          req.price * (req.volume as real), req.side, req.positionEffect, req.businessType)
  }

  function TradeOf(s: Send): Trade {
    NewTrade(s.req, s.id, s.tradeNo)
  }

  function FillOrder(o: Order, amount: real): Order {
    o.(tradedVolume := o.volume, leftVolume := 0, tradeAmount := amount, status := Filled)
  }

  function CancelOf(o: Order, req: CancelOrderRequest): Order {
    o.(orderId := req.orderId, status := Canceled, submitStatus := CancelAccepted)
  }

  /** What a connected cancel answers, from the order table alone. */
  function CancelOutcome(orders: map<nat, Order>, id: nat): ErrorCode {
    if id !in orders then NotFound
    else if orders[id].status.Filled? || orders[id].status.Canceled? || orders[id].status.Rejected? then SystemError
    else Success
  }

  function AllocateStep(v: Venue, c: nat, s: Send): Venue {
    if s.Auto()
    then v.(nextOrderId := v.nextOrderId + 1, numbered := v.numbered + [v.nextOrderId],
            sends := v.sends[c := s.(phase := Allocated, id := v.nextOrderId)])
    else v.(sends := v.sends[c := s.(phase := Allocated, id := s.req.brokerOrderId)])
  }

  function StoreStep(v: Venue, c: nat, s: Send): Venue {
    v.(orders := v.orders[s.id := NewOrder(s.req, s.id)],
       stored := v.stored + [Issue(s.id, s.Auto())],
       sends := v.sends[c := s.(phase := Stored)])
  }

  function NotifyStep(v: Venue, c: nat, s: Send): Venue {
    v.(orderEvents := if v.flags.onOrder then v.orderEvents + [NewOrder(s.req, s.id)] else v.orderEvents,
       sends := v.sends[c := s.(phase := Notified)])
  }

  function DecideStep(v: Venue, c: nat, s: Send): Venue {
    if v.flags.autoFill && v.flags.onTrade
    then v.(sends := v.sends[c := s.(phase := Filling)])
    else v.(sends := v.sends - {c})
  }

  function NumberStep(v: Venue, c: nat, s: Send): Venue {
    v.(nextTradeId := v.nextTradeId + 1, sends := v.sends[c := s.(phase := Numbered, tradeNo := v.nextTradeId)])
  }

  function AnnounceStep(v: Venue, c: nat, s: Send): Venue {
    v.(tradeEvents := v.tradeEvents + [TradeOf(s)], sends := v.sends[c := s.(phase := Announced)])
  }

  function RecordStep(v: Venue, c: nat, s: Send): Venue {
    var t := TradeOf(s);
    if s.id in v.orders
    then v.(trades := v.trades + [t],
            orders := v.orders[s.id := FillOrder(v.orders[s.id], t.tradeAmount)],
            sends := v.sends - {c})
    else v.(trades := v.trades + [t], sends := v.sends - {c}, fault := true)
  }

  function AdvanceSend(v: Venue, c: nat, s: Send): Venue {
    match s.phase
    case Entered => AllocateStep(v, c, s)
    case Allocated => StoreStep(v, c, s)
    case Stored => NotifyStep(v, c, s)
    case Notified => DecideStep(v, c, s)
    case Filling => NumberStep(v, c, s)
    case Numbered => AnnounceStep(v, c, s)
    case Announced => RecordStep(v, c, s)
  }

  function AdvanceCancel(v: Venue, c: nat, k: Cancel): Venue {
    match k.snapshot
    case None =>
      var id := k.req.brokerOrderId;
      if CancelOutcome(v.orders, id) == Success then
        var o := CancelOf(v.orders[id], k.req);
        v.(orders := v.orders[id := o],
           canceled := v.canceled + [id],
           cancels := v.cancels[c := k.(snapshot := Some(o))])
      else
        v.(cancels := v.cancels - {c})
    case Some(o) =>
      v.(orderEvents := if v.flags.onOrder then v.orderEvents + [o] else v.orderEvents, cancels := v.cancels - {c})
  }

  /** One step. A step that is not possible in v leaves v as it is. */
  function Apply(v: Venue, a: Action): Venue {
    match a
    case Configure(flags) => v.(flags := flags)
    case StartSend(c, req) =>
      if v.flags.connected && c !in v.sends then v.(sends := v.sends[c := Send(req, Entered, 0, 0)]) else v
    case StepSend(c) =>
      if c in v.sends then AdvanceSend(v, c, v.sends[c]) else v
    case StartCancel(c, req) =>
      if v.flags.connected && c !in v.cancels then v.(cancels := v.cancels[c := Cancel(req, None)]) else v
    case StepCancel(c) =>
      if c in v.cancels then AdvanceCancel(v, c, v.cancels[c]) else v
  }

  lemma ApplyCases(v: Venue, a: Action)
    ensures a.StepSend? ==> Apply(v, a) == if a.call in v.sends then AdvanceSend(v, a.call, v.sends[a.call]) else v
    ensures a.StepCancel? ==>
              Apply(v, a) == if a.call in v.cancels then AdvanceCancel(v, a.call, v.cancels[a.call]) else v
    ensures !a.StepSend? && !a.StepCancel? ==>
              var w := Apply(v, a);
              && w.orders == v.orders && w.trades == v.trades && w.stored == v.stored && w.canceled == v.canceled
              && w.orderEvents == v.orderEvents && w.tradeEvents == v.tradeEvents
              && (forall k :: k in v.cancels ==> k in w.cancels && w.cancels[k] == v.cancels[k])
              && (forall k :: k in w.cancels && k !in v.cancels ==> w.cancels[k].snapshot.None?)
  {
  }

  /** The state after a run; every sequence of actions is a run. */
  function Exec(v: Venue, run: seq<Action>): Venue
    decreases |run|
  {
    if run == [] then v else Exec(Apply(v, run[0]), run[1..])
  }

  lemma {:induction false} ExecConcat(v: Venue, a: seq<Action>, b: seq<Action>)
    ensures Exec(v, a + b) == Exec(Exec(v, a), b)
    decreases |a|
  {
    if a == [] {
      assert a + b == b;
    } else {
      assert (a + b)[1..] == a[1..] + b;
      ExecConcat(Apply(v, a[0]), a[1..], b);
    }
  }

  /** A step of one send touches no other call, and never takes the send back to an earlier phase. */
  lemma OnlyThisSend(v: Venue, c: nat)
    requires c in v.sends
    ensures var w := AdvanceSend(v, c, v.sends[c]);
            && w.cancels == v.cancels && w.canceled == v.canceled && w.flags == v.flags
            && (forall d :: d != c ==> (d in w.sends <==> d in v.sends))
            && (forall d :: d != c && d in v.sends ==> w.sends[d] == v.sends[d])
            && (c in w.sends && v.sends[c].PastStore() ==> w.sends[c].PastStore())
  {
    match v.sends[c].phase
    case Entered =>
    case Allocated =>
    case Stored =>
    case Notified =>
    case Filling =>
    case Numbered =>
    case Announced =>
  }

  /** No broker id was stored twice. */
  ghost predicate Distinct(stored: seq<Issue>) {
    forall i, j :: 0 <= i < j < |stored| ==> stored[i].id != stored[j].id
  }

  lemma ExecThen(v: Venue, run: seq<Action>, a: Action)
    ensures Exec(v, run + [a]) == Apply(Exec(v, run), a)
  {
    ExecConcat(v, run, [a]);
    assert Exec(Exec(v, run), [a]) == Exec(Apply(Exec(v, run), a), []);
  }

  /** One more step of a send in progress. */
  lemma ExecThenStep(v: Venue, run: seq<Action>, c: nat, u: Venue, w: Venue)
    requires Exec(v, run) == u && c in u.sends && w == AdvanceSend(u, c, u.sends[c])
    ensures Exec(v, run + [StepSend(c)]) == w
  {
    ExecThen(v, run, StepSend(c));
  }

  lemma DistinctBefore(v: Venue, a: Action)
    ensures v.stored <= Apply(v, a).stored
    ensures Distinct(Apply(v, a).stored) ==> Distinct(v.stored)
  {
  }

  /** The store history only grows, so a run free of overwrites had none at any earlier point. */
  lemma {:induction false} StoredGrows(v: Venue, run: seq<Action>)
    ensures v.stored <= Exec(v, run).stored
    ensures Distinct(Exec(v, run).stored) ==> Distinct(v.stored)
    decreases |run|
  {
    if run != [] {
      DistinctBefore(v, run[0]);
      StoredGrows(Apply(v, run[0]), run[1..]);
    }
  }
}
