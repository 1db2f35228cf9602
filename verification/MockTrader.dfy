// The mock trading adapter as an object: its fields, its methods as written, and
// their agreement with the machine when no other call interferes.
module MockTrader {
  import opened VenueTypes
  import opened Netting
  import opened Positions
  import opened VenueMachine
  import opened VenueTable
  import opened VenueIds
  import opened VenueTrades
  import opened VenueSequential
  import opened VenueBooks
  import opened VenueCancels

  datatype QueryOrdersRequest = QueryOrdersRequest(instrument: string, brokerOrderId: nat, status: OrderStatus)

  datatype QueryTradesRequest = QueryTradesRequest(instrument: string, orderId: string, brokerOrderId: nat)

  predicate OrderMatches(r: QueryOrdersRequest, id: nat, o: Order) {
    && (r.instrument == "" || o.instrument == r.instrument)
    && (r.brokerOrderId == 0 || id == r.brokerOrderId)
    && (r.status == Unknown || o.status == r.status)
  }

  predicate TradeMatches(r: QueryTradesRequest, t: Trade) {
    && (r.instrument == "" || t.instrument == r.instrument)
    && (r.orderId == "" || t.orderId == r.orderId)
    && (r.brokerOrderId == 0 || t.brokerOrderId == r.brokerOrderId)
  }

  function MatchingOrders(orders: map<nat, Order>, r: QueryOrdersRequest): map<nat, Order> {
    map id | id in orders && OrderMatches(r, id, orders[id]) :: orders[id]
  }

  function MatchingTrades(trades: seq<Trade>, r: QueryTradesRequest): seq<Trade> {
    if trades == [] then []
    else
      var t := trades[|trades| - 1];
      MatchingTrades(trades[..|trades| - 1], r) + (if TradeMatches(r, t) then [t] else [])
  }

  class MockTraderApi {
    var connected: bool
    var autoFill: bool
    var onOrder: bool   // an order callback is registered
    var onTrade: bool   // a trade callback is registered
    var nextBrokerOrderId: nat
    var nextTradeId: nat
    var orders: map<nat, Order>
    var trades: seq<Trade>
    // What the object has done so far.
    ghost var connectedEvents: nat   // connected notifications given
    ghost var orderEvents: seq<Order>
    ghost var tradeEvents: seq<Trade>
    ghost var stored: seq<Issue>
    ghost var numbered: seq<nat>
    ghost var canceled: seq<nat>

    /** The machine state this object is in between calls. */
    ghost function View(): Venue
      reads this
    {
      Venue(Flags(connected, autoFill, onOrder, onTrade), nextBrokerOrderId, nextTradeId, orders, trades,
            map[], map[], stored, numbered, canceled, orderEvents, tradeEvents, false)
    }

    ghost predicate Valid()
      reads this
    {
      TableInv(View()) && IdsInv(View())
    }

    constructor ()
      ensures View() == INITIAL && connectedEvents == 0 && Valid()
      ensures !connected && autoFill && !onOrder && !onTrade && orders == map[] && trades == []
    {
      connected, autoFill, onOrder, onTrade := false, true, false, false;
      nextBrokerOrderId, nextTradeId := 1, 1;
      orders, trades := map[], [];
      connectedEvents := 0;
      orderEvents, tradeEvents, stored, numbered, canceled := [], [], [], [], [];
    }

    /** Every Connect, also one made while connected, succeeds and is notified. */
    method Connect() returns (rc: ErrorCode)
      requires Valid()
      modifies this`connected, this`connectedEvents
      ensures Valid()
      ensures rc == Success && connected && connectedEvents == old(connectedEvents) + 1
      ensures View() == Apply(old(View()), Configure(old(View()).flags.(connected := true)))
    {
      connected := true;
      connectedEvents := connectedEvents + 1;
      rc := Success;
    }

    method Disconnect()
      requires Valid()
      modifies this`connected
      ensures Valid() && !connected
      ensures View() == Apply(old(View()), Configure(old(View()).flags.(connected := false)))
    {
      connected := false;
    }

    method SetAutoFill(fill: bool)
      requires Valid()
      modifies this`autoFill
      ensures Valid() && autoFill == fill
      ensures View() == Apply(old(View()), Configure(old(View()).flags.(autoFill := fill)))
    {
      autoFill := fill;
    }

    method SetOrderCallback(present: bool)
      requires Valid()
      modifies this`onOrder
      ensures Valid() && onOrder == present
      ensures View() == Apply(old(View()), Configure(old(View()).flags.(onOrder := present)))
    {
      onOrder := present;
    }

    method SetTradeCallback(present: bool)
      requires Valid()
      modifies this`onTrade
      ensures Valid() && onTrade == present
      ensures View() == Apply(old(View()), Configure(old(View()).flags.(onTrade := present)))
    {
      onTrade := present;
    }

    /** A send during which no other call touches the venue is the machine's uninterrupted send. */
    method SendOrder(request: OrderRequest) returns (rc: ErrorCode)
      requires Valid()
      modifies this`nextBrokerOrderId, this`nextTradeId, this`orders, this`trades
      modifies this`orderEvents, this`tradeEvents, this`stored, this`numbered
      ensures Valid()
      ensures rc == if old(connected) then Success else ConnectionError
      ensures View() == Exec(old(View()), SendAlone(0, request))
    {
      hide TableInv, IdsInv, NewOrder, NewTrade, Exec, SendAlone, FillNow;
      ghost var before := View();
      SendKeepsTable(before, request);
      if !connected {
        return ConnectionError;
      }
      var brokerOrderId := request.brokerOrderId;
      if brokerOrderId == 0 {
        brokerOrderId := nextBrokerOrderId;
        numbered := numbered + [brokerOrderId];
        nextBrokerOrderId := nextBrokerOrderId + 1;
      }
      var order := NewOrder(request, brokerOrderId);
      orders := orders[brokerOrderId := order];
      stored := stored + [Issue(brokerOrderId, request.brokerOrderId == 0)];
      if onOrder {
        orderEvents := orderEvents + [order];
      }
      assert View() == AcceptNow(before, request);
      if autoFill && onTrade {
        Fill(request, brokerOrderId);
      }
      rc := Success;
    }

    /** The body of the fill branch of SendOrder: announce first, then record. */
    method Fill(request: OrderRequest, brokerOrderId: nat)
      requires brokerOrderId in orders
      modifies this`nextTradeId, this`orders, this`trades, this`tradeEvents
      ensures View() == FillNow(old(View()), request, brokerOrderId)
    {
      hide NewTrade;
      var trade := NewTrade(request, brokerOrderId, nextTradeId);
      nextTradeId := nextTradeId + 1;
      tradeEvents := tradeEvents + [trade];
      trades := trades + [trade];
      var found := orders[brokerOrderId];
      orders := orders[brokerOrderId :=
        found.(tradedVolume := found.volume, leftVolume := 0, tradeAmount := trade.tradeAmount, status := Filled)];
    }

    /** Likewise for a cancel; what it answers is decided by the table before the call. */
    method CancelOrder(request: CancelOrderRequest) returns (rc: ErrorCode)
      requires Valid()
      modifies this`orders, this`canceled, this`orderEvents
      ensures Valid()
      ensures !old(connected) <==> rc == ConnectionError
      ensures rc == NotFound <==> old(connected) && forall x :: x in old(stored) ==> x.id != request.brokerOrderId
      ensures rc == SystemError <==> old(connected) && request.brokerOrderId in old(orders)
                                     && old(orders)[request.brokerOrderId].status in {Filled, Canceled}
      ensures rc == Success <==> old(connected) && request.brokerOrderId in old(orders)
                                 && old(orders)[request.brokerOrderId].status == NotTradedQueueing
      ensures View() == Exec(old(View()), CancelAlone(0, request))
    {
      AnswerFromTable(View(), request.brokerOrderId);
      hide TableInv, IdsInv;
      CancelAloneIsCancelNow(View(), 0, request);
      TableRun(View(), CancelAlone(0, request));
      IdsRun(View(), CancelAlone(0, request));
      hide Exec, CancelAlone;
      if !connected {
        return ConnectionError;
      }
      if request.brokerOrderId !in orders {
        return NotFound;
      }
      var found := orders[request.brokerOrderId];
      if found.status == Filled || found.status == Canceled || found.status == Rejected {
        return SystemError;
      }
      var order := found.(orderId := request.orderId, status := Canceled, submitStatus := CancelAccepted);
      orders := orders[request.brokerOrderId := order];
      canceled := canceled + [request.brokerOrderId];
      if onOrder {
        orderEvents := orderEvents + [order];
      }
      rc := Success;
    }

    /** Every matching order exactly once, in whatever order the table is walked. */
    method QueryOrders(request: QueryOrdersRequest) returns (rc: ErrorCode, response: seq<Order>)
      requires Valid()
      ensures rc == Success
      ensures Lists(response, MatchingOrders(orders, request))
      ensures forall i, j :: 0 <= i < j < |response| ==> response[i].brokerOrderId != response[j].brokerOrderId
      ensures forall o :: o in response <==>
                && o.brokerOrderId in orders && orders[o.brokerOrderId] == o
                && (request.instrument == "" || o.instrument == request.instrument)
                && (request.brokerOrderId == 0 || o.brokerOrderId == request.brokerOrderId)
                && (request.status == Unknown || o.status == request.status)
    {
      response := [];
      var left := orders.Keys;
      while left != {}
        invariant left <= orders.Keys
        invariant forall o :: o in response <==>
                    o.brokerOrderId in orders.Keys - left && orders[o.brokerOrderId] == o
                    && OrderMatches(request, o.brokerOrderId, o)
        invariant forall i, j :: 0 <= i < j < |response| ==> response[i].brokerOrderId != response[j].brokerOrderId
        decreases left
      {
        var id :| id in left;
        var o := orders[id];
        left := left - {id};
        if (request.instrument != "" && o.instrument != request.instrument)
           || (request.brokerOrderId != 0 && id != request.brokerOrderId)
           || (request.status != Unknown && o.status != request.status) {
          continue;
        }
        assert forall i :: 0 <= i < |response| ==> response[i] in response;
        response := response + [o];
      }
      rc := Success;
    }

    /** Every matching trade, in log order. */
    method QueryTrades(request: QueryTradesRequest) returns (rc: ErrorCode, response: seq<Trade>)
      ensures rc == Success
      ensures response == MatchingTrades(trades, request)
      ensures Subsequence(response, trades)
      ensures forall t :: multiset(response)[t] ==
                if && (request.instrument == "" || t.instrument == request.instrument)
                   && (request.orderId == "" || t.orderId == request.orderId)
                   && (request.brokerOrderId == 0 || t.brokerOrderId == request.brokerOrderId)
                then multiset(trades)[t] else 0
    {
      response := [];
      var i := 0;
      while i < |trades|
        invariant 0 <= i <= |trades|
        invariant response == MatchingTrades(trades[..i], request)
      {
        var trade := trades[i];
        assert trades[..i + 1][..i] == trades[..i];
        i := i + 1;
        if (request.instrument != "" && trade.instrument != request.instrument)
           || (request.orderId != "" && trade.orderId != request.orderId)
           || (request.brokerOrderId != 0 && trade.brokerOrderId != request.brokerOrderId) {
          continue;
        }
        response := response + [trade];
      }
      assert trades[..i] == trades;
      MatchesInLogOrder(trades, request);
      forall t ensures multiset(response)[t] == if TradeMatches(request, t) then multiset(trades)[t] else 0 {
        TradeQueryExact(trades, request, t);
      }
      rc := Success;
    }

    /** One entry per traded instrument that the request admits, netted over the log. */
    method QueryPositions(instrument: string) returns (rc: ErrorCode, response: seq<Position>)
      ensures rc == Success
      ensures Answers(response, PositionTable(trades, instrument))
      ensures forall i, j :: 0 <= i < j < |response| ==> response[i].instrument != response[j].instrument
      ensures forall p :: p in response ==> EntryOf(p, trades) && (instrument == "" || p.instrument == instrument)
      ensures forall t :: t in trades && (instrument == "" || t.instrument == instrument) ==>
                exists p :: p in response && p.instrument == t.instrument
    {
      assert Accumulated(trades[..0], instrument) == map[];
      AccumulatedIsTheTable(trades, instrument);
      hide Accumulated, PositionTable;
      response := [];
      var positions: map<string, Position> := map[];
      var i := 0;
      while i < |trades|
        invariant 0 <= i <= |trades|
        invariant positions == Accumulated(trades[..i], instrument)
      {
        var trade := trades[i];
        AccumulatedStep(positions, trades[..i], trade, instrument);
        assert trades[..i + 1] == trades[..i] + [trade];
        i := i + 1;
        if instrument != "" && instrument != trade.instrument {
          continue;
        }
        var position := if trade.instrument in positions then positions[trade.instrument] else Position("", 0, Net, 0);
        position := position.(instrument := trade.instrument);
        position := position.(market := trade.market);
        position := position.(direction := Net);
        var signed := if trade.side == Buy then trade.volume else -trade.volume;
        position := position.(totalVolume := position.totalVolume + signed);
        assert position == NetTrade(positions, trade);
        positions := positions[trade.instrument := position];
      }
      assert trades[..i] == trades;
      response := Entries(positions);
      EntriesFromBothSides(response, trades, instrument);
      hide EntryOf;
      rc := Success;
    }

    /** The second loop of QueryPositions: a direction for every accumulated entry. */
    static method Entries(positions: map<string, Position>) returns (response: seq<Position>)
      requires forall i :: i in positions ==> positions[i].instrument == i
      ensures Answers(response, map i | i in positions :: Directed(positions[i]))
    {
      response := [];
      var left := positions.Keys;
      while left != {}
        invariant left <= positions.Keys
        invariant forall p :: p in response <==>
                    p.instrument in positions.Keys - left && Directed(positions[p.instrument]) == p
        invariant forall j, k :: 0 <= j < k < |response| ==> response[j].instrument != response[k].instrument
        decreases left
      {
        var key :| key in left;
        var position := positions[key];
        left := left - {key};
        if position.totalVolume < 0 {
          position := position.(direction := Short);
          position := position.(totalVolume := -position.totalVolume);
        } else {
          position := position.(direction := Long);
        }
        assert forall j :: 0 <= j < |response| ==> response[j] in response;
        response := response + [position];
      }
    }
  }

  function Directed(p: Position): Position {
    if p.totalVolume < 0 then p.(direction := Short, totalVolume := -p.totalVolume) else p.(direction := Long)
  }

  lemma AccumulatedIsTheTable(trades: seq<Trade>, filter: string)
    ensures (map i | i in Accumulated(trades, filter) :: Directed(Accumulated(trades, filter)[i]))
         == PositionTable(trades, filter)
    ensures forall i :: i in Accumulated(trades, filter) ==> Accumulated(trades, filter)[i].instrument == i
  {
  }

  lemma SendKeepsTable(v: Venue, request: OrderRequest)
    requires TableInv(v) && IdsInv(v) && 0 !in v.sends
    ensures var w := SendNow(v, request);
            Exec(v, SendAlone(0, request)) == w && TableInv(w) && IdsInv(w)
  {
    hide TableInv, IdsInv, SendAlone, SendNow;
    SendAloneIsSendNow(v, 0, request);
    TableRun(v, SendAlone(0, request));
    IdsRun(v, SendAlone(0, request));
  }

  /** The accumulators after the first loop over the given part of the log. */
  ghost function Accumulated(trades: seq<Trade>, filter: string): map<string, Position> {
    map i | i in Instruments(trades, filter) :: Position(i, LastMarket(trades, i), Net, NetVolume(trades, i))
  }

  lemma InstrumentsStep(trades: seq<Trade>, t: Trade, filter: string)
    ensures Instruments(trades + [t], filter)
         == if filter != "" && filter != t.instrument then Instruments(trades, filter)
            else Instruments(trades, filter) + {t.instrument}
  {
  }

  lemma LastMarketStep(trades: seq<Trade>, t: Trade, i: string)
    ensures LastMarket(trades + [t], i) == if t.instrument == i then t.market else LastMarket(trades, i)
  {
  }

  /** The accumulator of the trade's instrument once the trade is added. */
  function NetTrade(p: map<string, Position>, t: Trade): Position {
    var volume := if t.instrument in p then p[t.instrument].totalVolume else 0;
    Position(t.instrument, t.market, Net, volume + Signed(t.side, t.volume))
  }

  lemma AccumulatedStep(p: map<string, Position>, trades: seq<Trade>, t: Trade, filter: string)
    requires p == Accumulated(trades, filter)
    ensures Accumulated(trades + [t], filter)
         == if filter != "" && filter != t.instrument then p else p[t.instrument := NetTrade(p, t)]
  {
    InstrumentsStep(trades, t, filter);
    forall i ensures LastMarket(trades + [t], i) == if t.instrument == i then t.market else LastMarket(trades, i) {
      LastMarketStep(trades, t, i);
    }
    forall i
      ensures NetVolume(trades + [t], i)
           == NetVolume(trades, i) + (if t.instrument == i then Signed(t.side, t.volume) else 0)
    {
      NetVolumeAppend(trades, t, i);
    }
    if (filter == "" || filter == t.instrument) && t.instrument !in Instruments(trades, filter) {
      NetOfUntraded(trades, t.instrument);
    }
    hide NetVolume, LastMarket;
  }

  lemma UnfilteredOrders(orders: map<nat, Order>)
    ensures MatchingOrders(orders, QueryOrdersRequest("", 0, Unknown)) == orders
  {
  }

  /**
   * After every run that clobbers nothing, the positions and the money a client
   * adds up from an unfiltered order query equal those netted from the trade log.
   */
  lemma QueriedOrdersAgreeWithLog(run: seq<Action>, answer: seq<Order>, instrument: string)
    requires NeverClobbers(INITIAL, run)
    requires Lists(answer, MatchingOrders(Exec(INITIAL, run).orders, QueryOrdersRequest("", 0, Unknown)))
    ensures ListSum(answer, VolumeIn(instrument)) == NetVolume(Exec(INITIAL, run).trades, instrument) as real
    ensures ListSum(answer, MoneyIn(instrument)) == Turnover(Exec(INITIAL, run).trades, instrument)
  {
    BooksReconcile(run);
    UnfilteredOrders(Exec(INITIAL, run).orders);
    ListSumIsTableSum(answer, Exec(INITIAL, run).orders, VolumeIn(instrument));
    ListSumIsTableSum(answer, Exec(INITIAL, run).orders, MoneyIn(instrument));
  }

  /** No trade carries an order id, so a trade query by order id finds nothing in any reachable state. */
  lemma TradesNeverFoundByOrderId(run: seq<Action>, r: QueryTradesRequest)
    requires r.orderId != ""
    ensures MatchingTrades(Exec(INITIAL, run).trades, r) == []
  {
    TradesRun(INITIAL, run);
    NothingMatches(Exec(INITIAL, run).trades, r);
  }

  lemma {:induction false} NothingMatches(trades: seq<Trade>, r: QueryTradesRequest)
    requires forall t :: t in trades ==> !TradeMatches(r, t)
    ensures MatchingTrades(trades, r) == []
  {
    if trades != [] {
      assert trades[|trades| - 1] in trades;
      NothingMatches(trades[..|trades| - 1], r);
    }
  }

  /** The first list is the second with some of its trades left out. */
  ghost predicate Subsequence(part: seq<Trade>, whole: seq<Trade>) {
    || part == []
    || (&& whole != []
        && (|| Subsequence(part, whole[..|whole| - 1])
            || (part[|part| - 1] == whole[|whole| - 1] && Subsequence(part[..|part| - 1], whole[..|whole| - 1]))))
  }

  lemma {:induction false} MatchesInLogOrder(trades: seq<Trade>, r: QueryTradesRequest)
    ensures Subsequence(MatchingTrades(trades, r), trades)
  {
    if trades != [] {
      var init, t := trades[..|trades| - 1], trades[|trades| - 1];
      MatchesInLogOrder(init, r);
      if TradeMatches(r, t) {
        assert (MatchingTrades(init, r) + [t])[..|MatchingTrades(init, r)|] == MatchingTrades(init, r);
      } else {
        assert MatchingTrades(trades, r) == MatchingTrades(init, r);
      }
    }
  }

  /** A trade query returns each matching trade as often as the log holds it, and nothing else. */
  lemma {:induction false} TradeQueryExact(trades: seq<Trade>, r: QueryTradesRequest, t: Trade)
    ensures multiset(MatchingTrades(trades, r))[t] == if TradeMatches(r, t) then multiset(trades)[t] else 0
  {
    if trades != [] {
      var n := |trades| - 1;
      assert trades == trades[..n] + [trades[n]];
      TradeQueryExact(trades[..n], r, t);
    }
  }

  /**
   * On the machine, positions move only when a fill is recorded, and then in
   * exactly the traded instrument by the signed volume; cancels, unfilled sends
   * and everything else leave every entry alone.
   */
  lemma OnlyRecordsMovePositions(v: Venue, a: Action)
    requires TableInv(v)
    ensures !Records(v, a) ==> Apply(v, a).trades == v.trades
    ensures Records(v, a) ==>
              var before := PositionTable(v.trades, "");
              var after := PositionTable(Apply(v, a).trades, "");
              var s := v.sends[a.call];
              && after.Keys == before.Keys + {s.req.instrument}
              && (forall i :: i in before && i != s.req.instrument ==> after[i] == before[i])
              && SignedVolume(after[s.req.instrument])
                 == (if s.req.instrument in before then SignedVolume(before[s.req.instrument]) else 0)
                    + Signed(s.req.side, s.req.volume)
  {
    if Records(v, a) {
      var t := TradeOf(v.sends[a.call]);
      assert Apply(v, a).trades == v.trades + [t];
      OneTradeMovesOneEntry(v.trades, t);
    }
  }
}
