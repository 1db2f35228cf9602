// Netting of the trade log, and the same quantity read off a table of orders.
module Netting {
  import opened VenueTypes

  /** Signed volume: what the position query adds for one trade. */
  function Signed(side: Side, volume: int): int {
    if side.Buy? then volume else -volume
  }

  /** Net volume of one instrument over the log. */
  function NetVolume(trades: seq<Trade>, instrument: string): int {
    if trades == [] then 0
    else
      var t := trades[|trades| - 1];
      NetVolume(trades[..|trades| - 1], instrument)
      + (if t.instrument == instrument then Signed(t.side, t.volume) else 0)
  }

  /** Traded money of one instrument over the log. */
  function Turnover(trades: seq<Trade>, instrument: string): real {
    if trades == [] then 0.0
    else
      var t := trades[|trades| - 1];
      Turnover(trades[..|trades| - 1], instrument) + (if t.instrument == instrument then t.tradeAmount else 0.0)
  }

  /** Signed volume over the whole log, whatever the instrument. */
  function TotalVolume(trades: seq<Trade>): int {
    if trades == [] then 0
    else
      var t := trades[|trades| - 1];
      TotalVolume(trades[..|trades| - 1]) + Signed(t.side, t.volume)
  }

  lemma NetVolumeAppend(trades: seq<Trade>, t: Trade, instrument: string)
    ensures NetVolume(trades + [t], instrument)
         == NetVolume(trades, instrument) + (if t.instrument == instrument then Signed(t.side, t.volume) else 0)
    ensures Turnover(trades + [t], instrument)
         == Turnover(trades, instrument) + (if t.instrument == instrument then t.tradeAmount else 0.0)
    ensures TotalVolume(trades + [t]) == TotalVolume(trades) + Signed(t.side, t.volume)
  {
  }

  // ---- sums over a finite set of order ids ----

  ghost function SumOver(ids: set<nat>, f: nat -> real): real {
    if ids == {} then 0.0 else var id :| id in ids; f(id) + SumOver(ids - {id}, f)
  }

  lemma {:induction false} SumPick(ids: set<nat>, f: nat -> real, id: nat)
    requires id in ids
    ensures SumOver(ids, f) == f(id) + SumOver(ids - {id}, f)
    decreases |ids|
  {
    var first :| first in ids && SumOver(ids, f) == f(first) + SumOver(ids - {first}, f);
    if first != id {
      SumPick(ids - {first}, f, id);
      SumPick(ids - {id}, f, first);
      assert ids - {first} - {id} == ids - {id} - {first};
    }
  }

  lemma {:induction false} SumAgree(ids: set<nat>, f: nat -> real, g: nat -> real)
    requires forall id :: id in ids ==> f(id) == g(id)
    ensures SumOver(ids, f) == SumOver(ids, g)
    decreases |ids|
  {
    if ids != {} {
      var id :| id in ids;
      SumPick(ids, f, id);
      SumPick(ids, g, id);
      SumAgree(ids - {id}, f, g);
    }
  }

  /** A quantity summed over every order of a table. */
  ghost function TableSum(orders: map<nat, Order>, value: Order -> real): real {
    SumOver(orders.Keys, id => if id in orders then value(orders[id]) else 0.0)
  }

  lemma TableUpdate(orders: map<nat, Order>, k: nat, o: Order, value: Order -> real)
    ensures TableSum(orders[k := o], value)
         == TableSum(orders, value) - (if k in orders then value(orders[k]) else 0.0) + value(o)
  {
    var after := orders[k := o];
    var f: nat -> real := id => if id in orders then value(orders[id]) else 0.0;
    var g: nat -> real := id => if id in after then value(after[id]) else 0.0;
    SumPick(after.Keys, g, k);
    SumAgree(after.Keys - {k}, f, g);
    if k in orders {
      SumPick(orders.Keys, f, k);
      assert after.Keys - {k} == orders.Keys - {k};
    } else {
      assert after.Keys - {k} == orders.Keys;
    }
  }

  lemma TableRemove(orders: map<nat, Order>, k: nat, value: Order -> real)
    requires k in orders
    ensures TableSum(orders, value) == TableSum(orders - {k}, value) + value(orders[k])
  {
    TableUpdate(orders - {k}, k, orders[k], value);
    assert (orders - {k})[k := orders[k]] == orders;
  }

  /** What one order contributes to an instrument's net volume, and to its money. */
  function VolumeIn(instrument: string): Order -> real {
    (o: Order) => if o.instrument == instrument then Signed(o.side, o.tradedVolume) as real else 0.0
  }

  function MoneyIn(instrument: string): Order -> real {
    (o: Order) => if o.instrument == instrument then o.tradeAmount else 0.0
  }

  // ---- a list of orders, as a query returns it ----

  function ListSum(os: seq<Order>, value: Order -> real): real {
    if os == [] then 0.0 else ListSum(os[..|os| - 1], value) + value(os[|os| - 1])
  }

  /** The list holds exactly the orders of the table, each once, in any order. */
  ghost predicate Lists(os: seq<Order>, orders: map<nat, Order>) {
    && (forall i, j :: 0 <= i < j < |os| ==> os[i].brokerOrderId != os[j].brokerOrderId)
    && (forall o :: o in os <==> o.brokerOrderId in orders && orders[o.brokerOrderId] == o)
    && (forall id :: id in orders ==> orders[id].brokerOrderId == id)
  }

  lemma ListsWithoutLast(os: seq<Order>, orders: map<nat, Order>)
    requires Lists(os, orders) && os != []
    ensures os[|os| - 1].brokerOrderId in orders && orders[os[|os| - 1].brokerOrderId] == os[|os| - 1]
    ensures Lists(os[..|os| - 1], orders - {os[|os| - 1].brokerOrderId})
  {
  }

  lemma EveryOrderListed(os: seq<Order>, orders: map<nat, Order>, id: nat)
    requires Lists(os, orders) && id in orders
    ensures orders[id] in os
  {
  }

  lemma {:induction false} ListSumIsTableSum(os: seq<Order>, orders: map<nat, Order>, value: Order -> real)
    requires Lists(os, orders)
    ensures ListSum(os, value) == TableSum(orders, value)
    decreases |os|
  {
    if os == [] {
      forall id | id in orders ensures false {
        EveryOrderListed(os, orders, id);
      }
      assert orders.Keys == {};
    } else {
      var last := os[|os| - 1];
      ListsWithoutLast(os, orders);
      ListSumIsTableSum(os[..|os| - 1], orders - {last.brokerOrderId}, value);
      TableRemove(orders, last.brokerOrderId, value);
    }
  }
}
