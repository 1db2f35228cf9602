// Reusing a broker id: exactly which stores put the trade log and the order
// table at odds.
module VenueReuse {
  import opened VenueTypes
  import opened VenueMachine
  import opened VenueTable
  import opened VenueIds
  import opened VenueBooks
  import opened VenueCancels
  import opened VenueSequential

  /** Storing over a filled order leaves its trade without a filled order. */
  lemma StoringOverFilledBreaksLog(v: Venue, a: Action)
    requires LogInv(v) && Stores(v, a)
    requires HasStatus(v, v.sends[a.call].id, Filled)
    ensures !LogInv(Apply(v, a))
  {
  }

  /** Two sends past their store under one id can both be filled, which records two trades for one order. */
  lemma TwoFillsBreakLog(v: Venue, c: nat, d: nat) returns (run: seq<Action>)
    requires TableInv(v) && PastStore(v, c) && PastStore(v, d) && c != d && v.sends[c].id == v.sends[d].id
    ensures NeverClobbers(v, run) && !LogInv(Exec(v, run))
  {
    hide LogInv;
    var on := [Configure(EVERYTHING_ON)];
    var u := v.(flags := EVERYTHING_ON);
    ConfigureOnly(v);
    TableStep(v, on[0]);
    assert PastStore(u, c) && PastStore(u, d);
    var first, t := DriveToFill(u, c);
    var w := Exec(u, first);
    TableRun(u, first);
    assert PastStore(w, d) && w.sends[d] == v.sends[d];
    var second, x := DriveToFill(w, d);
    run := on + first + second;
    ExecConcat(v, on, first);
    ExecConcat(v, on + first, second);
    NeverClobbersConcat(v, on, first);
    NeverClobbersConcat(v, on + first, second);
    SameIdTwice(Exec(v, run), v.trades, t, x);
  }

  lemma ConfigureOnly(v: Venue)
    ensures Exec(v, [Configure(EVERYTHING_ON)]) == v.(flags := EVERYTHING_ON)
    ensures NeverClobbers(v, [Configure(EVERYTHING_ON)])
  {
  }

  lemma SameIdTwice(v: Venue, base: seq<Trade>, t: Trade, x: Trade)
    requires v.trades == base + [t] + [x] && t.brokerOrderId == x.brokerOrderId
    ensures !LogInv(v)
  {
    assert v.trades[|base|] == t && v.trades[|base| + 1] == x;
  }

  lemma {:induction false} NeverClobbersConcat(v: Venue, a: seq<Action>, b: seq<Action>)
    requires NeverClobbers(v, a) && NeverClobbers(Exec(v, a), b)
    ensures NeverClobbers(v, a + b)
    decreases |a|
  {
    hide Clobbers, Apply;
    if a == [] {
      assert a + b == b;
    } else {
      assert (a + b)[1..] == a[1..] + b;
      NeverClobbersConcat(Apply(v, a[0]), a[1..], b);
    }
  }

  lemma ClobberingBreaksBooks(v: Venue, a: Action) returns (after: seq<Action>)
    requires TableInv(v) && LogInv(v) && Clobbers(v, a)
    ensures NeverClobbers(Apply(v, a), after) && !LogInv(Exec(Apply(v, a), after))
  {
    var id := v.sends[a.call].id;
    if v.orders[id].status.Filled? {
      StoringOverFilledBreaksLog(v, a);
      after := [];
    } else {
      var c :| PastStore(v, c) && v.sends[c].id == id;
      var w := Apply(v, a);
      TableStep(v, a);
      OnlyThisSend(v, a.call);
      assert w == StoreStep(v, a.call, v.sends[a.call]);
      assert PastStore(w, c) && PastStore(w, a.call);
      after := TwoFillsBreakLog(w, c, a.call);
    }
  }

  /**
   * The exact condition for the books: after a run that has clobbered nothing,
   * one more step keeps log and table in one-to-one correspondence, whatever
   * clobber-free run follows, if and only if it does not store over an order
   * that is filled or that a send past its store can still fill.
   */
  lemma BooksReconcileExact(before: seq<Action>, a: Action)
    requires NeverClobbers(INITIAL, before)
    ensures (forall after :: NeverClobbers(Apply(Exec(INITIAL, before), a), after)
                        ==> LogInv(Exec(Apply(Exec(INITIAL, before), a), after)))
       <==> !Clobbers(Exec(INITIAL, before), a)
  {
    var v := Exec(INITIAL, before);
    BooksReconcile(before);
    InitialBooks();
    TableRun(INITIAL, before);
    BooksRun(INITIAL, before);
    if Clobbers(v, a) {
      var after := ClobberingBreaksBooks(v, a);
    } else {
      TableStep(v, a);
      BooksStep(v, a);
      forall after | NeverClobbers(Apply(v, a), after) ensures LogInv(Exec(Apply(v, a), after)) {
        BooksRun(Apply(v, a), after);
      }
    }
  }

  /**
   * A client that sends twice under one id of its own: the first order is filled,
   * the second, with auto fill off, queues the id anew while its trade stays in the log.
   */
  lemma ReusedClientIdReopensFilledOrder(req: OrderRequest)
    requires req.brokerOrderId != 0
    ensures var filled := SendNow(INITIAL.(flags := EVERYTHING_ON), req);
            var again := SendNow(filled.(flags := EVERYTHING_ON.(autoFill := false)), req);
            && HasStatus(filled, req.brokerOrderId, Filled)
            && HasStatus(again, req.brokerOrderId, NotTradedQueueing)
            && again.trades == filled.trades && |again.trades| == 1
  {
  }

  /** A client that uses the number the venue gives out next: the second order replaces the first under its id. */
  lemma ClientIdTakesVenueNumber(first: OrderRequest, second: OrderRequest)
    requires first.brokerOrderId == 1 && second.brokerOrderId == 0
    ensures var once := SendNow(INITIAL.(flags := EVERYTHING_ON.(autoFill := false)), first);
            var twice := SendNow(once, second);
            && once.orders == map[1 := NewOrder(first, 1)]
            && twice.orders == map[1 := NewOrder(second, 1)]
            && twice.stored == [Issue(1, false), Issue(1, true)]
  {
    hide NewOrder;
    var once := SendNow(INITIAL.(flags := EVERYTHING_ON.(autoFill := false)), first);
    assert once.stored == [Issue(1, false)] && once.orders.Keys == {1};
  }
}
