// When a final order status stays final, and how often an order can be canceled.
module VenueCancels {
  import opened VenueTypes
  import opened VenueMachine
  import opened VenueTable
  import opened VenueIds
  import opened VenueBooks
  import opened VenueSequential

  ghost predicate HasStatus(v: Venue, id: nat, status: OrderStatus) {
    id in v.orders && v.orders[id].status == status
  }

  ghost predicate Settled(v: Venue, id: nat) {
    && (HasStatus(v, id, Canceled) || HasStatus(v, id, Filled))
    && !FillPossible(v, id)
  }

  // ---- an id that is stored once, whatever happens to others ----

  /** The id is stored at most once. */
  ghost predicate Once(stored: seq<Issue>, id: nat) {
    forall i, j :: 0 <= i < j < |stored| ==> stored[i].id != id || stored[j].id != id
  }

  /** At most one send of the order is past its store, and then the order is not filled yet. */
  ghost predicate OneSender(v: Venue, id: nat) {
    && (forall c, d :: PastStore(v, c) && PastStore(v, d) && v.sends[c].id == id && v.sends[d].id == id ==> c == d)
    && (FillPossible(v, id) ==> id in v.orders && !v.orders[id].status.Filled?)
  }

  ghost predicate Inv(v: Venue, id: nat) {
    TableInv(v) && IdsInv(v) && (Once(v.stored, id) ==> OneSender(v, id))
  }

  lemma OnceBefore(v: Venue, run: seq<Action>, id: nat)
    requires Once(Exec(v, run).stored, id)
    ensures Once(v.stored, id)
  {
    StoredGrows(v, run);
  }

  lemma OnceStepBefore(v: Venue, a: Action, id: nat)
    requires Once(Apply(v, a).stored, id)
    ensures Once(v.stored, id)
  {
    DistinctBefore(v, a);
    hide Apply;
  }

  /** A second store of an id is one too many. */
  lemma StoredFirst(v: Venue, c: nat)
    requires IdsInv(v) && Waiting(v, c)
    ensures Once(StoreStep(v, c, v.sends[c]).stored, v.sends[c].id) ==> v.sends[c].id !in v.orders
  {
    var id, n := v.sends[c].id, |v.stored|;
    var w := StoreStep(v, c, v.sends[c]);
    if id in v.orders {
      var x := if Issue(id, true) in v.stored then Issue(id, true) else Issue(id, false);
      var i :| 0 <= i < n && v.stored[i] == x;
      assert w.stored[i].id == id && w.stored[n].id == id;
    }
  }

  lemma StoreKeepsOthers(v: Venue, c: nat, id: nat)
    requires IdsInv(v) && Waiting(v, c) && Once(StoreStep(v, c, v.sends[c]).stored, id) && id in v.orders
    ensures v.sends[c].id != id
    ensures id in StoreStep(v, c, v.sends[c]).orders && StoreStep(v, c, v.sends[c]).orders[id] == v.orders[id]
  {
    if v.sends[c].id == id {
      StoredFirst(v, c);
    }
  }

  lemma RecordFills(v: Venue, c: nat, id: nat)
    requires c in v.sends && v.sends[c].phase.Announced? && id in v.orders
    ensures var w := RecordStep(v, c, v.sends[c]);
            && id in w.orders
            && (if v.sends[c].id == id then w.orders[id].status.Filled? else w.orders[id] == v.orders[id])
  {
  }

  lemma OthersKeepFinal(v: Venue, a: Action, id: nat)
    requires !Stores(v, a) && !Records(v, a) && (HasStatus(v, id, Canceled) || HasStatus(v, id, Filled))
    ensures id in Apply(v, a).orders && Apply(v, a).orders[id] == v.orders[id]
  {
  }

  lemma RecordKeepsFilled(v: Venue, a: Action, id: nat)
    requires Records(v, a) && OneSender(v, id) && (HasStatus(v, id, Canceled) || HasStatus(v, id, Filled))
    ensures id in Apply(v, a).orders
    ensures Apply(v, a).orders[id] == v.orders[id]
         || (v.sends[a.call].id == id && HasStatus(v, id, Canceled) && HasStatus(Apply(v, a), id, Filled))
  {
    RecordFills(v, a.call, id);
    ApplyCases(v, a);
    hide RecordStep, Apply;
    assert PastStore(v, a.call);
  }

  /** A step changes a canceled or filled order only as the fill of a send of that very order. */
  lemma FinalStatusStep(v: Venue, a: Action, id: nat)
    requires Inv(v, id) && Once(Apply(v, a).stored, id)
    requires HasStatus(v, id, Canceled) || HasStatus(v, id, Filled)
    ensures id in Apply(v, a).orders
    ensures Apply(v, a).orders[id] == v.orders[id]
         || (Records(v, a) && v.sends[a.call].id == id
             && HasStatus(v, id, Canceled) && HasStatus(Apply(v, a), id, Filled))
  {
    OnceStepBefore(v, a, id);
    ApplyCases(v, a);
    hide TableInv, IdsInv, StoreStep, RecordStep, Apply, Once, OneSender, AdvanceCancel;
    if Stores(v, a) {
      StoreKeepsOthers(v, a.call, id);
    } else if Records(v, a) {
      RecordKeepsFilled(v, a, id);
    } else {
      OthersKeepFinal(v, a, id);
    }
  }

  lemma SendStepFill(v: Venue, c: nat, w: Venue, d: nat)
    requires c in v.sends && w == AdvanceSend(v, c, v.sends[c]) && PastStore(w, d)
    ensures d in v.sends && w.sends[d].id == v.sends[d].id
    ensures PastStore(v, d) || (d == c && Waiting(v, c))
  {
    hide NewTrade, NewOrder, FillOrder;
    OnlyThisSend(v, c);
  }

  /** A send reaches the stage where its fill can land only by storing its order. */
  lemma FillBecomesPossible(v: Venue, a: Action, id: nat)
    requires FillPossible(Apply(v, a), id)
    ensures FillPossible(v, id) || (Stores(v, a) && v.sends[a.call].id == id)
  {
    hide AdvanceSend;
    var c :| PastStore(Apply(v, a), c) && Apply(v, a).sends[c].id == id;
    if a.StepSend? && a.call in v.sends {
      SendStepFill(v, a.call, Apply(v, a), c);
    }
    if PastStore(v, c) {
      assert v.sends[c].id == id;
    }
  }

  /** A record takes the send it belongs to away. */
  lemma RecordEndsSend(v: Venue, a: Action)
    requires Records(v, a)
    ensures a.call !in Apply(v, a).sends
  {
  }

  /** A record that leaves a send of the order past its store fills another order. */
  lemma RecordFillsAnother(v: Venue, a: Action, id: nat)
    requires Records(v, a) && OneSender(v, id) && FillPossible(v, id) && FillPossible(Apply(v, a), id)
    ensures id in Apply(v, a).orders && !Apply(v, a).orders[id].status.Filled?
  {
    var c :| PastStore(Apply(v, a), c) && Apply(v, a).sends[c].id == id;
    RecordEndsSend(v, a);
    PastStoreBefore(v, a, c);
    RecordFills(v, a.call, id);
    ApplyCases(v, a);
    hide Apply, RecordStep;
    assert PastStore(v, a.call);
  }

  lemma FillableStaysUnfilled(v: Venue, a: Action, id: nat)
    requires FillPossible(v, id) && FillPossible(Apply(v, a), id) && Inv(v, id) && Once(Apply(v, a).stored, id)
    ensures id in Apply(v, a).orders && !Apply(v, a).orders[id].status.Filled?
  {
    OnceStepBefore(v, a, id);
    ApplyCases(v, a);
    hide Apply, StoreStep, RecordStep, IdsInv, TableInv, Once, AdvanceCancel;
    if Stores(v, a) {
      StoreKeepsOthers(v, a.call, id);
    } else if Records(v, a) {
      RecordFillsAnother(v, a, id);
    } else {
      NothingElseFills(v, a, id);
    }
  }

  lemma NothingElseFills(v: Venue, a: Action, id: nat)
    requires !Stores(v, a) && !Records(v, a) && id in v.orders && !v.orders[id].status.Filled?
    ensures id in Apply(v, a).orders && !Apply(v, a).orders[id].status.Filled?
  {
  }

  lemma OneSenderStep(v: Venue, a: Action, id: nat)
    requires Inv(v, id) && Once(Apply(v, a).stored, id)
    ensures OneSender(Apply(v, a), id)
  {
    OnceStepBefore(v, a, id);
    var w := Apply(v, a);
    forall c, d | PastStore(w, c) && PastStore(w, d) && w.sends[c].id == id && w.sends[d].id == id ensures c == d {
      SenderBefore(v, a, id, c);
      SenderBefore(v, a, id, d);
    }
    if FillPossible(w, id) {
      if FillPossible(v, id) {
        FillableStaysUnfilled(v, a, id);
      } else {
        FillBecomesPossible(v, a, id);
      }
    }
  }

  lemma PastStoreBefore(v: Venue, a: Action, c: nat)
    requires PastStore(Apply(v, a), c)
    ensures c in v.sends && Apply(v, a).sends[c].id == v.sends[c].id
    ensures PastStore(v, c) || (Stores(v, a) && c == a.call)
  {
    hide AdvanceSend, CancelOf;
    if a.StepSend? && a.call in v.sends {
      SendStepFill(v, a.call, Apply(v, a), c);
    }
  }

  /** A send past its store either was so before, or has just stored as the first. */
  lemma SenderBefore(v: Venue, a: Action, id: nat, c: nat)
    requires Inv(v, id) && Once(Apply(v, a).stored, id) && PastStore(Apply(v, a), c) && Apply(v, a).sends[c].id == id
    ensures c in v.sends && v.sends[c].id == id
    ensures if Stores(v, a) && v.sends[a.call].id == id then c == a.call else PastStore(v, c)
  {
    PastStoreBefore(v, a, c);
    ApplyCases(v, a);
    hide Apply, IdsInv, StoreStep;
    if Stores(v, a) && v.sends[a.call].id == id {
      StoredFirst(v, a.call);
    }
  }

  lemma InvStep(v: Venue, a: Action, id: nat)
    requires Inv(v, id)
    ensures Inv(Apply(v, a), id)
  {
    TableStep(v, a);
    IdsStep(v, a);
    hide Apply, TableInv, IdsInv, OneSender, Once;
    if Once(Apply(v, a).stored, id) {
      OneSenderStep(v, a, id);
    }
  }

  lemma {:induction false} InvRun(v: Venue, run: seq<Action>, id: nat)
    requires Inv(v, id)
    ensures Inv(Exec(v, run), id)
    decreases |run|
  {
    hide Inv, Apply;
    if run != [] {
      InvStep(v, run[0], id);
      InvRun(Apply(v, run[0]), run[1..], id);
    }
  }

  lemma SettledStep(v: Venue, a: Action, id: nat)
    requires Inv(v, id) && Settled(v, id) && Once(Apply(v, a).stored, id)
    ensures Settled(Apply(v, a), id) && Apply(v, a).orders[id] == v.orders[id]
  {
    FinalStatusStep(v, a, id);
    if Records(v, a) {
      assert PastStore(v, a.call);
    }
    if FillPossible(Apply(v, a), id) {
      FillBecomesPossible(v, a, id);
      StoredFirst(v, a.call);
    }
  }

  lemma {:induction false} SettledRun(v: Venue, run: seq<Action>, id: nat)
    requires Inv(v, id) && Settled(v, id) && Once(Exec(v, run).stored, id)
    ensures Settled(Exec(v, run), id) && Exec(v, run).orders[id] == v.orders[id]
    decreases |run|
  {
    if run != [] {
      OnceBefore(Apply(v, run[0]), run[1..], id);
      SettledStep(v, run[0], id);
      InvStep(v, run[0], id);
      hide Inv, Settled, Apply, Once;
      SettledRun(Apply(v, run[0]), run[1..], id);
    }
  }

  // ---- what a cancel is answered ----

  /**
   * In every reachable state, colliding ids included: a connected cancel is
   * answered that the order is not found exactly when its id was never stored, a
   * system error exactly when the order is filled or canceled, and success exactly
   * when it is queueing.
   */
  lemma CancelAnswerExact(run: seq<Action>, id: nat)
    ensures var v := Exec(INITIAL, run);
            var code := CancelOutcome(v.orders, id);
            && (code == NotFound <==> forall x :: x in v.stored ==> x.id != id)
            && (code == SystemError <==> id in v.orders && v.orders[id].status in {Filled, Canceled})
            && (code == Success <==> id in v.orders && v.orders[id].status == NotTradedQueueing)
  {
    TableRun(INITIAL, run);
    IdsRun(INITIAL, run);
    hide Exec;
    AnswerFromTable(Exec(INITIAL, run), id);
  }

  lemma AnswerFromTable(v: Venue, id: nat)
    requires TableInv(v) && IdsInv(v)
    ensures id in v.orders <==> exists x :: x in v.stored && x.id == id
    ensures CancelOutcome(v.orders, id) == NotFound <==> forall x :: x in v.stored ==> x.id != id
    ensures CancelOutcome(v.orders, id) == SystemError
       <==> id in v.orders && v.orders[id].status in {Filled, Canceled}
    ensures CancelOutcome(v.orders, id) == Success <==> id in v.orders && v.orders[id].status == NotTradedQueueing
  {
    if id in v.orders {
      var x := if Issue(id, true) in v.stored then Issue(id, true) else Issue(id, false);
      assert x in v.stored && x.id == id;
    }
  }

  /** From any point past its store a send can be driven to its fill, touching nothing else. */
  lemma {:induction false} DriveToFill(v: Venue, c: nat) returns (run: seq<Action>, t: Trade)
    requires TableInv(v) && PastStore(v, c) && v.flags == EVERYTHING_ON
    ensures Exec(v, run).stored == v.stored && Exec(v, run).flags == v.flags
    ensures HasStatus(Exec(v, run), v.sends[c].id, Filled)
    ensures Exec(v, run).trades == v.trades + [t] && t.brokerOrderId == v.sends[c].id
    ensures Exec(v, run).sends == v.sends - {c}
    ensures NeverClobbers(v, run)
    decreases PhasesLeft(v.sends[c].phase)
  {
    var w := Apply(v, StepSend(c));
    OnlyThisSend(v, c);
    assert Exec(v, [StepSend(c)]) == Exec(w, []);
    if v.sends[c].phase.Announced? {
      run, t := [StepSend(c)], TradeOf(v.sends[c]);
    } else {
      TableStep(v, StepSend(c));
      StepTowardsFill(v, c, w);
      var rest;
      rest, t := DriveToFill(w, c);
      run := [StepSend(c)] + rest;
      ExecConcat(v, [StepSend(c)], rest);
      assert run[1..] == rest;
      assert w.sends - {c} == v.sends - {c};
    }
  }

  function PhasesLeft(p: Phase): nat {
    match p
    case Entered => 6
    case Allocated => 5
    case Stored => 4
    case Notified => 3
    case Filling => 2
    case Numbered => 1
    case Announced => 0
  }

  lemma StepTowardsFill(v: Venue, c: nat, w: Venue)
    requires PastStore(v, c) && !v.sends[c].phase.Announced? && v.flags == EVERYTHING_ON
    requires w == AdvanceSend(v, c, v.sends[c])
    ensures PastStore(w, c) && w.sends[c].id == v.sends[c].id
    ensures PhasesLeft(w.sends[c].phase) < PhasesLeft(v.sends[c].phase)
    ensures w.trades == v.trades && w.stored == v.stored && w.flags == v.flags
  {
  }

  /** As long as a send of the order is past its store, the order can be filled, whatever it is now. */
  lemma CanBeFilled(v: Venue, id: nat) returns (run: seq<Action>)
    requires TableInv(v) && FillPossible(v, id)
    ensures Exec(v, run).stored == v.stored && HasStatus(Exec(v, run), id, Filled)
  {
    var c :| PastStore(v, c) && v.sends[c].id == id;
    var on := [Configure(EVERYTHING_ON)];
    var u := v.(flags := EVERYTHING_ON);
    assert Exec(v, on) == Exec(u, []);
    assert PastStore(u, c);
    TableStep(v, on[0]);
    NothingYet(u);
    hide Exec, TableInv;
    var drive, t := DriveToFill(u, c);
    ExecConcat(v, on, drive);
    run := on + drive;
  }

  /**
   * Cancel finality, exactly, for an order whose id is stored once, whatever ids
   * collide elsewhere: canceled, it can still end up filled if and only if at this
   * moment some send of it is already past its store; otherwise it stays as it is.
   */
  lemma CanceledCanStillFillExact(before: seq<Action>, id: nat)
    requires Once(Exec(INITIAL, before).stored, id) && HasStatus(Exec(INITIAL, before), id, Canceled)
    ensures (exists after :: Once(Exec(Exec(INITIAL, before), after).stored, id)
                          && HasStatus(Exec(Exec(INITIAL, before), after), id, Filled))
            <==> FillPossible(Exec(INITIAL, before), id)
  {
    var v := Exec(INITIAL, before);
    InvRun(INITIAL, before, id);
    TableRun(INITIAL, before);
    hide Exec, Inv, TableInv, IdsInv;
    if FillPossible(v, id) {
      var run := CanBeFilled(v, id);
      assert HasStatus(Exec(v, run), id, Filled);
    } else {
      forall after | Once(Exec(v, after).stored, id) ensures !HasStatus(Exec(v, after), id, Filled) {
        SettledRun(v, after, id);
      }
    }
  }

  lemma ExecFour(v: Venue, a: Action, b: Action, c: Action, d: Action)
    ensures Exec(v, [a, b, c, d]) == Apply(Apply(Apply(Apply(v, a), b), c), d)
  {
    NothingYet(v);
    hide Exec, Apply;
    ExecThen(v, [], a);
    ExecThen(v, [a], b);
    ExecThen(v, [a, b], c);
    ExecThen(v, [a, b, c], d);
    assert [] + [a] == [a] && [a] + [b] == [a, b] && [a, b] + [c] == [a, b, c] && [a, b, c] + [d] == [a, b, c, d];
  }

  /** A cancel between a send's store and its record: accepted, and overwritten by the fill all the same. */
  lemma CancelBeforeFillIsOverwritten(req: OrderRequest, cancel: CancelOrderRequest)
    requires req.brokerOrderId == 0 && cancel.brokerOrderId == 1
    ensures var run := [Configure(EVERYTHING_ON), StartSend(0, req), StepSend(0), StepSend(0)] + CancelAlone(0, cancel);
            var v := Exec(INITIAL, run);
            && Once(v.stored, 1) && v.canceled == [1]
            && HasStatus(v, 1, Canceled) && FillPossible(v, 1)
            && exists more :: Once(Exec(v, more).stored, 1) && HasStatus(Exec(v, more), 1, Filled)
  {
    var sent := [Configure(EVERYTHING_ON), StartSend(0, req), StepSend(0), StepSend(0)];
    var u := Exec(INITIAL, sent);
    ExecFour(INITIAL, sent[0], sent[1], sent[2], sent[3]);
    assert u == StoredOnly(req);
    var v := CancelNow(u, cancel);
    CancelAloneIsCancelNow(u, 0, cancel);
    ExecConcat(INITIAL, sent, CancelAlone(0, cancel));
    CanceledMidSend(req, cancel);
    hide Exec;
    TableAlwaysConsistent(sent + CancelAlone(0, cancel), []);
    var drive, t := DriveToFill(v, 0);
    assert HasStatus(Exec(v, drive), 1, Filled);
  }

  /** The first auto-numbered send of a connected venue, just past its store. */
  function StoredOnly(req: OrderRequest): Venue {
    INITIAL.(flags := EVERYTHING_ON, nextOrderId := 2, numbered := [1], orders := map[1 := NewOrder(req, 1)],
             stored := [Issue(1, true)], sends := map[0 := Send(req, Stored, 1, 0)])
  }

  lemma CanceledMidSend(req: OrderRequest, cancel: CancelOrderRequest)
    requires cancel.brokerOrderId == 1
    ensures var v := CancelNow(StoredOnly(req), cancel);
            && Once(v.stored, 1) && v.canceled == [1] && v.flags == EVERYTHING_ON
            && HasStatus(v, 1, Canceled) && PastStore(v, 0) && v.sends[0].id == 1 && FillPossible(v, 1)
  {
    assert PastStore(CancelNow(StoredOnly(req), cancel), 0);
  }

  /** A filled order, and a canceled one with no send past its store, never changes again. */
  lemma FinalStatusIsPermanent(before: seq<Action>, after: seq<Action>, id: nat)
    requires Once(Exec(INITIAL, before + after).stored, id)
    requires HasStatus(Exec(INITIAL, before), id, Filled)
          || (HasStatus(Exec(INITIAL, before), id, Canceled) && !FillPossible(Exec(INITIAL, before), id))
    ensures id in Exec(INITIAL, before + after).orders
    ensures Exec(INITIAL, before + after).orders[id] == Exec(INITIAL, before).orders[id]
  {
    var v := Exec(INITIAL, before);
    InvRun(INITIAL, before, id);
    ExecConcat(INITIAL, before, after);
    OnceBefore(v, after, id);
    SettledRun(v, after, id);
  }

  // ---- how often an order is canceled ----

  /** A cancel whose critical section accepted it and whose notification is still to run. */
  ghost predicate Announcing(v: Venue, k: nat) {
    k in v.cancels && v.cancels[k].snapshot.Some?
  }

  /** A cancel of this order, accepted and not yet notified. */
  ghost predicate AnnouncingFor(v: Venue, k: nat, id: nat) {
    Announcing(v, k) && v.cancels[k].snapshot.value.brokerOrderId == id
  }

  predicate CancelNotice(o: Order, id: nat) {
    o.status.Canceled? && o.brokerOrderId == id
  }

  ghost predicate AcceptedInv(v: Venue, id: nat) {
    && (id in v.canceled ==> HasStatus(v, id, Canceled) || HasStatus(v, id, Filled))
    && (forall i, j :: 0 <= i < j < |v.canceled| ==> v.canceled[i] != id || v.canceled[j] != id)
  }

  ghost predicate NotifiedInv(v: Venue, id: nat) {
    && (forall k :: AnnouncingFor(v, k, id) ==> id in v.canceled)
    && (forall k, l :: AnnouncingFor(v, k, id) && AnnouncingFor(v, l, id) ==> k == l)
    && (forall o :: o in v.orderEvents && CancelNotice(o, id) ==> id in v.canceled)
    && (forall o, k :: o in v.orderEvents && CancelNotice(o, id) ==> !AnnouncingFor(v, k, id))
    && (forall i, j :: 0 <= i < j < |v.orderEvents| ==>
          !CancelNotice(v.orderEvents[i], id) || !CancelNotice(v.orderEvents[j], id))
  }

  lemma OnlyAcceptedCancelsAreLogged(v: Venue, a: Action)
    ensures Apply(v, a).canceled
         == if Cancels(v, a) then v.canceled + [v.cancels[a.call].req.brokerOrderId] else v.canceled
  {
  }

  lemma AcceptedStep(v: Venue, a: Action, id: nat)
    requires Inv(v, id) && AcceptedInv(v, id) && Once(Apply(v, a).stored, id)
    ensures AcceptedInv(Apply(v, a), id)
  {
    OnlyAcceptedCancelsAreLogged(v, a);
    if id in v.canceled {
      FinalStatusStep(v, a, id);
    }
    assert forall i :: 0 <= i < |v.canceled| ==> v.canceled[i] in v.canceled;
  }

  lemma CancelStepNotifies(v: Venue, k: nat, w: Venue, id: nat)
    requires TableInv(v) && AcceptedInv(v, id) && NotifiedInv(v, id)
    requires k in v.cancels && w == AdvanceCancel(v, k, v.cancels[k])
    ensures NotifiedInv(w, id)
  {
    if Announcing(v, k) {
      var o := v.cancels[k].snapshot.value;
      assert forall x :: x in w.orderEvents ==> x in v.orderEvents || x == o;
      assert forall l :: AnnouncingFor(w, l, id) <==> l != k && AnnouncingFor(v, l, id);
      assert forall i :: 0 <= i < |v.orderEvents| ==> v.orderEvents[i] in v.orderEvents;
      assert CancelNotice(o, id) ==> AnnouncingFor(v, k, id);
    } else if CancelOutcome(v.orders, v.cancels[k].req.brokerOrderId) == Success {
      var id1 := v.cancels[k].req.brokerOrderId;
      assert forall x :: x in w.canceled <==> x in v.canceled || x == id1;
      assert forall l :: AnnouncingFor(w, l, id) <==> AnnouncingFor(v, l, id) || (l == k && id == id1);
    } else {
      assert forall l :: AnnouncingFor(w, l, id) <==> AnnouncingFor(v, l, id);
    }
  }

  lemma SendStepEvents(v: Venue, c: nat, w: Venue)
    requires c in v.sends && w == AdvanceSend(v, c, v.sends[c])
    ensures w.cancels == v.cancels && w.canceled == v.canceled
    ensures w.orderEvents == v.orderEvents
         || (|w.orderEvents| == |v.orderEvents| + 1 && w.orderEvents[..|v.orderEvents|] == v.orderEvents
             && !w.orderEvents[|v.orderEvents|].status.Canceled?)
  {
  }

  lemma SendStepNotifies(v: Venue, c: nat, w: Venue, id: nat)
    requires NotifiedInv(v, id) && c in v.sends && w == AdvanceSend(v, c, v.sends[c])
    ensures NotifiedInv(w, id)
  {
    hide AdvanceSend;
    SendStepEvents(v, c, w);
    assert forall l :: AnnouncingFor(w, l, id) <==> AnnouncingFor(v, l, id);
    assert forall x :: x in w.orderEvents && CancelNotice(x, id) ==> x in v.orderEvents;
  }

  lemma NotifiedStep(v: Venue, a: Action, id: nat)
    requires TableInv(v) && AcceptedInv(v, id) && NotifiedInv(v, id)
    ensures NotifiedInv(Apply(v, a), id)
  {
    ApplyCases(v, a);
    hide Apply, AdvanceSend, AdvanceCancel, TableInv, AcceptedInv;
    if a.StepSend? && a.call in v.sends {
      SendStepNotifies(v, a.call, Apply(v, a), id);
    } else if a.StepCancel? && a.call in v.cancels {
      CancelStepNotifies(v, a.call, Apply(v, a), id);
    } else {
      assert forall k :: AnnouncingFor(Apply(v, a), k, id) <==> AnnouncingFor(v, k, id);
    }
  }

  lemma {:induction false} CancelRun(v: Venue, run: seq<Action>, id: nat)
    requires Inv(v, id) && AcceptedInv(v, id) && NotifiedInv(v, id) && Once(Exec(v, run).stored, id)
    ensures AcceptedInv(Exec(v, run), id) && NotifiedInv(Exec(v, run), id)
    decreases |run|
  {
    if run != [] {
      OnceBefore(Apply(v, run[0]), run[1..], id);
      hide Apply, AcceptedInv, NotifiedInv, TableInv, IdsInv, OneSender, Once;
      AcceptedStep(v, run[0], id);
      NotifiedStep(v, run[0], id);
      InvStep(v, run[0], id);
      CancelRun(Apply(v, run[0]), run[1..], id);
    }
  }

  /**
   * An order whose id is stored once, whatever ids collide elsewhere, is canceled
   * successfully at most once and announced as canceled at most once, and from
   * then on every cancel of it is refused with a system error that changes nothing
   * but the call itself.
   */
  lemma AtMostOneCancel(run: seq<Action>, id: nat)
    requires Once(Exec(INITIAL, run).stored, id)
    ensures var v := Exec(INITIAL, run);
            && (forall i, j :: 0 <= i < j < |v.canceled| ==> v.canceled[i] != id || v.canceled[j] != id)
            && (forall i, j :: 0 <= i < j < |v.orderEvents| ==>
                  !CancelNotice(v.orderEvents[i], id) || !CancelNotice(v.orderEvents[j], id))
            && (id in v.canceled ==> CancelOutcome(v.orders, id) == SystemError)
            && (forall k :: id in v.canceled && k in v.cancels && v.cancels[k].snapshot.None?
                  && v.cancels[k].req.brokerOrderId == id
                  ==> Apply(v, StepCancel(k)) == v.(cancels := v.cancels - {k}))
  {
    CancelRun(INITIAL, run, id);
    hide Exec;
  }
}
