// Broker ids: which ones the venue gives out, and exactly when a store
// overwrites an order already in the table.
module VenueIds {
  import opened VenueMachine

  /** A send that has chosen its id and not stored its order yet. */
  ghost predicate Waiting(v: Venue, c: nat) {
    c in v.sends && v.sends[c].phase.Allocated?
  }

  ghost predicate WaitingInv(v: Venue) {
    && (forall c :: Waiting(v, c) ==> v.sends[c].id != 0)
    && (forall c :: Waiting(v, c) && v.sends[c].Auto() ==>
          v.sends[c].id < v.nextOrderId && Issue(v.sends[c].id, true) !in v.stored)
    && (forall c, d :: Waiting(v, c) && Waiting(v, d) && v.sends[c].Auto() && v.sends[d].Auto() && c != d ==>
          v.sends[c].id != v.sends[d].id)
  }

  ghost predicate StoredInv(v: Venue) {
    && 1 <= v.nextOrderId
    && (forall x :: x in v.stored ==> x.id != 0 && x.id in v.orders && (x.auto ==> x.id < v.nextOrderId))
    && (forall i, j :: 0 <= i < j < |v.stored| && v.stored[i].auto && v.stored[j].auto ==> v.stored[i] != v.stored[j])
    && (forall id :: id in v.orders ==> Issue(id, true) in v.stored || Issue(id, false) in v.stored)
  }

  /** Every number the venue has given out is in the store history or held by a waiting send. */
  ghost predicate CoverageInv(v: Venue) {
    forall n: nat :: 1 <= n < v.nextOrderId ==> Issue(n, true) in v.stored || Held(v, n)
  }

  ghost predicate Held(v: Venue, n: nat) {
    exists c :: Waiting(v, c) && v.sends[c].Auto() && v.sends[c].id == n
  }

  /** The venue has given out 1, 2, 3 and so on, in this order. */
  ghost predicate NumberedInv(v: Venue) {
    && |v.numbered| + 1 == v.nextOrderId
    && (forall i :: 0 <= i < |v.numbered| ==> v.numbered[i] == i + 1)
  }

  ghost predicate IdsInv(v: Venue) {
    WaitingInv(v) && StoredInv(v) && CoverageInv(v) && NumberedInv(v)
  }

  /** The two states agree on everything the id invariants speak about. */
  ghost predicate SameIds(v: Venue, w: Venue) {
    && w.nextOrderId == v.nextOrderId
    && w.numbered == v.numbered
    && w.stored == v.stored
    && w.orders.Keys == v.orders.Keys
    && (forall c :: Waiting(w, c) <==> Waiting(v, c))
    && (forall c :: Waiting(v, c) ==> w.sends[c] == v.sends[c])
  }

  ghost predicate Chooses(v: Venue, a: Action) {
    a.StepSend? && a.call in v.sends && v.sends[a.call].phase.Entered?
  }

  ghost predicate Stores(v: Venue, a: Action) {
    a.StepSend? && Waiting(v, a.call)
  }

  lemma LaterPhasesKeepHistory(v: Venue, c: nat, w: Venue)
    requires c in v.sends && v.sends[c].PastStore()
    requires w == AdvanceSend(v, c, v.sends[c])
    ensures w.nextOrderId == v.nextOrderId && w.stored == v.stored && w.numbered == v.numbered
    ensures w.orders.Keys == v.orders.Keys
  {
    hide NewTrade, NewOrder, FillOrder;
  }

  lemma LaterPhasesKeepIds(v: Venue, c: nat, w: Venue)
    requires c in v.sends && v.sends[c].PastStore()
    requires w == AdvanceSend(v, c, v.sends[c])
    ensures SameIds(v, w)
  {
    OnlyThisSend(v, c);
    LaterPhasesKeepHistory(v, c, w);
    hide AdvanceSend;
  }

  lemma CancelsKeepIds(v: Venue, c: nat, w: Venue)
    requires c in v.cancels && w == AdvanceCancel(v, c, v.cancels[c])
    ensures SameIds(v, w)
  {
  }

  lemma OtherStepsKeepIds(v: Venue, a: Action)
    requires !Chooses(v, a) && !Stores(v, a)
    ensures SameIds(v, Apply(v, a))
  {
    match a
    case StepSend(c) => if c in v.sends { LaterPhasesKeepIds(v, c, Apply(v, a)); }
    case StepCancel(c) => if c in v.cancels { CancelsKeepIds(v, c, Apply(v, a)); }
    case _ =>
  }

  lemma SameIdsKeepInv(v: Venue, w: Venue)
    requires IdsInv(v) && SameIds(v, w)
    ensures IdsInv(w)
  {
  }

  lemma ChoosingMovesSend(v: Venue, c: nat, w: Venue)
    requires c in v.sends && v.sends[c].phase.Entered? && w == AllocateStep(v, c, v.sends[c])
    ensures w.stored == v.stored && w.orders == v.orders
    ensures forall d :: Waiting(w, d) <==> Waiting(v, d) || d == c
    ensures forall d :: d != c && Waiting(w, d) ==> w.sends[d] == v.sends[d]
    ensures w.sends[c].req == v.sends[c].req
    ensures if v.sends[c].Auto()
            then w.nextOrderId == v.nextOrderId + 1 && w.numbered == v.numbered + [v.nextOrderId]
                 && w.sends[c].id == v.nextOrderId
            else w.nextOrderId == v.nextOrderId && w.numbered == v.numbered
                 && w.sends[c].id == v.sends[c].req.brokerOrderId
  {
  }

  lemma ChoosingKeepsInv(v: Venue, c: nat, w: Venue)
    requires IdsInv(v) && c in v.sends && v.sends[c].phase.Entered?
    requires w == AllocateStep(v, c, v.sends[c])
    ensures IdsInv(w)
  {
    ChoosingMovesSend(v, c, w);
    hide AllocateStep;
    assert WaitingInv(w) by {
      hide CoverageInv, NumberedInv;
    }
    hide WaitingInv;
    forall n: nat | 1 <= n < w.nextOrderId && Issue(n, true) !in w.stored ensures Held(w, n) {
      if n == v.nextOrderId {
        assert Waiting(w, c);
      } else {
        var d :| Waiting(v, d) && v.sends[d].Auto() && v.sends[d].id == n;
        assert Waiting(w, d);
      }
    }
  }

  lemma StoringAddsIssue(v: Venue, c: nat, w: Venue)
    requires IdsInv(v) && Waiting(v, c)
    requires w == StoreStep(v, c, v.sends[c])
    ensures StoredInv(w)
    ensures forall x :: x in w.stored <==> x in v.stored || x == Issue(v.sends[c].id, v.sends[c].Auto())
    ensures forall d :: Waiting(w, d) <==> Waiting(v, d) && d != c
    ensures forall d :: Waiting(w, d) ==> w.sends[d] == v.sends[d]
  {
  }

  lemma StoringKeepsInv(v: Venue, c: nat, w: Venue)
    requires IdsInv(v) && Waiting(v, c)
    requires w == StoreStep(v, c, v.sends[c])
    ensures IdsInv(w)
  {
    StoringAddsIssue(v, c, w);
    forall n: nat | 1 <= n < w.nextOrderId && Issue(n, true) !in w.stored ensures Held(w, n) {
      var d :| Waiting(v, d) && v.sends[d].Auto() && v.sends[d].id == n;
      assert Waiting(w, d);
    }
  }

  lemma IdsStep(v: Venue, a: Action)
    requires IdsInv(v)
    ensures IdsInv(Apply(v, a))
  {
    if Chooses(v, a) {
      ChoosingKeepsInv(v, a.call, Apply(v, a));
    } else if Stores(v, a) {
      StoringKeepsInv(v, a.call, Apply(v, a));
    } else {
      OtherStepsKeepIds(v, a);
      SameIdsKeepInv(v, Apply(v, a));
    }
  }

  lemma {:induction false} IdsRun(v: Venue, run: seq<Action>)
    requires IdsInv(v)
    ensures IdsInv(Exec(v, run))
    decreases |run|
  {
    if run != [] {
      IdsStep(v, run[0]);
      IdsRun(Apply(v, run[0]), run[1..]);
    }
  }

  /** The step stores an order under an id that already has one. */
  ghost predicate Overwrites(v: Venue, a: Action) {
    Stores(v, a) && v.sends[a.call].id in v.orders
  }

  ghost predicate NeverOverwrites(v: Venue, run: seq<Action>)
    decreases |run|
  {
    run == [] || (!Overwrites(v, run[0]) && NeverOverwrites(Apply(v, run[0]), run[1..]))
  }

  lemma DistinctUnlessOverwritten(v: Venue, a: Action)
    requires IdsInv(v) && Distinct(v.stored)
    ensures Distinct(Apply(v, a).stored) <==> !Overwrites(v, a)
  {
    if Stores(v, a) {
      var w := StoreStep(v, a.call, v.sends[a.call]);
      var n := |v.stored|;
      var id := w.stored[n].id;
      if id in v.orders {
        var x := if Issue(id, true) in v.stored then Issue(id, true) else Issue(id, false);
        var i :| 0 <= i < n && v.stored[i] == x;
        assert w.stored[i].id == w.stored[n].id;
      } else {
        assert forall i :: 0 <= i < n ==> w.stored[i] in v.stored;
      }
    } else if !Chooses(v, a) {
      OtherStepsKeepIds(v, a);
    }
  }

  /** A run overwrites no stored order exactly when its store history repeats no id. */
  lemma {:induction false} NeverOverwritesExact(v: Venue, run: seq<Action>)
    requires IdsInv(v) && Distinct(v.stored)
    ensures NeverOverwrites(v, run) <==> Distinct(Exec(v, run).stored)
    decreases |run|
  {
    if run != [] {
      var w := Apply(v, run[0]);
      IdsStep(v, run[0]);
      DistinctUnlessOverwritten(v, run[0]);
      if Distinct(w.stored) {
        NeverOverwritesExact(w, run[1..]);
      } else {
        StoredGrows(w, run[1..]);
      }
    }
  }

  ghost predicate ClientIdsFresh(v: Venue) {
    && (forall i :: 0 <= i < |v.stored| && !v.stored[i].auto ==> v.nextOrderId <= v.stored[i].id)
    && (forall i, j :: 0 <= i < j < |v.stored| && !v.stored[i].auto && !v.stored[j].auto ==>
          v.stored[i].id != v.stored[j].id)
  }

  lemma ExactlyTheIssuedNumbers(v: Venue)
    requires IdsInv(v) && forall c :: !Waiting(v, c)
    ensures forall n: nat :: Issue(n, true) in v.stored <==> 1 <= n < v.nextOrderId
  {
  }

  lemma DistinctIffClientIdsFresh(v: Venue)
    requires IdsInv(v) && forall c :: !Waiting(v, c)
    ensures Distinct(v.stored) <==> ClientIdsFresh(v)
  {
    ExactlyTheIssuedNumbers(v);
    assert forall i :: 0 <= i < |v.stored| ==> v.stored[i] in v.stored;
    if Distinct(v.stored) {
      forall i | 0 <= i < |v.stored| && !v.stored[i].auto ensures v.nextOrderId <= v.stored[i].id {
        if v.stored[i].id < v.nextOrderId {
          TakenByTheVenue(v, i);
        }
      }
    }
  }

  /** A client id that the venue has also given out is stored twice. */
  lemma TakenByTheVenue(v: Venue, i: nat)
    requires IdsInv(v) && (forall c :: !Waiting(v, c))
    requires i < |v.stored| && !v.stored[i].auto && v.stored[i].id < v.nextOrderId
    ensures !Distinct(v.stored)
  {
    var id := v.stored[i].id;
    assert v.stored[i] in v.stored;
    ExactlyTheIssuedNumbers(v);
    assert Issue(id, true) in v.stored;
    var j :| 0 <= j < |v.stored| && v.stored[j] == Issue(id, true);
    assert j != i && v.stored[j].id == v.stored[i].id;
  }

  /**
   * The venue numbers the k sends that ask for it 1..k, in this order, and stores
   * no such number twice. When no send waits between choosing its id and storing
   * its order, it has stored exactly these, and no stored order was ever
   * overwritten if and only if the client-chosen ids are pairwise distinct and
   * all greater than k.
   */
  lemma FreshnessExact(run: seq<Action>)
    requires forall c :: !Waiting(Exec(INITIAL, run), c)
    ensures var v := Exec(INITIAL, run);
            && |v.numbered| + 1 == v.nextOrderId
            && (forall i :: 0 <= i < |v.numbered| ==> v.numbered[i] == i + 1)
            && (forall n: nat :: Issue(n, true) in v.stored <==> 1 <= n < v.nextOrderId)
            && (forall i, j :: 0 <= i < j < |v.stored| && v.stored[i].auto && v.stored[j].auto ==>
                  v.stored[i].id != v.stored[j].id)
    ensures NeverOverwrites(INITIAL, run) <==> ClientIdsFresh(Exec(INITIAL, run))
  {
    IdsRun(INITIAL, run);
    NeverOverwritesExact(INITIAL, run);
    ExactlyTheIssuedNumbers(Exec(INITIAL, run));
    DistinctIffClientIdsFresh(Exec(INITIAL, run));
  }
}
