// The trade log against the trade callback: a trade is announced first and
// recorded later, so at any moment the two differ by the sends in between.
module VenueTrades {
  import opened VenueTypes
  import opened TradeIds
  import opened VenueMachine

  /** The counter value behind a trade's identifier. */
  function Number(t: Trade): nat {
    TradeIdNumber(t.tradeId)
  }

  ghost predicate Holding(v: Venue, c: nat) {
    c in v.sends && v.sends[c].HasTrade()
  }

  ghost predicate InFlight(v: Venue, c: nat) {
    c in v.sends && v.sends[c].phase.Announced?
  }

  /** A trade some send has announced and not recorded yet. */
  ghost predicate AwaitsRecord(v: Venue, t: Trade) {
    exists c :: InFlight(v, c) && TradeOf(v.sends[c]) == t
  }

  ghost predicate NoneRepeated(ts: seq<Trade>) {
    forall i, j :: 0 <= i < j < |ts| ==> Number(ts[i]) != Number(ts[j])
  }

  ghost predicate NumbersInv(v: Venue) {
    && 1 <= v.nextTradeId
    && (forall c :: Holding(v, c) ==> 1 <= v.sends[c].tradeNo < v.nextTradeId)
    && (forall c, d :: Holding(v, c) && Holding(v, d) && c != d ==> v.sends[c].tradeNo != v.sends[d].tradeNo)
    && (forall t :: t in v.tradeEvents ==> 1 <= Number(t) < v.nextTradeId)
    && (forall t, c :: t in v.tradeEvents && Holding(v, c) && v.sends[c].phase.Numbered? ==>
          Number(t) != v.sends[c].tradeNo)
    && NoneRepeated(v.tradeEvents)
  }

  ghost predicate RecordedInv(v: Venue) {
    && (forall t :: t in v.tradeEvents <==> t in v.trades || AwaitsRecord(v, t))
    && (forall t, c :: t in v.trades && InFlight(v, c) ==> Number(t) != v.sends[c].tradeNo)
    && (forall t :: t in v.trades ==> t.orderId == "")
    && NoneRepeated(v.trades)
  }

  ghost predicate TradesInv(v: Venue) {
    NumbersInv(v) && RecordedInv(v)
  }

  lemma NumberOfTrade(s: Send)
    ensures Number(TradeOf(s)) == s.tradeNo
  {
    TradeIdRoundTrip(s.tradeNo);
  }

  ghost predicate SameTrades(v: Venue, w: Venue) {
    && w.nextTradeId == v.nextTradeId
    && w.trades == v.trades
    && w.tradeEvents == v.tradeEvents
    && (forall c :: Holding(w, c) <==> Holding(v, c))
    && (forall c :: Holding(v, c) ==> w.sends[c] == v.sends[c])
  }

  ghost predicate TradeStep(v: Venue, a: Action) {
    && a.StepSend?
    && a.call in v.sends
    && (v.sends[a.call].phase.Filling? || v.sends[a.call].HasTrade())
  }

  lemma OtherSendStepsKeepTrades(v: Venue, c: nat, w: Venue)
    requires c in v.sends && !v.sends[c].phase.Filling? && !v.sends[c].HasTrade()
    requires w == AdvanceSend(v, c, v.sends[c])
    ensures SameTrades(v, w)
  {
    hide NewTrade, NewOrder, FillOrder;
    OnlyThisSend(v, c);
  }

  lemma OtherStepsKeepTrades(v: Venue, a: Action)
    requires !TradeStep(v, a)
    ensures SameTrades(v, Apply(v, a))
  {
    hide AdvanceSend, CancelOutcome, CancelOf;
    match a
    case StepSend(c) => if c in v.sends { OtherSendStepsKeepTrades(v, c, Apply(v, a)); }
    case StepCancel(c) => if c in v.cancels { assert Apply(v, a) == AdvanceCancel(v, c, v.cancels[c]); }
    case _ =>
  }

  lemma SameInFlightKeepsRecorded(v: Venue, w: Venue)
    requires RecordedInv(v) && w.trades == v.trades && w.tradeEvents == v.tradeEvents
    requires forall c :: InFlight(v, c) <==> InFlight(w, c)
    requires forall c :: InFlight(v, c) && InFlight(w, c) ==> w.sends[c] == v.sends[c]
    ensures RecordedInv(w)
  {
  }

  lemma SameTradesKeepInv(v: Venue, w: Venue)
    requires TradesInv(v) && SameTrades(v, w)
    ensures TradesInv(w)
  {
    hide AwaitsRecord, Number;
    assert forall c :: InFlight(v, c) ==> Holding(v, c);
    assert forall c :: InFlight(w, c) ==> Holding(w, c);
    SameInFlightKeepsRecorded(v, w);
  }

  lemma NumberingKeepsInv(v: Venue, c: nat, w: Venue)
    requires TradesInv(v) && c in v.sends && v.sends[c].phase.Filling? && w == NumberStep(v, c, v.sends[c])
    ensures TradesInv(w)
  {
    hide AwaitsRecord, Number;
    assert forall d :: InFlight(w, d) <==> InFlight(v, d);
    assert forall d :: d != c ==> (Holding(w, d) <==> Holding(v, d));
    SameInFlightKeepsRecorded(v, w);
  }

  lemma AnnouncingMovesSend(v: Venue, c: nat, w: Venue)
    requires c in v.sends && v.sends[c].phase.Numbered? && w == AnnounceStep(v, c, v.sends[c])
    ensures w.tradeEvents == v.tradeEvents + [TradeOf(v.sends[c])]
    ensures w.trades == v.trades && w.nextTradeId == v.nextTradeId
    ensures c in w.sends && w.sends[c] == v.sends[c].(phase := Announced)
    ensures forall d :: Holding(w, d) <==> Holding(v, d)
    ensures forall d :: InFlight(w, d) <==> d == c || InFlight(v, d)
    ensures forall d :: d != c && Holding(w, d) ==> w.sends[d] == v.sends[d]
  {
  }

  lemma AnnouncingKeepsNumbers(v: Venue, c: nat, w: Venue)
    requires NumbersInv(v) && c in v.sends && v.sends[c].phase.Numbered? && w == AnnounceStep(v, c, v.sends[c])
    ensures NumbersInv(w)
  {
    hide TradeIdNumber, NewTrade, TradeOf, AnnounceStep;
    AnnouncingMovesSend(v, c, w);
    NumberOfTrade(v.sends[c]);
    assert Holding(v, c);
    AppendNotRepeated(v.tradeEvents, TradeOf(v.sends[c]));
  }

  lemma AnnouncingAwaits(v: Venue, c: nat, w: Venue, t: Trade)
    requires c in v.sends && v.sends[c].phase.Numbered? && w == AnnounceStep(v, c, v.sends[c])
    ensures AwaitsRecord(w, t) <==> AwaitsRecord(v, t) || t == TradeOf(v.sends[c])
  {
    hide NewTrade, AnnounceStep;
    AnnouncingMovesSend(v, c, w);
    assert InFlight(w, c);
    if AwaitsRecord(v, t) {
      var d :| InFlight(v, d) && TradeOf(v.sends[d]) == t;
      assert InFlight(w, d) && Holding(w, d);
    }
    if AwaitsRecord(w, t) {
      var d :| InFlight(w, d) && TradeOf(w.sends[d]) == t;
      assert d == c || (InFlight(v, d) && Holding(w, d));
    }
  }

  lemma AnnouncingKeepsRecorded(v: Venue, c: nat, w: Venue)
    requires TradesInv(v) && c in v.sends && v.sends[c].phase.Numbered? && w == AnnounceStep(v, c, v.sends[c])
    ensures RecordedInv(w)
  {
    hide TradeIdNumber, NewTrade, TradeOf, AnnounceStep, AwaitsRecord;
    AnnouncingMovesSend(v, c, w);
    forall t ensures t in w.tradeEvents <==> t in w.trades || AwaitsRecord(w, t) {
      AnnouncingAwaits(v, c, w, t);
    }
    forall t, d | t in w.trades && InFlight(w, d) ensures Number(t) != w.sends[d].tradeNo {
      assert t in v.tradeEvents && Holding(v, c) && Holding(w, d);
    }
  }

  lemma AnnouncingKeepsInv(v: Venue, c: nat, w: Venue)
    requires TradesInv(v) && c in v.sends && v.sends[c].phase.Numbered? && w == AnnounceStep(v, c, v.sends[c])
    ensures TradesInv(w)
  {
    hide NumbersInv, RecordedInv, AnnounceStep;
    assert TradesInv(v) == (NumbersInv(v) && RecordedInv(v));
    AnnouncingKeepsNumbers(v, c, w);
    AnnouncingKeepsRecorded(v, c, w);
  }

  lemma RecordingRemovesSend(v: Venue, c: nat, w: Venue)
    requires InFlight(v, c) && w == RecordStep(v, c, v.sends[c])
    ensures w.trades == v.trades + [TradeOf(v.sends[c])]
    ensures w.tradeEvents == v.tradeEvents && w.nextTradeId == v.nextTradeId
    ensures forall d :: Holding(w, d) <==> d != c && Holding(v, d)
    ensures forall d :: InFlight(w, d) <==> d != c && InFlight(v, d)
    ensures forall d :: Holding(w, d) ==> w.sends[d] == v.sends[d]
  {
  }

  lemma RecordingMovesTrade(v: Venue, c: nat, w: Venue, t: Trade)
    requires InFlight(v, c) && w == RecordStep(v, c, v.sends[c])
    ensures t in w.trades || AwaitsRecord(w, t) <==> t in v.trades || AwaitsRecord(v, t)
  {
    hide NewTrade, RecordStep;
    RecordingRemovesSend(v, c, w);
    var s := TradeOf(v.sends[c]);
    if AwaitsRecord(v, t) && t != s {
      var d :| InFlight(v, d) && TradeOf(v.sends[d]) == t;
      assert InFlight(w, d) && Holding(w, d);
    }
    if AwaitsRecord(w, t) {
      var d :| InFlight(w, d) && TradeOf(w.sends[d]) == t;
      assert InFlight(v, d) && Holding(w, d);
    }
  }

  lemma RecordingKeepsNumbers(v: Venue, c: nat, w: Venue)
    requires NumbersInv(v) && InFlight(v, c) && w == RecordStep(v, c, v.sends[c])
    ensures NumbersInv(w)
  {
  }

  lemma AppendNotRepeated(ts: seq<Trade>, t: Trade)
    requires NoneRepeated(ts) && forall x :: x in ts ==> Number(x) != Number(t)
    ensures NoneRepeated(ts + [t])
  {
  }

  lemma RecordingKeepsRecorded(v: Venue, c: nat, w: Venue)
    requires TradesInv(v) && InFlight(v, c) && w == RecordStep(v, c, v.sends[c])
    ensures RecordedInv(w)
  {
    var s := TradeOf(v.sends[c]);
    assert s.orderId == "";
    hide TradeIdNumber, NewTrade, RecordStep, AwaitsRecord, TradeOf;
    RecordingRemovesSend(v, c, w);
    NumberOfTrade(v.sends[c]);
    AppendNotRepeated(v.trades, s);
    forall t ensures t in w.tradeEvents <==> t in w.trades || AwaitsRecord(w, t) {
      RecordingMovesTrade(v, c, w, t);
    }
    forall t, d | t in w.trades && InFlight(w, d) ensures Number(t) != w.sends[d].tradeNo {
      assert Holding(v, c) && Holding(v, d) && Holding(w, d);
    }
  }

  lemma RecordingKeepsInv(v: Venue, c: nat, w: Venue)
    requires TradesInv(v) && InFlight(v, c) && w == RecordStep(v, c, v.sends[c])
    ensures TradesInv(w)
  {
    hide NumbersInv, RecordedInv, RecordStep;
    assert TradesInv(v) == (NumbersInv(v) && RecordedInv(v));
    RecordingKeepsNumbers(v, c, w);
    RecordingKeepsRecorded(v, c, w);
  }

  lemma TradesStep(v: Venue, a: Action)
    requires TradesInv(v)
    ensures TradesInv(Apply(v, a))
  {
    if TradeStep(v, a) {
      match v.sends[a.call].phase
      case Filling => NumberingKeepsInv(v, a.call, Apply(v, a));
      case Numbered => AnnouncingKeepsInv(v, a.call, Apply(v, a));
      case Announced => RecordingKeepsInv(v, a.call, Apply(v, a));
    } else {
      OtherStepsKeepTrades(v, a);
      SameTradesKeepInv(v, Apply(v, a));
    }
  }

  lemma {:induction false} TradesRun(v: Venue, run: seq<Action>)
    requires TradesInv(v)
    ensures TradesInv(Exec(v, run))
    decreases |run|
  {
    if run != [] {
      TradesStep(v, run[0]);
      TradesRun(Apply(v, run[0]), run[1..]);
    }
  }

  /**
   * In every reachable state the trades handed to the callback are exactly the
   * recorded ones plus those of sends between announcing and recording, no
   * trade appears twice on either side, and no two carry the same identifier.
   */
  lemma AnnouncedIsRecordedPlusInFlight(run: seq<Action>)
    ensures var v := Exec(INITIAL, run);
            && (forall t :: t in v.tradeEvents <==> t in v.trades || AwaitsRecord(v, t))
            && (forall t :: !(t in v.trades && AwaitsRecord(v, t)))
            && (forall i, j :: 0 <= i < j < |v.tradeEvents| ==> v.tradeEvents[i].tradeId != v.tradeEvents[j].tradeId)
            && (forall i, j :: 0 <= i < j < |v.trades| ==> v.trades[i].tradeId != v.trades[j].tradeId)
  {
    TradesRun(INITIAL, run);
    var v := Exec(INITIAL, run);
    forall t | t in v.trades && AwaitsRecord(v, t) ensures false {
      var c :| InFlight(v, c) && TradeOf(v.sends[c]) == t;
      NumberOfTrade(v.sends[c]);
    }
  }

  /** Once no send is between its callback and its record, the callback and the log hold the same trades. */
  lemma NoAnnouncedTradeIsLost(run: seq<Action>)
    requires forall c :: !InFlight(Exec(INITIAL, run), c)
    ensures multiset(Exec(INITIAL, run).tradeEvents) == multiset(Exec(INITIAL, run).trades)
  {
    TradesRun(INITIAL, run);
    var v := Exec(INITIAL, run);
    forall t ensures multiset(v.tradeEvents)[t] == multiset(v.trades)[t] {
      OncePerTrade(v.tradeEvents, t);
      OncePerTrade(v.trades, t);
      assert !AwaitsRecord(v, t);
    }
  }

  lemma {:induction false} OncePerTrade(ts: seq<Trade>, t: Trade)
    requires NoneRepeated(ts)
    ensures multiset(ts)[t] == if t in ts then 1 else 0
  {
    if ts != [] {
      var n := |ts| - 1;
      assert ts == ts[..n] + [ts[n]];
      OncePerTrade(ts[..n], t);
      assert forall i :: 0 <= i < n ==> ts[i] != ts[n];
    }
  }
}
