// The order of the trade log against the order of the trade callback, over every
// interleaving: a trade is announced first and recorded later, so the log keeps
// the announced order exactly as long as no record overtakes an earlier announce.
module VenueLogOrder {
  import opened VenueTypes
  import opened TradeIds
  import opened VenueMachine
  import opened VenueSequential
  import opened VenueTrades

  /** The log holds the trades in the order of the callback, as far as it has them. */
  ghost predicate Follows(v: Venue) {
    v.trades <= v.tradeEvents
  }

  /** Two sends in flight, the first of them announced earlier. */
  ghost predicate AnnouncedBefore(v: Venue, d: nat, c: nat) {
    && InFlight(v, d) && InFlight(v, c)
    && exists i, j ::
         && 0 <= i < j < |v.tradeEvents|
         && v.tradeEvents[i] == TradeOf(v.sends[d]) && v.tradeEvents[j] == TradeOf(v.sends[c])
  }

  /** The step records a trade while one announced earlier is still unrecorded. */
  ghost predicate Overtakes(v: Venue, a: Action) {
    a.StepSend? && exists d :: AnnouncedBefore(v, d, a.call)
  }

  ghost predicate NeverOvertakes(v: Venue, run: seq<Action>)
    decreases |run|
  {
    run == [] || (!Overtakes(v, run[0]) && NeverOvertakes(Apply(v, run[0]), run[1..]))
  }

  /** The log and the callback disagree at some place both have reached. */
  ghost predicate Differ(v: Venue) {
    exists i :: 0 <= i < |v.trades| && i < |v.tradeEvents| && v.trades[i] != v.tradeEvents[i]
  }

  lemma LogsGrow(v: Venue, a: Action)
    ensures v.trades <= Apply(v, a).trades && v.tradeEvents <= Apply(v, a).tradeEvents
    ensures Apply(v, a).trades == if a.StepSend? && InFlight(v, a.call)
                                  then v.trades + [TradeOf(v.sends[a.call])] else v.trades
  {
    hide NewTrade, NewOrder, FillOrder, CancelOf;
  }

  lemma {:induction false} DifferForever(v: Venue, run: seq<Action>)
    requires Differ(v)
    ensures Differ(Exec(v, run))
    decreases |run|
  {
    if run != [] {
      LogsGrow(v, run[0]);
      hide Apply;
      DifferForever(Apply(v, run[0]), run[1..]);
    }
  }

  /** The first trade the log lacks belongs to a send in flight. */
  lemma OldestUnrecorded(v: Venue) returns (c: nat)
    requires TradesInv(v) && Follows(v) && |v.trades| < |v.tradeEvents|
    ensures InFlight(v, c) && TradeOf(v.sends[c]) == v.tradeEvents[|v.trades|]
  {
    var t := v.tradeEvents[|v.trades|];
    assert t in v.tradeEvents;
    assert forall i :: 0 <= i < |v.trades| ==> v.trades[i] == v.tradeEvents[i];
    assert AwaitsRecord(v, t);
    c :| InFlight(v, c) && TradeOf(v.sends[c]) == t;
  }

  /** Where in the callback's history the trade of a send in flight stands: beyond what the log has. */
  lemma PlaceOfUnrecorded(v: Venue, c: nat) returns (j: nat)
    requires TradesInv(v) && Follows(v) && InFlight(v, c)
    ensures |v.trades| <= j < |v.tradeEvents| && v.tradeEvents[j] == TradeOf(v.sends[c])
  {
    var t := TradeOf(v.sends[c]);
    NumberOfTrade(v.sends[c]);
    assert AwaitsRecord(v, t);
    assert t in v.tradeEvents;
    j :| 0 <= j < |v.tradeEvents| && v.tradeEvents[j] == t;
  }

  lemma OrderStep(v: Venue, a: Action)
    requires TradesInv(v) && Follows(v)
    ensures if Overtakes(v, a) then Differ(Apply(v, a)) else Follows(Apply(v, a))
  {
    var n := |v.trades|;
    LogsGrow(v, a);
    if a.StepSend? && InFlight(v, a.call) {
      var t := TradeOf(v.sends[a.call]);
      hide Apply, TradeOf, TradesInv, AnnouncedBefore;
      var j := PlaceOfUnrecorded(v, a.call);
      if Overtakes(v, a) {
        var d :| AnnouncedBefore(v, d, a.call);
        OvertakenIsEarlier(v, d, a.call, j);
        assert Apply(v, a).trades[n] != Apply(v, a).tradeEvents[n];
      } else {
        if n < j {
          BehindAnother(v, a.call, j);
        }
        assert Apply(v, a).trades == v.tradeEvents[..n + 1];
      }
    }
  }

  lemma BehindAnother(v: Venue, c: nat, j: nat)
    requires TradesInv(v) && Follows(v) && InFlight(v, c)
    requires |v.trades| < j < |v.tradeEvents| && v.tradeEvents[j] == TradeOf(v.sends[c])
    ensures exists d :: AnnouncedBefore(v, d, c)
  {
    var d := OldestUnrecorded(v);
    hide TradesInv, TradeOf;
    assert AnnouncedBefore(v, d, c);
  }

  lemma OvertakenIsEarlier(v: Venue, d: nat, c: nat, j: nat)
    requires TradesInv(v) && Follows(v) && AnnouncedBefore(v, d, c)
    requires j < |v.tradeEvents| && v.tradeEvents[j] == TradeOf(v.sends[c])
    ensures |v.trades| < j && v.tradeEvents[|v.trades|] != TradeOf(v.sends[c])
  {
    hide TradeOf, Number;
    var i := PlaceOfUnrecorded(v, d);
  }

  lemma {:induction false} OrderRun(v: Venue, run: seq<Action>)
    requires TradesInv(v) && Follows(v)
    ensures Follows(Exec(v, run)) <==> NeverOvertakes(v, run)
    decreases |run|
  {
    if run != [] {
      TradesStep(v, run[0]);
      OrderStep(v, run[0]);
      hide TradesInv, Apply, Overtakes;
      if Overtakes(v, run[0]) {
        DifferForever(Apply(v, run[0]), run[1..]);
      } else {
        OrderRun(Apply(v, run[0]), run[1..]);
      }
    }
  }

  /**
   * After every run, whatever its calls and callbacks: the log holds the trades in
   * the order of the callback if and only if no step recorded a trade while one
   * announced earlier was still unrecorded. Once no send is between the two, that
   * makes log and callback equal.
   */
  lemma LogKeepsOrderExact(run: seq<Action>)
    ensures Exec(INITIAL, run).trades <= Exec(INITIAL, run).tradeEvents <==> NeverOvertakes(INITIAL, run)
    ensures (forall c :: !InFlight(Exec(INITIAL, run), c)) ==>
              (Exec(INITIAL, run).trades == Exec(INITIAL, run).tradeEvents <==> NeverOvertakes(INITIAL, run))
  {
    var v := Exec(INITIAL, run);
    TradesRun(INITIAL, run);
    OrderRun(INITIAL, run);
    hide Exec;
    if Follows(v) && |v.trades| < |v.tradeEvents| {
      var c := OldestUnrecorded(v);
    }
  }

  // ---- what a caller can check ----

  /** The step announces a trade while another is between its announce and its record. */
  ghost predicate Overlaps(v: Venue, a: Action) {
    && a.StepSend? && a.call in v.sends && v.sends[a.call].phase.Numbered?
    && exists d :: InFlight(v, d)
  }

  ghost predicate NeverOverlaps(v: Venue, run: seq<Action>)
    decreases |run|
  {
    run == [] || (!Overlaps(v, run[0]) && NeverOverlaps(Apply(v, run[0]), run[1..]))
  }

  ghost predicate OneInFlight(v: Venue) {
    forall c, d :: InFlight(v, c) && InFlight(v, d) ==> c == d
  }

  /** Only announcing puts a send in flight. */
  lemma FlightStep(v: Venue, a: Action, c: nat)
    requires InFlight(Apply(v, a), c)
    ensures InFlight(v, c) || (a == StepSend(c) && c in v.sends && v.sends[c].phase.Numbered?)
  {
    hide NewTrade, NewOrder, FillOrder, CancelOf;
  }

  lemma OneInFlightStep(v: Venue, a: Action)
    requires OneInFlight(v) && !Overlaps(v, a)
    ensures OneInFlight(Apply(v, a))
  {
    forall c, d | InFlight(Apply(v, a), c) && InFlight(Apply(v, a), d) ensures c == d {
      FlightStep(v, a, c);
      FlightStep(v, a, d);
    }
  }

  lemma OneInFlightNeverOvertakes(v: Venue, a: Action)
    requires TradesInv(v) && OneInFlight(v)
    ensures !Overtakes(v, a)
  {
    hide TradeOf, Number, RecordedInv;
  }

  lemma {:induction false} ApartRun(v: Venue, run: seq<Action>)
    requires TradesInv(v) && OneInFlight(v) && Follows(v) && NeverOverlaps(v, run)
    ensures OneInFlight(Exec(v, run)) && Follows(Exec(v, run))
    decreases |run|
  {
    if run != [] {
      TradesStep(v, run[0]);
      OneInFlightStep(v, run[0]);
      OneInFlightNeverOvertakes(v, run[0]);
      OrderStep(v, run[0]);
      hide TradesInv, Apply, Overtakes, Overlaps, OneInFlight, Follows;
      ApartRun(Apply(v, run[0]), run[1..]);
    }
  }

  /** A trade announced over an unrecorded one comes after it in the callback's history. */
  lemma OverlapIsLater(v: Venue, c: nat, w: Venue)
    requires TradesInv(v) && Overlaps(v, StepSend(c)) && w == AnnounceStep(v, c, v.sends[c])
    ensures exists d :: AnnouncedBefore(w, d, c)
  {
    AnnouncingMovesSend(v, c, w);
    var d :| InFlight(v, d);
    hide TradeOf, AnnounceStep, NumbersInv;
    var t := TradeOf(v.sends[d]);
    assert AwaitsRecord(v, t) && t in v.tradeEvents;
    var i :| 0 <= i < |v.tradeEvents| && v.tradeEvents[i] == t;
    assert Holding(w, d) && Holding(v, c) && InFlight(w, c);
    PhaseOutsideTrade(v.sends[c]);
    assert w.tradeEvents[i] == TradeOf(w.sends[d]) && w.tradeEvents[|v.tradeEvents|] == TradeOf(w.sends[c]);
    assert AnnouncedBefore(w, d, c);
  }

  lemma PhaseOutsideTrade(s: Send)
    ensures TradeOf(s.(phase := Announced)) == TradeOf(s)
  {
  }

  /** An overlapping announce can be recorded first, by letting its send go on. */
  lemma OverlapCanOvertake(v: Venue, c: nat)
    requires TradesInv(v) && Overlaps(v, StepSend(c))
    ensures var w := Apply(v, StepSend(c));
            Overtakes(w, StepSend(c)) && NeverOverlaps(w, [StepSend(c)])
  {
    hide TradesInv, TradeOf;
    var w := AnnounceStep(v, c, v.sends[c]);
    OverlapIsLater(v, c, w);
    assert w.sends[c].phase.Announced?;
    assert Apply(v, StepSend(c)) == w;
    hide AnnounceStep, Apply, AnnouncedBefore;
    assert NeverOverlaps(Apply(w, StepSend(c)), [StepSend(c)][1..]);
  }

  /**
   * What a caller can go by: after a run in which no trade was announced while
   * another was still unrecorded, one more step keeps the log in the announced
   * order, whatever such run follows, if and only if it does not announce over an
   * unrecorded trade either.
   */
  lemma OrderIsSafeExact(before: seq<Action>, a: Action)
    requires NeverOverlaps(INITIAL, before)
    ensures (forall after :: NeverOverlaps(Apply(Exec(INITIAL, before), a), after)
                        ==> Follows(Exec(Apply(Exec(INITIAL, before), a), after)))
       <==> !Overlaps(Exec(INITIAL, before), a)
  {
    var v := Exec(INITIAL, before);
    TradesRun(INITIAL, before);
    ApartRun(INITIAL, before);
    TradesStep(v, a);
    hide Exec, Apply, TradesInv;
    var w := Apply(v, a);
    if Overlaps(v, a) {
      OverlapCanOvertake(v, a.call);
      ApartUntil(v, a);
      OrderRun(w, [StepSend(a.call)]);
      assert !NeverOvertakes(w, [StepSend(a.call)]);
      assert !Follows(Exec(w, [StepSend(a.call)]));
    } else {
      OneInFlightStep(v, a);
      ApartUntil(v, a);
      forall after | NeverOverlaps(w, after) ensures Follows(Exec(w, after)) {
        ApartRun(w, after);
      }
    }
  }

  /** The step itself, announcing or not, leaves the log a prefix. */
  lemma ApartUntil(v: Venue, a: Action)
    requires TradesInv(v) && OneInFlight(v) && Follows(v)
    ensures Follows(Apply(v, a))
  {
    OneInFlightNeverOvertakes(v, a);
    OrderStep(v, a);
  }

  /** A whole send while another is between its announce and its record, which follows. */
  lemma SendOverUnrecorded(v: Venue, s: Send, y: OrderRequest)
    requires v.flags == EVERYTHING_ON && v.sends == map[0 := s] && s.phase.Announced? && s.tradeNo < v.nextTradeId
    requires v.trades == [] && v.tradeEvents == [TradeOf(s)]
    ensures var w := Apply(SendNow(v, y), StepSend(0));
            && 0 in SendNow(v, y).sends
            && w.sends == map[] && |w.trades| == |w.tradeEvents| == 2
            && w.trades[0] == w.tradeEvents[1] && w.trades[1] == w.tradeEvents[0] && w.trades != w.tradeEvents
  {
    var t := NewTrade(y, IdFor(v, y), v.nextTradeId);
    assert t != TradeOf(s) by { TradeIdsDiffer(s.tradeNo, v.nextTradeId); }
    hide NewTrade, NewOrder, FillOrder, TradeOf;
    var u := SendNow(v, y);
    assert u.trades == [t] && u.tradeEvents == [TradeOf(s), t] && u.sends == v.sends;
    hide SendNow;
    var w := RecordStep(u, 0, s);
    assert w.trades == [t, TradeOf(s)];
  }

  /**
   * Two sends side by side whose callbacks do nothing: the second is announced
   * while the first is unrecorded, and is recorded first.
   */
  lemma OverlappingSendsReorderLog(x: OrderRequest, y: OrderRequest)
    ensures var run := [Configure(EVERYTHING_ON)] + ([StartSend(0, x)] + Steps(0, 3) + Steps(0, 3))
                       + SendAlone(1, y) + [StepSend(0)];
            var w := Exec(INITIAL, run);
            && w.sends == map[] && |w.trades| == |w.tradeEvents| == 2
            && w.trades[0] == w.tradeEvents[1] && w.trades[1] == w.tradeEvents[0] && w.trades != w.tradeEvents
  {
    var on := [Configure(EVERYTHING_ON)];
    var v := INITIAL.(flags := EVERYTHING_ON);
    assert Exec(INITIAL, on) == Exec(v, []);
    NothingYet(v);
    hide Exec, Steps, SendAlone, SendNow, NewOrder, NewTrade;
    var send := [StartSend(0, x)] + Steps(0, 3);
    var v1 := RunAccept(v, 0, x);
    var v2 := RunAnnounce(v1, 0);
    ExecConcat(v, send, Steps(0, 3));
    ExecConcat(INITIAL, on, send + Steps(0, 3));
    SendAloneIsSendNow(v2, 1, y);
    ExecConcat(INITIAL, on + (send + Steps(0, 3)), SendAlone(1, y));
    SendOverUnrecorded(v2, v2.sends[0], y);
    ExecThen(INITIAL, on + (send + Steps(0, 3)) + SendAlone(1, y), StepSend(0));
  }
}
