// What a client sees of calls nested in callbacks: the trades it is told of
// against the trades the log holds.
module VenueObserved {
  import opened VenueTypes
  import opened TradeIds
  import opened VenueMachine
  import opened VenueSequential
  import opened VenueTrades
  import opened VenueLogOrder
  import opened VenueFills
  import opened VenueReentry

  /** What running nested calls does to the counter, the log and the trade callback. */
  ghost predicate Ran(v: Venue, r: Outcome) {
    && NumberedFrom(r.fills, v.nextTradeId)
    && r.after.nextTradeId == v.nextTradeId + Count(r.fills)
    && r.after.tradeEvents == v.tradeEvents + Trades(InOrder(r.fills))
    && r.after.trades == v.trades + Trades(PostOrder(r.fills))
  }

  lemma NothingRan(v: Venue)
    ensures Ran(v, Outcome(v, NoFills))
  {
    assert Trades([]) == [];
  }

  ghost predicate SameTrading(v: Venue, w: Venue) {
    w.nextTradeId == v.nextTradeId && w.trades == v.trades && w.tradeEvents == v.tradeEvents
  }

  lemma RanFromSame(v: Venue, w: Venue, r: Outcome)
    requires Ran(w, r) && SameTrading(v, w)
    ensures Ran(v, r)
  {
  }

  /** Two runs one after the other, the first around a call that does not fill. */
  lemma RanUnfilled(v: Venue, first: Outcome, second: Outcome)
    requires Ran(v, first) && Ran(first.after, second)
    ensures Ran(v, Outcome(second.after, Unfilled(first.fills, second.fills)))
  {
    hide Count, FillTrade;
    CountUnfilled(first.fills, second.fills);
    TradesConcat(InOrder(first.fills), InOrder(second.fills));
    TradesConcat(PostOrder(first.fills), PostOrder(second.fills));
  }

  lemma CountUnfilled(a: Fills, b: Fills)
    ensures Count(Unfilled(a, b)) == Count(a) + Count(b)
  {
  }

  /** A fill after what its order callback ran, around what its trade callback runs, before the rest. */
  lemma RanFilled(v: Venue, told: Outcome, fill: Fill, seen: Outcome, next: Outcome)
    requires Ran(v, told) && fill.tradeNo == told.after.nextTradeId
    requires Ran(AnnounceNow(told.after, FillTrade(fill)), seen)
    requires Ran(RecordNow(seen.after, FillTrade(fill)), next)
    ensures Ran(v, Outcome(next.after, Own(fill, told.fills, seen.fills, next.fills)))
  {
    hide FillTrade, FillOrder;
    var i, j, k := InOrder(told.fills), InOrder(seen.fills), InOrder(next.fills);
    var p, q, r := PostOrder(told.fills), PostOrder(seen.fills), PostOrder(next.fills);
    assert Trades([fill]) == [FillTrade(fill)];
    TradesOfTree(i, [fill], j, k);
    TradesOfTree(p, q, [fill], r);
    Regroup(v.tradeEvents, Trades(i), [FillTrade(fill)], Trades(j), Trades(k));
    Regroup(v.trades, Trades(p), [FillTrade(fill)], Trades(q), Trades(r));
  }

  lemma TradesOfTree(a: seq<Fill>, b: seq<Fill>, c: seq<Fill>, d: seq<Fill>)
    ensures Trades((a + (b + c)) + d) == (Trades(a) + (Trades(b) + Trades(c))) + Trades(d)
  {
  }

  lemma Regroup<T>(v: seq<T>, a: seq<T>, b: seq<T>, c: seq<T>, d: seq<T>)
    ensures v + ((a + (b + c)) + d) == v + a + b + c + d
    ensures v + ((a + (c + b)) + d) == v + a + c + b + d
  {
  }

  lemma {:induction false} NestedTraverses(v: Venue, called: bool, u: Venue, f: Forest)
    requires SameTrading(v, u)
    ensures Ran(v, Nested(called, u, f))
    decreases f, 1
  {
    if called {
      EvalTraverses(u, f);
    } else {
      NothingRan(u);
    }
    RanFromSame(v, u, Nested(called, u, f));
  }

  /** The callback sees the in-order traversal of the fills, numbered as it goes; the log gets the post-order one. */
  lemma {:induction false} EvalTraverses(v: Venue, f: Forest)
    ensures Ran(v, Eval(v, f))
    decreases f, 0
  {
    hide Ran, Fillable, RecordNow, AnnounceNow;
    match f
    case Leaf => NothingRan(v);
    case Setting(flags, rest) =>
      EvalTraverses(v.(flags := flags), rest);
      RanFromSame(v, v.(flags := flags), Eval(v, f));
    case CancelTree(req, o, rest) =>
      NestedTraverses(v, CancelNotifies(v, req), CancelNow(v, req), o);
      var told := Nested(CancelNotifies(v, req), CancelNow(v, req), o);
      EvalTraverses(told.after, rest);
      RanUnfilled(v, told, Eval(told.after, rest));
    case Tree(req, o, t, rest) =>
      if !v.flags.connected {
        EvalTraverses(v, rest);
      } else {
        NestedTraverses(v, v.flags.onOrder, AcceptNow(v, req), o);
        var told := Nested(v.flags.onOrder, AcceptNow(v, req), o);
        if !Fillable(told.after) {
          EvalTraverses(told.after, rest);
          RanUnfilled(v, told, Eval(told.after, rest));
        } else {
          var fill := Fill(req, IdFor(v, req), told.after.nextTradeId);
          var seen := Eval(AnnounceNow(told.after, FillTrade(fill)), t);
          EvalTraverses(AnnounceNow(told.after, FillTrade(fill)), t);
          EvalTraverses(RecordNow(seen.after, FillTrade(fill)), rest);
          RanFilled(v, told, fill, seen, Eval(RecordNow(seen.after, FillTrade(fill)), rest));
        }
      }
  }

  lemma AppendCancels(base: seq<Trade>, a: seq<Trade>, b: seq<Trade>)
    requires base + a == base + b
    ensures a == b
  {
    assert a == (base + a)[|base|..] && b == (base + b)[|base|..];
  }

  /**
   * What a client observes of calls nested in callbacks, cancels and changed
   * settings among them: the callback receives the trades with consecutive
   * numbers, the log gains a permutation of them, and it gains them in the
   * announced order if and only if no trade callback contains a send that fills.
   */
  lemma ReentrantRunObserved(v: Venue, f: Forest, c: nat, announced: seq<Trade>, recorded: seq<Trade>)
    requires FreeFrom(v, c)
    requires Exec(v, Schedule(v, f, c)).tradeEvents == v.tradeEvents + announced
    requires Exec(v, Schedule(v, f, c)).trades == v.trades + recorded
    ensures forall i :: 0 <= i < |announced| ==> announced[i].tradeId == TradeId(v.nextTradeId + i)
    ensures multiset(announced) == multiset(recorded)
    ensures announced == recorded <==> NoneNested(Eval(Core(v), f).fills)
  {
    hide Exec, Schedule, Eval;
    ForestRuns(v, f, c);
    EvalTraverses(Core(v), f);
    var fs := Eval(Core(v), f).fills;
    AppendCancels(v.tradeEvents, announced, Trades(InOrder(fs)));
    AppendCancels(v.trades, recorded, Trades(PostOrder(fs)));
    CountIsLength(fs);
    TradesOfTraversals(fs, v.nextTradeId);
  }

  /**
   * On one thread the only way a record overtakes an earlier announce is a send
   * that fills inside a trade callback.
   */
  lemma NestingIsOvertaking(v: Venue, f: Forest, c: nat)
    requires TradesInv(v) && v.trades == v.tradeEvents && FreeFrom(v, c)
    ensures NeverOvertakes(v, Schedule(v, f, c)) <==> NoneNested(Eval(Core(v), f).fills)
  {
    hide TradesInv, Exec, Schedule, Eval, NeverOvertakes;
    OrderRun(v, Schedule(v, f, c));
    ForestRuns(v, f, c);
    EvalTraverses(Core(v), f);
    var fs := Eval(Core(v), f).fills;
    var a, b := Trades(InOrder(fs)), Trades(PostOrder(fs));
    CountIsLength(fs);
    TradesOfTraversals(fs, v.nextTradeId);
    if v.trades + b <= v.trades + a {
      AppendCancels(v.trades, a, b);
    }
  }

  // ---- telling from the calls whether a trade callback fills ----

  /** No send anywhere in the calls. */
  predicate NoSends(f: Forest) {
    match f
    case Leaf => true
    case Setting(_, rest) => NoSends(rest)
    case CancelTree(_, o, rest) => NoSends(o) && NoSends(rest)
    case Tree(_, _, _, _) => false
  }

  /** No trade callback sends, whether or not it is reached. */
  predicate TradeCallbacksDoNotSend(f: Forest) {
    match f
    case Leaf => true
    case Setting(_, rest) => TradeCallbacksDoNotSend(rest)
    case CancelTree(_, o, rest) => TradeCallbacksDoNotSend(o) && TradeCallbacksDoNotSend(rest)
    case Tree(_, o, t, rest) => NoSends(t) && TradeCallbacksDoNotSend(o) && TradeCallbacksDoNotSend(rest)
  }

  lemma {:induction false} NoSendsNoFills(v: Venue, f: Forest)
    requires NoSends(f)
    ensures Count(Eval(v, f).fills) == 0
    decreases f
  {
    hide CancelNow;
    match f
    case Leaf =>
    case Setting(flags, rest) => NoSendsNoFills(v.(flags := flags), rest);
    case CancelTree(req, o, rest) =>
      NoSendsNoFills(CancelNow(v, req), o);
      NoSendsNoFills(Nested(CancelNotifies(v, req), CancelNow(v, req), o).after, rest);
  }

  /** Trade callbacks that do not send keep the log in the announced order, whatever else happens. */
  lemma {:induction false} QuietTradeCallbacksKeepOrder(v: Venue, f: Forest)
    requires TradeCallbacksDoNotSend(f)
    ensures NoneNested(Eval(v, f).fills)
    decreases f
  {
    hide CancelNow, AcceptNow, RecordNow, AnnounceNow, Fillable, FillTrade;
    match f
    case Leaf =>
    case Setting(flags, rest) => QuietTradeCallbacksKeepOrder(v.(flags := flags), rest);
    case CancelTree(req, o, rest) =>
      QuietTradeCallbacksKeepOrder(CancelNow(v, req), o);
      QuietTradeCallbacksKeepOrder(Nested(CancelNotifies(v, req), CancelNow(v, req), o).after, rest);
    case Tree(req, o, t, rest) =>
      QuietTradeCallbacksKeepOrder(v, rest);
      QuietTradeCallbacksKeepOrder(AcceptNow(v, req), o);
      var told := Nested(v.flags.onOrder, AcceptNow(v, req), o).after;
      QuietTradeCallbacksKeepOrder(told, rest);
      var trade := FillTrade(Fill(req, IdFor(v, req), told.nextTradeId));
      NoSendsNoFills(AnnounceNow(told, trade), t);
      QuietTradeCallbacksKeepOrder(RecordNow(Eval(AnnounceNow(told, trade), t).after, trade), rest);
  }

  /** Nothing but sends. */
  predicate SendsOnly(f: Forest) {
    match f
    case Leaf => true
    case Tree(_, o, t, rest) => SendsOnly(o) && SendsOnly(t) && SendsOnly(rest)
    case _ => false
  }

  /** No trade callback that is reached sends. */
  predicate NoneSendsNested(f: Forest, onOrder: bool)
    requires SendsOnly(f)
  {
    match f
    case Leaf => true
    case Tree(_, o, t, rest) =>
      t.Leaf? && (onOrder ==> NoneSendsNested(o, onOrder)) && NoneSendsNested(rest, onOrder)
  }

  lemma {:induction false} SendsKeepFlags(v: Venue, f: Forest)
    requires SendsOnly(f)
    ensures Eval(v, f).after.flags == v.flags
    ensures v.flags.connected && Fillable(v) ==> (Count(Eval(v, f).fills) == 0 <==> f.Leaf?)
    decreases f
  {
    hide FillTrade, NewOrder, FillOrder;
    match f
    case Leaf =>
    case Tree(req, o, t, rest) =>
      SendsKeepFlags(v, rest);
      SendsKeepFlags(AcceptNow(v, req), o);
      var told := Nested(v.flags.onOrder, AcceptNow(v, req), o).after;
      SendsKeepFlags(told, rest);
      var trade := FillTrade(Fill(req, IdFor(v, req), told.nextTradeId));
      SendsKeepFlags(AnnounceNow(told, trade), t);
      SendsKeepFlags(RecordNow(Eval(AnnounceNow(told, trade), t).after, trade), rest);
  }

  /** With nothing but sends and auto fill on: no trade callback contains a fill exactly when none reached sends. */
  lemma {:induction false} NestedSendsExact(v: Venue, f: Forest)
    requires SendsOnly(f) && v.flags.connected && Fillable(v)
    ensures NoneNested(Eval(v, f).fills) <==> NoneSendsNested(f, v.flags.onOrder)
    decreases f
  {
    hide FillTrade, NewOrder, FillOrder;
    match f
    case Leaf =>
    case Tree(req, o, t, rest) =>
      NestedSendsExact(AcceptNow(v, req), o);
      SendsKeepFlags(AcceptNow(v, req), o);
      var told := Nested(v.flags.onOrder, AcceptNow(v, req), o).after;
      var trade := FillTrade(Fill(req, IdFor(v, req), told.nextTradeId));
      var seen := AnnounceNow(told, trade);
      SendsKeepFlags(seen, t);
      NestedSendsExact(RecordNow(Eval(seen, t).after, trade), rest);
  }

  const ONLY_TRADES := Flags(true, true, false, true)

  /** One send on its own in a venue with auto fill on. */
  lemma OneSend(v: Venue, b: OrderRequest)
    requires v.flags.connected && !v.flags.onOrder
    ensures var fill := Fill(b, IdFor(v, b), v.nextTradeId);
            var fills := if Fillable(v) then Own(fill, NoFills, NoFills, NoFills) else Unfilled(NoFills, NoFills);
            Eval(v, Tree(b, Leaf, Leaf, Leaf)).fills == fills
  {
    hide NewOrder, FillOrder, FillTrade;
    assert Fillable(AcceptNow(v, b)) == Fillable(v);
  }

  lemma OneSendAround(v: Venue, a: OrderRequest, calls: Forest)
    requires v.flags == ONLY_TRADES
    ensures var fill := Fill(a, IdFor(v, a), v.nextTradeId);
            var seen := Eval(AnnounceNow(AcceptNow(v, a), FillTrade(fill)), calls);
            Eval(v, Tree(a, Leaf, calls, Leaf)).fills == Own(fill, NoFills, seen.fills, NoFills)
  {
    hide NewOrder, FillOrder, FillTrade;
  }

  /** A trade callback that sends again: the inner trade is announced last and logged first. */
  lemma NestedSendReordersLog(a: OrderRequest, b: OrderRequest)
    ensures var v := INITIAL.(flags := ONLY_TRADES);
            var w := Exec(v, Schedule(v, Tree(a, Leaf, Tree(b, Leaf, Leaf, Leaf), Leaf), 0));
            && w.sends == map[] && |w.trades| == |w.tradeEvents| == 2
            && w.trades[0] == w.tradeEvents[1] && w.trades[1] == w.tradeEvents[0] && w.trades != w.tradeEvents
  {
    var v := INITIAL.(flags := ONLY_TRADES);
    var f := Tree(a, Leaf, Tree(b, Leaf, Leaf, Leaf), Leaf);
    var x := Fill(a, IdFor(v, a), 1);
    var u := AnnounceNow(AcceptNow(v, a), FillTrade(x));
    var y := Fill(b, IdFor(u, b), 2);
    OneSendAround(v, a, f.inTrade);
    OneSend(u, b);
    ForestRuns(v, f, 0);
    EvalTraverses(v, f);
    hide Exec, Schedule, Eval, FillTrade;
    var fs := Eval(v, f).fills;
    assert fs == Own(x, NoFills, Own(y, NoFills, NoFills, NoFills), NoFills);
    assert InOrder(fs) == [x, y] && PostOrder(fs) == [y, x];
    TradeNumbersTellApart(x, y);
  }

  lemma TradeNumbersTellApart(x: Fill, y: Fill)
    requires x.tradeNo != y.tradeNo
    ensures FillTrade(x) != FillTrade(y)
  {
    TradeIdsDiffer(x.tradeNo, y.tradeNo);
  }

  /** A trade callback that switches auto fill off and then sends: the orders agree all the same. */
  lemma UnfilledNestedSendKeepsOrder(a: OrderRequest, b: OrderRequest)
    ensures var v := INITIAL.(flags := ONLY_TRADES);
            var calls := Setting(ONLY_TRADES.(autoFill := false), Tree(b, Leaf, Leaf, Leaf));
            var w := Exec(v, Schedule(v, Tree(a, Leaf, calls, Leaf), 0));
            && !TradeCallbacksDoNotSend(Tree(a, Leaf, calls, Leaf))
            && w.sends == map[] && w.trades == w.tradeEvents && |w.trades| == 1
  {
    var v := INITIAL.(flags := ONLY_TRADES);
    var calls := Setting(ONLY_TRADES.(autoFill := false), Tree(b, Leaf, Leaf, Leaf));
    var f := Tree(a, Leaf, calls, Leaf);
    var x := Fill(a, IdFor(v, a), 1);
    var u := AnnounceNow(AcceptNow(v, a), FillTrade(x)).(flags := calls.flags);
    OneSendAround(v, a, calls);
    OneSend(u, b);
    ForestRuns(v, f, 0);
    EvalTraverses(v, f);
    assert !NoSends(calls.rest) && !TradeCallbacksDoNotSend(f);
    var fs := Eval(v, f).fills;
    assert fs == Own(x, NoFills, Unfilled(NoFills, NoFills), NoFills);
    hide Exec, Schedule, Eval, FillTrade;
    assert InOrder(fs) == [x] && PostOrder(fs) == [x];
  }
}
