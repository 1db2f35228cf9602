// The fills made by nested calls, as a tree: which order the trade callback sees
// them in, which order the log gets them in, and when the two orders agree.
module VenueFills {
  import opened VenueTypes
  import opened TradeIds
  import opened VenueMachine

  /** A send that has taken its broker id and its trade number. */
  datatype Fill = Fill(req: OrderRequest, id: nat, tradeNo: nat)

  /**
   * The fills of calls made one after the other. A call that is filled has fills
   * in its order callback and in its trade callback; one that is not, in its
   * order callback alone.
   */
  datatype Fills =
    | NoFills
    | Own(fill: Fill, inOrder: Fills, inTrade: Fills, rest: Fills)
    | Unfilled(inOrder: Fills, rest: Fills)

  function Count(fs: Fills): nat {
    match fs
    case NoFills => 0
    case Own(_, o, t, rest) => Count(o) + 1 + Count(t) + Count(rest)
    case Unfilled(o, rest) => Count(o) + Count(rest)
  }

  /** In-order traversal: fills of the order callback, the own fill, fills of the trade callback. */
  function InOrder(fs: Fills): seq<Fill> {
    match fs
    case NoFills => []
    case Own(own, o, t, rest) => (InOrder(o) + ([own] + InOrder(t))) + InOrder(rest)
    case Unfilled(o, rest) => InOrder(o) + InOrder(rest)
  }

  /** Post-order traversal: the own fill comes after everything nested in its send. */
  function PostOrder(fs: Fills): seq<Fill> {
    match fs
    case NoFills => []
    case Own(own, o, t, rest) => (PostOrder(o) + (PostOrder(t) + [own])) + PostOrder(rest)
    case Unfilled(o, rest) => PostOrder(o) + PostOrder(rest)
  }

  function FillTrade(x: Fill): Trade {
    NewTrade(x.req, x.id, x.tradeNo)
  }

  function Trades(fs: seq<Fill>): (ts: seq<Trade>)
    ensures |ts| == |fs|
    ensures forall i :: 0 <= i < |fs| ==> ts[i] == FillTrade(fs[i])
  {
    seq(|fs|, i requires 0 <= i < |fs| => FillTrade(fs[i]))
  }

  // ---- the two traversals compared ----

  lemma {:induction false} CountIsLength(fs: Fills)
    ensures |InOrder(fs)| == Count(fs) == |PostOrder(fs)|
  {
    match fs
    case NoFills =>
    case Own(own, o, t, rest) =>
      CountIsLength(o);
      CountIsLength(t);
      CountIsLength(rest);
    case Unfilled(o, rest) =>
      CountIsLength(o);
      CountIsLength(rest);
  }

  /** What is logged is a permutation of what is announced. */
  lemma {:induction false} LogIsPermutation(fs: Fills)
    ensures multiset(InOrder(fs)) == multiset(PostOrder(fs))
  {
    match fs
    case NoFills =>
    case Own(own, o, t, rest) =>
      LogIsPermutation(o);
      LogIsPermutation(t);
      LogIsPermutation(rest);
    case Unfilled(o, rest) =>
      LogIsPermutation(o);
      LogIsPermutation(rest);
  }

  /** Every fill is numbered from tid on by its in-order place. */
  ghost predicate NumberedFrom(fs: Fills, tid: nat) {
    match fs
    case NoFills => true
    case Own(own, o, t, rest) =>
      var tid1 := tid + Count(o);
      && own.tradeNo == tid1
      && NumberedFrom(o, tid)
      && NumberedFrom(t, tid1 + 1)
      && NumberedFrom(rest, tid1 + 1 + Count(t))
    case Unfilled(o, rest) => NumberedFrom(o, tid) && NumberedFrom(rest, tid + Count(o))
  }

  /** The fills carry the trade numbers from tid on, one after the other. */
  ghost predicate Consecutive(fs: seq<Fill>, tid: nat) {
    forall i :: 0 <= i < |fs| ==> fs[i].tradeNo == tid + i
  }

  lemma {:induction false} InOrderIsConsecutive(fs: Fills, tid: nat)
    requires NumberedFrom(fs, tid)
    ensures Consecutive(InOrder(fs), tid)
    decreases fs
  {
    match fs
    case NoFills =>
    case Own(own, o, t, rest) =>
      var tid1 := tid + Count(o);
      InOrderIsConsecutive(o, tid);
      InOrderIsConsecutive(t, tid1 + 1);
      InOrderIsConsecutive(rest, tid1 + 1 + Count(t));
      CountIsLength(o);
      CountIsLength(t);
    case Unfilled(o, rest) =>
      InOrderIsConsecutive(o, tid);
      InOrderIsConsecutive(rest, tid + Count(o));
      CountIsLength(o);
  }

  /** No trade callback contains a send that fills. */
  predicate NoneNested(fs: Fills) {
    match fs
    case NoFills => true
    case Own(_, o, t, rest) => Count(t) == 0 && NoneNested(o) && NoneNested(rest)
    case Unfilled(o, rest) => NoneNested(o) && NoneNested(rest)
  }

  lemma ConcatEqual(a: seq<Fill>, b: seq<Fill>, x: seq<Fill>, y: seq<Fill>)
    requires |a| == |x|
    ensures a + b == x + y <==> a == x && b == y
  {
    if a + b == x + y {
      assert a == (a + b)[..|a|] && x == (x + y)[..|a|];
      assert b == (a + b)[|a|..] && y == (x + y)[|a|..];
    }
  }

  /** The first fill logged from inside a trade callback is not the one being announced. */
  lemma NestedIsLoggedFirst(t: Fills, tid: nat, own: Fill)
    requires 0 < Count(t) && NumberedFrom(t, tid) && own.tradeNo + 1 == tid
    ensures [own] + InOrder(t) != PostOrder(t) + [own]
  {
    var seen, logged := InOrder(t), PostOrder(t);
    CountIsLength(t);
    InOrderIsConsecutive(t, tid);
    LogIsPermutation(t);
    assert logged[0] in multiset(logged);
    assert logged[0] in seen;
    assert (logged + [own])[0] == logged[0] && ([own] + seen)[0] == own;
  }

  /** The two orders agree if and only if no trade callback contains a send that fills. */
  lemma {:induction false} SameOrderExact(fs: Fills, tid: nat)
    requires NumberedFrom(fs, tid)
    ensures InOrder(fs) == PostOrder(fs) <==> NoneNested(fs)
    decreases fs
  {
    match fs
    case NoFills =>
    case Own(own, o, t, rest) =>
      var tid1 := tid + Count(o);
      SameOrderExact(o, tid);
      SameOrderExact(rest, tid1 + 1 + Count(t));
      CountIsLength(o);
      CountIsLength(t);
      ConcatEqual(InOrder(o), [own] + InOrder(t), PostOrder(o), PostOrder(t) + [own]);
      ConcatEqual(InOrder(o) + ([own] + InOrder(t)), InOrder(rest),
                  PostOrder(o) + (PostOrder(t) + [own]), PostOrder(rest));
      if 0 < Count(t) {
        NestedIsLoggedFirst(t, tid1 + 1, own);
      }
    case Unfilled(o, rest) =>
      SameOrderExact(o, tid);
      SameOrderExact(rest, tid + Count(o));
      CountIsLength(o);
      ConcatEqual(InOrder(o), InOrder(rest), PostOrder(o), PostOrder(rest));
  }

  // ---- the trades of the fills ----

  lemma TradesConcat(a: seq<Fill>, b: seq<Fill>)
    ensures Trades(a + b) == Trades(a) + Trades(b)
  {
  }

  lemma RemoveOne(b: seq<Fill>, j: nat)
    requires j < |b|
    ensures multiset(b[..j] + b[j + 1..]) == multiset(b) - multiset{b[j]}
    ensures multiset(Trades(b)) == multiset(Trades(b[..j] + b[j + 1..])) + multiset{FillTrade(b[j])}
  {
    hide FillTrade;
    assert b == b[..j] + ([b[j]] + b[j + 1..]);
    TradesConcat([b[j]], b[j + 1..]);
    TradesConcat(b[..j], [b[j]] + b[j + 1..]);
    TradesConcat(b[..j], b[j + 1..]);
    assert Trades([b[j]]) == [FillTrade(b[j])];
  }

  lemma {:induction false} TradesPermute(a: seq<Fill>, b: seq<Fill>)
    requires multiset(a) == multiset(b)
    ensures multiset(Trades(a)) == multiset(Trades(b))
    decreases |a|
  {
    hide FillTrade;
    if a == [] {
      assert |multiset(b)| == 0;
    } else {
      assert a[0] in multiset(b);
      var j :| 0 <= j < |b| && b[j] == a[0];
      RemoveOne(a, 0);
      RemoveOne(b, j);
      TradesPermute(a[..0] + a[1..], b[..j] + b[j + 1..]);
    }
  }

  /** Trade identifiers determine the fills, since no two fills of a run share a number. */
  lemma SameTradesSameFills(a: seq<Fill>, b: seq<Fill>, tid: nat)
    requires Consecutive(a, tid) && multiset(a) == multiset(b) && Trades(a) == Trades(b)
    ensures a == b
  {
    assert |a| == |multiset(a)| == |multiset(b)| == |b|;
    forall i | 0 <= i < |a| ensures a[i] == b[i] {
      assert b[i] in multiset(b);
      assert b[i] in a;
      var j :| 0 <= j < |a| && a[j] == b[i];
      assert Trades(a)[i].tradeId == Trades(b)[i].tradeId;
      TradeIdsDiffer(a[i].tradeNo, b[i].tradeNo);
    }
  }

  /** The trades logged permute those announced, and follow their order exactly when no fill is nested in a fill. */
  lemma TradesOfTraversals(fs: Fills, tid: nat)
    requires NumberedFrom(fs, tid)
    ensures forall i :: 0 <= i < Count(fs) ==>
              i < |InOrder(fs)| && Trades(InOrder(fs))[i].tradeId == TradeId(tid + i)
    ensures multiset(Trades(InOrder(fs))) == multiset(Trades(PostOrder(fs)))
    ensures Trades(InOrder(fs)) == Trades(PostOrder(fs)) <==> NoneNested(fs)
  {
    CountIsLength(fs);
    InOrderIsConsecutive(fs, tid);
    LogIsPermutation(fs);
    TradesPermute(InOrder(fs), PostOrder(fs));
    SameOrderExact(fs, tid);
    if Trades(InOrder(fs)) == Trades(PostOrder(fs)) {
      SameTradesSameFills(InOrder(fs), PostOrder(fs), tid);
    }
  }
}
