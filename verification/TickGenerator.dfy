// The ticks the mock quote thread generates: a random walk shared by all
// instruments, and a book built around it. Prices are exact reals and the draws
// are arbitrary numbers of [-0.5, 0.5).
module TickGenerator {

  datatype MarketTick = MarketTick(
    instrument: string,
    lastPrice: real,
    bidPrice: seq<real>,
    bidVolume: seq<int>,
    askPrice: seq<real>,
    askVolume: seq<int>,
    volume: int,
    turnover: real,
    avgPrice: real,
    openInterest: int,
    openPrice: real,
    highPrice: real,
    lowPrice: real,
    preClosePrice: real)

  /** One tick to generate: its instrument and the number drawn for it. */
  datatype Draw = Draw(instrument: string, step: real)

  const START_PRICE := 100.0

  ghost predicate InRange(draws: seq<Draw>) {
    forall d :: d in draws ==> -0.5 <= d.step < 0.5
  }

  /** The price after all the draws. */
  function Price(draws: seq<Draw>): real {
    if draws == [] then START_PRICE else Price(draws[..|draws| - 1]) + draws[|draws| - 1].step
  }

  /** The price of the n-th tick. */
  function PriceAt(draws: seq<Draw>, n: nat): real
    requires n < |draws|
  {
    Price(draws[..n + 1])
  }

  /** The draws of all sweeps, in the order they are made. */
  function Flatten(sweeps: seq<seq<Draw>>): seq<Draw> {
    if sweeps == [] then [] else Flatten(sweeps[..|sweeps| - 1]) + sweeps[|sweeps| - 1]
  }

  /** A two-sided book around last: symmetric, level i is 0.4 * (i + 1) wide and twice 100 + 50 * i deep. */
  ghost predicate BookAround(t: MarketTick, depth: nat) {
    && |t.bidPrice| == |t.askPrice| == |t.bidVolume| == |t.askVolume| == depth
    && (forall i :: 0 <= i < depth ==>
          && t.askPrice[i] - t.bidPrice[i] == 0.4 * ((i + 1) as real)
          && t.askPrice[i] - t.lastPrice == t.lastPrice - t.bidPrice[i]
          && t.bidVolume[i] == t.askVolume[i] == 100 + 50 * i)
  }

  ghost predicate DayPrices(t: MarketTick) {
    && t.volume == 1000 && t.openInterest == 50000
    && t.turnover == t.lastPrice * 1000.0 && t.avgPrice == t.lastPrice
    && t.openPrice == t.lastPrice - 1.0 && t.preClosePrice == t.lastPrice - 0.5
    && t.highPrice == t.lastPrice + 2.0 && t.lowPrice == t.lastPrice - 2.0
  }

  /** The book of one tick, level by level in two buffers a side. */
  method FillBook(last: real, depth: nat)
    returns (bids: array<real>, bidVolumes: array<int>, asks: array<real>, askVolumes: array<int>)
    ensures fresh(bids) && fresh(asks) && fresh(bidVolumes) && fresh(askVolumes)
    ensures bids.Length == asks.Length == bidVolumes.Length == askVolumes.Length == depth
    ensures forall i :: 0 <= i < depth ==>
              && asks[i] - bids[i] == 0.4 * ((i + 1) as real)
              && asks[i] - last == last - bids[i]
              && bidVolumes[i] == askVolumes[i] == 100 + 50 * i
  {
    bids, asks := new real[depth], new real[depth];
    bidVolumes, askVolumes := new int[depth], new int[depth];
    var i := 0;
    while i < depth
      invariant 0 <= i <= depth
      invariant forall k :: 0 <= k < i ==>
                  && asks[k] - bids[k] == 0.4 * ((k + 1) as real)
                  && asks[k] - last == last - bids[k]
                  && bidVolumes[k] == askVolumes[k] == 100 + 50 * k
    {
      bids[i] := last - 0.2 * ((i + 1) as real);
      bidVolumes[i] := 100 + i * 50;
      asks[i] := last + 0.2 * ((i + 1) as real);
      askVolumes[i] := 100 + i * 50;
      i := i + 1;
    }
  }

  /**
   * The tick loop over the given sweeps: the other thread decides how many there
   * are and which instruments each covers. The n-th tick carries the n-th
   * instrument and the price after n draws, with a book and day prices around it.
   */
  method GenerateMockTicks(sweeps: seq<seq<Draw>>, depth: nat) returns (ticks: seq<MarketTick>)
    ensures |ticks| == |Flatten(sweeps)|
    ensures forall n :: 0 <= n < |ticks| ==>
              && ticks[n].instrument == Flatten(sweeps)[n].instrument
              && ticks[n].lastPrice == PriceAt(Flatten(sweeps), n)
              && BookAround(ticks[n], depth) && DayPrices(ticks[n])
  {
    hide Price, Flatten;
    NothingFlattened(sweeps);
    ticks := [];
    var basePrice := START_PRICE;
    var k := 0;
    while k < |sweeps|
      invariant 0 <= k <= |sweeps|
      invariant basePrice == Price(Flatten(sweeps[..k]))
      invariant Generated(ticks, Flatten(sweeps[..k]), depth)
    {
      var sweep := sweeps[k];
      ghost var done := Flatten(sweeps[..k]);
      assert done + sweep[..0] == done;
      var j := 0;
      while j < |sweep|
        invariant 0 <= j <= |sweep|
        invariant basePrice == Price(done + sweep[..j])
        invariant Generated(ticks, done + sweep[..j], depth)
      {
        PriceAppend(done + sweep[..j], sweep[j]);
        assert done + sweep[..j + 1] == done + sweep[..j] + [sweep[j]];
        basePrice := basePrice + sweep[j].step;
        var bids, bidVolumes, asks, askVolumes := FillBook(basePrice, depth);
        var tick := MarketTick(sweep[j].instrument, basePrice, bids[..], bidVolumes[..], asks[..], askVolumes[..],
                               1000, basePrice * (1000 as real), basePrice, 50000,
                               basePrice - 1.0, basePrice + 2.0, basePrice - 2.0, basePrice - 0.5);
        assert BookAround(tick, depth) && DayPrices(tick);
        GeneratedAppend(ticks, done + sweep[..j], sweep[j], tick, depth);
        ticks := ticks + [tick];
        j := j + 1;
      }
      assert sweep[..j] == sweep;
      FlattenAppend(sweeps, k);
      k := k + 1;
    }
    assert sweeps[..k] == sweeps;
  }

  /** The ticks of the given draws, as GenerateMockTicks promises them. */
  ghost predicate Generated(ticks: seq<MarketTick>, draws: seq<Draw>, depth: nat) {
    && |ticks| == |draws|
    && forall n :: 0 <= n < |ticks| ==>
         && ticks[n].instrument == draws[n].instrument
         && ticks[n].lastPrice == PriceAt(draws, n)
         && BookAround(ticks[n], depth) && DayPrices(ticks[n])
  }

  lemma NothingFlattened(sweeps: seq<seq<Draw>>)
    ensures Flatten(sweeps[..0]) == [] && Price([]) == START_PRICE
  {
  }

  lemma PriceAppend(draws: seq<Draw>, d: Draw)
    ensures Price(draws + [d]) == Price(draws) + d.step
  {
  }

  lemma GeneratedAppend(ticks: seq<MarketTick>, draws: seq<Draw>, d: Draw, t: MarketTick, depth: nat)
    requires Generated(ticks, draws, depth)
    requires t.instrument == d.instrument && t.lastPrice == Price(draws + [d]) && BookAround(t, depth) && DayPrices(t)
    ensures Generated(ticks + [t], draws + [d], depth)
  {
    hide Price, BookAround, DayPrices;
    var more := ticks + [t];
    assert (draws + [d])[..|draws| + 1] == draws + [d];
    forall n | 0 <= n < |draws|
      ensures more[n].instrument == (draws + [d])[n].instrument && more[n].lastPrice == PriceAt(draws + [d], n)
    {
      assert (draws + [d])[..n + 1] == draws[..n + 1];
    }
  }

  lemma FlattenAppend(sweeps: seq<seq<Draw>>, k: nat)
    requires k < |sweeps|
    ensures Flatten(sweeps[..k + 1]) == Flatten(sweeps[..k]) + sweeps[k]
  {
    assert sweeps[..k + 1][..k] == sweeps[..k];
  }

  // ---- what the prices mean ----

  /** Bids fall strictly, asks rise strictly, and the last price lies strictly between them. */
  lemma BookIsOrdered(t: MarketTick, depth: nat)
    requires BookAround(t, depth)
    ensures forall i, j :: 0 <= i < j < depth ==> t.bidPrice[j] < t.bidPrice[i] && t.askPrice[i] < t.askPrice[j]
    ensures forall i :: 0 <= i < depth ==> t.bidPrice[i] < t.lastPrice < t.askPrice[i]
  {
  }

  /** Level i stands 0.2 (i + 1) off the last price on either side. */
  lemma BookLevels(t: MarketTick, depth: nat, i: nat)
    requires BookAround(t, depth) && i < depth
    ensures t.bidPrice[i] == t.lastPrice - 0.2 * ((i + 1) as real)
    ensures t.askPrice[i] == t.lastPrice + 0.2 * ((i + 1) as real)
  {
  }

  function Sum(xs: seq<int>): int {
    if xs == [] then 0 else Sum(xs[..|xs| - 1]) + xs[|xs| - 1]
  }

  /** Each side of a book of n levels offers 75 n + 25 n^2 in all. */
  lemma {:induction false} BookOffers(t: MarketTick, depth: nat, n: nat)
    requires BookAround(t, depth) && n <= depth
    ensures Sum(t.bidVolume[..n]) == Sum(t.askVolume[..n]) == 75 * n + 25 * n * n
  {
    if n > 0 {
      BookOffers(t, depth, n - 1);
      assert t.bidVolume[..n][..n - 1] == t.bidVolume[..n - 1];
      assert t.askVolume[..n][..n - 1] == t.askVolume[..n - 1];
      assert 25 * n * n == 25 * (n - 1) * (n - 1) + 50 * n - 25;
    }
  }

  /** A tick's day prices lie in order around its last price, and its turnover is its volume at the average price. */
  lemma DayPricesAreOrdered(t: MarketTick)
    requires DayPrices(t)
    ensures t.lowPrice < t.openPrice < t.preClosePrice < t.lastPrice == t.avgPrice < t.highPrice
    ensures t.turnover == t.avgPrice * (t.volume as real) && t.highPrice + t.lowPrice == 2.0 * t.lastPrice
    ensures t.highPrice - t.lowPrice == 4.0 && t.preClosePrice + t.preClosePrice == t.openPrice + t.lastPrice
  {
  }

  /** How many draws the first k sweeps make. */
  function Before(sweeps: seq<seq<Draw>>, k: nat): nat
    requires k <= |sweeps|
  {
    if k == 0 then 0 else Before(sweeps, k - 1) + |sweeps[k - 1]|
  }

  /** The j-th draw of the k-th sweep comes after those of the sweeps before it and the j before it in its own. */
  lemma {:induction false} PlaceOfDraw(sweeps: seq<seq<Draw>>, k: nat, j: nat)
    requires k < |sweeps| && j < |sweeps[k]|
    ensures Before(sweeps, k) + j < |Flatten(sweeps)| && Flatten(sweeps)[Before(sweeps, k) + j] == sweeps[k][j]
    decreases |sweeps|
  {
    var n := |sweeps| - 1;
    LengthOfFlatten(sweeps, n);
    if k < n {
      PlaceOfDraw(sweeps[..n], k, j);
      BeforeInPrefix(sweeps, n, k);
    }
  }

  lemma {:induction false} LengthOfFlatten(sweeps: seq<seq<Draw>>, n: nat)
    requires n <= |sweeps|
    ensures |Flatten(sweeps[..n])| == Before(sweeps, n)
  {
    if n > 0 {
      LengthOfFlatten(sweeps, n - 1);
      assert sweeps[..n][..n - 1] == sweeps[..n - 1];
    }
  }

  lemma {:induction false} BeforeInPrefix(sweeps: seq<seq<Draw>>, n: nat, k: nat)
    requires k <= n <= |sweeps|
    ensures Before(sweeps[..n], k) == Before(sweeps, k)
  {
    if k > 0 {
      BeforeInPrefix(sweeps, n, k - 1);
    }
  }

  /** The walk starts at 100 and moves from tick to tick by just the number drawn. */
  lemma WalkFromDrawToDraw(draws: seq<Draw>, n: nat)
    requires n < |draws|
    ensures PriceAt(draws, n) == (if n == 0 then 100.0 else PriceAt(draws, n - 1)) + draws[n].step
  {
    PriceAppend(draws[..n], draws[n]);
    assert draws[..n + 1] == draws[..n] + [draws[n]];
    if n == 0 {
      assert draws[..0] == [];
    }
  }

  /** After n draws the price is within n/2 of 100, and strictly below the upper end once n > 0. */
  lemma {:induction false} PriceStaysNear(draws: seq<Draw>)
    requires InRange(draws)
    ensures 100.0 - 0.5 * (|draws| as real) <= Price(draws) <= 100.0 + 0.5 * (|draws| as real)
    ensures draws != [] ==> Price(draws) < 100.0 + 0.5 * (|draws| as real)
  {
    if draws != [] {
      assert draws[|draws| - 1] in draws;
      PriceStaysNear(draws[..|draws| - 1]);
    }
  }

  /** The lowest bid of a book of the given depth. */
  function LowestBid(last: real, depth: nat): real {
    last - 0.2 * (depth as real)
  }

  /** The worst walk: every draw is the lowest one possible. */
  function Falling(n: nat): seq<Draw> {
    if n == 0 then [] else Falling(n - 1) + [Draw("", -0.5)]
  }

  lemma {:induction false} FallingInRange(n: nat)
    ensures InRange(Falling(n)) && |Falling(n)| == n
  {
    if n > 0 {
      FallingInRange(n - 1);
    }
  }

  lemma {:induction false} FallingWalk(n: nat)
    ensures Price(Falling(n)) == START_PRICE - 0.5 * (n as real)
  {
    if n > 0 {
      FallingWalk(n - 1);
      PriceAppend(Falling(n - 1), Draw("", -0.5));
      hide Price;
    }
  }

  /** The bids of a tick are all positive exactly when the lowest one is. */
  lemma LowestBidDecides(t: MarketTick, depth: nat)
    requires BookAround(t, depth) && 0 < depth
    ensures (forall i :: 0 <= i < depth ==> 0.0 < t.bidPrice[i]) <==> 0.0 < LowestBid(t.lastPrice, depth)
  {
    forall i | 0 <= i < depth
      ensures t.bidPrice[i] == t.lastPrice - 0.2 * ((i + 1) as real)
    {
    }
    assert t.bidPrice[depth - 1] == LowestBid(t.lastPrice, depth);
    assert forall i :: 0 <= i < depth ==> t.bidPrice[depth - 1] <= t.bidPrice[i];
  }

  /** A tick as the generator makes it after the draws. */
  ghost predicate TickAfter(t: MarketTick, draws: seq<Draw>, depth: nat) {
    t.lastPrice == Price(draws) && BookAround(t, depth)
  }

  ghost predicate BidsPositive(t: MarketTick, depth: nat)
    requires BookAround(t, depth)
  {
    forall i :: 0 <= i < depth ==> 0.0 < t.bidPrice[i]
  }

  /** Some tick with a book around the price. */
  function TickAt(last: real, depth: nat): (t: MarketTick)
    ensures t.lastPrice == last && BookAround(t, depth)
  {
    MarketTick("", last,
               seq(depth, i => last - 0.2 * ((i + 1) as real)), seq(depth, i => 100 + 50 * i),
               seq(depth, i => last + 0.2 * ((i + 1) as real)), seq(depth, i => 100 + 50 * i),
               0, 0.0, 0.0, 0, 0.0, 0.0, 0.0, 0.0)
  }

  /**
   * Whatever is drawn, all bids of the tick made after n draws are positive, if
   * and only if the book has no levels or n/2 + 0.2 * depth stays below the start price.
   */
  lemma BidsStayPositiveExact(n: nat, depth: nat)
    ensures (forall draws, t :: InRange(draws) && |draws| == n && TickAfter(t, draws, depth) ==> BidsPositive(t, depth))
       <==> depth == 0 || 0.5 * (n as real) + 0.2 * (depth as real) < 100.0
  {
    if depth != 0 && !(0.5 * (n as real) + 0.2 * (depth as real) < START_PRICE) {
      FallingInRange(n);
      FallingWalk(n);
      var t := TickAt(Price(Falling(n)), depth);
      LowestBidDecides(t, depth);
      assert TickAfter(t, Falling(n), depth) && !BidsPositive(t, depth);
    } else {
      forall draws, t | InRange(draws) && |draws| == n && TickAfter(t, draws, depth) ensures BidsPositive(t, depth) {
        PriceStaysNear(draws);
        if depth != 0 {
          LowestBidDecides(t, depth);
        }
      }
    }
  }
}
