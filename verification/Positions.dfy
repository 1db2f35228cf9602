// The positions a client is shown, as a function of the trade log.
module Positions {
  import opened VenueTypes
  import opened Netting

  function Instruments(trades: seq<Trade>, filter: string): set<string> {
    set t | t in trades && (filter == "" || t.instrument == filter) :: t.instrument
  }

  /** The market of the last trade in the instrument. */
  function LastMarket(trades: seq<Trade>, instrument: string): int {
    if trades == [] then 0
    else
      var t := trades[|trades| - 1];
      if t.instrument == instrument then t.market else LastMarket(trades[..|trades| - 1], instrument)
  }

  function PositionOf(trades: seq<Trade>, instrument: string): Position {
    var net := NetVolume(trades, instrument);
    Position(instrument, LastMarket(trades, instrument), if net < 0 then Short else Long, if net < 0 then -net else net)
  }

  function PositionTable(trades: seq<Trade>, filter: string): map<string, Position> {
    map i | i in Instruments(trades, filter) :: PositionOf(trades, i)
  }

  /** The answer holds exactly the entries of the table, each once, in any order. */
  ghost predicate Answers(answer: seq<Position>, table: map<string, Position>) {
    && (forall i, j :: 0 <= i < j < |answer| ==> answer[i].instrument != answer[j].instrument)
    && (forall p :: p in answer <==> p.instrument in table && table[p.instrument] == p)
    && (forall i :: i in table ==> table[i].instrument == i)
  }

  /** The net volume an entry stands for. */
  function SignedVolume(p: Position): int {
    if p.direction.Short? then -p.totalVolume else p.totalVolume
  }

  function SignedTotal(answer: seq<Position>): int {
    if answer == [] then 0
    else SignedTotal(answer[..|answer| - 1]) + SignedVolume(answer[|answer| - 1])
  }

  /**
   * An answer has exactly one entry per traded instrument the filter admits, of
   * non-negative volume, whose direction and volume encode the net of the log.
   */
  lemma AnswerIsTheNet(answer: seq<Position>, trades: seq<Trade>, filter: string)
    requires Answers(answer, PositionTable(trades, filter))
    ensures forall p :: p in answer ==>
              && 0 <= p.totalVolume
              && (p.direction.Short? ==> 0 < p.totalVolume) && !p.direction.Net?
              && SignedVolume(p) == NetVolume(trades, p.instrument)
    ensures forall t :: t in trades && (filter == "" || t.instrument == filter) ==>
              exists p :: p in answer && p.instrument == t.instrument
    ensures forall p :: p in answer ==>
              exists t :: t in trades && (filter == "" || t.instrument == filter) && t.instrument == p.instrument
  {
    var table := PositionTable(trades, filter);
    forall t | t in trades && (filter == "" || t.instrument == filter)
      ensures exists p :: p in answer && p.instrument == t.instrument
    {
      assert t.instrument in table;
      assert table[t.instrument] in answer;
    }
    forall p | p in answer
      ensures exists t :: t in trades && (filter == "" || t.instrument == filter) && t.instrument == p.instrument
    {
      assert p.instrument in Instruments(trades, filter);
    }
  }

  // ---- the answer from what was bought and what was not ----

  /** The volume of the buys in the instrument. */
  function Bought(trades: seq<Trade>, instrument: string): int {
    if trades == [] then 0
    else
      var t := trades[|trades| - 1];
      Bought(trades[..|trades| - 1], instrument)
      + (if t.instrument == instrument && t.side == Buy then t.volume else 0)
  }

  /** The volume of all other trades in the instrument. */
  function NotBought(trades: seq<Trade>, instrument: string): int {
    if trades == [] then 0
    else
      var t := trades[|trades| - 1];
      NotBought(trades[..|trades| - 1], instrument)
      + (if t.instrument == instrument && t.side != Buy then t.volume else 0)
  }

  lemma {:induction false} NetOfBothSides(trades: seq<Trade>, instrument: string)
    ensures NetVolume(trades, instrument) == Bought(trades, instrument) - NotBought(trades, instrument)
  {
    if trades != [] {
      NetOfBothSides(trades[..|trades| - 1], instrument);
    }
  }

  /** What an entry says of its instrument: the larger side, by how much, and the market traded in last. */
  ghost predicate EntryOf(p: Position, trades: seq<Trade>) {
    var bought, sold := Bought(trades, p.instrument), NotBought(trades, p.instrument);
    && (p.direction == Short <==> bought < sold)
    && (p.direction == Long <==> sold <= bought)
    && p.totalVolume == (if bought < sold then sold - bought else bought - sold)
    && exists j :: 0 <= j < |trades| && trades[j].instrument == p.instrument && trades[j].market == p.market
                && forall k :: j < k < |trades| ==> trades[k].instrument != p.instrument
  }

  lemma {:induction false} MarketTradedLast(trades: seq<Trade>, instrument: string) returns (j: nat)
    requires exists t :: t in trades && t.instrument == instrument
    ensures j < |trades| && trades[j].instrument == instrument && trades[j].market == LastMarket(trades, instrument)
    ensures forall k :: j < k < |trades| ==> trades[k].instrument != instrument
  {
    var n := |trades| - 1;
    if trades[n].instrument == instrument {
      j := n;
    } else {
      var t :| t in trades && t.instrument == instrument;
      assert t in trades[..n];
      j := MarketTradedLast(trades[..n], instrument);
    }
  }

  /**
   * For every log: an entry is short exactly when less of its instrument was bought
   * than not, its volume is the difference of the two, and its market that of the
   * last trade in it; the entries are those of the traded instruments admitted.
   */
  lemma EntriesFromBothSides(answer: seq<Position>, trades: seq<Trade>, filter: string)
    requires Answers(answer, PositionTable(trades, filter))
    ensures forall p :: p in answer ==> EntryOf(p, trades) && (filter == "" || p.instrument == filter)
    ensures forall t :: t in trades && (filter == "" || t.instrument == filter) ==>
              exists p :: p in answer && p.instrument == t.instrument
  {
    AnswerIsTheNet(answer, trades, filter);
    forall p | p in answer ensures EntryOf(p, trades) && (filter == "" || p.instrument == filter) {
      NetOfBothSides(trades, p.instrument);
      assert p.instrument in Instruments(trades, filter);
      var j := MarketTradedLast(trades, p.instrument);
    }
  }

  // ---- the answer accounts for the whole log ----

  function TotalIn(trades: seq<Trade>, instruments: set<string>): int {
    if trades == [] then 0
    else
      var t := trades[|trades| - 1];
      TotalIn(trades[..|trades| - 1], instruments)
      + (if t.instrument in instruments then Signed(t.side, t.volume) else 0)
  }

  lemma {:induction false} TotalSplits(trades: seq<Trade>, instruments: set<string>, i: string)
    requires i in instruments
    ensures TotalIn(trades, instruments) == TotalIn(trades, instruments - {i}) + NetVolume(trades, i)
  {
    if trades != [] {
      TotalSplits(trades[..|trades| - 1], instruments, i);
    }
  }

  lemma {:induction false} TotalOfNone(trades: seq<Trade>)
    ensures TotalIn(trades, {}) == 0
  {
    if trades != [] {
      TotalOfNone(trades[..|trades| - 1]);
    }
  }

  lemma {:induction false} TotalOfAll(trades: seq<Trade>, instruments: set<string>)
    requires forall t :: t in trades ==> t.instrument in instruments
    ensures TotalIn(trades, instruments) == TotalVolume(trades)
  {
    if trades != [] {
      assert trades[|trades| - 1] in trades;
      TotalOfAll(trades[..|trades| - 1], instruments);
    }
  }

  lemma AnswersWithoutLast(answer: seq<Position>, table: map<string, Position>)
    requires Answers(answer, table) && answer != []
    ensures answer[|answer| - 1].instrument in table && table[answer[|answer| - 1].instrument] == answer[|answer| - 1]
    ensures Answers(answer[..|answer| - 1], table - {answer[|answer| - 1].instrument})
  {
  }

  lemma EmptyAnswer(table: map<string, Position>)
    requires Answers([], table)
    ensures table.Keys == {}
  {
  }

  lemma {:induction false} SignedTotalOfTable(answer: seq<Position>, table: map<string, Position>, trades: seq<Trade>)
    requires Answers(answer, table)
    requires forall i :: i in table ==> SignedVolume(table[i]) == NetVolume(trades, i)
    ensures SignedTotal(answer) == TotalIn(trades, table.Keys)
    decreases |answer|
  {
    if answer == [] {
      EmptyAnswer(table);
      TotalOfNone(trades);
    } else {
      var last := answer[|answer| - 1];
      AnswersWithoutLast(answer, table);
      SignedTotalOfTable(answer[..|answer| - 1], table - {last.instrument}, trades);
      TotalSplits(trades, table.Keys, last.instrument);
      assert (table - {last.instrument}).Keys == table.Keys - {last.instrument};
    }
  }

  /** Netting conserves volume: all entries together stand for the whole log. */
  lemma PositionsConserveVolume(answer: seq<Position>, trades: seq<Trade>)
    requires Answers(answer, PositionTable(trades, ""))
    ensures SignedTotal(answer) == TotalVolume(trades)
  {
    SignedTotalOfTable(answer, PositionTable(trades, ""), trades);
    TotalOfAll(trades, PositionTable(trades, "").Keys);
  }

  // ---- order of the log ----

  lemma {:induction false} NetVolumeConcat(a: seq<Trade>, b: seq<Trade>, i: string)
    ensures NetVolume(a + b, i) == NetVolume(a, i) + NetVolume(b, i)
    decreases |b|
  {
    if b == [] {
      assert a + b == a;
    } else {
      var n := |b| - 1;
      NetVolumeConcat(a, b[..n], i);
      assert a + b == (a + b[..n]) + [b[n]];
      assert (a + b)[..|a + b| - 1] == a + b[..n];
    }
  }

  lemma {:induction false} NetVolumePermutes(a: seq<Trade>, b: seq<Trade>, i: string)
    requires multiset(a) == multiset(b)
    ensures NetVolume(a, i) == NetVolume(b, i)
    decreases |a|
  {
    if a == [] {
      assert |multiset(b)| == 0;
    } else {
      var n := |a| - 1;
      var t := a[n];
      assert t in multiset(a);
      var j :| 0 <= j < |b| && b[j] == t;
      var rest := b[..j] + b[j + 1..];
      assert a == a[..n] + [t];
      assert b == b[..j] + ([t] + b[j + 1..]);
      assert multiset(a[..n]) == multiset(a) - multiset{t};
      assert multiset(rest) == multiset(b) - multiset{t};
      NetVolumePermutes(a[..n], rest, i);
      NetVolumeConcat(b[..j], [t] + b[j + 1..], i);
      NetVolumeConcat([t], b[j + 1..], i);
      NetVolumeConcat(b[..j], b[j + 1..], i);
      assert [t][..0] == [];
    }
  }

  /** Reordering the log changes no instrument, volume or direction. */
  lemma PositionsIgnoreLogOrder(a: seq<Trade>, b: seq<Trade>, filter: string)
    requires multiset(a) == multiset(b)
    ensures PositionTable(a, filter).Keys == PositionTable(b, filter).Keys
    ensures forall i :: i in PositionTable(a, filter) ==>
              PositionTable(a, filter)[i].(market := 0) == PositionTable(b, filter)[i].(market := 0)
  {
    assert forall t :: t in a <==> t in multiset(a);
    assert forall t :: t in b <==> t in multiset(b);
    forall i ensures NetVolume(a, i) == NetVolume(b, i) {
      NetVolumePermutes(a, b, i);
    }
    assert Instruments(a, filter) == Instruments(b, filter);
  }

  // ---- one more trade, and filters ----

  /** One more trade moves exactly its own instrument, by its signed volume, flips of direction included. */
  lemma OneTradeMovesOneEntry(trades: seq<Trade>, t: Trade)
    ensures var before := PositionTable(trades, "");
            var after := PositionTable(trades + [t], "");
            && after.Keys == before.Keys + {t.instrument}
            && (forall i :: i in before && i != t.instrument ==> after[i] == before[i])
            && SignedVolume(after[t.instrument])
               == (if t.instrument in before then SignedVolume(before[t.instrument]) else 0) + Signed(t.side, t.volume)
            && after[t.instrument].market == t.market
  {
    var before := PositionTable(trades, "");
    var after := PositionTable(trades + [t], "");
    assert forall x :: x in trades + [t] <==> x in trades || x == t;
    assert after.Keys == before.Keys + {t.instrument};
    assert (trades + [t])[..|trades + [t]| - 1] == trades;
    if t.instrument !in before {
      NetOfUntraded(trades, t.instrument);
    }
  }

  lemma {:induction false} NetOfUntraded(trades: seq<Trade>, i: string)
    requires forall t :: t in trades ==> t.instrument != i
    ensures NetVolume(trades, i) == 0
  {
    if trades != [] {
      assert trades[|trades| - 1] in trades;
      NetOfUntraded(trades[..|trades| - 1], i);
    }
  }

  /** The answer to a query for one instrument is the unfiltered answer restricted to it. */
  lemma FilterRestricts(filtered: seq<Position>, all: seq<Position>, trades: seq<Trade>, instrument: string)
    requires instrument != ""
    requires Answers(filtered, PositionTable(trades, instrument)) && Answers(all, PositionTable(trades, ""))
    ensures forall p :: p in filtered <==> p in all && p.instrument == instrument
  {
  }

  // ---- width of the accumulators ----

  function GrossVolume(trades: seq<Trade>): nat {
    if trades == [] then 0
    else
      var t := trades[|trades| - 1];
      GrossVolume(trades[..|trades| - 1]) + (if t.volume < 0 then -t.volume else t.volume)
  }

  /**
   * If the absolute volumes in the log sum to at most B, every accumulator value
   * on the way, for every instrument, and the negation the query may take of it,
   * stays within [-B, B].
   */
  lemma {:induction false} AccumulatorsStayBounded(trades: seq<Trade>, n: nat, i: string, bound: int)
    requires n <= |trades| && GrossVolume(trades) <= bound
    ensures -bound <= NetVolume(trades[..n], i) <= bound
    ensures -bound <= -NetVolume(trades[..n], i) <= bound
    decreases |trades|
  {
    if n < |trades| {
      assert trades[..|trades| - 1][..n] == trades[..n];
      AccumulatorsStayBounded(trades[..|trades| - 1], n, i, bound);
    } else if n > 0 {
      var last := trades[n - 1];
      AccumulatorsStayBounded(trades[..n - 1], n - 1, i, GrossVolume(trades[..n - 1]));
      assert trades[..n] == trades;
      assert trades[..n - 1][..n - 1] == trades[..n - 1];
    }
  }
}
