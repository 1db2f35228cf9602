// Trade identifiers are a fixed prefix followed by the decimal form of a counter.
// Reading the number back shows that distinct counters give distinct strings.
module TradeIds {

  const TRADE_ID_PREFIX := "MOCK-TRADE-"

  function Digit(d: nat): char
    requires d < 10
  {
    ['0', '1', '2', '3', '4', '5', '6', '7', '8', '9'][d]
  }

  function DigitValue(c: char): nat {
    if '0' <= c <= '9' then (c as int) - ('0' as int) else 0
  }

  /** The decimal form of n, as std::to_string prints it. */
  function Decimal(n: nat): string {
    if n < 10 then [Digit(n)] else Decimal(n / 10) + [Digit(n % 10)]
  }

  function Parse(s: string): nat {
    if s == "" then 0 else 10 * Parse(s[..|s| - 1]) + DigitValue(s[|s| - 1])
  }

  function TradeId(n: nat): string {
    TRADE_ID_PREFIX + Decimal(n)
  }

  function TradeIdNumber(id: string): nat {
    if |id| < |TRADE_ID_PREFIX| then 0 else Parse(id[|TRADE_ID_PREFIX|..])
  }

  lemma DigitRoundTrip(d: nat)
    requires d < 10
    ensures DigitValue(Digit(d)) == d
  {
  }

  lemma {:induction false} DecimalRoundTrip(n: nat)
    ensures Parse(Decimal(n)) == n
  {
    DigitRoundTrip(n % 10);
    if n < 10 {
      assert Decimal(n)[..0] == "";
    } else {
      DecimalRoundTrip(n / 10);
      var s := Decimal(n);
      assert s[..|s| - 1] == Decimal(n / 10);
    }
  }

  /** The counter can be read back from the identifier, so the identifiers are injective. */
  lemma TradeIdRoundTrip(n: nat)
    ensures TradeIdNumber(TradeId(n)) == n
  {
    DecimalRoundTrip(n);
    assert TradeId(n)[|TRADE_ID_PREFIX|..] == Decimal(n);
  }

  /** The number is spelled in decimal digits without a leading zero, after the fixed words. */
  lemma {:induction false} DecimalIsCanonical(n: nat)
    ensures Decimal(n) != "" && (Decimal(n)[0] == '0' <==> n == 0)
    ensures forall i :: 0 <= i < |Decimal(n)| ==> '0' <= Decimal(n)[i] <= '9'
  {
    if n >= 10 {
      DecimalIsCanonical(n / 10);
    }
  }

  lemma TradeIdIsSpelledOut(n: nat)
    ensures TradeId(n)[..11] == "MOCK-TRADE-" && 11 < |TradeId(n)|
    ensures forall i :: 11 <= i < |TradeId(n)| ==> '0' <= TradeId(n)[i] <= '9'
    ensures TradeId(n)[11] == '0' <==> n == 0
    ensures TradeId(1) == "MOCK-TRADE-1" && TradeId(10) == "MOCK-TRADE-10"
  {
    DecimalIsCanonical(n);
    assert TRADE_ID_PREFIX == "MOCK-TRADE-" && |TRADE_ID_PREFIX| == 11;
    assert Decimal(10) == Decimal(1) + ['0'];
  }

  lemma TradeIdsDiffer(m: nat, n: nat)
    ensures TradeId(m) == TradeId(n) <==> m == n
  {
    TradeIdRoundTrip(m);
    TradeIdRoundTrip(n);
  }
}
