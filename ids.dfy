/**
 * Task identifiers. A new task's id is the string "todo" followed by the
 * decimal notation of the id counter (JavaScript's `"todo" + n` for a
 * non-negative integer n). ParseId reads such an id back; the round trip
 * makes the id generator injective, which is what keeps ids unique.
 */
module TodoIds {
  import opened Options

  predicate IsDigit(c: char) {
    '0' <= c <= '9'
  }

  predicate AllDigits(s: string) {
    forall i :: 0 <= i < |s| ==> IsDigit(s[i])
  }

  function DigitChar(d: nat): (c: char)
    requires d < 10
    ensures IsDigit(c)
  {
    ('0' as int + d) as char
  }

  function DigitValue(c: char): (d: nat)
    requires IsDigit(c)
    ensures d < 10
  {
    c as int - '0' as int
  }

  /** Decimal notation of n, most significant digit first, without leading zeros. */
  function Decimal(n: nat): (r: string)
    ensures 1 <= |r| && AllDigits(r)
    decreases n
  {
    if n < 10 then [DigitChar(n)] else Decimal(n / 10) + [DigitChar(n % 10)]
  }

  /** The number a string of decimal digits denotes. */
  function DecimalValue(s: string): nat
    requires AllDigits(s)
  {
    if s == [] then 0 else DecimalValue(s[..|s| - 1]) * 10 + DigitValue(s[|s| - 1])
  }

  lemma {:induction false} DecimalRoundTrip(n: nat)
    ensures DecimalValue(Decimal(n)) == n
    decreases n
  {
    if n >= 10 {
      var r := Decimal(n);
      assert r[..|r| - 1] == Decimal(n / 10);
      DecimalRoundTrip(n / 10);
    }
  }

  const Prefix: string := "todo"

  /** The id that `defaultItem` builds from counter value n. */
  function IdOf(n: nat): (id: string)
    ensures |Prefix| < |id| && id[..|Prefix|] == Prefix && AllDigits(id[|Prefix|..])
  {
    Prefix + Decimal(n)
  }

  /** The counter value an id was generated from, if it has the generated shape. */
  function ParseId(id: string): Option<nat> {
    if |id| > |Prefix| && id[..|Prefix|] == Prefix && AllDigits(id[|Prefix|..])
    then Some(DecimalValue(id[|Prefix|..]))
    else None
  }

  lemma ParseIdOf(n: nat)
    ensures ParseId(IdOf(n)) == Some(n)
  {
    var id := IdOf(n);
    assert id[..|Prefix|] == Prefix;
    assert id[|Prefix|..] == Decimal(n);
    DecimalRoundTrip(n);
  }

  /** Distinct counter values give distinct ids. */
  lemma IdOfInjective(m: nat, n: nat)
    ensures IdOf(m) == IdOf(n) <==> m == n
  {
    ParseIdOf(m);
    ParseIdOf(n);
  }

  lemma IdExamples()
    ensures IdOf(0) == "todo0" && IdOf(12) == "todo12"
  {
  }
}
