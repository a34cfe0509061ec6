/** The canonical string form of a document id, Python's `str(doc_id)` on an int. */
module DocIds {

  predicate IsDigit(c: char) { '0' <= c <= '9' }

  function DigitChar(d: nat): (c: char)
    requires d < 10
    ensures IsDigit(c) && (c as int) - ('0' as int) == d
  {
    ('0' as int + d) as char
  }

  /** Decimal digits of `n`, most significant first, with no leading zero. */
  function NatToDecimal(n: nat): (s: string)
    ensures |s| >= 1
    ensures forall i :: 0 <= i < |s| ==> IsDigit(s[i])
    ensures n > 0 ==> s[0] != '0'
  {
    if n < 10 then [DigitChar(n)] else NatToDecimal(n / 10) + [DigitChar(n % 10)]
  }

  /** `str(doc_id)`: an optional minus sign followed by the decimal digits. */
  function IdToString(id: int): (s: string)
    ensures |s| >= 1
    ensures (s[0] == '-') <==> id < 0
  {
    if id < 0 then "-" + NatToDecimal(-id) else NatToDecimal(id)
  }

  /** Reference reading of a digit string, the inverse of `NatToDecimal`. */
  function DecimalValue(s: string): nat
  {
    if s == [] then 0
    else
      var c := s[|s| - 1];
      10 * DecimalValue(s[..|s| - 1]) + (if IsDigit(c) then (c as int) - ('0' as int) else 0)
  }

  /** Reference reading of `str(doc_id)`, Python's `int(s)` on well-formed input. */
  function ParseId(s: string): int
  {
    if |s| > 0 && s[0] == '-' then -(DecimalValue(s[1..]) as int) else DecimalValue(s)
  }

  lemma {:induction false} DecimalRoundTrip(n: nat)
    ensures DecimalValue(NatToDecimal(n)) == n
  {
    if n >= 10 {
      var s := NatToDecimal(n);
      assert s[..|s| - 1] == NatToDecimal(n / 10);
      DecimalRoundTrip(n / 10);
    }
  }

  /** Reading back the string form of an id gives the id. */
  lemma IdRoundTrip(id: int)
    ensures ParseId(IdToString(id)) == id
  {
    if id < 0 {
      assert IdToString(id)[1..] == NatToDecimal(-id);
      DecimalRoundTrip(-id);
    } else {
      DecimalRoundTrip(id);
    }
  }

  /** Distinct documents get distinct string ids. */
  lemma IdToStringInjective(a: int, b: int)
    requires IdToString(a) == IdToString(b)
    ensures a == b
  {
    IdRoundTrip(a);
    IdRoundTrip(b);
  }
}
