/**
  Clock texts of whole seconds, `H:MM:SS` with at least one hour digit, and the
  parser that reads them back.
*/
module Clock {

  import opened Text
  import Pacing

  /** `%02d`: at least two digits, zero-padded. */
  function Pad2(n: nat): (r: string)
    ensures |r| >= 2
  {
    if n < 10 then "0" + Decimal(n) else Decimal(n)
  }

  /** Reads an `H:MM:SS` string back into seconds (the inverse of the clock formats). */
  function ParseDuration(s: string): nat {
    if |s| < 7 then 0
    else
      var n := |s|;
      DecimalValue(s[..n - 6]) * 3600 + DecimalValue(s[n - 5..n - 3]) * 60 + DecimalValue(s[n - 2..])
  }

  lemma {:induction false} DecimalValueLeadingZero(s: string)
    ensures DecimalValue("0" + s) == DecimalValue(s)
    decreases |s|
  {
    if s != [] {
      var t := "0" + s;
      assert t[..|t| - 1] == "0" + s[..|s| - 1];
      DecimalValueLeadingZero(s[..|s| - 1]);
    }
  }

  lemma Pad2Value(n: nat)
    ensures DecimalValue(Pad2(n)) == n
    ensures n < 100 ==> |Pad2(n)| == 2
  {
    DecimalRoundTrip(n);
    if n < 10 {
      DecimalValueLeadingZero(Decimal(n));
    } else if n < 100 {
      assert Decimal(n) == Decimal(n / 10) + [('0' as int + n % 10) as char];
    }
  }

  /** Hours, minutes and seconds as the clock formats compute them add back up to the total. */
  lemma DurationParts(seconds: nat)
    ensures (seconds / 3600) * 3600 + (seconds / 60 % 60) * 60 + seconds % 60 == seconds
  {
    var q := seconds / 60;
    assert seconds == q * 60 + seconds % 60;
    assert q == (q / 60) * 60 + q % 60;
    assert seconds == (q / 60) * 3600 + (q % 60) * 60 + seconds % 60;
    Pacing.DivUnique(seconds, 3600, q / 60);
  }

  lemma ThreeFields(a: string, b: string, c: string)
    requires |a| >= 1 && |b| == 2 && |c| == 2
    ensures var f := a + ":" + b + ":" + c;
      |f| >= 7 && f[|f| - 3] == ':' && f[|f| - 6] == ':'
      && f[..|f| - 6] == a && f[|f| - 5..|f| - 3] == b && f[|f| - 2..] == c
  {
  }
}
