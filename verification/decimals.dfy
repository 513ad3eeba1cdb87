/** Numbers as they are written in ids, events and error paths. */
module Decimals {

  predicate AllDigits(s: string) {
    forall i :: 0 <= i < |s| ==> '0' <= s[i] <= '9'
  }

  /** The number that digits write down. */
  function NumberOf(s: string): nat
    requires AllDigits(s)
  {
    if s == "" then 0 else 10 * NumberOf(s[..|s| - 1]) + (s[|s| - 1] as int - '0' as int)
  }

  /** How a number is written down. */
  function Decimal(n: nat): (s: string)
    ensures s != ""
  {
    var last := [('0' as int + n % 10) as char];
    if n < 10 then last else Decimal(n / 10) + last
  }

  lemma {:induction false} DecimalReads(n: nat)
    ensures AllDigits(Decimal(n)) && NumberOf(Decimal(n)) == n
  {
    var s := Decimal(n);
    if n < 10 {
      assert s[..|s| - 1] == "";
    } else {
      DecimalReads(n / 10);
      assert s[..|s| - 1] == Decimal(n / 10);
    }
  }

  /** Digits without a leading zero are written back as they were. */
  lemma {:induction false} ReadsBack(s: string)
    requires AllDigits(s) && s != "" && s[0] != '0'
    ensures NumberOf(s) > 0 && Decimal(NumberOf(s)) == s
  {
    hide Decimal;
    var before, last := s[..|s| - 1], s[|s| - 1];
    assert s == before + [last];
    var d := last as int - '0' as int;
    if before == "" {
      OneDigit(d);
    } else {
      ReadsBack(before);
      OneDigitMore(NumberOf(before), d);
    }
  }

  lemma OneDigit(d: nat)
    requires d < 10
    ensures Decimal(d) == [('0' as int + d) as char]
  {}

  lemma OneDigitMore(a: nat, d: nat)
    requires 0 < a && d < 10
    ensures Decimal(10 * a + d) == Decimal(a) + [('0' as int + d) as char]
  {
    assert (10 * a + d) / 10 == a && (10 * a + d) % 10 == d;
  }

  lemma {:induction false} SameNumber(p: string, q: string)
    requires |p| == |q| && AllDigits(p) && AllDigits(q) && NumberOf(p) == NumberOf(q)
    ensures p == q
  {
    if p == "" {
    } else {
      var last := |p| - 1;
      SameNumber(p[..last], q[..last]);
      assert p == p[..last] + [p[last]] && q == q[..last] + [q[last]];
    }
  }
}
