/** Natural numbers as JavaScript prints them in base ten. */
module Decimal {
  predicate IsDigit(c: char) {
    '0' <= c <= '9'
  }

  function Digit(n: nat): char
    requires n < 10
  {
    '0' + n as char
  }

  function Print(n: nat): (s: string)
    ensures s != "" && forall c | c in s :: IsDigit(c)
  {
    if n < 10 then [Digit(n)] else Print(n / 10) + [Digit(n % 10)]
  }

  function DigitValue(c: char): nat
    requires IsDigit(c)
  {
    c as int - '0' as int
  }

  function Read(s: string): nat
    requires forall c | c in s :: IsDigit(c)
  {
    if s == "" then 0 else 10 * Read(s[..|s| - 1]) + DigitValue(s[|s| - 1])
  }

  lemma {:induction false} ReadOfPrint(n: nat)
    ensures Read(Print(n)) == n
  {
    if n < 10 {
      assert Print(n)[..0] == "";
    } else {
      ReadOfPrint(n / 10);
      assert Print(n)[..|Print(n)| - 1] == Print(n / 10);
    }
  }

  lemma PrintIsInjective(a: nat, b: nat)
    ensures Print(a) == Print(b) <==> a == b
  {
    ReadOfPrint(a);
    ReadOfPrint(b);
  }

  function Pow10(k: nat): (p: nat)
    ensures p >= 1
  {
    if k == 0 then 1 else 10 * Pow10(k - 1)
  }

  lemma {:induction false} PrintLength(n: nat, k: nat)
    requires 1 <= k && n < Pow10(k)
    ensures |Print(n)| <= k
  {
    if n >= 10 {
      assert k > 1;
      PrintLength(n / 10, k - 1);
    }
  }

  /** `padStart(width, '0')`. */
  function PadStart(s: string, width: nat): (r: string)
    ensures |r| == if |s| < width then width else |s|
    ensures (forall c | c in s :: IsDigit(c)) ==> forall c | c in r :: IsDigit(c)
    decreases width - |s|
  {
    if |s| < width then PadStart("0" + s, width) else s
  }

  lemma {:induction false} LeadingZeroReadsTheSame(s: string)
    requires forall c | c in s :: IsDigit(c)
    ensures (forall c | c in "0" + s :: IsDigit(c)) && Read("0" + s) == Read(s)
  {
    var t := "0" + s;
    if s == "" {
      assert t[..0] == "";
    } else {
      LeadingZeroReadsTheSame(s[..|s| - 1]);
      assert t[..|t| - 1] == "0" + s[..|s| - 1];
    }
  }

  lemma {:induction false} PaddedReadsTheSame(s: string, width: nat)
    requires forall c | c in s :: IsDigit(c)
    ensures Read(PadStart(s, width)) == Read(s)
    decreases width - |s|
  {
    if |s| < width {
      LeadingZeroReadsTheSame(s);
      PaddedReadsTheSame("0" + s, width);
    }
  }
}
