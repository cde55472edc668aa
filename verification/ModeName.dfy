/** The name under which a resolution is looked up: width, an x, height, in decimal. */
module ModeNames {

  function Digit(d: nat): char
    requires d < 10
  {
    "0123456789"[d]
  }

  /** `stream << n` */
  function Decimal(n: nat): (s: string)
    ensures |s| > 0
  {
    if n < 10 then [Digit(n)] else Decimal(n / 10) + [Digit(n % 10)]
  }

  function ModeName(w: nat, h: nat): string {
    Decimal(w) + "x" + Decimal(h)
  }

  lemma DigitsDiffer(a: nat, b: nat)
    requires a < 10 && b < 10
    ensures Digit(a) != 'x' && (Digit(a) == Digit(b) ==> a == b)
  {
  }

  lemma {:induction false} DecimalHasNoX(n: nat, i: nat)
    requires i < |Decimal(n)|
    ensures Decimal(n)[i] != 'x'
  {
    DigitsDiffer(n % 10, 0);
    if n >= 10 && i < |Decimal(n / 10)| {
      DecimalHasNoX(n / 10, i);
    }
  }

  lemma {:induction false} DecimalInjective(a: nat, b: nat)
    requires Decimal(a) == Decimal(b)
    ensures a == b
  {
    DigitsDiffer(a % 10, b % 10);
    var s, t := Decimal(a), Decimal(b);
    assert s[|s| - 1] == Digit(a % 10) && t[|t| - 1] == Digit(b % 10);
    assert |s| == 1 <==> a < 10;
    assert |t| == 1 <==> b < 10;
    if a >= 10 {
      assert s[..|s| - 1] == Decimal(a / 10) && t[..|t| - 1] == Decimal(b / 10);
      DecimalInjective(a / 10, b / 10);
    }
  }

  // ----- reading a name -----

  function DigitValue(c: char): nat {
    if '0' <= c <= '9' then c as int - '0' as int else 0
  }

  /** The number that a string of decimal digits denotes, the most significant first. */
  function Value(s: string): nat {
    if |s| == 0 then 0 else 10 * Value(s[..|s| - 1]) + DigitValue(s[|s| - 1])
  }

  predicate Digits(s: string) {
    |s| > 0 && forall i :: 0 <= i < |s| ==> '0' <= s[i] <= '9'
  }

  lemma DigitIs(d: nat)
    requires d < 10
    ensures '0' <= Digit(d) <= '9' && DigitValue(Digit(d)) == d
  {
  }

  /** Digits only, no leading zero, and the number itself. */
  lemma {:induction false} DecimalReads(n: nat)
    ensures Digits(Decimal(n)) && Value(Decimal(n)) == n && (n > 0 ==> Decimal(n)[0] != '0')
  {
    DigitIs(n % 10);
    var s := Decimal(n);
    if n >= 10 {
      DecimalReads(n / 10);
      assert s[..|s| - 1] == Decimal(n / 10);
    } else {
      assert s[..0] == "";
    }
  }

  /** A name is the width, an x and the height. */
  lemma NameReads(w: nat, h: nat)
    ensures var name, n := ModeName(w, h), |Decimal(w)|;
      && n < |name| && name[n] == 'x'
      && Digits(name[..n]) && Value(name[..n]) == w
      && Digits(name[n + 1..]) && Value(name[n + 1..]) == h
  {
    DecimalReads(w);
    DecimalReads(h);
    var name, n := ModeName(w, h), |Decimal(w)|;
    assert name[..n] == Decimal(w) && name[n + 1..] == Decimal(h);
  }

  /** Two resolutions never share a name. */
  lemma ModeNameInjective(w: nat, h: nat, w': nat, h': nat)
    requires ModeName(w, h) == ModeName(w', h')
    ensures w == w' && h == h'
  {
    var s := ModeName(w, h);
    var n, n' := |Decimal(w)|, |Decimal(w')|;
    assert s[n] == 'x' && s[n'] == 'x';
    if n < n' {
      DecimalHasNoX(w', n);
    } else if n' < n {
      DecimalHasNoX(w, n');
    }
    assert s[..n] == Decimal(w) && s[..n'] == Decimal(w');
    assert s[n + 1..] == Decimal(h) && s[n' + 1..] == Decimal(h');
    DecimalInjective(w, w');
    DecimalInjective(h, h');
  }
}
