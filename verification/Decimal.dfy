/**
  Decimal printing as the services use it: `String(n)` and `padStart(width, '0')`.
  Printing is proved injective by giving its inverse, so that names built from
  printed numbers (order numbers, slug suffixes) can be told apart.
 */
module Decimal {

  predicate IsDigit(c: char) {
    '0' <= c <= '9'
  }

  ghost predicate AllDigits(s: string) {
    forall i :: 0 <= i < |s| ==> IsDigit(s[i])
  }

  function DigitChar(d: nat): (c: char)
    requires d < 10
    ensures IsDigit(c)
  {
    '0' + d as char
  }

  /** The decimal form of `n`, without leading zeros. */
  function Show(n: nat): (s: string)
    ensures 1 <= |s| && AllDigits(s)
    ensures n > 0 ==> s[0] != '0'
    ensures n < 10 ==> |s| == 1
  {
    if n < 10 then [DigitChar(n)] else Show(n / 10) + [DigitChar(n % 10)]
  }

  /** The number a digit string stands for; leading zeros do not matter. */
  ghost function Read(s: string): nat
    requires AllDigits(s)
  {
    if s == [] then 0 else 10 * Read(s[..|s| - 1]) + (s[|s| - 1] - '0') as nat
  }

  /** `s.padStart(width, '0')`: longer strings are left alone. */
  function PadStart(s: string, width: nat): (r: string)
    ensures |r| == if |s| < width then width else |s|
    ensures AllDigits(s) ==> AllDigits(r)
    decreases width - |s|
  {
    if |s| < width then PadStart("0" + s, width) else s
  }

  lemma {:induction false} ReadShow(n: nat)
    ensures Read(Show(n)) == n
  {
    if n < 10 {
      assert Show(n)[..0] == [];
    } else {
      ReadShow(n / 10);
      assert Show(n)[..|Show(n)| - 1] == Show(n / 10);
    }
  }

  lemma {:induction false} ReadLeadingZero(s: string)
    requires AllDigits(s)
    ensures AllDigits("0" + s) && Read("0" + s) == Read(s)
  {
    if s == [] {
      assert ("0" + s)[..0] == [];
    } else {
      var front := s[..|s| - 1];
      ReadLeadingZero(front);
      assert ("0" + s)[..|s|] == "0" + front;
    }
  }

  lemma {:induction false} ReadPadStart(s: string, width: nat)
    requires AllDigits(s)
    ensures Read(PadStart(s, width)) == Read(s)
    decreases width - |s|
  {
    if |s| < width {
      ReadLeadingZero(s);
      ReadPadStart("0" + s, width);
    }
  }

  /** A number printed to a width reads as that number. */
  lemma PadStartReads(n: nat, width: nat)
    ensures AllDigits(PadStart(Show(n), width)) && |PadStart(Show(n), width)| >= width
    ensures Read(PadStart(Show(n), width)) == n
  {
    ReadPadStart(Show(n), width);
    ReadShow(n);
  }

  /** Two numbers printed to any width agree only if they are the same number. */
  lemma PaddedShowInjective(m: nat, n: nat, width: nat)
    ensures PadStart(Show(m), width) == PadStart(Show(n), width) ==> m == n
  {
    PadStartReads(m, width);
    PadStartReads(n, width);
  }

  /** Two digits appended shift what stands before them by two places. */
  lemma ReadTwoMore(s: string, t: string)
    requires AllDigits(s) && AllDigits(t) && |t| == 2
    ensures AllDigits(s + t) && Read(s + t) == 100 * Read(s) + Read(t)
  {
    var all := s + t;
    assert all[..|all| - 1] == s + [t[0]] && (s + [t[0]])[..|s|] == s;
    assert t[..1] == [t[0]] && [t[0]][..0] == [];
    assert Read(t) == 10 * Read([t[0]]) + (t[1] - '0') as nat;
    assert Read(s + [t[0]]) == 10 * Read(s) + (t[0] - '0') as nat;
  }
}
