/**
 Decimal text for natural numbers: rendering a number as its shortest
 decimal string, reading a string of digits back as a number, and
 measuring the run of digits that starts a string. The ramdisk size
 grammar reads numbers with `Value`; disk serials are printed with
 `Render`.
 */
module Decimal {

  predicate IsDigit(c: char) {
    '0' <= c <= '9'
  }

  predicate AllDigits(s: string) {
    forall i :: 0 <= i < |s| ==> IsDigit(s[i])
  }

  function DigitValue(c: char): (d: nat)
    requires IsDigit(c)
    ensures d < 10
  {
    c as int - '0' as int
  }

  function DigitChar(d: nat): (c: char)
    requires d < 10
    ensures IsDigit(c)
    ensures DigitValue(c) == d
  {
    ('0' as int + d) as char
  }

  /** The shortest decimal spelling of `n`: never empty, digits only. */
  function Render(n: nat): (s: string)
    ensures 0 < |s|
    ensures AllDigits(s)
    ensures n < 10 <==> |s| == 1
    decreases n
  {
    if n < 10 then [DigitChar(n)] else Render(n / 10) + [DigitChar(n % 10)]
  }

  /** The number a string of digits spells (the empty string spells 0). */
  function Value(s: string): nat
    requires AllDigits(s)
    decreases |s|
  {
    if |s| == 0 then 0 else Value(s[..|s| - 1]) * 10 + DigitValue(s[|s| - 1])
  }

  /** The number of digits at the start of `s`. */
  function DigitPrefix(s: string): (k: nat)
    ensures k <= |s|
    ensures AllDigits(s[..k])
    ensures k < |s| ==> !IsDigit(s[k])
    decreases |s|
  {
    if |s| == 0 || !IsDigit(s[0]) then 0
    else
      var k := 1 + DigitPrefix(s[1..]);
      assert s[..k] == [s[0]] + s[1..][..k - 1];
      k
  }

  /** Reading back what `Render` printed gives the number printed. */
  lemma {:induction false} ValueOfRender(n: nat)
    ensures Value(Render(n)) == n
    decreases n
  {
    var s := Render(n);
    if n < 10 {
      assert s[..|s| - 1] == [];
    } else {
      ValueOfRender(n / 10);
      assert s[..|s| - 1] == Render(n / 10);
    }
  }

  /** Distinct numbers render as distinct strings. */
  lemma RenderInjective(m: nat, n: nat)
    ensures Render(m) == Render(n) ==> m == n
  {
    ValueOfRender(m);
    ValueOfRender(n);
  }

  /** A run of digits followed by text that does not start with a digit
      is measured exactly by `DigitPrefix`. */
  lemma DigitPrefixOfConcat(ds: string, t: string)
    requires AllDigits(ds)
    requires |t| == 0 || !IsDigit(t[0])
    ensures DigitPrefix(ds + t) == |ds|
  {
    var s := ds + t;
    var k := DigitPrefix(s);
    assert s[..|ds|] == ds;
    assert forall i :: 0 <= i < |ds| ==> s[i] == ds[i];
  }
}
