/** The names of sets of NUMA zones. */
module ZoneNames {

  function Digit(d: nat): (c: char)
    requires d < 10
    ensures c != ',' && c != '-'
  {
    "0123456789"[d]
  }

  function Decimal(n: nat): (s: string)
    ensures |s| > 0
  {
    if n < 10 then [Digit(n)] else Decimal(n / 10) + [Digit(n % 10)]
  }

  /** zoneName */
  function Zone(n: nat): string {
    "node-" + Decimal(n)
  }

  /** The zones of a list of NUMA nodes, joined with commas. */
  function Key(ids: seq<nat>): string {
    if ids == [] then ""
    else if |ids| == 1 then Zone(ids[0])
    else Zone(ids[0]) + "," + Key(ids[1..])
  }

  lemma DigitInjective(a: nat, b: nat)
    requires a < 10 && b < 10 && Digit(a) == Digit(b)
    ensures a == b
  {
  }

  lemma {:induction false} DecimalInjective(a: nat, b: nat)
    requires Decimal(a) == Decimal(b)
    ensures a == b
    decreases a
  {
    var s, t := Decimal(a), Decimal(b);
    assert s[|s| - 1] == Digit(a % 10) && t[|t| - 1] == Digit(b % 10);
    DigitInjective(a % 10, b % 10);
    if a >= 10 && b >= 10 {
      assert Decimal(a / 10) == s[..|s| - 1] && Decimal(b / 10) == t[..|t| - 1];
      DecimalInjective(a / 10, b / 10);
    }
  }

  lemma {:induction false} NoCommaInDecimal(n: nat)
    ensures ',' !in Decimal(n)
    decreases n
  {
    if n >= 10 { NoCommaInDecimal(n / 10); }
  }

  lemma ZoneProperties(a: nat, b: nat)
    ensures ',' !in Zone(a)
    ensures Zone(a) == Zone(b) ==> a == b
  {
    NoCommaInDecimal(a);
    if Zone(a) == Zone(b) {
      assert Decimal(a) == Zone(a)[5..] && Decimal(b) == Zone(b)[5..];
      DecimalInjective(a, b);
    }
  }

  /** A text can be cut at its first comma in one way only. */
  lemma FirstComma(a: string, r: string, b: string, s: string)
    requires ',' !in a && ',' !in b && a + "," + r == b + "," + s
    ensures a == b && r == s
  {
    var x, y := a + "," + r, b + "," + s;
    assert x[|a|] == ',' && y[|b|] == ',';
    assert forall i :: 0 <= i < |a| ==> x[i] == a[i];
    assert forall i :: 0 <= i < |b| ==> y[i] == b[i];
    assert |a| == |b|;
    assert a == x[..|a|] && b == y[..|b|];
    assert r == x[|a| + 1..] && s == y[|b| + 1..];
  }

  lemma NoComma(a: string, b: string, s: string)
    requires ',' !in a
    ensures a != b + "," + s
  {
    assert (b + "," + s)[|b|] == ',';
  }

  /** Different lists of zones have different names. */
  lemma {:induction false} KeyInjective(a: seq<nat>, b: seq<nat>)
    requires Key(a) == Key(b)
    ensures a == b
    decreases |a|
  {
    if a != [] && b != [] {
      ZoneProperties(a[0], b[0]);
      ZoneProperties(b[0], a[0]);
      if |a| == 1 && |b| > 1 { NoComma(Zone(a[0]), Zone(b[0]), Key(b[1..])); }
      if |b| == 1 && |a| > 1 { NoComma(Zone(b[0]), Zone(a[0]), Key(a[1..])); }
      if |a| > 1 && |b| > 1 {
        FirstComma(Zone(a[0]), Key(a[1..]), Zone(b[0]), Key(b[1..]));
        KeyInjective(a[1..], b[1..]);
        assert a == [a[0]] + a[1..] && b == [b[0]] + b[1..];
      }
    }
  }
}
