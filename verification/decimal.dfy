/**
  Decimal digits and unsigned 16-bit numbers: Rust's `u16`, its `to_string`,
  and the overflow-checked digit accumulation that the cursor-position
  parser performs (src/tui_terminal.rs:224-232) and that the mouse
  coordinate parser is meant to perform.
 */
module Decimal {
  import opened Wrappers

  /** Rust's `u16`. */
  type uint16 = n: int | 0 <= n <= 0xFFFF

  const U16_MAX: uint16 := 0xFFFF

  predicate IsDigit(c: char) {
    '0' <= c <= '9'
  }

  predicate AllDigits(s: string) {
    forall i :: 0 <= i < |s| ==> IsDigit(s[i])
  }

  function DigitValue(c: char): (d: nat)
    requires IsDigit(c)
    ensures d < 10
  {
    c as int - '0' as int
  }

  function DigitChar(d: nat): (c: char)
    requires d < 10
    ensures IsDigit(c) && DigitValue(c) == d
  {
    ('0' as int + d) as char
  }

  /** Rust's `to_string` on an unsigned integer: shortest decimal numeral. */
  function ToDecimal(n: nat): (s: string)
    ensures 1 <= |s| && AllDigits(s)
    ensures s[0] == '0' ==> n == 0 && s == "0"
    decreases n
  {
    if n < 10 then [DigitChar(n)] else ToDecimal(n / 10) + [DigitChar(n % 10)]
  }

  /** Length of the maximal run of decimal digits at the front of `v`. */
  function DigitRun(v: seq<char>): (k: nat)
    ensures k <= |v| && AllDigits(v[..k])
    ensures k < |v| ==> !IsDigit(v[k])
  {
    if v == [] || !IsDigit(v[0]) then 0
    else
      var k := 1 + DigitRun(v[1..]);
      assert forall i :: 1 <= i < k ==> v[..k][i] == v[1..][..k - 1][i - 1];
      k
  }

  /** The value of the numeral `s` read left to right, starting from `acc`. */
  function Fold(acc: nat, s: string): nat
    requires AllDigits(s)
    decreases |s|
  {
    if s == [] then acc else Fold(acc * 10 + DigitValue(s[0]), s[1..])
  }

  /** The value of the numeral `s`. */
  function Value(s: string): nat
    requires AllDigits(s)
  {
    Fold(0, s)
  }

  /**
    One overflow-checked step `acc * 10 + d` in `u16`, with the two guards
    of the cursor-position parser: first `u16::MAX / 10 < acc`, then
    `u16::MAX - acc * 10 < d`. Together they fail exactly on overflow.
   */
  function AccumulateU16(acc: uint16, d: nat): (r: Option<uint16>)
    ensures r.Some? <==> acc * 10 + d <= U16_MAX
    ensures r.Some? ==> r.value == acc * 10 + d
  {
    if U16_MAX / 10 < acc then None
    else if U16_MAX - acc * 10 < d then None
    else Some(acc * 10 + d)
  }

  /** Accumulates the digits of `s` onto `acc`, failing on the first overflow. */
  function ScanU16(acc: uint16, s: string): Option<uint16>
    requires AllDigits(s)
    decreases |s|
  {
    if s == [] then Some(acc)
    else match AccumulateU16(acc, DigitValue(s[0]))
      case None => None
      case Some(next) => ScanU16(next, s[1..])
  }

  lemma {:induction false} FoldGrows(acc: nat, s: string)
    requires AllDigits(s)
    ensures Fold(acc, s) >= acc
    decreases |s|
  {
    if s != [] {
      FoldGrows(acc * 10 + DigitValue(s[0]), s[1..]);
    }
  }

  /** The checked scan succeeds exactly when the numeral's value fits in `u16`. */
  lemma {:induction false} ScanU16IsFold(acc: uint16, s: string)
    requires AllDigits(s)
    ensures ScanU16(acc, s) == if Fold(acc, s) <= U16_MAX then Some(Fold(acc, s)) else None
    decreases |s|
  {
    if s != [] {
      var n := acc * 10 + DigitValue(s[0]);
      if n <= U16_MAX {
        ScanU16IsFold(n, s[1..]);
      } else {
        FoldGrows(n, s[1..]);
      }
    }
  }

  lemma {:induction false} FoldAppend(acc: nat, a: string, b: string)
    requires AllDigits(a) && AllDigits(b)
    ensures AllDigits(a + b)
    ensures Fold(acc, a + b) == Fold(Fold(acc, a), b)
    decreases |a|
  {
    assert AllDigits(a + b);
    if a != [] {
      assert (a + b)[0] == a[0] && (a + b)[1..] == a[1..] + b;
      FoldAppend(acc * 10 + DigitValue(a[0]), a[1..], b);
    } else {
      assert a + b == b;
    }
  }

  /** Reading back the numeral `to_string` produces gives the number. */
  lemma {:induction false} ValueOfToDecimal(n: nat)
    ensures Value(ToDecimal(n)) == n
    decreases n
  {
    if n >= 10 {
      var d := [DigitChar(n % 10)];
      ValueOfToDecimal(n / 10);
      FoldAppend(0, ToDecimal(n / 10), d);
      assert d[1..] == [];
      assert Fold(n / 10, d) == Fold(n / 10 * 10 + n % 10, []);
    } else {
      var s := ToDecimal(n);
      assert s == [DigitChar(n)] && s[1..] == [];
      assert Fold(0, s) == Fold(DigitValue(s[0]), s[1..]);
    }
  }

  /** `to_string` is injective. */
  lemma ToDecimalInjective(m: nat, n: nat)
    requires ToDecimal(m) == ToDecimal(n)
    ensures m == n
  {
    ValueOfToDecimal(m);
    ValueOfToDecimal(n);
  }

  /** The checked scan of a `to_string` numeral gives back the number, or overflow. */
  lemma ScanToDecimal(n: nat)
    ensures ScanU16(0, ToDecimal(n)) == if n <= U16_MAX then Some(n) else None
  {
    ValueOfToDecimal(n);
    ScanU16IsFold(0, ToDecimal(n));
  }

  /** The digit run of a numeral followed by a non-digit is the numeral. */
  lemma {:induction false} DigitRunOfNumeral(ds: seq<char>, t: char, tail: seq<char>)
    requires AllDigits(ds) && !IsDigit(t)
    ensures DigitRun(ds + [t] + tail) == |ds|
    decreases |ds|
  {
    if ds != [] {
      assert (ds + [t] + tail)[1..] == ds[1..] + [t] + tail;
      DigitRunOfNumeral(ds[1..], t, tail);
    }
  }

  /** A numeral as `to_string` writes it: digits only, at least one, no leading zero. */
  predicate Canonical(s: string) {
    1 <= |s| && AllDigits(s) && (s[0] == '0' ==> |s| == 1)
  }

  /** A digit run is the whole of an all-digit string. */
  lemma {:induction false} DigitRunOfDigits(ds: seq<char>)
    requires AllDigits(ds)
    ensures DigitRun(ds) == |ds|
    decreases |ds|
  {
    if ds != [] {
      DigitRunOfDigits(ds[1..]);
    }
  }

  /** Every canonical numeral is the `to_string` of its value, so `to_string` is onto them. */
  lemma {:induction false} CanonicalIsToDecimal(s: string)
    requires Canonical(s)
    ensures ToDecimal(Value(s)) == s
    decreases |s|
  {
    if |s| == 1 {
      assert s[1..] == [];
      assert Value(s) == Fold(DigitValue(s[0]), s[1..]);
      assert ToDecimal(Value(s)) == [DigitChar(DigitValue(s[0]))];
    } else {
      var p := s[..|s| - 1];
      var d := s[|s| - 1..];
      assert s == p + d;
      assert p[0] == s[0];
      CanonicalIsToDecimal(p);
      FoldAppend(0, p, d);
      assert d[1..] == [];
      assert Fold(Value(p), d) == Fold(Value(p) * 10 + DigitValue(d[0]), d[1..]);
      assert Value(p) == Fold(DigitValue(p[0]), p[1..]);
      FoldGrows(DigitValue(p[0]), p[1..]);
      var n := Value(s);
      assert n == Value(p) * 10 + DigitValue(d[0]);
      assert n / 10 == Value(p) && n % 10 == DigitValue(d[0]);
      assert ToDecimal(n) == ToDecimal(n / 10) + [DigitChar(n % 10)];
    }
  }
}
