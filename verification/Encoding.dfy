/** Textual encodings: the names of data objects and the metadata attributes. */
module Encoding {
  import opened Wrappers
  import Rados

  const STRIPE_DIGITS: nat := 16
  const META_DIGITS: nat := 16

  function Pow(b: nat, n: nat): nat { if n == 0 then 1 else b * Pow(b, n - 1) }

  // ----- numbers in a base up to 16

  function DigitChar(d: nat): (c: char)
    requires d < 16
    ensures c as int == if d < 10 then '0' as int + d else 'a' as int + d - 10
  {
    "0123456789abcdef"[d]
  }

  function DigitValue(c: char): (v: int)
    ensures -1 <= v < 16
  {
    if '0' <= c <= '9' then c as int - '0' as int
    else if 'a' <= c <= 'f' then c as int - 'a' as int + 10
    else -1
  }

  lemma DigitRoundTrip(d: nat)
    requires d < 16
    ensures DigitValue(DigitChar(d)) == d
  {
  }

  function Quot(n: nat, b: nat): (q: nat)
    requires 2 <= b
    ensures n > 0 ==> q < n
  {
    QuotLess(n, b);
    n / b
  }

  lemma QuotLess(n: nat, b: nat)
    requires 2 <= b
    ensures 0 <= n / b && (n > 0 ==> n / b < n)
  {
    var q := n / b;
    assert n == b * q + n % b;
    assert q > 0 ==> b * q >= 2 * q by { assert q > 0 ==> (b - 2) * q >= 0; }
  }

  function Rem(n: nat, b: nat): (r: nat)
    requires 2 <= b
    ensures r < b
  {
    n % b
  }

  /** The value of a number with one more digit. */
  function Shift(v: nat, b: nat, d: nat): nat { v * b + d }

  lemma QuotRem(n: nat, b: nat)
    requires 2 <= b
    ensures Shift(Quot(n, b), b, Rem(n, b)) == n
  {
  }

  /** The digits of `n` without leading zeros; zero is a single digit. */
  function ToDigits(n: nat, base: nat): (s: string)
    requires 2 <= base <= 16
    ensures s != ""
    decreases n
  {
    if n < base then [DigitChar(n)] else ToDigits(Quot(n, base), base) + [DigitChar(Rem(n, base))]
  }

  /** std::setw and std::setfill('0'): fills up to `width`, and never cuts. */
  function Pad(s: string, width: nat): (r: string)
    ensures |r| == if |s| < width then width else |s|
  {
    if |s| < width then seq(width - |s|, _ => '0') + s else s
  }

  predicate AllDigits(s: string, base: nat) {
    forall i :: 0 <= i < |s| ==> 0 <= DigitValue(s[i]) < base
  }

  function FromDigits(s: string, base: nat): nat
    requires AllDigits(s, base)
  {
    if s == "" then 0 else Shift(FromDigits(s[..|s| - 1], base), base, DigitValue(s[|s| - 1]))
  }

  lemma FromSnoc(s: string, c: char, base: nat)
    requires AllDigits(s, base) && 0 <= DigitValue(c) < base
    ensures AllDigits(s + [c], base) && FromDigits(s + [c], base) == Shift(FromDigits(s, base), base, DigitValue(c))
  {
    hide DigitValue, Shift;
    assert (s + [c])[..|s + [c]| - 1] == s;
  }

  lemma {:induction false} DigitsRoundTrip(n: nat, base: nat)
    requires 2 <= base <= 16
    ensures AllDigits(ToDigits(n, base), base) && FromDigits(ToDigits(n, base), base) == n
  {
    hide DigitValue, DigitChar, FromDigits, Quot, Rem, Shift;
    if n < base {
      DigitRoundTrip(n);
      FromSnoc("", DigitChar(n), base);
      assert "" + [DigitChar(n)] == [DigitChar(n)];
      FromNothing(base);
      ShiftZero(base, n);
    } else {
      DigitRoundTrip(Rem(n, base));
      DigitsRoundTrip(Quot(n, base), base);
      FromSnoc(ToDigits(Quot(n, base), base), DigitChar(Rem(n, base)), base);
      QuotRem(n, base);
    }
  }

  lemma ShiftZero(base: nat, d: nat)
    ensures Shift(0, base, d) == d
  {
  }

  lemma FromNothing(base: nat)
    ensures FromDigits("", base) == 0
  {
  }

  lemma {:induction false} DigitsLength(n: nat, base: nat, k: nat)
    requires 2 <= base <= 16 && 0 < k && n < Pow(base, k)
    ensures |ToDigits(n, base)| <= k
    decreases k
  {
    if n >= base {
      PowOne(base);
      if k > 1 {
        DivBelow(n, base, Pow(base, k - 1));
        DigitsLength(Quot(n, base), base, k - 1);
      }
    }
  }

  lemma PowOne(b: nat)
    ensures Pow(b, 1) == b
  {
    assert Pow(b, 0) == 1;
  }

  lemma DivBelow(n: nat, b: nat, m: nat)
    requires 0 < b && n < b * m
    ensures n / b < m
  {
    var q := n / b;
    assert b * q <= n;
    assert q >= m ==> b * q >= b * m by { assert q >= m ==> b * (q - m) >= 0; }
  }

  lemma {:induction false} ZerosDoNotCount(z: nat, s: string, base: nat)
    requires 2 <= base <= 16 && AllDigits(s, base)
    ensures AllDigits(seq(z, _ => '0') + s, base) && FromDigits(seq(z, _ => '0') + s, base) == FromDigits(s, base)
    decreases |s|, z
  {
    hide Shift;
    var p := seq(z, _ => '0') + s;
    if s != "" {
      ZerosDoNotCount(z, s[..|s| - 1], base);
      assert p[..|p| - 1] == seq(z, _ => '0') + s[..|s| - 1];
    } else if z > 0 {
      assert p[..|p| - 1] == seq(z - 1, _ => '0') + s;
      ZerosDoNotCount(z - 1, s, base);
      ShiftZero(base, 0);
    } else {
      assert p == s;
    }
  }

  /** Padding keeps the value. */
  lemma PadRoundTrip(n: nat, base: nat, width: nat)
    requires 2 <= base <= 16
    ensures AllDigits(Pad(ToDigits(n, base), width), base)
    ensures FromDigits(Pad(ToDigits(n, base), width), base) == n
  {
    hide ToDigits, FromDigits, DigitValue;
    var s := ToDigits(n, base);
    DigitsRoundTrip(n, base);
    if |s| < width { ZerosDoNotCount(width - |s|, s, base); }
  }

  // ----- object names

  /** The name of the object that holds byte `off` of file `oid`. */
  function Soid(oid: string, off: nat): string {
    oid + "." + Pad(ToDigits(off / Rados.OBJECT_SIZE, 16), STRIPE_DIGITS)
  }

  lemma SuffixLength(off: nat)
    requires off < 0x1_0000_0000_0000_0000
    ensures |Pad(ToDigits(off / Rados.OBJECT_SIZE, 16), STRIPE_DIGITS)| == STRIPE_DIGITS
  {
    PowSixteen();
    DigitsLength(off / Rados.OBJECT_SIZE, 16, 11);
  }

  lemma PowSixteen()
    ensures Pow(16, 11) == 0x1000_0000_0000
  {
    assert Pow(16, 2) == 256 && Pow(16, 1) == 16;
    assert Pow(16, 4) == 16 * (16 * Pow(16, 2)) == 0x1_0000;
    assert Pow(16, 6) == 16 * (16 * Pow(16, 4)) == 0x100_0000;
    assert Pow(16, 8) == 16 * (16 * Pow(16, 6)) == 0x1_0000_0000;
    assert Pow(16, 10) == 16 * (16 * Pow(16, 8)) == 0x100_0000_0000;
  }

  /** A name is the file name, a dot, and the stripe as 16 lower-case hexadecimal digits. */
  lemma SoidFormat(oid: string, off: nat)
    requires off < 0x1_0000_0000_0000_0000
    ensures
      var s := Soid(oid, off);
      && |s| == |oid| + 17 && s[..|oid|] == oid && s[|oid|] == '.'
      && (forall i :: |oid| < i < |s| ==> '0' <= s[i] <= '9' || 'a' <= s[i] <= 'f')
      && AllDigits(s[|oid| + 1..], 16) && FromDigits(s[|oid| + 1..], 16) == off / 0x40_0000
  {
    hide ToDigits, Pad, FromDigits;
    var s, t := Soid(oid, off), Pad(ToDigits(off / Rados.OBJECT_SIZE, 16), STRIPE_DIGITS);
    SuffixLength(off);
    PadRoundTrip(off / Rados.OBJECT_SIZE, 16, STRIPE_DIGITS);
    assert s[|oid| + 1..] == t;
    forall i | |oid| < i < |s| ensures '0' <= s[i] <= '9' || 'a' <= s[i] <= 'f' {
      assert s[i] == t[i - |oid| - 1];
    }
  }

  /** Over all files and all 64-bit offsets, two names are equal exactly when the files are
      the same and the offsets lie in the same object. */
  lemma SoidInjective(oid: string, off: nat, oid': string, off': nat)
    requires off < 0x1_0000_0000_0000_0000 && off' < 0x1_0000_0000_0000_0000
    ensures Soid(oid, off) == Soid(oid', off') <==> oid == oid' && off / Rados.OBJECT_SIZE == off' / Rados.OBJECT_SIZE
  {
    if Soid(oid, off) == Soid(oid', off') {
      SuffixLength(off);
      SuffixLength(off');
      var h, h' := Pad(ToDigits(off / Rados.OBJECT_SIZE, 16), 16), Pad(ToDigits(off' / Rados.OBJECT_SIZE, 16), 16);
      var s := Soid(oid, off);
      assert s[..|s| - 17] == oid == oid';
      assert s[|s| - 16..] == h == h';
      PadRoundTrip(off / Rados.OBJECT_SIZE, 16, 16);
      PadRoundTrip(off' / Rados.OBJECT_SIZE, 16, 16);
    }
  }

  // ----- metadata values

  function Uint2Bl(v: nat): string {
    Pad(ToDigits(v, 10), META_DIGITS)
  }

  /** An attribute is the value in decimal digits, filled up to 16 of them with zeros. */
  lemma Uint2BlFormat(v: nat)
    ensures
      var s := Uint2Bl(v);
      && AllDigits(s, 10) && FromDigits(s, 10) == v && |s| >= 16 && (v < Pow(10, 16) ==> |s| == 16)
      && (|s| > 16 ==> s[0] != '0')
  {
    hide FromDigits, DigitValue, Pow;
    PadRoundTrip(v, 10, 16);
    if v < Pow(10, 16) { DigitsLength(v, 10, 16); }
    if |Uint2Bl(v)| > 16 { NoLeadingZero(v, 10); }
  }

  lemma {:induction false} NoLeadingZero(n: nat, base: nat)
    requires 2 <= base <= 16 && n > 0
    ensures ToDigits(n, base)[0] != '0'
  {
    if n >= base {
      QuotPositive(n, base);
      NoLeadingZero(Quot(n, base), base);
    }
  }

  lemma QuotPositive(n: nat, b: nat)
    requires 2 <= b <= n
    ensures Quot(n, b) > 0
  {
  }

  /** strict_strtoll in base 10 on unsigned text: everything must be a digit, and the value
      must fit a signed 64-bit integer. */
  function StrictStrtoll(s: string): Option<nat> {
    if s == "" || !AllDigits(s, 10) then None
    else if FromDigits(s, 10) >= 0x8000_0000_0000_0000 then None
    else Some(FromDigits(s, 10))
  }

  /** An attribute reads back as the value that was written, including values of more than
      16 digits, exactly when it fits a signed 64-bit integer. */
  lemma MetadataRoundTrip(v: nat)
    ensures StrictStrtoll(Uint2Bl(v)) == Some(v) <==> v < 0x8000_0000_0000_0000
  {
    PadRoundTrip(v, 10, META_DIGITS);
  }
}
