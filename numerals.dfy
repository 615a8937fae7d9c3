/**
 * Number texts as the adapters read and write them: PHP's `hexdec` and
 * `dechex` for the hex quantities of the EVM JSON-RPC interface, and
 * decimal digit sequences for the fixed-point balance check.
 */
module Numerals {

  /** 2^64: PHP integers are 64 bits wide, and `dechex` prints them unsigned. */
  const Word: nat := 0x1_0000_0000_0000_0000

  function Pow10(e: nat): (r: nat)
    ensures r >= 1
  {
    if e == 0 then 1 else 10 * Pow10(e - 1)
  }

  // ---------------------------------------------------------------- hexadecimal

  predicate IsHexChar(c: char) {
    '0' <= c <= '9' || 'a' <= c <= 'f' || 'A' <= c <= 'F'
  }

  function HexCharValue(c: char): (d: nat)
    requires IsHexChar(c)
    ensures d < 16
  {
    if '0' <= c <= '9' then c as nat - '0' as nat
    else if 'a' <= c <= 'f' then c as nat - 'a' as nat + 10
    else c as nat - 'A' as nat + 10
  }

  /**
   * PHP's `hexdec`: the number spelt by the hexadecimal digits of `s`, read
   * most significant first; every other character (the `x` of a `0x`
   * prefix, say) is skipped.
   */
  function HexDec(s: string): nat {
    if s == [] then 0
    else
      var init, last := s[..|s| - 1], s[|s| - 1];
      if IsHexChar(last) then HexDec(init) * 16 + HexCharValue(last) else HexDec(init)
  }

  function HexChar(d: nat): char
    requires d < 16
  {
    if d < 10 then ('0' as int + d) as char else ('a' as int + d - 10) as char
  }

  /** Lower-case hexadecimal digits of `n` without leading zeros; "0" for zero. */
  function HexDigits(n: nat): string {
    if n < 16 then [HexChar(n)] else HexDigits(n / 16) + [HexChar(n % 16)]
  }

  /**
   * PHP's `dechex` on a 64-bit integer: a negative argument is printed as
   * its two's complement, that is, as `n + 2^64`.
   */
  function DecHex(n: int): string {
    HexDigits(n % Word)
  }

  lemma HexCharRoundTrip(d: nat)
    requires d < 16
    ensures IsHexChar(HexChar(d)) && HexCharValue(HexChar(d)) == d
  {
  }

  /** `hexdec` inverts the digits `dechex` prints for a non-negative number. */
  lemma {:induction false} HexDecOfHexDigits(n: nat)
    ensures HexDec(HexDigits(n)) == n
  {
    var s := HexDigits(n);
    HexCharRoundTrip(n % 16);
    if n < 16 {
      assert s[..|s| - 1] == [];
    } else {
      HexDecOfHexDigits(n / 16);
      assert s[..|s| - 1] == HexDigits(n / 16);
    }
  }

  /** A prefix without non-zero hex digits, such as "0x", does not change what `hexdec` reads. */
  lemma {:induction false} HexDecSkipsZeroPrefix(p: string, s: string)
    requires HexDec(p) == 0
    ensures HexDec(p + s) == HexDec(s)
  {
    if s == [] {
      assert p + s == p;
    } else {
      var init := s[..|s| - 1];
      HexDecSkipsZeroPrefix(p, init);
      assert (p + s)[..|p + s| - 1] == p + init;
      assert (p + s)[|p + s| - 1] == s[|s| - 1];
    }
  }

  lemma HexDecOfPrefix()
    ensures HexDec("0x") == 0
  {
    assert "0x"[..1] == "0";
    assert "0"[..0] == "";
  }

  /** A quantity sent as `'0x' . dechex(n)` reads back as `n` when it fits in 64 unsigned bits. */
  lemma PrefixedDecHexRoundTrip(n: int)
    requires 0 <= n < Word
    ensures HexDec("0x" + DecHex(n)) == n
  {
    var digits := DecHex(n);
    assert digits == HexDigits(n);
    HexDecOfPrefix();
    HexDecSkipsZeroPrefix("0x", digits);
    HexDecOfHexDigits(n);
  }

  /** A negative height sent as `'0x' . dechex(n)` reads back as `n + 2^64`, not as `n`. */
  lemma PrefixedDecHexOfNegative(n: int)
    requires 0 <= n + Word && n < 0
    ensures HexDec("0x" + DecHex(n)) == n + Word
  {
    var digits := DecHex(n);
    assert digits == HexDigits(n + Word);
    HexDecOfPrefix();
    HexDecSkipsZeroPrefix("0x", digits);
    HexDecOfHexDigits(n + Word);
  }

  // ---------------------------------------------------------------- ranges

  /** A number in [lo, h + 1) is one in [lo, h), or `h` itself. */
  lemma SplitRange(p: int -> bool, lo: int, h: int)
    ensures (exists i :: lo <= i < h + 1 && p(i)) <==> (exists i :: lo <= i < h && p(i)) || (lo <= h && p(h))
  {
    if exists i :: lo <= i < h + 1 && p(i) {
      var i :| lo <= i < h + 1 && p(i);
      if i < h {
        assert lo <= i < h && p(i);
      }
    }
  }

  // ---------------------------------------------------------------- decimal

  type Digit = d: int | 0 <= d <= 9

  /** The number spelt by the decimal digits `ds`, most significant first. */
  function DigitsValue(ds: seq<Digit>): nat {
    if ds == [] then 0 else DigitsValue(ds[..|ds| - 1]) * 10 + ds[|ds| - 1]
  }

  /** `n` in decimal with at least `width` digits, zero-padded on the left. */
  function ToDigits(n: nat, width: nat): seq<Digit>
    decreases n, width
  {
    if n == 0 && width == 0 then []
    else ToDigits(n / 10, if width > 0 then width - 1 else 0) + [n % 10]
  }

  function DigitChar(d: Digit): char {
    ('0' as int + d) as char
  }

  /** `n` in decimal text with at least `width` digits, zero-padded on the left (`sprintf('%0{width}d')`). */
  function Padded(n: nat, width: nat): string {
    var ds := ToDigits(n, width);
    seq(|ds|, i requires 0 <= i < |ds| => DigitChar(ds[i]))
  }

  /** Decimal text of a natural number, as PHP prints an integer. */
  function DecString(n: nat): string {
    Padded(n, 1)
  }

  lemma {:induction false} ToDigitsValue(n: nat, width: nat)
    ensures DigitsValue(ToDigits(n, width)) == n
    ensures |ToDigits(n, width)| >= width
    decreases n, width
  {
    if n == 0 && width == 0 {
    } else {
      var w := if width > 0 then width - 1 else 0;
      ToDigitsValue(n / 10, w);
      var ds := ToDigits(n, width);
      assert ds[..|ds| - 1] == ToDigits(n / 10, w);
    }
  }

  /** One more digit multiplies a shifted prefix's place value by ten. */
  lemma ShiftByOneDigit(a: int, p: int, v: int, d: int)
    ensures (a * p + v) * 10 + d == a * (p * 10) + (v * 10 + d)
  {
  }

  /** Reading the digits of `a` followed by those of `b` shifts `a` by `|b|` places. */
  lemma {:induction false} DigitsValueAppend(a: seq<Digit>, b: seq<Digit>)
    ensures DigitsValue(a + b) == DigitsValue(a) * Pow10(|b|) + DigitsValue(b)
  {
    if b == [] {
      assert a + b == a;
    } else {
      var init := b[..|b| - 1];
      DigitsValueAppend(a, init);
      assert (a + b)[..|a + b| - 1] == a + init;
      assert (a + b)[|a + b| - 1] == b[|b| - 1];
      assert DigitsValue(a + b) == DigitsValue(a + init) * 10 + b[|b| - 1];
      assert DigitsValue(b) == DigitsValue(init) * 10 + b[|b| - 1];
      assert Pow10(|b|) == Pow10(|init|) * 10;
      ShiftByOneDigit(DigitsValue(a), Pow10(|init|), DigitsValue(init), b[|b| - 1]);
    }
  }

  /** A digit sequence spells zero exactly when every digit is zero. */
  lemma {:induction false} DigitsValueZero(ds: seq<Digit>)
    ensures DigitsValue(ds) == 0 <==> forall i :: 0 <= i < |ds| ==> ds[i] == 0
  {
    if ds != [] {
      var init := ds[..|ds| - 1];
      DigitsValueZero(init);
      assert forall i :: 0 <= i < |init| ==> init[i] == ds[i];
    }
  }

  /** A non-empty string of decimal digits only. */
  predicate IsDecimal(s: string) {
    |s| > 0 && forall i :: 0 <= i < |s| ==> '0' <= s[i] <= '9'
  }

  /** The number a string of decimal digits spells. */
  function DecimalOf(s: string): nat
    requires forall i :: 0 <= i < |s| ==> '0' <= s[i] <= '9'
  {
    if s == [] then 0 else DecimalOf(s[..|s| - 1]) * 10 + (s[|s| - 1] as nat - '0' as nat)
  }

  /** A one-digit decimal string spells its digit. */
  lemma DecimalOfOneDigit(s: string)
    requires |s| == 1 && '0' <= s[0] <= '9'
    ensures IsDecimal(s) && DecimalOf(s) == s[0] as nat - '0' as nat
  {
    assert s[..0] == [];
  }

  /** A two-digit decimal string spells ten times its first digit plus its second. */
  lemma DecimalOfTwoDigits(s: string)
    requires |s| == 2 && '0' <= s[0] <= '9' && '0' <= s[1] <= '9'
    ensures IsDecimal(s) && DecimalOf(s) == (s[0] as nat - '0' as nat) * 10 + (s[1] as nat - '0' as nat)
  {
    DecimalOfOneDigit(s[..1]);
  }

  lemma {:induction false} DecimalOfDigitChars(ds: seq<Digit>)
    ensures var s := seq(|ds|, i requires 0 <= i < |ds| => DigitChar(ds[i]));
      (forall i :: 0 <= i < |s| ==> '0' <= s[i] <= '9') && DecimalOf(s) == DigitsValue(ds)
  {
    var s := seq(|ds|, i requires 0 <= i < |ds| => DigitChar(ds[i]));
    if ds != [] {
      var init := ds[..|ds| - 1];
      DecimalOfDigitChars(init);
      assert s[..|s| - 1] == seq(|init|, i requires 0 <= i < |init| => DigitChar(init[i]));
    }
  }

  /** Padded decimal text reads back as the number it was made from. */
  lemma PaddedRoundTrip(n: nat, width: nat)
    ensures |Padded(n, width)| >= width
    ensures forall i :: 0 <= i < |Padded(n, width)| ==> '0' <= Padded(n, width)[i] <= '9'
    ensures DecimalOf(Padded(n, width)) == n
  {
    ToDigitsValue(n, width);
    DecimalOfDigitChars(ToDigits(n, width));
  }

  /** A number below 10^width takes exactly `width` digits. */
  lemma {:induction false} ToDigitsWidth(n: nat, width: nat)
    requires n < Pow10(width)
    ensures |ToDigits(n, width)| == width
    decreases width
  {
    if width > 0 {
      ToDigitsWidth(n / 10, width - 1);
    }
  }

  /** Below 10^width, padding to `width` is a fixed-width, one-to-one rendering. */
  lemma PaddedFixedWidth(a: nat, b: nat, width: nat)
    requires a < Pow10(width) && b < Pow10(width)
    ensures |Padded(a, width)| == width
    ensures Padded(a, width) == Padded(b, width) <==> a == b
  {
    ToDigitsWidth(a, width);
    PaddedRoundTrip(a, width);
    PaddedRoundTrip(b, width);
  }

  /** PHP prints a natural number as a decimal string that reads back as that number. */
  lemma DecStringRoundTrip(n: nat)
    ensures IsDecimal(DecString(n)) && DecimalOf(DecString(n)) == n
  {
    PaddedRoundTrip(n, 1);
  }

  /** The number of integers from `lo` up to `hi`: how many heights a block window holds. */
  function Span(lo: int, hi: int): nat {
    if lo <= hi then hi - lo + 1 else 0
  }
}
