/**
 * The encryption helper: the fixed-point zero-balance test the scanners use
 * to drop zero-value transfers, and the lazily built encrypter.
 *
 * `isZeroBalance($balance, $decimals)` renders the balance with exactly
 * `decimals` fraction digits (`number_format`), multiplies that text by
 * 10^decimals with `bcmul` at scale 0 and compares the product with '0'.
 * Here the balance is an exact real, the rendering is a sign with digit
 * sequences, and `bcmul` is exact multiplication truncated towards zero.
 */
module EncryptionHelper {
  import opened Wrappers
  import opened Values
  import opened Numerals

  const DefaultDecimals: nat := 18

  /** What `number_format($x, $decimals, '.', '')` prints: a sign, the integer digits, the fraction digits. */
  datatype Rendering = Rendering(negative: bool, whole: seq<Digit>, fraction: seq<Digit>)

  /** PHP's rounding to an integer: halves go away from zero. */
  function RoundHalfAwayFromZero(x: real): int {
    if x >= 0.0 then (x + 0.5).Floor else -((-x + 0.5).Floor)
  }

  /** `x` counted in units of 1/`p`. */
  function ScaledBy(x: real, p: nat): real {
    x * p as real
  }

  /** `x` counted in units of 10^-decimals. */
  function Scaled(x: real, decimals: nat): real {
    ScaledBy(x, Pow10(decimals))
  }

  /** `number_format($x, $decimals, '.', '')`: round to `decimals` places and print at least one integer digit. */
  function NumberFormat(x: real, decimals: nat): (r: Rendering)
    ensures |r.fraction| == decimals && |r.whole| >= 1
  {
    var units := RoundHalfAwayFromZero(Scaled(x, decimals));
    var magnitude := if units < 0 then -units else units;
    var ds := ToDigits(magnitude, decimals + 1);
    ToDigitsValue(magnitude, decimals + 1);
    Rendering(units < 0, ds[..|ds| - decimals], ds[|ds| - decimals..])
  }

  /** `k` zero digits. */
  function Zeros(k: nat): (z: seq<Digit>)
    ensures |z| == k && forall i :: 0 <= i < k ==> z[i] == 0
  {
    seq(k, _ => 0)
  }

  /**
   * `bcmul($rendered, bcpow('10', $decimals, 0), 0)`: multiplying the decimal
   * text by 10^decimals moves the point `decimals` places to the right, and
   * scale 0 drops every digit still after it; the sign is kept, and a zero
   * product is plain '0'.
   */
  function ShiftedProduct(r: Rendering, decimals: nat): int {
    var digits :=
      if decimals <= |r.fraction| then r.whole + r.fraction[..decimals]
      else r.whole + r.fraction + Zeros(decimals - |r.fraction|);
    if r.negative then 0 - DigitsValue(digits) else DigitsValue(digits)
  }

  /** `isZeroBalance($balance, $decimals)`. */
  predicate IsZeroBalance(balance: real, decimals: nat) {
    ShiftedProduct(NumberFormat(balance, decimals), decimals) == 0
  }

  // Reference reading of the rendering as an exact number, to check the digit shift against.

  /** Truncation towards zero. */
  function Truncate(x: real): int {
    if x >= 0.0 then x.Floor else -((-x).Floor)
  }

  /** The number a rendering spells: integer part plus fraction digits over their scale, signed. */
  function Spelled(negative: bool, w: nat, f: nat, scale: nat): real
    requires scale >= 1
  {
    var m := w as real + f as real / scale as real;
    if negative then -m else m
  }

  /** Truncating a spelled number multiplied by its own scale gives its digits without the point. */
  lemma SpelledTimesScale(negative: bool, w: nat, f: nat, p: nat)
    requires p >= 1
    ensures Truncate(ScaledBy(Spelled(negative, w, f, p), p))
         == (if negative then -1 else 1) * (w * p + f)
  {
    var pr := p as real;
    var m := w as real + f as real / pr;
    assert (f as real / pr) * pr == f as real;
    assert m * pr == w as real * pr + (f as real / pr) * pr;
    assert (w * p) as real == w as real * pr;
    assert m * pr == (w * p + f) as real;
    if negative {
      assert (-m) * pr == -(m * pr);
    }
  }

  /**
   * With exactly `decimals` fraction digits the digit shift is exact
   * multiplication: the product is the rendered number times 10^decimals.
   */
  lemma ShiftIsExactProduct(r: Rendering, decimals: nat)
    requires |r.fraction| == decimals
    ensures ShiftedProduct(r, decimals)
         == Truncate(Scaled(Spelled(r.negative, DigitsValue(r.whole), DigitsValue(r.fraction), Pow10(decimals)),
                            decimals))
  {
    var w, f, p := DigitsValue(r.whole), DigitsValue(r.fraction), Pow10(decimals);
    assert r.fraction[..decimals] == r.fraction;
    DigitsValueAppend(r.whole, r.fraction);
    SpelledTimesScale(r.negative, w, f, p);
  }

  /** The product is the balance times 10^decimals, rounded half away from zero. */
  lemma NumberFormatScaled(x: real, decimals: nat)
    ensures ShiftedProduct(NumberFormat(x, decimals), decimals)
         == RoundHalfAwayFromZero(Scaled(x, decimals))
  {
    var units := RoundHalfAwayFromZero(Scaled(x, decimals));
    var magnitude := if units < 0 then -units else units;
    var ds := ToDigits(magnitude, decimals + 1);
    ToDigitsValue(magnitude, decimals + 1);
    var r := NumberFormat(x, decimals);
    assert r.fraction[..decimals] == r.fraction;
    assert r.whole + r.fraction == ds;
  }

  /** Rounding half away from zero gives 0 exactly on the open interval (-1/2, 1/2). */
  lemma RoundsToZero(y: real)
    ensures RoundHalfAwayFromZero(y) == 0 <==> -0.5 < y < 0.5
  {
  }

  /** The balance counts as zero exactly when it is less than half a smallest unit away from zero. */
  lemma IsZeroBalanceIffBelowHalfUnit(x: real, decimals: nat)
    ensures IsZeroBalance(x, decimals)
        <==> -0.5 < Scaled(x, decimals) < 0.5
  {
    NumberFormatScaled(x, decimals);
    RoundsToZero(Scaled(x, decimals));
  }

  /** Dividing by a positive scale and measuring in that scale again is exact. */
  lemma ScaledQuotient(u: int, p: nat)
    requires p >= 1
    ensures ScaledBy(u as real / p as real, p) == u as real
  {
  }

  /** A whole number rounds to itself. */
  lemma RoundWhole(u: int)
    ensures RoundHalfAwayFromZero(u as real) == u
  {
  }

  /**
   * An amount of `units` smallest units, divided down to the display unit,
   * renders and scales back to exactly `units`; so it counts as zero exactly
   * when `units` is zero.
   */
  lemma SmallestUnitsRoundTrip(units: int, decimals: nat)
    ensures ShiftedProduct(NumberFormat(units as real / Pow10(decimals) as real, decimals), decimals)
         == units
    ensures IsZeroBalance(units as real / Pow10(decimals) as real, decimals) <==> units == 0
  {
    var p := Pow10(decimals);
    var x := units as real / p as real;
    ScaledQuotient(units, p);
    assert Scaled(x, decimals) == units as real;
    RoundWhole(units);
    NumberFormatScaled(x, decimals);
  }

  /** The result is false as soon as one rendered digit, before or after the point, is not zero. */
  lemma ZeroIffEveryDigitZero(x: real, decimals: nat)
    ensures var r := NumberFormat(x, decimals);
      (IsZeroBalance(x, decimals)
       <==> (forall i :: 0 <= i < |r.whole| ==> r.whole[i] == 0)
            && (forall i :: 0 <= i < |r.fraction| ==> r.fraction[i] == 0))
  {
    var r := NumberFormat(x, decimals);
    var ds := r.whole + r.fraction;
    assert r.fraction[..decimals] == r.fraction;
    DigitsValueZero(ds);
    assert forall i :: 0 <= i < |r.whole| ==> ds[i] == r.whole[i];
    assert forall i :: 0 <= i < |r.fraction| ==> ds[|r.whole| + i] == r.fraction[i];
  }

  /** A tenth of one unit of a scale, measured in that scale. */
  lemma TenthOfScale(p: nat)
    requires p >= 1
    ensures ScaledBy(1.0 / (10 * p) as real, p) == 0.1
  {
    var q := (10 * p) as real;
    assert q == 10.0 * p as real;
    assert (1.0 / q) * q == 1.0;
  }

  /** Zero counts as zero at any precision. */
  lemma ZeroIsZero(decimals: nat)
    ensures IsZeroBalance(0.0, decimals)
  {
    assert Scaled(0.0, decimals) == 0.0;
    IsZeroBalanceIffBelowHalfUnit(0.0, decimals);
  }

  /** One smallest unit does not count as zero. */
  lemma OneUnitIsNotZero(decimals: nat)
    ensures !IsZeroBalance(1.0 / Pow10(decimals) as real, decimals)
  {
    SmallestUnitsRoundTrip(1, decimals);
  }

  /** A tenth of a smallest unit rounds away and counts as zero. */
  lemma TenthOfUnitIsZero(decimals: nat)
    ensures IsZeroBalance(1.0 / (10 * Pow10(decimals)) as real, decimals)
  {
    var p := Pow10(decimals);
    TenthOfScale(p);
    IsZeroBalanceIffBelowHalfUnit(1.0 / (10 * p) as real, decimals);
  }

  /** At the default 18 decimals: zero is zero, one wei is not, and a tenth of a wei is. */
  lemma DefaultPrecisionExamples()
    ensures IsZeroBalance(0.0, DefaultDecimals)
    ensures !IsZeroBalance(1.0 / Pow10(18) as real, DefaultDecimals)
    ensures IsZeroBalance(1.0 / (10 * Pow10(18)) as real, DefaultDecimals)
  {
    ZeroIsZero(DefaultDecimals);
    OneUnitIsNotZero(DefaultDecimals);
    TenthOfUnitIsZero(DefaultDecimals);
  }

  // ---------------------------------------------------------------- the encrypter

  /** The encrypter the helper builds, from the decoded key and the cipher string it passes. */
  class Encrypter {
    const key: string
    const cipher: string

    constructor (key: string, cipher: string)
      ensures this.key == key && this.cipher == cipher
    {
      this.key := key;
      this.cipher := cipher;
    }
  }

  /** ASCII lower case of one character. */
  function LowerChar(c: char): char {
    if 'A' <= c <= 'Z' then (c as int + 32) as char else c
  }

  /** ASCII lower case, as `strtolower` folds the variable's text. */
  function Lower(s: string): string {
    seq(|s|, k requires 0 <= k < |s| => LowerChar(s[k]))
  }

  /** The text is wrapped in a pair of matching quotes with no line break between them. */
  predicate Quoted(s: string) {
    |s| >= 2 && (s[0] == '"' || s[0] == '\'') && s[|s| - 1] == s[0] && '\n' !in s[1..|s| - 1]
  }

  /** The words `env()` reads as a value rather than as text. */
  const EnvWords: set<string> :=
    {"true", "(true)", "false", "(false)", "empty", "(empty)", "null", "(null)"}

  /**
   * The framework's `env($name)` on the variable's raw text: the words true,
   * false, empty and null, bare or in parentheses and in any case, become
   * true, false, '' and null; a quoted text loses its quotes; anything else
   * is returned as it is, and an unset variable is null.
   */
  function EnvValue(raw: Option<string>): (v: Value)
    ensures raw.None? ==> v == Null
    ensures raw.Some? && Lower(raw.value) in {"false", "(false)"} ==> v == Bool(false)
    ensures raw.Some? && Lower(raw.value) in {"null", "(null)"} ==> v == Null
    ensures raw.Some? && Lower(raw.value) in {"empty", "(empty)"} ==> v == Str("")
    ensures raw.Some? && Lower(raw.value) in {"true", "(true)"} ==> v == Bool(true)
    ensures raw.Some? && Lower(raw.value) !in EnvWords && Quoted(raw.value) ==>
      v == Str(raw.value[1..|raw.value| - 1])
    ensures raw.Some? && Lower(raw.value) !in EnvWords && !Quoted(raw.value) ==> v == Str(raw.value)
  {
    match raw
    case None => Null
    case Some(s) =>
      var word := Lower(s);
      if word == "true" || word == "(true)" then Bool(true)
      else if word == "false" || word == "(false)" then Bool(false)
      else if word == "empty" || word == "(empty)" then Str("")
      else if word == "null" || word == "(null)" then Null
      else if Quoted(s) then Str(s[1..|s| - 1])
      else Str(s)
  }

  /** `ENCRYPTION_KEY` counts as missing when `env()` gives a falsy value. */
  predicate KeyIsSet(env: Option<string>) {
    Truthy(EnvValue(env))
  }

  const KeyNotSet: Thrown := Thrown(PlainException, "Custom encryption key is not set", 0)

  /** `getEncryptionKey()`: the base64-decoded text of the variable, or the exception when it is falsy. */
  function GetEncryptionKey(env: Option<string>, base64Decode: string -> string): (r: Result<string, Thrown>)
    ensures r.Failure? <==> !KeyIsSet(env)
    ensures r.Failure? ==> r.error == KeyNotSet
    ensures r.Success? ==> r.value == base64Decode(TextOf(EnvValue(env)))
  {
    var key := EnvValue(env);
    if !Truthy(key) then Failure(KeyNotSet) else Success(base64Decode(TextOf(key)))
  }

  /**
   * A variable gives a key exactly when it is the word true, or when it is
   * none of `env()`'s words and its text, quotes removed, is neither '' nor '0'.
   */
  lemma KeyIsSetIff(raw: string)
    ensures KeyIsSet(Some(raw)) <==>
      Lower(raw) in {"true", "(true)"}
      || (Lower(raw) !in EnvWords && (if Quoted(raw) then raw[1..|raw| - 1] else raw) !in {"", "0"})
  {
  }

  /** A word that `env()` maps to false, null or '' leaves the key unset. */
  lemma NoKeyForFalsyWord(raw: string)
    requires Lower(raw) in {"false", "(false)", "empty", "(empty)", "null", "(null)"}
    ensures !KeyIsSet(Some(raw))
  {
  }

  /** The words false, null and empty leave the key unset whatever their case. */
  lemma {:induction false} FalsyWordsAreNoKey()
    ensures !KeyIsSet(Some("false")) && !KeyIsSet(Some("(FALSE)"))
    ensures !KeyIsSet(Some("Null")) && !KeyIsSet(Some("empty"))
  {
    assert Lower("false") == "false";
    NoKeyForFalsyWord("false");
    assert Lower("(FALSE)") == "(false)";
    NoKeyForFalsyWord("(FALSE)");
    assert Lower("Null") == "null";
    NoKeyForFalsyWord("Null");
    assert Lower("empty") == "empty";
    NoKeyForFalsyWord("empty");
  }

  /** An unset variable, '', '0' and a quoted empty text leave the key unset; the word true is the key '1'. */
  lemma {:induction false} OtherTextsAndKey()
    ensures !KeyIsSet(None) && !KeyIsSet(Some("")) && !KeyIsSet(Some("0"))
    ensures !KeyIsSet(Some("\"\""))
    ensures KeyIsSet(Some("true")) && TextOf(EnvValue(Some("true"))) == "1"
  {
    assert Lower("0") == "0";
    assert Lower("\"\"") == "\"\"";
    assert Lower("true") == "true";
  }

  /** The helper's static state: the encrypter built by the first successful call, if any. */
  class EncryptionHelper {
    var encrypter: Encrypter?

    constructor ()
      ensures encrypter == null
    {
      encrypter := null;
    }

    /**
     * Returns the cached encrypter, building it on the first call from the
     * key and the empty cipher name. `construct(key, cipher)` is what the
     * framework's `new Encrypter($key, $cipher)` throws, if anything. A
     * missing key or a refused construction throws and leaves the cache empty.
     */
    method GetEncrypter(env: Option<string>, base64Decode: string -> string,
                        construct: (string, string) -> Option<Thrown>)
      returns (r: Result<Encrypter, Thrown>)
      modifies this
      ensures old(encrypter) != null ==> r == Success(old(encrypter)) && encrypter == old(encrypter)
      ensures old(encrypter) == null && !KeyIsSet(env) ==> r == Failure(KeyNotSet) && encrypter == null
      ensures old(encrypter) == null && KeyIsSet(env)
              && construct(base64Decode(TextOf(EnvValue(env))), "").Some? ==>
        r == Failure(construct(base64Decode(TextOf(EnvValue(env))), "").value) && encrypter == null
      ensures old(encrypter) == null && KeyIsSet(env)
              && construct(base64Decode(TextOf(EnvValue(env))), "").None? ==>
        r.Success? && fresh(r.value) && r.value.key == base64Decode(TextOf(EnvValue(env)))
        && r.value.cipher == ""
        && encrypter == r.value
    {
      if encrypter == null {
        var key := GetEncryptionKey(env, base64Decode);
        if key.Failure? {
          return Failure(key.error);
        }
        var refused := construct(key.value, "");
        if refused.Some? {
          return Failure(refused.value);
        }
        encrypter := new Encrypter(key.value, "");
      }
      r := Success(encrypter);
    }
  }

  /** Once a call has succeeded, every later call returns that same object, whatever the key then is. */
  method RepeatedGetEncrypter(helper: EncryptionHelper, env1: Option<string>, env2: Option<string>,
                              base64Decode: string -> string, construct: (string, string) -> Option<Thrown>)
    returns (first: Result<Encrypter, Thrown>, second: Result<Encrypter, Thrown>)
    modifies helper
    ensures first.Success? ==> second == first
    ensures old(helper.encrypter) == null && !KeyIsSet(env1) ==> first.Failure?
    ensures old(helper.encrypter) == null && (forall k :: construct(k, "").Some?) ==>
      first.Failure? && second.Failure? && helper.encrypter == null
  {
    first := helper.GetEncrypter(env1, base64Decode, construct);
    second := helper.GetEncrypter(env2, base64Decode, construct);
  }
}
