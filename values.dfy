/**
 * The values the adapters receive from their nodes and client libraries:
 * what `json_decode($body, true)` produces (null, booleans, integers,
 * floats, strings, lists and associative arrays), with the PHP reading of
 * truthiness, `isset`, `??`, `foreach` and `hexdec` on them; and the
 * exceptions the adapters throw.
 */
module Values {
  import Numerals
  import opened Wrappers

  datatype Value =
    | Null
    | Bool(b: bool)
    | Int(i: int)
    | Float(x: real)                        // a JSON number with a fraction, taken exactly
    | Str(s: string)
    | List(items: seq<Value>)               // an array with keys 0, 1, 2, ...
    | Assoc(members: seq<(string, Value)>)  // an array with string keys, in insertion order

  /** Exception classes the modelled code throws or lets through. */
  datatype ExceptionKind =
    | PlainException        // \Exception
    | InvalidArgument       // \InvalidArgumentException
    | TronError             // TronException
    | TypeError             // a PHP \TypeError, which `catch (\Exception)` does not catch
    | DivisionByZero        // a PHP \DivisionByZeroError, likewise not an \Exception

  datatype Thrown = Thrown(kind: ExceptionKind, message: string, code: int)

  /** The outcome of one request to a node: the decoded result, or what was thrown. */
  type Answer = Result<Value, Thrown>

  /** PHP truthiness (`if ($v)`, `!empty($v)`). */
  predicate Truthy(v: Value) {
    match v
    case Null => false
    case Bool(b) => b
    case Int(i) => i != 0
    case Float(x) => x != 0.0
    case Str(s) => s != "" && s != "0"
    case List(items) => |items| > 0
    case Assoc(members) => |members| > 0
  }

  /** The value stored under `key` in a list of members, or Null when absent. */
  function Lookup(members: seq<(string, Value)>, key: string): Value {
    if members == [] then Null
    else if members[0].0 == key then members[0].1
    else Lookup(members[1..], key)
  }

  /** Whether `key` is one of the member names (`array_key_exists`). */
  predicate HasKey(members: seq<(string, Value)>, key: string) {
    exists i :: 0 <= i < |members| && members[i].0 == key
  }

  /** `$v[$key]`, Null when `$v` is not an associative array or has no such key. */
  function Member(v: Value, key: string): Value {
    if v.Assoc? then Lookup(v.members, key) else Null
  }

  /** `isset($v[$key])`: the member exists and is not null. */
  predicate IsSet(v: Value, key: string) {
    Member(v, key) != Null
  }

  /** `$v[$i]` on a list, Null when out of range or not a list. */
  function Index(v: Value, i: nat): Value {
    if v.List? && i < |v.items| then v.items[i] else Null
  }

  /** `is_array($v)`. */
  predicate IsArray(v: Value) {
    v.List? || v.Assoc?
  }

  /** The elements `foreach ($v as $x)` visits: none when `$v` is not an array. */
  function Items(v: Value): seq<Value> {
    match v
    case List(items) => items
    case Assoc(members) => seq(|members|, i requires 0 <= i < |members| => members[i].1)
    case _ => []
  }

  /** The members of a value that is used as an associative array. */
  function Fields(v: Value): seq<(string, Value)> {
    if v.Assoc? then v.members else []
  }

  /** The number PHP arithmetic reads from an integer, a boolean or null. */
  function NumberOf(v: Value): int {
    match v
    case Int(i) => i
    case Bool(b) => if b then 1 else 0
    case _ => 0
  }

  /** `hexdec($v)`: a string is read digit by digit; an integer or boolean is first printed in decimal. */
  function HexDecOf(v: Value): nat {
    match v
    case Str(s) => Numerals.HexDec(s)
    case Int(i) => Numerals.HexDec(Numerals.DecString(if i < 0 then -i else i))
    case Bool(b) => if b then 1 else 0
    case _ => 0
  }

  /** String conversion of a scalar, as used in string concatenation. */
  function TextOf(v: Value): string {
    match v
    case Str(s) => s
    case Int(i) => if i < 0 then "-" + Numerals.DecString(-i) else Numerals.DecString(i)
    case Bool(b) => if b then "1" else ""
    case List(_) => "Array"
    case Assoc(_) => "Array"
    case _ => ""
  }

  /**
   * PHP 8's loose `$v == 'n'` against the decimal string of `n`, as a
   * `switch` compares: numbers and decimal-digit strings compare by value,
   * a boolean equals the string when it has the string's truthiness, and
   * null and arrays never do.
   */
  predicate LooselyEqualsDecimal(v: Value, n: nat) {
    match v
    case Int(i) => i == n
    case Float(x) => x == n as real
    case Str(s) => Numerals.IsDecimal(s) && Numerals.DecimalOf(s) == n
    case Bool(b) => b == (n != 0)
    case _ => false
  }

  /**
   * PHP 8's loose `$v == $n` against an integer: numbers and integer strings
   * (an optional minus sign, then decimal digits) compare by value, booleans
   * and null compare by truthiness, other strings and arrays never equal it.
   */
  predicate LooselyEqualsInt(v: Value, n: int) {
    match v
    case Null => n == 0
    case Bool(b) => b == (n != 0)
    case Int(i) => i == n
    case Float(x) => x == n as real
    case Str(s) =>
      if |s| > 0 && s[0] == '-' then Numerals.IsDecimal(s[1..]) && 0 - Numerals.DecimalOf(s[1..]) == n
      else Numerals.IsDecimal(s) && Numerals.DecimalOf(s) == n
    case _ => false
  }

  lemma LookupFound(members: seq<(string, Value)>, key: string, i: nat)
    requires i < |members| && members[i].0 == key
    requires forall j :: 0 <= j < i ==> members[j].0 != key
    ensures Lookup(members, key) == members[i].1
  {
    if i > 0 {
      LookupFound(members[1..], key, i - 1);
    }
  }

  lemma LookupMissing(members: seq<(string, Value)>, key: string)
    requires !HasKey(members, key)
    ensures Lookup(members, key) == Null
  {
    if members != [] {
      assert !HasKey(members[1..], key) by {
        forall i | 0 <= i < |members[1..]| ensures members[1..][i].0 != key {
          assert members[1..][i] == members[i + 1];
        }
      }
      LookupMissing(members[1..], key);
    }
  }
}
