/**
 * The slice of Python's value semantics that the reminder daemons rely on:
 * parsed JSON documents, the `in` operator and `[key]` indexing on them,
 * floor modulo, decimal formatting and parsing of integers, and byte strings.
 */
module PyValues {

  /** A document as `json.load` returns it. */
  datatype Json =
    | JNull
    | JBool(b: bool)
    | JInt(i: int)
    | JFloat(f: real)
    | JStr(s: string)
    | JArr(items: seq<Json>)
    | JObj(fields: map<string, Json>)

  /** The exceptions the modelled code raises or lets escape. */
  datatype PyError =
    | ValueError(msg: string)
    | TypeError
    | KeyError(key: string)
    | ZeroDivisionError
    | OverflowError

  /** A Python call either returns a value or raises. */
  datatype Result<+T> = Ok(value: T) | Raise(error: PyError)

  /** A call that returns nothing useful: it passes or raises. */
  datatype Outcome = Pass | Fail(error: PyError)

  datatype Option<+T> = None | Some(value: T)

  /** What opening and parsing a JSON file yields. */
  datatype ConfigFile =
    | NoFile      // FileNotFoundError
    | Malformed   // json.JSONDecodeError
    | Document(doc: Json)

  /** `needle in hay` for two Python strings. */
  predicate IsSubstring(needle: string, hay: string)
    decreases |hay|
  {
    needle <= hay || (|hay| > 0 && IsSubstring(needle, hay[1..]))
  }

  /**
   * Python's `key in container` for a string key: a dict tests its keys, a
   * list its elements, a string its substrings; anything else is not iterable.
   */
  function PyIn(key: string, container: Json): (r: Result<bool>)
    ensures r.Raise? <==> !(container.JObj? || container.JArr? || container.JStr?)
    ensures container.JObj? ==> r == Ok(key in container.fields)
  {
    match container
    case JObj(fields) => Ok(key in fields)
    case JArr(items) => Ok(JStr(key) in items)
    case JStr(s) => Ok(IsSubstring(key, s))
    case _ => Raise(TypeError)
  }

  /** Python's `container[key]` for a string key. */
  function PyIndex(container: Json, key: string): (r: Result<Json>)
    ensures r.Ok? <==> container.JObj? && key in container.fields
    ensures r.Ok? ==> r.value == container.fields[key]
  {
    match container
    case JObj(fields) => if key in fields then Ok(fields[key]) else Raise(KeyError(key))
    case _ => Raise(TypeError)
  }

  /** Python's `a // b`, rounding towards negative infinity. */
  function PyFloorDiv(a: int, b: int): int
    requires b != 0
  {
    if b > 0 then a / b else (-a) / (-b)
  }

  /**
   * Python's `a % b`: unlike Dafny's `%`, the result takes the sign of the
   * divisor; with `a // b` it satisfies the division identity.
   */
  function PyMod(a: int, b: int): (r: int)
    requires b != 0
    ensures b > 0 ==> 0 <= r < b
    ensures b < 0 ==> b < r <= 0
    ensures a == b * PyFloorDiv(a, b) + r
  {
    if b > 0 then a % b else -((-a) % (-b))
  }

  function DigitChar(d: nat): (c: char)
    requires d < 10
    ensures '0' <= c <= '9'
  {
    (('0' as int) + d) as char
  }

  /** Python's `str(n)` for a non-negative integer. */
  function NatToString(n: nat): (r: string)
    ensures |r| >= 1
    ensures forall k :: 0 <= k < |r| ==> '0' <= r[k] <= '9'
    decreases n
  {
    if n < 10 then [DigitChar(n)] else NatToString(n / 10) + [DigitChar(n % 10)]
  }

  /** Python's `int(s)` for a string of decimal digits (leading zeros allowed). */
  function ParseDigits(s: string): int
    decreases |s|
  {
    if s == [] then 0 else ParseDigits(s[..|s| - 1]) * 10 + ((s[|s| - 1] as int) - ('0' as int))
  }

  /** Python's `f"{n:02d}"`: at least two characters, zero-filled after any sign. */
  function Pad2(n: int): (r: string)
    ensures n >= 0 ==> |r| >= 2 && forall k :: 0 <= k < |r| ==> '0' <= r[k] <= '9'
  {
    if n < 0 then "-" + NatToString(-n)
    else if n < 10 then "0" + NatToString(n)
    else NatToString(n)
  }

  lemma {:induction false} ParseNatToString(n: nat)
    ensures ParseDigits(NatToString(n)) == n
    decreases n
  {
    if n >= 10 {
      ParseNatToString(n / 10);
      var s := NatToString(n / 10) + [DigitChar(n % 10)];
      assert s[..|s| - 1] == NatToString(n / 10);
    } else {
      assert [DigitChar(n)][..0] == [];
    }
  }

  /** `int(f"{n:02d}") == n`: padding is undone by parsing. */
  lemma ParsePad2(n: nat)
    ensures ParseDigits(Pad2(n)) == n
  {
    ParseNatToString(n);
    if n < 10 {
      var s := "0" + NatToString(n);
      assert s[..|s| - 1] == "0";
      assert "0"[..0] == [];
    }
  }

  /** A byte, as in Python's `bytes`. */
  newtype byte = x: int | 0 <= x < 256

  /** The bytes of an ASCII literal such as `b"STOP"`. */
  function Ascii(s: string): (r: seq<byte>)
    ensures |r| == |s|
  {
    seq(|s|, k requires 0 <= k < |s| => ((s[k] as int) % 256) as byte)
  }

  /** `b'\0' * n`. */
  function Zeros(n: nat): (r: seq<byte>)
    ensures |r| == n && forall k :: 0 <= k < n ==> r[k] == 0
  {
    seq(n, k => 0)
  }
}
