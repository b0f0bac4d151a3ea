/** Shared vocabulary of the model: optional values, the JSON values that the
    servers read from their files and request bodies, JavaScript truthiness,
    and the few string operations the application relies on. */
module Common {

  datatype Option<T> = None | Some(value: T)

  /** A JSON / JavaScript value as the handlers see it. `Undefined` stands for
      a missing key or a missing request field. */
  datatype Value =
    | Undefined
    | Null
    | Bool(b: bool)
    | Num(n: int)
    | Str(s: string)
    | Arr(items: seq<Value>)
    | Obj(fields: map<string, Value>)

  /** A schemaless record read from a JSON file or a request body. */
  type Record = map<string, Value>

  /** Property access `r.key`: a missing key reads as `undefined`. */
  function Get(r: Record, key: string): Value
  {
    if key in r then r[key] else Undefined
  }

  /** JavaScript truthiness (`if (v)`, `!v`, `a || b`). */
  predicate Truthy(v: Value)
  {
    match v
    case Undefined => false
    case Null => false
    case Bool(b) => b
    case Num(n) => n != 0
    case Str(s) => s != ""
    case Arr(_) => true
    case Obj(_) => true
  }

  /** Object spread `{ ...base, ...updates }`: every key of `updates`
      overrides, every other key of `base` is kept. */
  function Merge(base: Record, updates: Record): (r: Record)
    ensures r.Keys == base.Keys + updates.Keys
    ensures forall k :: k in updates ==> Get(r, k) == updates[k]
    ensures forall k :: k !in updates ==> Get(r, k) == Get(base, k)
  {
    base + updates
  }

  /** Object rest `const { key: _, ...rest } = r`. */
  function Without(r: Record, key: string): (rest: Record)
    ensures key !in rest
    ensures rest.Keys == r.Keys - {key}
    ensures forall k :: k != key ==> Get(rest, k) == Get(r, k)
  {
    r - {key}
  }

  // ---------------------------------------------------------------------
  // Strings

  /** The ASCII white-space characters removed by `String.prototype.trim`. */
  predicate IsSpace(c: char)
  {
    c == ' ' || c == '\t' || c == '\n' || c == '\r' || c as int == 11 || c as int == 12
  }

  function TrimStart(s: string): (r: string)
    ensures |r| <= |s| && r == s[|s| - |r|..]
    ensures forall i :: 0 <= i < |s| - |r| ==> IsSpace(s[i])
    ensures r != [] ==> !IsSpace(r[0])
  {
    if s != [] && IsSpace(s[0]) then TrimStart(s[1..]) else s
  }

  function TrimEnd(s: string): (r: string)
    ensures |r| <= |s| && r == s[..|r|]
    ensures forall i :: |r| <= i < |s| ==> IsSpace(s[i])
    ensures r != [] ==> !IsSpace(r[|r| - 1])
  {
    if s != [] && IsSpace(s[|s| - 1]) then TrimEnd(s[..|s| - 1]) else s
  }

  /** `s.trim()` over the ASCII white-space set. */
  function Trim(s: string): string
  {
    TrimEnd(TrimStart(s))
  }

  /** A string trims to the empty string exactly when it is all white space. */
  lemma TrimEmptyIff(s: string)
    ensures Trim(s) == "" <==> forall i :: 0 <= i < |s| ==> IsSpace(s[i])
  {
  }

  predicate StartsWith(s: string, prefix: string)
  {
    |prefix| <= |s| && s[..|prefix|] == prefix
  }

  predicate IsDigit(c: char)
  {
    '0' <= c <= '9'
  }

  function DigitChar(d: nat): (c: char)
    requires d < 10
  {
    (('0' as int) + d) as char
  }

  /** Decimal digits of `n`, as `String(n)` prints a non-negative integer. */
  function NatToString(n: nat): (r: string)
    ensures r != [] && forall i :: 0 <= i < |r| ==> IsDigit(r[i])
    ensures n >= 10 ==> r[0] != '0'
  {
    if n < 10 then [DigitChar(n)] else NatToString(n / 10) + [DigitChar(n % 10)]
  }

  /** `String(i)` for an integer. */
  function IntToString(i: int): string
  {
    if i < 0 then "-" + NatToString(-i) else NatToString(i)
  }

  /** The value of a string of decimal digits. */
  function DigitsValue(s: string): nat
    requires forall i :: 0 <= i < |s| ==> IsDigit(s[i])
  {
    if s == [] then 0
    else
      assert IsDigit(s[|s| - 1]);
      10 * DigitsValue(s[..|s| - 1]) + ((s[|s| - 1] as int) - ('0' as int))
  }

  /** Reading the printed digits back gives the number: printing is injective. */
  lemma {:induction false} NatToStringRoundTrip(n: nat)
    ensures DigitsValue(NatToString(n)) == n
  {
    if n >= 10 {
      var p := NatToString(n / 10);
      var r := NatToString(n);
      assert r == p + [DigitChar(n % 10)];
      assert r[..|r| - 1] == p;
      NatToStringRoundTrip(n / 10);
    }
  }
}
