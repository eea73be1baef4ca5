/** JSON-like values as the memory service holds them: the dumped form of its
    Pydantic models, the dicts that flow through the merge helpers, and the
    typed failures its operations report. */
module Values {

  datatype Option<+T> = None | Some(value: T)

  datatype Result<+T, +E> = Ok(value: T) | Err(error: E)

  /** A JSON value. Timestamps (datetime fields) are modelled as `Num`. */
  datatype Value =
    | Null
    | Bool(b: bool)
    | Num(n: int)
    | Str(s: string)
    | Arr(items: seq<Value>)
    | Obj(fields: map<string, Value>)

  /** A dict with string keys: one dumped model or one raw event entry. */
  type Doc = map<string, Value>

  /** The failures a mutating operation reports to the HTTP layer. */
  datatype Failure =
    | BadRequest   // 400: an events entry that is not an object
    | Conflict     // 409: create on an existing user without overwrite
    | Invalid      // the candidate record fails model validation
    | NotDurable   // save_memory raised: the update did not reach the disk

  /** `d.get(key)`: a missing key reads as None. */
  function Get(d: Doc, key: string): Value {
    if key in d then d[key] else Null
  }

  /** Python truthiness, as used by `x or ""`. */
  predicate Truthy(v: Value) {
    match v
    case Null => false
    case Bool(b) => b
    case Num(n) => n != 0
    case Str(s) => s != []
    case Arr(items) => items != []
    case Obj(fields) => fields != map[]
  }

  predicate IsDigit(c: char) {
    '0' <= c <= '9'
  }

  predicate AllDigits(s: string) {
    forall i :: 0 <= i < |s| ==> IsDigit(s[i])
  }

  function DigitValue(c: char): (d: nat)
    requires IsDigit(c)
    ensures d < 10
  {
    (c - '0') as nat
  }

  function DigitChar(d: nat): (c: char)
    requires d < 10
    ensures IsDigit(c) && DigitValue(c) == d
  {
    ('0' as int + d) as char
  }

  lemma DigitCharOfValue(c: char)
    requires IsDigit(c)
    ensures DigitChar(DigitValue(c)) == c
  {
  }

  /** Decimal rendering of a natural number, as `str(n)` prints it. */
  function NatToString(n: nat): (r: string)
    ensures r != [] && AllDigits(r)
  {
    if n < 10 then [DigitChar(n)] else NatToString(n / 10) + [DigitChar(n % 10)]
  }

  /** `str(v)`. Containers print as fixed placeholders: their repr is not modelled. */
  function Render(v: Value): string {
    match v
    case Null => "None"
    case Bool(b) => if b then "True" else "False"
    case Num(n) => if n < 0 then "-" + NatToString(-n) else NatToString(n)
    case Str(s) => s
    case Arr(_) => "[...]"
    case Obj(_) => "{...}"
  }

  /** A number of two or more digits prints with at least two characters. */
  lemma {:induction false} NatToStringLength(n: nat)
    ensures n >= 10 ==> |NatToString(n)| >= 2
  {
  }

  /** `str(n)` tells natural numbers apart. */
  lemma {:induction false} NatToStringInjective(n: nat, m: nat)
    requires NatToString(n) == NatToString(m)
    ensures n == m
  {
    NatToStringLength(n);
    NatToStringLength(m);
    if n >= 10 && m >= 10 {
      var sn, sm := NatToString(n), NatToString(m);
      assert sn[..|sn| - 1] == NatToString(n / 10);
      assert sm[..|sm| - 1] == NatToString(m / 10);
      NatToStringInjective(n / 10, m / 10);
      assert DigitValue(sn[|sn| - 1]) == n % 10;
      assert DigitValue(sm[|sm| - 1]) == m % 10;
    }
  }

  /** `str(n)` starts with a minus sign exactly for a negative number. */
  lemma RenderNumSign(n: int)
    ensures Render(Num(n)) != [] && (Render(Num(n))[0] == '-' <==> n < 0)
  {
    if n >= 0 {
      assert IsDigit(NatToString(n)[0]);
    }
  }

  /** `str(n)` tells integers apart: a negative number starts with a sign,
      a non-negative one with a digit. */
  lemma RenderNumInjective(n: int, m: int)
    requires Render(Num(n)) == Render(Num(m))
    ensures n == m
  {
    RenderNumSign(n);
    RenderNumSign(m);
    if n < 0 && m < 0 {
      assert NatToString(-n) == Render(Num(n))[1..];
      assert NatToString(-m) == Render(Num(m))[1..];
      NatToStringInjective(-n, -m);
    } else if n >= 0 && m >= 0 {
      NatToStringInjective(n, m);
    }
  }

  /** A truthy value never prints as the empty string, so `str(x or "")` is
      empty exactly when `x` is falsy. */
  lemma TruthyRendersNonEmpty(v: Value)
    ensures Truthy(v) ==> Render(v) != []
  {
  }
}
