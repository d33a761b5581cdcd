/**
 * The fields of a decoded JSON request body, and the Python coercions the
 * handlers apply to them: truthiness (`if not x`), `int(x)` and `str(x)`.
 */
module Values {
  import opened Wrappers

  /** A request field: absent from the body, JSON null, a boolean, an integer or a string. */
  datatype Value = Absent | Null | Bool(b: bool) | Int(i: int) | Str(s: string)

  /** Python truthiness; `not v` holds exactly when this is false. */
  predicate Truthy(v: Value) {
    match v
    case Absent => false
    case Null => false
    case Bool(b) => b
    case Int(i) => i != 0
    case Str(s) => s != ""
  }

  /** `request.data.get(key)` yields None both for an absent key and for JSON null. */
  predicate IsNone(v: Value) {
    v.Absent? || v.Null?
  }

  predicate IsDigit(c: char) {
    '0' <= c <= '9'
  }

  predicate AllDigits(s: string) {
    forall i :: 0 <= i < |s| ==> IsDigit(s[i])
  }

  function DigitValue(c: char): nat
    requires IsDigit(c)
  {
    c as int - '0' as int
  }

  function DigitChar(d: nat): (c: char)
    requires d < 10
    ensures IsDigit(c) && DigitValue(c) == d
  {
    ('0' as int + d) as char
  }

  /** The value of a non-empty run of decimal digits, most significant first. */
  function ParseDigits(s: string): nat
    requires AllDigits(s)
  {
    if s == [] then 0
    else ParseDigits(s[..|s| - 1]) * 10 + DigitValue(s[|s| - 1])
  }

  /** Python `int(s)` on a string: an optional sign followed by at least one decimal digit. */
  function ParseInt(s: string): (r: Option<int>)
    ensures r.Some? ==> s != []
  {
    if s != [] && (s[0] == '-' || s[0] == '+') then
      var ds := s[1..];
      if ds != [] && AllDigits(ds) then
        var m: int := ParseDigits(ds);
        Some(if s[0] == '-' then -m else m)
      else None
    else if s != [] && AllDigits(s) then Some(ParseDigits(s))
    else None
  }

  /**
   * Python `int(v)`; None stands for the ValueError or TypeError it raises.
   * `int(True)` is 1 and `int(None)` raises.
   */
  function ToInt(v: Value): (r: Option<int>)
    ensures v.Int? ==> r == Some(v.i)
    ensures IsNone(v) ==> r.None?
    ensures v.Bool? ==> r == Some(if v.b then 1 else 0)
  {
    match v
    case Absent => None
    case Null => None
    case Bool(b) => Some(if b then 1 else 0)
    case Int(i) => Some(i)
    case Str(s) => ParseInt(s)
  }

  /** The decimal numeral of `n`, without leading zeros. */
  function NatToDecimal(n: nat): (s: string)
    ensures s != [] && AllDigits(s)
    ensures |s| > 1 ==> s[0] != '0'
  {
    if n < 10 then [DigitChar(n)]
    else NatToDecimal(n / 10) + [DigitChar(n % 10)]
  }

  /** Python `str(v)`. */
  function Show(v: Value): string {
    match v
    case Absent => "None"
    case Null => "None"
    case Bool(b) => if b then "True" else "False"
    case Int(i) => if i < 0 then "-" + NatToDecimal(-i) else NatToDecimal(i)
    case Str(s) => s
  }

  lemma {:induction false} ParseNatToDecimal(n: nat)
    ensures ParseDigits(NatToDecimal(n)) == n
  {
    if n >= 10 {
      var s := NatToDecimal(n);
      assert s[..|s| - 1] == NatToDecimal(n / 10);
      ParseNatToDecimal(n / 10);
    }
  }

  /** `int(str(n)) == n` for every integer `n`. */
  lemma IntShowRoundTrip(n: int)
    ensures ToInt(Str(Show(Int(n)))) == Some(n)
  {
    if n < 0 {
      var s := "-" + NatToDecimal(-n);
      assert s[1..] == NatToDecimal(-n);
      ParseNatToDecimal(-n);
    } else {
      ParseNatToDecimal(n);
      var s := NatToDecimal(n);
      assert s[0] != '-' && s[0] != '+';
    }
  }

  /** How an integer primary-key lookup `get(id=v)` treats `v`. */
  datatype Lookup = NoMatch | Malformed | Key(id: nat)

  /**
   * `id=None` matches no row, a value `int()` rejects makes the lookup
   * raise, and any other value is compared as an integer (a negative one
   * matches no row).
   */
  function IdLookup(v: Value): (r: Lookup)
    ensures r.Key? <==> exists n: nat :: ToInt(v) == Some(n)
    ensures r.Key? ==> ToInt(v) == Some(r.id)
    ensures r.Malformed? <==> !IsNone(v) && ToInt(v).None?
  {
    if IsNone(v) then NoMatch
    else match ToInt(v)
      case None => Malformed
      case Some(n) => if n < 0 then NoMatch else Key(n)
  }
}
