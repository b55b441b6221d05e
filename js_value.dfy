/** The loosely typed values that travel between the terminal page and the
    customer display, with JavaScript's truthiness, `??` and `Number(v)`. */
module JsValue {
  import opened Decimal
  import opened JsString

  /** A JavaScript value as the payment messages carry it. Numbers are
      integers; `Object` stands for any object, told apart by identity. */
  datatype Json =
    | Undefined
    | Null
    | Bool(b: bool)
    | Num(n: int)
    | NaN
    | Str(s: string)
    | Object(id: nat)

  /** `!!v`. */
  predicate Truthy(v: Json) {
    match v
    case Undefined => false
    case Null => false
    case NaN => false
    case Bool(b) => b
    case Num(n) => n != 0
    case Str(s) => s != ""
    case Object(_) => true
  }

  /** `v ?? null`: undefined and null become null, anything else is kept. */
  function OrNull(v: Json): (r: Json)
    ensures !r.Undefined?
    ensures (v.Undefined? || v.Null?) <==> r.Null?
    ensures !v.Undefined? && !v.Null? ==> r == v
  {
    if v.Undefined? || v.Null? then Null else v
  }

  /** `Number(s)` for a string: surrounding white space is ignored, the empty
      string reads as 0, an optional sign may precede the decimal digits, and
      anything else is NaN. */
  function StringToNumber(s: string): (r: Json)
    ensures r.Num? || r.NaN?
  {
    var t := Trim(s);
    if t == "" then Num(0)
    else if AllDigits(t) then Num(DecimalValue(t))
    else if |t| > 1 && t[0] == '-' && AllDigits(t[1..]) then Num(0 - DecimalValue(t[1..]) as int)
    else if |t| > 1 && t[0] == '+' && AllDigits(t[1..]) then Num(DecimalValue(t[1..]))
    else NaN
  }

  /** `Number(v)`. */
  function ToNumber(v: Json): (r: Json)
    ensures r.Num? || r.NaN?
  {
    match v
    case Undefined => NaN
    case Null => Num(0)
    case Bool(b) => Num(if b then 1 else 0)
    case Num(n) => Num(n)
    case NaN => NaN
    case Str(s) => StringToNumber(s)
    case Object(_) => NaN
  }

  /** `String(v)`; an object is written as a plain object is. */
  function ToJsString(v: Json): (s: string)
    ensures v.Str? ==> s == v.s
    ensures v.Num? && v.n >= 0 ==> s == NatToDecimal(v.n)
  {
    match v
    case Undefined => "undefined"
    case Null => "null"
    case Bool(b) => if b then "true" else "false"
    case Num(n) => if n < 0 then "-" + NatToDecimal(-n) else NatToDecimal(n)
    case NaN => "NaN"
    case Str(s) => s
    case Object(_) => "[object Object]"
  }

  /** `Number(v) || 0`: NaN becomes 0. */
  function NumberOrZero(v: Json): (n: int)
    ensures n != 0 <==> ToNumber(v).Num? && ToNumber(v).n != 0
    ensures n != 0 ==> ToNumber(v) == Num(n)
  {
    match ToNumber(v)
    case Num(k) => k
    case _ => 0
  }

  /** A non-empty run of decimal digits reads as its value. */
  lemma NumberOfDigits(s: string)
    requires s != [] && AllDigits(s)
    ensures ToNumber(Str(s)) == Num(DecimalValue(s))
  {
    assert !IsJsWhitespace(s[0]) && !IsJsWhitespace(s[|s| - 1]);
    assert TrimStart(s) == s;
    assert TrimEnd(s) == s;
  }

  /** What `String(n)` writes, `Number` reads back. */
  lemma NumberOfDecimal(n: nat)
    ensures ToNumber(Str(NatToDecimal(n))) == Num(n)
  {
    NumberOfDigits(NatToDecimal(n));
    DecimalRoundTrip(n);
  }

  /** Truthiness and `Number(v) || 0` agree on numbers. */
  lemma NumberOrZeroOfNum(n: int)
    ensures NumberOrZero(Num(n)) == n
    ensures Truthy(Num(n)) <==> n != 0
  {
  }
}
