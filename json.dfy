/**
 * The JSON values the ingestion scripts handle: what `json.loads` yields
 * for an archived batch, what a DynamoDB scan returns, and what
 * `to_decimal` hands to `batch.put_item`. A Python float is carried by
 * its `str()` rendering, so `Decimal(str(f))` is the decimal with that
 * same text.
 */
module Json {
  import opened Wrappers
  import opened Text

  datatype Value =
    | Null
    | Bool(b: bool)
    | Int(i: int)
    | Float(text: string)
    | Decimal(text: string)
    | Str(s: string)
    | List(items: seq<Value>)
    | Obj(fields: map<string, Value>)

  /** One record of an archived batch, or one item of a table. */
  type Record = map<string, Value>

  /** The mantissa of a numeral (the part before any exponent) has no non-zero digit. */
  predicate ZeroNumeral(t: string)
    decreases |t|
  {
    t == [] || t[0] == 'e' || t[0] == 'E' ||
    ((t[0] == '0' || t[0] == '.' || t[0] == '+' || t[0] == '-') && ZeroNumeral(t[1..]))
  }

  /** Python's truth value of a value (`bool(v)`). */
  predicate Truthy(v: Value) {
    match v
    case Null => false
    case Bool(b) => b
    case Int(i) => i != 0
    case Float(t) => !ZeroNumeral(t)
    case Decimal(t) => !ZeroNumeral(t)
    case Str(s) => s != []
    case List(xs) => xs != []
    case Obj(m) => m != map[]
  }

  /** Lists and dicts cannot be put in a Python set. */
  predicate Hashable(v: Value) {
    !v.List? && !v.Obj?
  }

  /**
   * `int(v)`; None where Python raises. A float or a Decimal is truncated
   * toward zero; strings are read as an optionally signed run of digits.
   */
  function IntOf(v: Value): Option<int> {
    match v
    case Bool(b) => Some(if b then 1 else 0)
    case Int(i) => Some(i)
    case Str(s) => ParseInt(s)
    case Float(t) => TruncatedNumeral(t)
    case Decimal(t) => TruncatedNumeral(t)
    case _ => None
  }

  /** The integer part of a plain decimal numeral such as "-12.75"; None for "nan", "inf", exponents. */
  function TruncatedNumeral(t: string): Option<int> {
    var dot := IndexOfDot(t);
    var fraction := if dot < |t| then t[dot + 1..] else [];
    if AllDigits(fraction) then ParseInt(t[..dot]) else None
  }

  function IndexOfDot(t: string): (k: nat)
    ensures k <= |t| && (k < |t| ==> t[k] == '.') && '.' !in t[..k]
    decreases |t|
  {
    if t == [] || t[0] == '.' then 0
    else
      var k := 1 + IndexOfDot(t[1..]);
      assert t[..k] == [t[0]] + t[1..][..k - 1];
      k
  }

  /** `str(v)` for the scalars a capture timestamp can hold. Containers are not rendered. */
  function ScalarText(v: Value): Option<string> {
    match v
    case Null => Some("None")
    case Bool(b) => Some(if b then "True" else "False")
    case Int(i) => Some(IntToText(i))
    case Float(t) => Some(t)
    case Decimal(t) => Some(t)
    case Str(s) => Some(s)
    case _ => None
  }

  /**
   * The key a Python set or `in` test sees. `==` and `hash` identify an
   * integral number of any type with the integer it denotes; the model does
   * so for integral numbers written in plain decimal notation (`True`, `1`,
   * `1.0`, `Decimal("1.00")`). Every other value, an exponent form, `inf`
   * or `nan` included, is its own key.
   */
  function SetKey(v: Value): (k: Value)
    ensures Hashable(k) == Hashable(v)
  {
    match IntegralOf(v)
    case Some(n) => Int(n)
    case None => v
  }

  /** The integer a number denotes when it has no fractional part. */
  function IntegralOf(v: Value): Option<int> {
    match v
    case Bool(b) => Some(if b then 1 else 0)
    case Int(i) => Some(i)
    case Float(t) => IntegralNumeral(t)
    case Decimal(t) => IntegralNumeral(t)
    case _ => None
  }

  /** The integer a plain numeral such as "12" or "-3.00" denotes; None when a fractional digit is not zero. */
  function IntegralNumeral(t: string): Option<int> {
    var dot := IndexOfDot(t);
    var fraction := if dot < |t| then t[dot + 1..] else [];
    if forall i :: 0 <= i < |fraction| ==> fraction[i] == '0' then ParseInt(t[..dot]) else None
  }

  // ---------------------------------------------------------------------
  // to_decimal

  /** No float anywhere inside `v`. */
  predicate FloatFree(v: Value) {
    match v
    case Float(_) => false
    case List(xs) => forall i :: 0 <= i < |xs| ==> FloatFree(xs[i])
    case Obj(m) => forall k :: k in m ==> FloatFree(m[k])
    case _ => true
  }

  /**
   * `b` has the shape of `a`: the same list lengths, the same dict keys,
   * every float leaf of `a` turned into the decimal with the same text and
   * every other leaf unchanged.
   */
  predicate SameShape(a: Value, b: Value) {
    match a
    case Float(t) => b == Decimal(t)
    case List(xs) => b.List? && |b.items| == |xs| && forall i :: 0 <= i < |xs| ==> SameShape(xs[i], b.items[i])
    case Obj(m) => b.Obj? && b.fields.Keys == m.Keys && forall k :: k in m ==> SameShape(m[k], b.fields[k])
    case _ => b == a
  }

  /** `to_decimal(obj)`: converts every float, at any depth, to a Decimal. */
  function ToDecimal(v: Value): (r: Value)
    ensures SameShape(v, r)
    ensures FloatFree(r)
  {
    match v
    case Float(t) => Decimal(t)
    case List(xs) => List(seq(|xs|, i requires 0 <= i < |xs| => ToDecimal(xs[i])))
    case Obj(m) => Obj(map k | k in m :: ToDecimal(m[k]))
    case _ => v
  }

  /** `to_decimal(rec)` for a record, which is a dict. */
  function ToDecimalRecord(r: Record): (r': Record)
    ensures r'.Keys == r.Keys
    ensures forall k :: k in r ==> SameShape(r[k], r'[k]) && FloatFree(r'[k])
  {
    map k | k in r :: ToDecimal(r[k])
  }

  /** A value with no float is left exactly as it was. */
  lemma {:induction false} ToDecimalKeepsFloatFree(v: Value)
    requires FloatFree(v)
    ensures ToDecimal(v) == v
  {
    match v
    case List(xs) =>
      forall i | 0 <= i < |xs| ensures ToDecimal(xs[i]) == xs[i] { ToDecimalKeepsFloatFree(xs[i]); }
      assert ToDecimal(v).items == xs;
    case Obj(m) =>
      forall k | k in m ensures ToDecimal(m[k]) == m[k] { ToDecimalKeepsFloatFree(m[k]); }
      assert ToDecimal(v).fields == m;
    case _ =>
  }

  /** Converting twice is converting once. */
  lemma ToDecimalIdempotent(v: Value)
    ensures ToDecimal(ToDecimal(v)) == ToDecimal(v)
  {
    ToDecimalKeepsFloatFree(ToDecimal(v));
  }

  /** The conversion changes neither `int()` of a value nor its truth value nor its hashability. */
  lemma ToDecimalKeepsScalarMeaning(v: Value)
    ensures IntOf(ToDecimal(v)) == IntOf(v)
    ensures Truthy(ToDecimal(v)) == Truthy(v)
    ensures Hashable(ToDecimal(v)) == Hashable(v)
  {
    if v.Obj? {
      var r := ToDecimal(v);
      assert r.fields.Keys == v.fields.Keys;
      if v.fields != map[] {
        var k :| k in v.fields;
        assert k in r.fields;
      }
    }
  }

  /**
   * The conversion keeps the set key of every hashable value except a float
   * whose text is not a plain integral numeral (a fractional part, an
   * exponent form, `inf`, `nan`): for those the model keeps the float and
   * the decimal as two keys of their own.
   */
  lemma ToDecimalKeepsSetKey(v: Value)
    requires Hashable(v)
    requires !(v.Float? && IntegralNumeral(v.text).None?)
    ensures SetKey(ToDecimal(v)) == SetKey(v)
  {
  }
}
