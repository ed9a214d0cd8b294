/** The few JavaScript value semantics the dashboard scripts depend on:
    truthiness, the nullish test, and the two placeholder idioms the variants
    use for the scalar summary fields (`v ?? '--'` and `v || '--'`).
    Numbers are integers here; NaN and fractional values are not modelled. */
module JsValue {

  datatype JsVal = Undefined | Null | Bool(b: bool) | Num(n: int) | Str(s: string) | Obj

  /** What JavaScript's `if (v)` accepts. */
  predicate Truthy(v: JsVal) {
    match v
    case Undefined => false
    case Null => false
    case Bool(b) => b
    case Num(n) => n != 0
    case Str(s) => s != ""
    case Obj => true
  }

  /** What `??` treats as missing. */
  predicate Nullish(v: JsVal) {
    v.Undefined? || v.Null?
  }

  /** A summary field shows either the placeholder `--` or the value itself. */
  datatype Shown = Dashes | Value(v: JsVal)

  /** `v ?? '--'` (app.js, app_complete.js). */
  function NullishFallback(v: JsVal): (r: Shown)
    ensures r.Dashes? <==> Nullish(v)
    ensures r.Value? ==> r.v == v
  {
    if v.Undefined? || v.Null? then Dashes else Value(v)
  }

  /** `v || '--'` (app_working.js). */
  function FalsyFallback(v: JsVal): (r: Shown)
    ensures r.Dashes? <==> !Truthy(v)
    ensures r.Value? ==> r.v == v
  {
    match v
    case Num(0) => Dashes
    case Str("") => Dashes
    case Bool(false) => Dashes
    case Undefined => Dashes
    case Null => Dashes
    case _ => Value(v)
  }

  /** The two idioms show different things exactly for values that are falsy
      but not nullish (0, the empty string, false); every nullish value is
      falsy, so `||` never shows a value that `??` hides. */
  lemma FallbacksDisagreeExactlyOnFalsyNonNullish(v: JsVal)
    ensures NullishFallback(v) != FalsyFallback(v) <==> !Truthy(v) && !Nullish(v)
    ensures NullishFallback(v) != FalsyFallback(v) ==>
      NullishFallback(v) == Value(v) && FalsyFallback(v) == Dashes
    ensures Nullish(v) ==> !Truthy(v)
  {
  }

  /** A count of zero is displayed as 0 by the `??` variants and as `--` by
      the `||` variant. */
  lemma ZeroDisplay()
    ensures NullishFallback(Num(0)) == Value(Num(0))
    ensures FalsyFallback(Num(0)) == Dashes
  {
  }
}
