/** The Python values a retrieved chunk's attributes can hold, as far as the
    normaliser distinguishes them: the primitives it copies (str, int,
    float, bool, None), other objects it stringifies, objects exposing an
    `as_base64()` accessor, and callables, which it skips. */
module Values {
  import opened Wrappers
  import opened Strings

  /** What an object's `as_base64` attribute does: there is none, it
      returns a string, or calling it raises. */
  datatype Accessor = NoAccessor | Returns(b64: string) | Raises

  datatype Val =
    | Str(s: string)
    | Int(i: int)
    /** A float, kept opaque except for its `str()` form. */
    | Float(repr: string)
    | Bool(b: bool)
    | NoneVal
    /** Any other non-callable object: its `str()` form (`None` when
        `__str__` raises) and its `as_base64` accessor. */
    | Obj(str: Option<string>, asBase64: Accessor)
    /** A callable attribute (a bound method, say) with its `str()` form. */
    | Callable(repr: string)

  /** `isinstance(v, (str, int, float, bool, type(None)))` (app.py:116-118). */
  predicate IsPrimitive(v: Val) {
    v.Str? || v.Int? || v.Float? || v.Bool? || v.NoneVal?
  }

  /** Python's `str(v)`; `None` when the object's `__str__` raises. */
  function StrOf(v: Val): (r: Option<string>)
    ensures !v.Obj? ==> r.Some?
    ensures v.Str? ==> r == Some(v.s)
    ensures v.Int? ==> r.Some? && |r.value| > 0 && (r.value[0] == '-' || '0' <= r.value[0] <= '9')
  {
    match v
    case Str(s) => Some(s)
    case Int(i) => Some(IntToDecimal(i))
    case Float(repr) => Some(repr)
    case Bool(b) => Some(if b then "True" else "False")
    case NoneVal => Some("None")
    case Obj(str, _) => str
    case Callable(repr) => Some(repr)
  }

  /** The value stored for a non-`content` attribute (app.py:115-121):
      a primitive verbatim, anything else as its string form; `None` when
      taking the string form raises, and the attribute is then omitted. */
  function Coerce(v: Val): (r: Option<Val>)
    ensures r.Some? ==> IsPrimitive(r.value)
    ensures IsPrimitive(v) ==> r == Some(v)
    ensures !IsPrimitive(v) ==> r.Some? == StrOf(v).Some?
    ensures !IsPrimitive(v) && r.Some? ==> r.value == Str(StrOf(v).value)
  {
    if IsPrimitive(v) then Some(v)
    else match StrOf(v)
      case None => None
      case Some(s) => Some(Str(s))
  }
}
