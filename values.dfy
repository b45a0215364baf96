/** Small helpers shared by every module: an option type and Python's `or` on strings. */
module Common {

  datatype Option<+T> = None | Some(value: T)

  function Last<T>(s: seq<T>): T
    requires |s| > 0
  {
    s[|s| - 1]
  }

  /** Python's `s or default` for a string that may be unset: an unset (`None`) or empty string is falsy. */
  function Or(s: string, default: string): string
  {
    if s != "" then s else default
  }
}

/**
 * The values a model instance's attributes hold, as far as the engine looks at them,
 * and the instance itself.
 */
module Values {
  import opened Common

  /**
   * A Python attribute value. Python's `bool` is a subclass of `int`, so `Bool` counts as
   * numeric. Floats are not modelled; `Other` is any other object, with its `str()` and
   * its truthiness.
   */
  datatype Value =
    | NoneValue
    | Str(s: string)
    | Int(i: int)
    | Bool(b: bool)
    | Other(repr: string, truthy: bool)

  /** Python truthiness. */
  predicate Truthy(v: Value)
  {
    match v
    case NoneValue => false
    case Str(s) => s != ""
    case Int(i) => i != 0
    case Bool(b) => b
    case Other(_, t) => t
  }

  /** `isinstance(v, (int, float))`. */
  predicate IsNumeric(v: Value)
  {
    v.Int? || v.Bool?
  }

  /** The number a numeric value compares as (`True == 1`, `False == 0`). */
  function Numeric(v: Value): int
    requires IsNumeric(v)
  {
    if v.Int? then v.i else if v.b then 1 else 0
  }

  function DigitChar(d: int): char
    requires 0 <= d < 10
  {
    "0123456789"[d]
  }

  function NaturalString(n: nat): string
    decreases n
  {
    if n < 10 then [DigitChar(n)] else NaturalString(n / 10) + [DigitChar(n % 10)]
  }

  /** `str(n)` for an integer. */
  function DecimalString(n: int): string
  {
    if n < 0 then "-" + NaturalString(-n) else NaturalString(n)
  }

  /** `str(v)`. */
  function PyStr(v: Value): string
  {
    match v
    case NoneValue => "None"
    case Str(s) => s
    case Int(i) => DecimalString(i)
    case Bool(b) => if b then "True" else "False"
    case Other(r, _) => r
  }

  /** `str(o)` for an optional integer bound. */
  function OptionString(o: Option<int>): string
  {
    if o.Some? then DecimalString(o.value) else "None"
  }

  /**
   * A model instance: its `_meta.app_label` and `_meta.model_name`, the key its
   * `ContentType` is stored under, its `id`, its `str()`, and its attributes. An attribute
   * name outside `fields` is one `getattr` raises `AttributeError` for.
   */
  datatype Instance = Instance(
    appLabel: string,
    modelName: string,
    contentType: string,
    id: int,
    display: string,
    fields: map<string, Value>)

  /** `"{app_label}.{model_name}"`, the form a model is named in everywhere. */
  function Label(obj: Instance): string
  {
    obj.appLabel + "." + obj.modelName
  }
}
