/** The dynamically typed values the scripts pass around (job attributes, command-line
    criteria, table cells), with Python's `str()`, `int()`, `float()` and `== 0` on them. */
module Values {
  import opened Wrappers
  import opened Text

  datatype Value = VNone | VBool(b: bool) | VInt(i: int) | VStr(s: string)

  /** `str(v)`. */
  function Show(v: Value): string {
    match v
    case VNone => "None"
    case VBool(b) => if b then "True" else "False"
    case VInt(i) => IntToString(i)
    case VStr(s) => s
  }

  /** `int(v)`, or `None` where Python raises. */
  function IntOf(v: Value): Option<int> {
    match v
    case VNone => None
    case VBool(b) => Some(if b then 1 else 0)
    case VInt(i) => Some(i)
    case VStr(s) => ParseInt(s)
  }

  /** `float(v)`, or `None` where Python raises. */
  function FloatOf(v: Value): Option<real> {
    match v
    case VNone => None
    case VBool(b) => Some(if b then 1.0 else 0.0)
    case VInt(i) => Some(i as real)
    case VStr(s) => ParseFloat(s)
  }

  /** `v == 0` in Python, where `False == 0` holds as well. */
  predicate IsZero(v: Value) {
    v == VInt(0) || v == VBool(false)
  }

  function OfString(o: Option<string>): Value {
    match o
    case None => VNone
    case Some(s) => VStr(s)
  }

  function OfInt(o: Option<int>): Value {
    match o
    case None => VNone
    case Some(i) => VInt(i)
  }

  /** Printing an integer and reading the text back with `int()` or `float()` gives
      the integer again. */
  lemma ShowIntRoundTrip(n: int)
    ensures IntOf(VStr(Show(VInt(n)))) == Some(n)
    ensures FloatOf(VStr(Show(VInt(n)))) == Some(n as real)
  {
    IntRoundTrip(n);
    FloatOfIntString(n);
  }
}
