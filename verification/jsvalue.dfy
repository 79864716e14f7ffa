/** JavaScript values as the application passes them around: the shapes that
    key payloads, message envelopes and encrypted packages are built from,
    together with the few JavaScript conversions the code relies on
    (truthiness, property reads, `Array.prototype.join`, `String.prototype.trim`). */
module JsValue {

  datatype Option<+T> = None | Some(value: T) {
    function GetOr(default: T): T {
      match this
      case Some(v) => v
      case None => default
    }
  }

  /** A JSON-representable JavaScript value. Numbers are integers; a property
      that is `undefined` is a key missing from the object's map. */
  datatype Value =
    | Null
    | Bool(b: bool)
    | Num(n: int)
    | Str(s: string)
    | Arr(items: seq<Value>)
    | Obj(fields: map<string, Value>)

  /** JavaScript truthiness. */
  predicate Truthy(v: Value) {
    match v
    case Null => false
    case Bool(b) => b
    case Num(n) => n != 0
    case Str(s) => |s| > 0
    case Arr(_) => true
    case Obj(_) => true
  }

  /** The property read `v.k` (or `v?.k`); `None` is `undefined`. Reading a
      property of a non-object yields `undefined` here; where the code reads a
      property of `null` it does so inside a `try` whose handler has the same
      effect as `undefined`. */
  function Get(v: Value, k: string): (r: Option<Value>)
    ensures r.Some? ==> v.Obj? && k in v.fields && r.value == v.fields[k]
    ensures v.Obj? && k in v.fields ==> r.Some?
  {
    if v.Obj? && k in v.fields then Some(v.fields[k]) else None
  }

  /** `typeof v.k === 'string'` */
  predicate HasString(v: Value, k: string) {
    Get(v, k).Some? && Get(v, k).value.Str?
  }

  // ---------- String conversion used by Array.prototype.join ----------

  function DigitChar(d: int): char
    requires 0 <= d < 10
  {
    "0123456789"[d]
  }

  function NatString(n: nat): string
    decreases n
  {
    if n < 10 then [DigitChar(n)] else NatString(n / 10) + [DigitChar(n % 10)]
  }

  /** `String(n)` for an integer-valued number. */
  function NumberString(n: int): string {
    if n < 0 then "-" + NatString(-n) else NatString(n)
  }

  /** The string `join` makes of one element: `null` becomes the empty
      string, a nested array joins its own elements with ",". */
  function ElementString(v: Value): string
    decreases v, if v.Arr? then |v.items| + 1 else 0
  {
    match v
    case Null => ""
    case Bool(b) => if b then "true" else "false"
    case Num(n) => NumberString(n)
    case Str(s) => s
    case Arr(items) => Join(v, |items|, ",")
    case Obj(_) => "[object Object]"
  }

  /** `arr.slice(0, n).join(sep)` */
  function Join(arr: Value, n: nat, sep: string): string
    requires arr.Arr? && n <= |arr.items|
    decreases arr, n
  {
    if n == 0 then ""
    else Join(arr, n - 1, sep) + (if n == 1 then "" else sep) + ElementString(arr.items[n - 1])
  }

  // ---------- String.prototype.trim ----------

  /** The white-space and line-terminator characters `trim` removes. */
  predicate IsWhitespace(ch: char) {
    || ch == ' ' || ch == '\t' || ch == '\n' || ch == '\r'
    || ch == '\U{000B}' || ch == '\U{000C}' || ch == '\U{00A0}' || ch == '\U{1680}'
    || ('\U{2000}' <= ch <= '\U{200A}')
    || ch == '\U{2028}' || ch == '\U{2029}' || ch == '\U{202F}' || ch == '\U{205F}'
    || ch == '\U{3000}' || ch == '\U{FEFF}'
  }

  function TrimStart(s: string): (r: string)
    ensures |r| == 0 || !IsWhitespace(r[0])
  {
    if |s| > 0 && IsWhitespace(s[0]) then TrimStart(s[1..]) else s
  }

  function TrimEnd(s: string): (r: string)
    ensures |r| == 0 || !IsWhitespace(r[|r| - 1])
  {
    if |s| > 0 && IsWhitespace(s[|s| - 1]) then TrimEnd(s[..|s| - 1]) else s
  }

  function Trim(s: string): string {
    TrimEnd(TrimStart(s))
  }

  predicate AllWhitespace(s: string) {
    forall i :: 0 <= i < |s| ==> IsWhitespace(s[i])
  }

  /** What `trim` keeps is a contiguous piece of its input with no white
      space at either end, and only white space was cut away. */
  lemma {:induction false} TrimStartShape(s: string)
    ensures exists k :: 0 <= k <= |s| && TrimStart(s) == s[k..] && AllWhitespace(s[..k])
    decreases |s|
  {
    if |s| > 0 && IsWhitespace(s[0]) {
      TrimStartShape(s[1..]);
      var k :| 0 <= k <= |s[1..]| && TrimStart(s[1..]) == s[1..][k..] && AllWhitespace(s[1..][..k]);
      assert TrimStart(s) == s[k + 1..];
      assert AllWhitespace(s[..k + 1]) by {
        forall i | 0 <= i < k + 1 ensures IsWhitespace(s[i]) {
          if i > 0 { assert s[i] == s[1..][..k][i - 1]; }
        }
      }
    } else {
      assert TrimStart(s) == s[0..];
      assert AllWhitespace(s[..0]);
    }
  }

  lemma {:induction false} TrimEndShape(s: string)
    ensures exists k :: 0 <= k <= |s| && TrimEnd(s) == s[..k] && AllWhitespace(s[k..])
    decreases |s|
  {
    if |s| > 0 && IsWhitespace(s[|s| - 1]) {
      var t := s[..|s| - 1];
      TrimEndShape(t);
      var k :| 0 <= k <= |t| && TrimEnd(t) == t[..k] && AllWhitespace(t[k..]);
      assert TrimEnd(s) == s[..k];
      assert AllWhitespace(s[k..]) by {
        forall i | 0 <= i < |s| - k ensures IsWhitespace(s[k..][i]) {
          assert s[k..][i] == s[k + i];
          if i < |t| - k {
            assert s[k + i] == t[k + i] == t[k..][i];
          }
        }
      }
    } else {
      assert TrimEnd(s) == s[..|s|];
      assert AllWhitespace(s[|s|..]);
    }
  }

  lemma {:induction false} TrimStartOfBlank(s: string)
    requires AllWhitespace(s)
    ensures TrimStart(s) == []
    decreases |s|
  {
    if |s| > 0 {
      assert IsWhitespace(s[0]);
      TrimStartOfBlank(s[1..]);
    }
  }

  lemma {:induction false} TrimEndOfEmpty(s: string)
    requires TrimEnd(s) == []
    ensures AllWhitespace(s)
    decreases |s|
  {
    if |s| > 0 {
      TrimEndOfEmpty(s[..|s| - 1]);
      assert forall i :: 0 <= i < |s| - 1 ==> s[i] == s[..|s| - 1][i];
    }
  }

  /** `s.trim()` is empty exactly when `s` consists of white space only. */
  lemma TrimEmptyIffBlank(s: string)
    ensures |Trim(s)| == 0 <==> AllWhitespace(s)
  {
    if AllWhitespace(s) {
      TrimStartOfBlank(s);
    }
    TrimStartShape(s);
    var k :| 0 <= k <= |s| && TrimStart(s) == s[k..] && AllWhitespace(s[..k]);
    if |Trim(s)| == 0 {
      TrimEndOfEmpty(s[k..]);
      assert s[..k] == s;
    }
  }

  /** Text with no white space at either end is left as it is. */
  lemma TrimUntouched(s: string)
    requires |s| == 0 || (!IsWhitespace(s[0]) && !IsWhitespace(s[|s| - 1]))
    ensures Trim(s) == s
  {
  }

  /** Trimming twice is trimming once. */
  lemma TrimIdempotent(s: string)
    ensures Trim(Trim(s)) == Trim(s)
  {
    var u := TrimStart(s);
    TrimEndShape(u);
    var k :| 0 <= k <= |u| && TrimEnd(u) == u[..k] && AllWhitespace(u[k..]);
    if k > 0 {
      assert Trim(s)[0] == u[0];
    }
    TrimUntouched(Trim(s));
  }
}
