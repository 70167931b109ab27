/** The values `json.loads` produces, and the Python builtins the sanitizer applies
    to them: `dict.get`, truthiness (`x or default`), `str(x)` and `int(x)`. */
module Json {
  import opened Wrappers
  import opened PyText

  /** A decoded JSON value as Python holds it. An object keeps its items in
      insertion order (a dict built by `json.loads` has distinct keys). A float
      is held by its exact value and by its decimal text as the decoder read it,
      which stands in for what Python's `str()` prints for it. */
  datatype Value =
    | Null
    | Bool(b: bool)
    | Int(i: int)
    | Float(x: real, text: string)
    | Str(s: string)
    | List(items: seq<Value>)
    | Obj(fields: seq<(string, Value)>)

  /** `d.get(key, default)` on the items of a dict. */
  function Get(fields: seq<(string, Value)>, key: string, default: Value): (r: Value)
    ensures (forall i :: 0 <= i < |fields| ==> fields[i].0 != key) ==> r == default
    ensures (exists i :: 0 <= i < |fields| && fields[i].0 == key) ==>
              exists i :: 0 <= i < |fields| && fields[i] == (key, r)
  {
    if fields == [] then default
    else if fields[0].0 == key then fields[0].1
    else
      var r := Get(fields[1..], key, default);
      assert forall i :: 1 <= i < |fields| ==> fields[i] == fields[1..][i - 1];
      r
  }

  lemma GetHead(fields: seq<(string, Value)>, key: string, default: Value)
    requires fields != [] && fields[0].0 == key
    ensures Get(fields, key, default) == fields[0].1
  {
  }

  lemma GetSkip(fields: seq<(string, Value)>, key: string, default: Value)
    requires fields != [] && fields[0].0 != key
    ensures Get(fields, key, default) == Get(fields[1..], key, default)
  {
  }

  /** Python truthiness: what `x or default` tests. */
  predicate Truthy(v: Value)
    ensures Truthy(v) <==>
              v != Null && v != Bool(false) && v != Int(0) && !(v.Float? && v.x == 0.0) &&
              v != Str("") && v != List([]) && v != Obj([])
  {
    match v
    case Null => false
    case Bool(b) => b
    case Int(i) => i != 0
    case Float(x, _) => x != 0.0
    case Str(s) => s != []
    case List(items) => items != []
    case Obj(fields) => fields != []
  }

  /** `x or default`. */
  function Or(v: Value, default: Value): (r: Value)
    ensures Truthy(v) ==> r == v
    ensures !Truthy(v) ==> r == default
  {
    if Truthy(v) then v else default
  }

  function HexDigit(d: nat): char
    requires d < 16
  {
    if d < 10 then DigitChar(d) else ('a' as int + (d - 10)) as char
  }

  /** The `\xNN` escape Python's `repr` uses for a control character. */
  function HexEscape(n: nat): string
    requires n < 256
  {
    "\\x" + [HexDigit(n / 16), HexDigit(n % 16)]
  }

  /** One character of a string literal as Python's `repr` writes it, inside quotes `q`. */
  function EscapeChar(c: char, q: char): string {
    var n := c as int;
    if c == q || c == '\\' then ['\\', c]
    else if c == '\t' then "\\t"
    else if c == '\n' then "\\n"
    else if c == '\r' then "\\r"
    else if n < 0x20 || (0x7f <= n <= 0xa0) || n == 0xad then HexEscape(n)
    else [c]
  }

  function EscapeAll(s: string, q: char): string {
    if s == [] then [] else EscapeChar(s[0], q) + EscapeAll(s[1..], q)
  }

  /** `repr(s)` for a string: single quotes unless the text holds a single quote
      and no double quote. */
  function StrRepr(s: string): (r: string)
    ensures |r| >= 2 && (r[0] == '\'' || r[0] == '"') && r[|r| - 1] == r[0]
  {
    var q := if '\'' in s && '"' !in s then '"' else '\'';
    [q] + EscapeAll(s, q) + [q]
  }

  /** `", ".join(parts)`. */
  function Join(parts: seq<string>): string {
    if parts == [] then []
    else if |parts| == 1 then parts[0]
    else parts[0] + ", " + Join(parts[1..])
  }

  /** `repr(v)`. */
  function Repr(v: Value): (r: string)
    decreases v
    ensures !v.Float? ==> Trimmed(r)
  {
    match v
    case Null => "None"
    case Bool(b) => if b then "True" else "False"
    case Int(i) => IntText(i)
    case Float(_, text) => text
    case Str(s) => StrRepr(s)
    case List(items) =>
      "[" + Join(seq(|items|, k requires 0 <= k < |items| => Repr(items[k]))) + "]"
    case Obj(fields) =>
      "{" + Join(seq(|fields|, k requires 0 <= k < |fields| =>
                    assert fields[k].1 < fields[k];
                    StrRepr(fields[k].0) + ": " + Repr(fields[k].1))) + "}"
  }

  /** `str(v)`: the text itself for a string, `repr(v)` for everything else. */
  function ToText(v: Value): (r: string)
    ensures v.Str? ==> r == v.s
    ensures !v.Str? && !v.Float? ==> Strip(r) != []
  {
    match v
    case Str(s) => s
    case Float(_, text) => text
    case _ => var r := Repr(v); StripUnchanged(r); r
  }

  /** Truncation toward zero, as `int(x)` does for a float. */
  function Truncate(x: real): (n: int)
    ensures 0.0 <= x ==> 0 <= n && n as real <= x < n as real + 1.0
    ensures x < 0.0 ==> n <= 0 && n as real - 1.0 < x <= n as real
  {
    if x >= 0.0 then x.Floor else -((-x).Floor)
  }

  /** `int(v)`: `None` where Python raises (`TypeError` for None, lists and dicts,
      `ValueError` for text that is not a base-10 integer). */
  function ToInt(v: Value): (r: Option<int>)
    ensures v.Int? ==> r == Some(v.i)
    ensures v.Null? || v.List? || v.Obj? ==> r == None
    ensures v.Bool? ==> r == Some(if v.b then 1 else 0)
    ensures v.Float? ==> r == Some(Truncate(v.x))
    ensures v.Str? ==> r == ParseInt(v.s)
  {
    match v
    case Null => None
    case Bool(b) => Some(if b then 1 else 0)
    case Int(i) => Some(i)
    case Float(x, _) => Some(Truncate(x))
    case Str(s) => ParseInt(s)
    case List(_) => None
    case Obj(_) => None
  }
}
