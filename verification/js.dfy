/** The slice of JavaScript's runtime that the page scripts depend on:
    values as `JSON.parse` and property access produce them, truthiness,
    the throw points of property access, requests and responses of `fetch`,
    and `localStorage` as a map from keys to parsed values.
 */
module Js {

  /** A JavaScript value as the scripts meet it. Numbers are exact reals
      (NaN and -0 do not arise in the paths modelled); objects are maps from
      property names to values. */
  datatype Value =
    | Undefined
    | Null
    | Bool(b: bool)
    | Num(n: real)
    | Str(s: string)
    | Arr(items: seq<Value>)
    | Obj(fields: map<string, Value>)

  /** Why a script stops: the exception it would throw. */
  datatype Error =
    | NetworkError   // `response.ok` was false, `fetch` rejected, or the body was not JSON
    | TypeError      // property access on null/undefined, or a method the value lacks
    | SyntaxError    // `JSON.parse` of the text "undefined"
    | Unsupported    // a stored shape no script in this model ever writes

  datatype Result<T> = Ok(value: T) | Err(error: Error)

  datatype Option<T> = None | Some(value: T)

  /** `localStorage`, each key holding the value its JSON text parses to. */
  type Store = map<string, Value>

  /** One call to `fetch`: `${base}/${path}?${query}`. */
  datatype Request = Request(base: string, path: string, query: map<string, string>)

  /** What the scripts observe of a response: `ok` and, when ok, the parsed body. */
  datatype Response = Response(ok: bool, body: Value)

  /** The remote API, as the outcome of each request. */
  type Network = Request -> Response

  /** JavaScript truthiness, as used by `if (x)`, `!x` and `x || y`. */
  predicate Truthy(v: Value) {
    match v
    case Undefined => false
    case Null => false
    case Bool(b) => b
    case Num(n) => n != 0.0
    case Str(s) => s != ""
    case _ => true
  }

  /** A value with no `undefined` anywhere inside: what JSON text can hold. */
  predicate JsonValue(v: Value) {
    match v
    case Undefined => false
    case Arr(xs) => forall i :: 0 <= i < |xs| ==> JsonValue(xs[i])
    case Obj(m) => forall k :: k in m ==> JsonValue(m[k])
    case _ => true
  }

  /** `JSON.parse(JSON.stringify(v))` for a value nested inside a record:
      a property holding undefined is dropped and an array item that is
      undefined becomes null, at every depth. (At the top level and as a
      property, undefined stays undefined: the property is omitted.) */
  function Stringified(v: Value): (r: Value)
    ensures v.Undefined? <==> r.Undefined?
    ensures !v.Undefined? ==> JsonValue(r)
  {
    match v
    case Arr(xs) =>
      Arr(seq(|xs|, i requires 0 <= i < |xs| => if xs[i].Undefined? then Null else Stringified(xs[i])))
    case Obj(m) =>
      Obj(map k | k in m && !m[k].Undefined? :: Stringified(m[k]))
    case _ => v
  }

  /** JSON text round-trips every value that holds no undefined. */
  lemma {:induction false} StringifiedJson(v: Value)
    requires JsonValue(v)
    ensures Stringified(v) == v
  {
    match v
    case Arr(xs) =>
      forall i | 0 <= i < |xs|
        ensures Stringified(xs[i]) == xs[i]
      {
        StringifiedJson(xs[i]);
      }
    case Obj(m) =>
      forall k | k in m
        ensures Stringified(m[k]) == m[k]
      {
        StringifiedJson(m[k]);
      }
      assert Stringified(v).fields == m;
    case _ =>
  }

  /** Turning `v` into text — a template literal `${v}`, `textContent = v`,
      an item of `join` — succeeds. A parsed object converts through the
      inherited `toString` unless it has a `toString` key of its own, which
      JSON cannot make callable, so the conversion throws a TypeError. An
      array converts by joining its items (null and undefined as ""). */
  predicate Printable(v: Value) {
    match v
    case Obj(m) => "toString" !in m
    case Arr(xs) => forall i :: 0 <= i < |xs| ==> Printable(xs[i])
    case _ => true
  }

  /** No object anywhere inside `v` has a `toString` key of its own: data as
      an API ordinarily sends it. */
  predicate Plain(v: Value) {
    match v
    case Obj(m) => "toString" !in m && forall k :: k in m ==> Plain(m[k])
    case Arr(xs) => forall i :: 0 <= i < |xs| ==> Plain(xs[i])
    case _ => true
  }

  /** Plain data always converts to text. */
  lemma {:induction false} PlainPrintable(v: Value)
    requires Plain(v)
    ensures Printable(v)
  {
    match v
    case Arr(xs) =>
      forall i | 0 <= i < |xs|
        ensures Printable(xs[i])
      {
        PlainPrintable(xs[i]);
      }
    case _ =>
  }

  /** `v.key` for a named (non-index) property; reading a property of
      `null` or `undefined` throws. */
  function Get(v: Value, key: string): Result<Value> {
    match v
    case Undefined => Err(TypeError)
    case Null => Err(TypeError)
    case Obj(m) => Ok(if key in m then m[key] else Undefined)
    case Arr(xs) => Ok(if key == "length" then Num(|xs| as real) else Undefined)
    case Str(s) => Ok(if key == "length" then Num(|s| as real) else Undefined)
    case _ => Ok(Undefined)
  }

  /** `v[i]` for an array index. */
  function At(v: Value, i: nat): Result<Value> {
    match v
    case Arr(xs) => Ok(if i < |xs| then xs[i] else Undefined)
    case Str(s) => Ok(if i < |s| then Str([s[i]]) else Undefined)
    case _ => Get(v, Decimal(i))
  }

  function Digit(d: nat): char
    requires d < 10
  {
    ('0' as int + d) as char
  }

  /** The decimal text of a natural number, as `String(n)` writes it. */
  function Decimal(n: nat): (r: string)
    ensures 1 <= |r|
    ensures forall i :: 0 <= i < |r| ==> '0' <= r[i] <= '9'
    ensures (r[0] == '0') <==> (n == 0)
  {
    if n < 10 then [Digit(n)] else Decimal(n / 10) + [Digit(n % 10)]
  }

  /** Different numbers have different decimal texts. */
  lemma {:induction false} DecimalInjective(a: nat, b: nat)
    ensures Decimal(a) == Decimal(b) ==> a == b
    decreases a
  {
    if Decimal(a) == Decimal(b) {
      if a >= 10 && b >= 10 {
        var da, db := Decimal(a), Decimal(b);
        assert da[..|da| - 1] == Decimal(a / 10);
        assert db[..|db| - 1] == Decimal(b / 10);
        DecimalInjective(a / 10, b / 10);
        assert Digit(a % 10) == da[|da| - 1];
      }
    }
  }
}
