/**
 * The PHP values the plugin's server code handles, PHP's truthiness rules,
 * the WP_Error value and the ways a WordPress request can end.
 *
 * Where PHP releases differ, the model follows PHP 8: reading a string with a
 * non-numeric string offset throws, and so do preg_match on an array and
 * str_repeat with a negative count.
 */
module Php {
  import opened Wrappers

  /** An array key: PHP arrays are keyed by integers or by strings. */
  datatype Key = IntKey(i: int) | StrKey(s: string)

  /**
   * A PHP value as json_decode($s, true) produces it: JSON objects and lists
   * both become (ordered) arrays, here maps from key to value. Key order is
   * not modelled.
   */
  datatype Value =
    | Null
    | Bool(b: bool)
    | Int(i: int)
    | Float(f: real)
    | Str(s: string)
    | Arr(entries: map<Key, Value>)

  /** PHP's conversion to bool, as used by `if ($x)`, `!$x` and `empty($x)`. */
  predicate Truthy(v: Value) {
    match v
    case Null => false
    case Bool(b) => b
    case Int(i) => i != 0
    case Float(f) => f != 0.0
    case Str(s) => s != "" && s != "0"
    case Arr(m) => |m| != 0
  }

  /** `empty($s)` / `!$s` for a string: the empty string and "0" both count as empty. */
  function IsEmpty(s: string): (r: bool)
    ensures r <==> (s == "" || s == "0")
  {
    !Truthy(Str(s))
  }

  /**
   * `isset($v[k0][k1]...[kn])`: every step lands on an array that holds the
   * key, and the value reached is not null. (PHP also lets an integer offset
   * index a string; a string offset never leads on to a further string key,
   * so for paths that end in a string key, as every path here does, this
   * array-only walk gives the same answer.)
   */
  function Dig(v: Value, path: seq<Key>): (r: Option<Value>)
    ensures r.Some? ==> r.value != Null
    ensures path == [] ==> (r.Some? <==> v != Null)
    decreases |path|
  {
    if path == [] then
      (if v == Null then None else Some(v))
    else
      match v
      case Arr(m) => if path[0] in m then Dig(m[path[0]], path[1..]) else None
      case _ => None
  }

  /**
   * Reading `$v['name']` for a non-numeric name, outside isset: the entry of
   * an array (null when absent), null for null, booleans and numbers, and
   * None where PHP 8 throws (a string offset that is not a number).
   */
  function ReadField(v: Value, name: string): (r: Option<Value>)
    ensures r.None? <==> v.Str?
    ensures v.Arr? && StrKey(name) in v.entries ==> r == Some(v.entries[StrKey(name)])
  {
    match v
    case Arr(m) => if StrKey(name) in m then Some(m[StrKey(name)]) else Some(Null)
    case Str(_) => None
    case _ => Some(Null)
  }

  /** A WP_Error with one code and one message; the message is whatever value was given. */
  datatype WpError = WpError(code: string, message: Value)

  /** What a call into the Gemini client class gives back. */
  datatype Outcome =
    | Ok(value: Value)
    | Err(error: WpError)
    | Fatal      // an uncaught PHP Error ends the request

  /** How a form handler (admin-post.php) ends: redirect-and-exit, a failed nonce, or a PHP Error. */
  datatype Exit = Redirect(location: string) | NonceFailure | FatalError
}
