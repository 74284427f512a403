/**
 * The values `json.loads` and `req.json` produce, and the Python operations the
 * handler applies to them: truthiness, `key in value`, `value[key]`, `value[0]`,
 * `d[key] = v` and the "wrap a non-list into a list" idiom.
 */
module JsonValue {
  import opened Wrappers
  import opened PyStrings

  /** A JSON number as written, `digits` times ten to the `exponent`; nothing computes with it. */
  datatype Decimal = Decimal(digits: int, exponent: int)

  /**
   * A loaded JSON value. An object is a Python dict: its members in insertion
   * order; dicts built by `json.loads` never repeat a key.
   */
  datatype Json =
    | Null
    | Bool(b: bool)
    | Num(n: Decimal)
    | Str(s: string)
    | Arr(items: seq<Json>)
    | Obj(members: seq<(string, Json)>)

  /** The exceptions the handler's `try` block catches; `Foreign` ones come from libraries and carry `str(e)`. */
  datatype Exception =
    | TypeError
    | KeyError
    | IndexError
    | AttributeError
    | Foreign(message: string)

  /** The keys of a dict, in order. */
  function Keys(ms: seq<(string, Json)>): seq<string>
  {
    if |ms| == 0 then [] else [ms[0].0] + Keys(ms[1..])
  }

  /** No key appears twice. */
  predicate DistinctKeys(ms: seq<(string, Json)>) {
    var ks := Keys(ms);
    forall i, j :: 0 <= i < j < |ks| ==> ks[i] != ks[j]
  }

  /** Python's `d.get(k)`: the value stored under `k`, if any. */
  function Get(ms: seq<(string, Json)>, k: string): (r: Option<Json>)
    ensures r.Some? <==> k in Keys(ms)
    ensures r.Some? ==> exists i :: 0 <= i < |ms| && ms[i] == (k, r.value)
  {
    if |ms| == 0 then None
    else if ms[0].0 == k then Some(ms[0].1)
    else
      var r := Get(ms[1..], k);
      assert r.Some? ==> ms[1..][0] == ms[1];
      r
  }

  /**
   * Python's `d[k] = v`: an existing key keeps its place and takes the new value,
   * a new key goes at the end; every other key keeps its value.
   */
  function Put(ms: seq<(string, Json)>, k: string, v: Json): (r: seq<(string, Json)>)
    ensures Get(r, k) == Some(v)
    ensures forall k' :: k' != k ==> Get(r, k') == Get(ms, k')
    ensures Keys(r) == if k in Keys(ms) then Keys(ms) else Keys(ms) + [k]
  {
    if |ms| == 0 then [(k, v)]
    else if ms[0].0 == k then
      assert ([(k, v)] + ms[1..])[1..] == ms[1..];
      [(k, v)] + ms[1..]
    else
      var rest := Put(ms[1..], k, v);
      assert ([ms[0]] + rest)[1..] == rest;
      [ms[0]] + rest
  }

  /** Assigning to a dict keeps its keys distinct. */
  lemma PutKeepsDistinct(ms: seq<(string, Json)>, k: string, v: Json)
    requires DistinctKeys(ms)
    ensures DistinctKeys(Put(ms, k, v))
  {
    var ks := Keys(ms);
    if k !in ks {
      assert forall i :: 0 <= i < |ks| ==> (ks + [k])[i] == ks[i];
    }
  }

  /** Assigning the same value to the same key twice changes nothing the second time. */
  lemma {:induction false} PutTwice(ms: seq<(string, Json)>, k: string, v: Json)
    ensures Put(Put(ms, k, v), k, v) == Put(ms, k, v)
    decreases |ms|
  {
    if |ms| > 0 && ms[0].0 != k {
      PutTwice(ms[1..], k, v);
      assert Put(ms, k, v)[1..] == Put(ms[1..], k, v);
    }
  }

  /** Python's `bool(v)`: `None`, `False`, zero and empty containers are false. */
  predicate Truthy(v: Json) {
    match v
    case Null => false
    case Bool(b) => b
    case Num(n) => n.digits != 0
    case Str(s) => |s| > 0
    case Arr(items) => |items| > 0
    case Obj(ms) => |ms| > 0
  }

  /**
   * Python's `needle in v` for a string `needle`: key membership for a dict,
   * element membership for a list, substring for a string; anything else raises.
   */
  function PyIn(needle: string, v: Json): Result<bool, Exception>
  {
    match v
    case Obj(ms) => Success(needle in Keys(ms))
    case Arr(items) => Success(Str(needle) in items)
    case Str(s) => Success(Contains(s, needle))
    case _ => Failure(TypeError)
  }

  /** Python's `v[key]` for a string `key`: a dict lookup; anything else raises. */
  function Item(v: Json, key: string): Result<Json, Exception>
  {
    match v
    case Obj(ms) => if key in Keys(ms) then Success(Get(ms, key).value) else Failure(KeyError)
    case _ => Failure(TypeError)
  }

  /** Python's `v[0]`: the first element of a list or first character of a string. */
  function First(v: Json): Result<Json, Exception>
  {
    match v
    case Arr(items) => if |items| == 0 then Failure(IndexError) else Success(items[0])
    case Str(s) => if |s| == 0 then Failure(IndexError) else Success(Str(s[..1]))
    case Obj(_) => Failure(KeyError)
    case _ => Failure(TypeError)
  }

  /**
   * `key in v` and `v[key]` agree: on a dict the lookup succeeds exactly when the
   * membership test does, and yields the value stored under the key; on a list or
   * a string the membership test may succeed but the lookup always raises.
   */
  lemma InAgreesWithItem(v: Json, key: string)
    ensures v.Obj? ==> (PyIn(key, v) == Success(true) <==> Item(v, key).Success?)
    ensures v.Obj? && Item(v, key).Success? ==> Get(v.members, key) == Some(Item(v, key).value)
    ensures !v.Obj? ==> Item(v, key) == Failure(TypeError)
  {
  }

  /** `if not isinstance(v, list): v = [v]`. */
  function AsList(v: Json): (r: seq<Json>)
    ensures v.Arr? ==> Arr(r) == v
    ensures !v.Arr? ==> r == [v]
  {
    if v.Arr? then v.items else [v]
  }
}
