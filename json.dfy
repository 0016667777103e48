/**
 * Decoded JSON values as the scrapers see them after `json.loads`, and the
 * few Python operations on them that the scrapers rely on: truthiness,
 * list indexing with negative indices, and `list.index`.
 */
module Json {
  import opened Wrappers

  datatype Json =
    | JNull
    | JBool(b: bool)
    | JInt(i: int)
    | JNum(r: real)
    | JStr(s: string)
    | JList(items: seq<Json>)
    | JObj(fields: map<string, Json>)

  /** The Python exceptions a parser can raise on malformed input. */
  datatype PyError = KeyError | TypeError | IndexError | ValueError | AttributeError | RecursionError

  /** A dictionary entry read with `.get(key)`: the key may be absent, present with `null`, or present. */
  datatype Field<+T> = Absent | Null | Present(value: T)

  /** Python truthiness of a decoded JSON value. */
  predicate Truthy(j: Json)
  {
    match j
    case JNull => false
    case JBool(b) => b
    case JInt(i) => i != 0
    case JNum(r) => r != 0.0
    case JStr(s) => s != []
    case JList(items) => items != []
    case JObj(fields) => fields != map[]
  }

  /** `d.get(key)` followed by `or None`-style collapsing: absent and null both give None. */
  function FieldValue<T>(f: Field<T>): (r: Option<T>)
    ensures r.Some? <==> f.Present?
    ensures f.Present? ==> r.value == f.value
  {
    match f
    case Present(v) => Some(v)
    case _ => None
  }

  /** `xs[i]` in Python: negative indices count from the end; out of range raises IndexError (None here). */
  function PyIndex<T>(xs: seq<T>, i: int): (r: Option<T>)
    ensures r.Some? <==> -|xs| <= i < |xs|
    ensures 0 <= i < |xs| ==> r == Some(xs[i])
    ensures -|xs| <= i < 0 ==> r == Some(xs[|xs| + i])
  {
    if 0 <= i < |xs| then Some(xs[i])
    else if -|xs| <= i < 0 then Some(xs[|xs| + i])
    else None
  }

  /** A JSON value used as a list index: ints, and booleans as 0 and 1; anything else raises TypeError (None here). */
  function AsIndex(j: Json): Option<int>
  {
    match j
    case JInt(i) => Some(i)
    case JBool(b) => Some(if b then 1 else 0)
    case _ => None
  }

  /** `xs.index(x)`: the position of the FIRST element equal to `x`. */
  function FirstIndex<T(==)>(xs: seq<T>, x: T): (r: nat)
    requires x in xs
    ensures r < |xs| && xs[r] == x
  {
    if xs[0] == x then 0 else 1 + FirstIndex(xs[1..], x)
  }

  /** No element before `xs.index(x)` equals `x`. */
  lemma {:induction false} FirstIndexIsFirst<T>(xs: seq<T>, x: T)
    requires x in xs
    ensures forall k :: 0 <= k < FirstIndex(xs, x) ==> xs[k] != x
  {
    if xs[0] != x {
      FirstIndexIsFirst(xs[1..], x);
      forall k | 0 <= k < FirstIndex(xs, x) ensures xs[k] != x {
        if k > 0 {
          assert xs[k] == xs[1..][k - 1];
        }
      }
    }
  }
}
