/** The small part of JavaScript's value semantics that app/services/api.ts
    relies on: `undefined`, truthiness (`||`, `if (x)`), property access that
    throws on `undefined`/`null`, and plain objects as dictionaries in
    their enumeration order (`obj[k] = v`, `delete obj[k]`, object spread).
    For keys that are not array indices that order is insertion order, which
    is the order the model keeps; array-index keys, which JavaScript lists
    first in ascending order, are not modelled. */
module JsValues {

  datatype Option<+T> = None | Some(value: T)

  /** A JavaScript value. Objects keep their own enumerable properties in
      enumeration order; numbers are modelled as reals without NaN. */
  datatype JsValue =
    | Undefined
    | Null
    | Bool(b: bool)
    | Num(n: real)
    | Str(s: string)
    | Arr(items: seq<JsValue>)
    | Obj(fields: seq<(string, JsValue)>)

  /** ToBoolean: the falsy values are undefined, null, false, 0 and "". */
  predicate Truthy(v: JsValue) {
    match v
    case Undefined => false
    case Null => false
    case Bool(b) => b
    case Num(n) => n != 0.0
    case Str(s) => s != ""
    case Arr(_) => true
    case Obj(_) => true
  }

  /** `a || b`: the left operand when it is truthy, the right one otherwise. */
  function Or(a: JsValue, b: JsValue): (r: JsValue)
    ensures Truthy(a) ==> r == a
    ensures !Truthy(a) ==> r == b
  {
    if Truthy(a) then a else b
  }

  /** The value of the right-most `||` operand whose left neighbours are all
      falsy, as an independent description of an `||` chain: the first truthy
      element, or the last element when none is truthy. */
  ghost predicate IsFirstTruthyOrLast(chain: seq<JsValue>, r: JsValue)
    requires |chain| > 0
  {
    exists k :: 0 <= k < |chain| && r == chain[k]
      && (k < |chain| - 1 ==> Truthy(chain[k]))
      && (forall j :: 0 <= j < k ==> !Truthy(chain[j]))
  }

  /** `c[0] || c[1] || ... || c[n-1]` (`||` is associative, so the grouping
      does not matter). */
  function OrAll(chain: seq<JsValue>): JsValue
    requires |chain| > 0
  {
    if |chain| == 1 then chain[0] else Or(chain[0], OrAll(chain[1..]))
  }

  lemma {:induction false} OrAllIsFirstTruthyOrLast(chain: seq<JsValue>)
    requires |chain| > 0
    ensures IsFirstTruthyOrLast(chain, OrAll(chain))
  {
    if |chain| == 1 {
      assert OrAll(chain) == chain[0];
    } else if Truthy(chain[0]) {
      assert OrAll(chain) == chain[0];
    } else {
      OrAllIsFirstTruthyOrLast(chain[1..]);
      var k :| 0 <= k < |chain[1..]| && OrAll(chain[1..]) == chain[1..][k]
        && (k < |chain[1..]| - 1 ==> Truthy(chain[1..][k]))
        && (forall j :: 0 <= j < k ==> !Truthy(chain[1..][j]));
      assert OrAll(chain) == chain[k + 1];
      assert forall j :: 0 <= j < k + 1 ==> !Truthy(chain[j]) by {
        forall j | 0 <= j < k + 1 ensures !Truthy(chain[j]) {
          if j > 0 {
            assert chain[j] == chain[1..][j - 1];
          }
        }
      }
    }
  }

  /** A plain JS object used as a map, its entries in enumeration order
      (insertion order, for keys that are not array indices). */
  type Dict<V> = seq<(string, V)>

  predicate DistinctKeys<V>(d: Dict<V>) {
    forall i, j :: 0 <= i < j < |d| ==> d[i].0 != d[j].0
  }

  function Keys<V>(d: Dict<V>): (ks: seq<string>)
    ensures |ks| == |d|
    ensures forall i :: 0 <= i < |d| ==> ks[i] == d[i].0
  {
    if d == [] then [] else [d[0].0] + Keys(d[1..])
  }

  function Lookup<V>(d: Dict<V>, k: string): (r: Option<V>)
    ensures r.None? <==> (forall i :: 0 <= i < |d| ==> d[i].0 != k)
    ensures r.Some? ==> exists i :: 0 <= i < |d| && d[i] == (k, r.value)
  {
    if d == [] then None
    else if d[0].0 == k then Some(d[0].1)
    else Lookup(d[1..], k)
  }

  /** `d[k] = v`: an existing key keeps its position, a new key goes last. */
  function Put<V>(d: Dict<V>, k: string, v: V): (r: Dict<V>)
    ensures Lookup(d, k).Some? ==> |r| == |d| && Keys(r) == Keys(d)
    ensures Lookup(d, k).None? ==> r == d + [(k, v)]
    ensures Lookup(r, k) == Some(v)
    ensures forall k' :: k' != k ==> Lookup(r, k') == Lookup(d, k')
  {
    if d == [] then [(k, v)]
    else if d[0].0 == k then [(k, v)] + d[1..]
    else [d[0]] + Put(d[1..], k, v)
  }

  /** Assigning a property never repeats a key. */
  lemma {:induction false} PutKeepsKeysDistinct<V>(d: Dict<V>, k: string, v: V)
    requires DistinctKeys(d)
    ensures DistinctKeys(Put(d, k, v))
  {
    if d != [] && d[0].0 != k {
      var rest := Put(d[1..], k, v);
      PutKeepsKeysDistinct(d[1..], k, v);
      forall i | 0 <= i < |d[1..]| ensures d[1..][i].0 != d[0].0 {
        assert d[1..][i] == d[i + 1];
      }
      assert Lookup(d[1..], d[0].0).None?;
      assert Lookup(rest, d[0].0).None?;
      ConsDistinct(d[0], rest);
    }
  }

  lemma ConsDistinct<V>(x: (string, V), rest: Dict<V>)
    requires DistinctKeys(rest) && Lookup(rest, x.0).None?
    ensures DistinctKeys([x] + rest)
  {
    var r := [x] + rest;
    forall i, j | 0 <= i < j < |r| ensures r[i].0 != r[j].0 {
      assert r[j] == rest[j - 1];
      if i > 0 {
        assert r[i] == rest[i - 1];
      }
    }
  }

  /** `delete d[k]`: removes the key, wherever it is, and nothing else. */
  function Delete<V>(d: Dict<V>, k: string): (r: Dict<V>)
    ensures Lookup(r, k).None?
    ensures forall k' :: k' != k ==> Lookup(r, k') == Lookup(d, k')
    ensures Lookup(d, k).None? ==> r == d
    ensures forall e :: e in r ==> e in d
    ensures DistinctKeys(d) ==> DistinctKeys(r)
  {
    if d == [] then []
    else if d[0].0 == k then Delete(d[1..], k)
    else
      var rest := Delete(d[1..], k);
      assert DistinctKeys(d) ==> forall e :: e in rest ==> e.0 != d[0].0 by {
        if DistinctKeys(d) {
          forall e | e in rest ensures e.0 != d[0].0 {
            var i :| 0 <= i < |d[1..]| && d[1..][i] == e;
            assert d[i + 1] == e;
          }
        }
      }
      [d[0]] + rest
  }

  /** Reading property `k` of a value: a TypeError (None) on undefined and
      null, the own property of an object, `undefined` for every other key.
      The keys read by the model (`error`, `code`, `message`, ...) are not
      properties of strings, numbers, booleans or arrays. */
  function Get(v: JsValue, k: string): (r: Option<JsValue>)
    ensures r.None? <==> v.Undefined? || v.Null?
    ensures v.Obj? && Lookup(v.fields, k).Some? ==> r == Lookup(v.fields, k)
    ensures v.Obj? && Lookup(v.fields, k).None? ==> r == Some(Undefined)
    ensures !v.Obj? && r.Some? ==> r.value == Undefined
  {
    match v
    case Undefined => None
    case Null => None
    case Obj(fields) =>
      (match Lookup(fields, k)
       case Some(x) => Some(x)
       case None => Some(Undefined))
    case _ => Some(Undefined)
  }
}
