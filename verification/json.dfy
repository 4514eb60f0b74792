/** JSON values as Python's `json` module hands them over: objects are
    insertion-ordered dictionaries, written here as field lists. */
module Json {
  import opened Wrappers
  import Text

  datatype Json =
    | JNull
    | JBool(b: bool)
    | JInt(i: int)
    | JStr(s: string)
    | JArr(items: seq<Json>)
    | JObj(fields: seq<(string, Json)>)

  type Fields = seq<(string, Json)>

  function Keys(fs: Fields): (r: seq<string>)
    ensures |r| == |fs|
    ensures forall i :: 0 <= i < |fs| ==> r[i] == fs[i].0
  {
    if |fs| == 0 then [] else [fs[0].0] + Keys(fs[1..])
  }

  predicate Distinct(ks: seq<string>) {
    |ks| == 0 || (ks[0] !in ks[1..] && Distinct(ks[1..]))
  }

  /** A dictionary never holds a key twice. */
  predicate UniqueKeys(fs: Fields) {
    Distinct(Keys(fs))
  }

  /** `d.get(k)`: the value stored under `k`, if any. */
  function Lookup(fs: Fields, k: string): (r: Option<Json>)
    ensures r.Some? <==> k in Keys(fs)
    ensures r.Some? ==> (k, r.value) in fs
  {
    if |fs| == 0 then None
    else if fs[0].0 == k then Some(fs[0].1)
    else Lookup(fs[1..], k)
  }

  /** Looking a key up in a dictionary that starts with a given pair. */
  lemma LookupHead(k: string, v: Json, rest: Fields, x: string)
    ensures Lookup([(k, v)] + rest, x) == if k == x then Some(v) else Lookup(rest, x)
  {
    assert ([(k, v)] + rest)[1..] == rest;
  }

  /** `d[k] = v`: an existing key keeps its position, a new one goes last. */
  function Put(fs: Fields, k: string, v: Json): (r: Fields)
    ensures Lookup(r, k) == Some(v)
    ensures k in Keys(fs) ==> Keys(r) == Keys(fs)
    ensures k !in Keys(fs) ==> Keys(r) == Keys(fs) + [k]
  {
    if |fs| == 0 then [(k, v)]
    else if fs[0].0 == k then
      assert Keys([(k, v)] + fs[1..]) == [k] + Keys(fs[1..]);
      [(k, v)] + fs[1..]
    else
      var rest := Put(fs[1..], k, v);
      assert Keys([fs[0]] + rest) == [fs[0].0] + Keys(rest);
      assert Keys(fs) == [fs[0].0] + Keys(fs[1..]);
      [fs[0]] + rest
  }

  /** Every other key keeps its value across `d[k] = v`. */
  lemma {:induction false} PutOther(fs: Fields, k: string, v: Json, k': string)
    requires k' != k
    ensures Lookup(Put(fs, k, v), k') == Lookup(fs, k')
    decreases |fs|
  {
    if |fs| > 0 && fs[0].0 != k {
      PutOther(fs[1..], k, v, k');
    }
  }

  /** `d[k] = v` keeps a dictionary's keys distinct. */
  lemma {:induction false} PutUnique(fs: Fields, k: string, v: Json)
    requires UniqueKeys(fs)
    ensures UniqueKeys(Put(fs, k, v))
    decreases |fs|
  {
    if |fs| > 0 {
      assert Keys(fs) == [fs[0].0] + Keys(fs[1..]);
      if fs[0].0 != k {
        PutUnique(fs[1..], k, v);
        var rest := Put(fs[1..], k, v);
        assert Keys([fs[0]] + rest) == [fs[0].0] + Keys(rest);
      } else {
        assert Keys([(k, v)] + fs[1..]) == [k] + Keys(fs[1..]);
      }
    }
  }

  /** `d.pop(k, None)`: drops the key wherever it sits. */
  function Remove(fs: Fields, k: string): (r: Fields)
    ensures k !in Keys(r)
    ensures forall k' :: k' != k ==> Lookup(r, k') == Lookup(fs, k')
    ensures forall x :: x in Keys(r) ==> x in Keys(fs)
    ensures UniqueKeys(fs) ==> UniqueKeys(r)
    ensures k !in Keys(fs) ==> r == fs
  {
    if |fs| == 0 then []
    else if fs[0].0 == k then
      assert Keys(fs) == [k] + Keys(fs[1..]);
      Remove(fs[1..], k)
    else
      var rest := Remove(fs[1..], k);
      assert Keys([fs[0]] + rest) == [fs[0].0] + Keys(rest);
      assert Keys(fs) == [fs[0].0] + Keys(fs[1..]);
      [fs[0]] + rest
  }

  /** `d.get(k)` on a value that must be a dictionary; `None` in the outer
      option is the `AttributeError` a non-dictionary raises. */
  function Get(j: Json, k: string): (r: Option<Option<Json>>)
    ensures r.Some? <==> j.JObj?
    ensures r.Some? ==> r.value == Lookup(j.fields, k)
  {
    if j.JObj? then Some(Lookup(j.fields, k)) else None
  }

  /** Python's `key in container` for a string key: key membership for a
      dictionary, element membership for a list, substring test for a string,
      and `None` for the `TypeError` every other value raises. */
  function PyIn(key: string, j: Json): (r: Option<bool>)
    ensures r.Some? <==> j.JObj? || j.JArr? || j.JStr?
    ensures j.JObj? ==> r == Some(key in Keys(j.fields))
    ensures j.JArr? ==> r == Some(JStr(key) in j.items)
    ensures j.JStr? ==> r == Some(Text.IsSubstring(key, j.s))
  {
    match j
    case JObj(fs) => Some(key in Keys(fs))
    case JArr(xs) => Some(JStr(key) in xs)
    case JStr(s) => Some(Text.IsSubstring(key, s))
    case _ => None
  }

  /** Python truthiness of a JSON value. */
  predicate Truthy(j: Json) {
    match j
    case JNull => false
    case JBool(b) => b
    case JInt(i) => i != 0
    case JStr(s) => s != ""
    case JArr(xs) => xs != []
    case JObj(fs) => fs != []
  }

  /** A volume read from JSON and passed through `max(0, min(100, v))`: an
      integer (a boolean counts as 0 or 1); any other value makes the
      comparison raise, shown as `None`. */
  function AsInt(j: Json): (r: Option<int>)
    ensures j.JInt? ==> r == Some(j.i)
    ensures r.Some? <==> j.JInt? || j.JBool?
  {
    match j
    case JInt(i) => Some(i)
    case JBool(b) => Some(if b then 1 else 0)
    case _ => None
  }

  /** Setting a key twice keeps only the second value. */
  lemma {:induction false} PutPut(fs: Fields, k: string, v1: Json, v2: Json)
    ensures Put(Put(fs, k, v1), k, v2) == Put(fs, k, v2)
    decreases |fs|
  {
    if |fs| > 0 && fs[0].0 != k {
      PutPut(fs[1..], k, v1, v2);
    }
  }

  /** Writing back the value already stored under a key changes nothing. */
  lemma {:induction false} PutExisting(fs: Fields, k: string)
    requires UniqueKeys(fs) && k in Keys(fs)
    ensures Put(fs, k, Lookup(fs, k).value) == fs
    decreases |fs|
  {
    assert Keys(fs) == [fs[0].0] + Keys(fs[1..]);
    if fs[0].0 != k {
      PutExisting(fs[1..], k);
    }
  }
}
