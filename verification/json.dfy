/**
 JSON values as the Python side sees them after `json.loads`.

 An object is an ordered list of fields, because a Python `dict` remembers
 insertion order: assigning to an existing key replaces its value in place,
 assigning to a new key appends it. Numbers are integers only.
 */
module Json {
  import opened Wrappers

  datatype Json =
    | JNull
    | JBool(b: bool)
    | JNum(n: int)
    | JStr(s: string)
    | JArr(items: seq<Json>)
    | JObj(fields: seq<(string, Json)>)

  /** The empty object `{}`. */
  const Empty: Json := JObj([])

  /** Python truthiness: `None`, `False`, `0`, `""`, `[]` and `{}` are false. */
  predicate Truthy(j: Json)
  {
    match j
    case JNull => false
    case JBool(b) => b
    case JNum(n) => n != 0
    case JStr(s) => s != ""
    case JArr(items) => items != []
    case JObj(fields) => fields != []
  }

  /** The set of keys of a field list. */
  function Keys(fields: seq<(string, Json)>): set<string>
  {
    set i | 0 <= i < |fields| :: fields[i].0
  }

  /** A Python dict never holds a key twice. */
  predicate UniqueKeys(fields: seq<(string, Json)>)
  {
    forall i, j :: 0 <= i < j < |fields| ==> fields[i].0 != fields[j].0
  }

  /** `d.get(k)`: the value stored under `k`, if any. */
  function Get(fields: seq<(string, Json)>, k: string): (r: Option<Json>)
    ensures r.Some? <==> k in Keys(fields)
    ensures r.Some? ==> (k, r.value) in fields
    ensures UniqueKeys(fields) ==> forall i :: 0 <= i < |fields| && fields[i].0 == k ==> r == Some(fields[i].1)
  {
    if fields == [] then None
    else if fields[0].0 == k then Some(fields[0].1)
    else
      KeysCons(fields[0], fields[1..]);
      assert fields == [fields[0]] + fields[1..];
      Get(fields[1..], k)
  }

  /** `d[k] = v`: replace the value of an existing key in place, or append a new key. */
  function Put(fields: seq<(string, Json)>, k: string, v: Json): (r: seq<(string, Json)>)
    ensures Keys(r) == Keys(fields) + {k}
    ensures k in Keys(fields) ==> |r| == |fields| && forall i :: 0 <= i < |r| ==> r[i].0 == fields[i].0
    ensures k !in Keys(fields) ==> r == fields + [(k, v)]
  {
    if fields == [] then
      KeysCons((k, v), []);
      assert [(k, v)] + [] == [(k, v)];
      [(k, v)]
    else
      KeysCons(fields[0], fields[1..]);
      assert fields == [fields[0]] + fields[1..];
      if fields[0].0 == k then
        KeysCons((k, v), fields[1..]);
        [(k, v)] + fields[1..]
      else
        var rest := Put(fields[1..], k, v);
        KeysCons(fields[0], rest);
        [fields[0]] + rest
  }

  /** After `d[k] = v`, `d.get(k)` is `v` and every other key reads as before. */
  lemma {:induction false} PutGet(fields: seq<(string, Json)>, k: string, v: Json, k': string)
    ensures Get(Put(fields, k, v), k') == if k' == k then Some(v) else Get(fields, k')
  {
    if fields != [] && fields[0].0 != k {
      PutGet(fields[1..], k, v, k');
    }
  }

  /** Assignment keeps a dict's keys distinct. */
  lemma PutUnique(fields: seq<(string, Json)>, k: string, v: Json)
    ensures UniqueKeys(fields) ==> UniqueKeys(Put(fields, k, v))
  {
    var r := Put(fields, k, v);
    if UniqueKeys(fields) && k !in Keys(fields) {
      forall i, j | 0 <= i < j < |r| ensures r[i].0 != r[j].0 {
        if j == |fields| {
          assert fields[i].0 in Keys(fields);
        }
      }
    }
  }

  lemma KeysCons(f: (string, Json), rest: seq<(string, Json)>)
    ensures Keys([f] + rest) == {f.0} + Keys(rest)
  {
    var fs := [f] + rest;
    forall k | k in Keys(fs) ensures k in {f.0} + Keys(rest) {
      var i :| 0 <= i < |fs| && fs[i].0 == k;
      if i > 0 { assert rest[i - 1].0 == k; }
    }
    forall k | k in Keys(rest) ensures k in Keys(fs) {
      var i :| 0 <= i < |rest| && rest[i].0 == k;
      assert fs[i + 1].0 == k;
    }
    assert fs[0].0 == f.0;
  }

  /** Looking a key up in a concatenation: the first part wins. */
  lemma {:induction false} GetAppend(a: seq<(string, Json)>, b: seq<(string, Json)>, k: string)
    ensures Get(a + b, k) == if k in Keys(a) then Get(a, k) else Get(b, k)
  {
    if a != [] {
      assert (a + b)[1..] == a[1..] + b;
      KeysCons(a[0], a[1..]);
      assert a == [a[0]] + a[1..];
      GetAppend(a[1..], b, k);
    } else {
      assert a + b == b;
    }
  }
}
