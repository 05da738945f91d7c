/**
  * A JSON document as `json.load` hands it to gitee.py: `null`, booleans,
  * numbers (kept as their literal text, nothing here computes with them),
  * strings, lists and mappings. A mapping keeps its members in insertion
  * order, as a Python `dict` does. The type itself allows a key twice;
  * `UniqueKeys` states that every mapping, at any depth, has distinct keys.
  */
module Json {
  import opened Wrappers

  datatype Json =
    | Null
    | Bool(b: bool)
    | Num(literal: string)
    | Str(s: string)
    | Arr(items: seq<Json>)
    | Obj(members: seq<Member>)

  datatype Member = Member(key: string, value: Json)

  /** No key occurs twice among the members of one mapping. */
  predicate DistinctKeys(ms: seq<Member>) {
    forall i, j :: 0 <= i < j < |ms| ==> ms[i].key != ms[j].key
  }

  /** Every mapping in the document, at any depth, has distinct keys: what a Python `dict` guarantees. */
  predicate UniqueKeys(j: Json)
    decreases j
  {
    match j
    case Arr(items) => forall i :: 0 <= i < |items| ==> UniqueKeys(items[i])
    case Obj(ms) => DistinctKeys(ms) && forall i :: 0 <= i < |ms| ==> UniqueKeys(ms[i].value)
    case _ => true
  }

  /** Where `key` sits among `ms`, if anywhere: the `key in d` test and the `d[key]` lookup. */
  function KeyIndex(ms: seq<Member>, key: string): (r: Option<nat>)
    ensures r.Some? ==> r.value < |ms| && ms[r.value].key == key
    ensures r.None? ==> forall i :: 0 <= i < |ms| ==> ms[i].key != key
  {
    if ms == [] then None
    else if ms[0].key == key then Some(0)
    else match KeyIndex(ms[1..], key)
      case Some(i) => Some(i + 1)
      case None => None
  }
}
