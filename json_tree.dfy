/** The decoded status document: a JSON value as Python's json module returns it,
    with the dictionary operations the health check uses on it. */
module JsonTree {
  import opened Wrappers

  /** A JSON value. Objects keep their members in document order, which is the
      order in which a Python dict built by json.loads iterates them. Numbers are
      kept as reals: only whether a number is zero matters here. */
  datatype Json =
    | JNull
    | JBool(b: bool)
    | JNum(n: real)
    | JStr(s: string)
    | JArr(items: seq<Json>)
    | JObj(members: Members)

  type Members = seq<(string, Json)>

  /** Python truthiness of a decoded value: None, False, zero and empty
      strings, lists and dicts are false, everything else is true. */
  predicate Truthy(j: Json)
    ensures !Truthy(j) <==> j in {JNull, JBool(false), JNum(0.0), JStr(""), JArr([]), JObj([])}
  {
    match j
    case JNull => false
    case JBool(b) => b
    case JNum(n) => n != 0.0
    case JStr(s) => s != ""
    case JArr(items) => items != []
    case JObj(members) => members != []
  }

  /** `d.get(key)` on a dict: the value stored under key, or None when the key is absent. */
  function Get(members: Members, key: string): (r: Option<Json>)
    ensures r.Some? ==> (key, r.value) in members
  {
    if members == [] then None
    else if members[0].0 == key then Some(members[0].1)
    else Get(members[1..], key)
  }

  /** `d.get(key)` is None exactly when no member has the key. */
  lemma {:induction false} GetAbsent(members: Members, key: string)
    ensures Get(members, key).None? <==> forall m :: m in members ==> m.0 != key
  {
    if members != [] {
      GetAbsent(members[1..], key);
      assert forall m :: m in members <==> m == members[0] || m in members[1..];
    }
  }

  /** A member that no earlier member shadows is what `d.get(key)` finds, wherever
      it stands in the dict. */
  lemma {:induction false} GetPastAbsent(pre: Members, key: string, v: Json, post: Members)
    requires forall m :: m in pre ==> m.0 != key
    ensures Get(pre + [(key, v)] + post, key) == Some(v)
  {
    if pre != [] {
      assert pre[0] in pre;
      assert (pre + [(key, v)] + post)[1..] == pre[1..] + [(key, v)] + post;
      GetPastAbsent(pre[1..], key, v, post);
    }
  }

  /** `d.get(key, default)` on a dict. */
  function GetOr(members: Members, key: string, default: Json): (v: Json)
    ensures Get(members, key).None? ==> v == default
    ensures Get(members, key).Some? ==> (key, v) in members
  {
    match Get(members, key)
    case None => default
    case Some(v) => v
  }

  /** `d[key]` on a dict; the precondition says the lookup raises no KeyError. */
  function Index(members: Members, key: string): (v: Json)
    requires Get(members, key).Some?
    ensures (key, v) in members
  {
    Get(members, key).value
  }

  /** The value reached by following a path of keys through nested objects, or
      None as soon as a key is missing or a value on the way is not an object. */
  function At(j: Json, path: seq<string>): Option<Json> {
    if path == [] then Some(j)
    else
      match j
      case JObj(members) =>
        (match Get(members, path[0])
         case None => None
         case Some(child) => At(child, path[1..]))
      case _ => None
  }
}
