/** The JavaScript values a JSON reply can hold, with `undefined` as `None`, and the
    two operations the client applies to them: truthiness and property access. */
module JsValue {
  import opened Wrappers

  datatype Json =
    | JNull
    | JBool(b: bool)
    | JNumber(n: real)
    | JString(s: string)
    | JArray(items: seq<Json>)
    | JObject(members: seq<(string, Json)>)

  /** JavaScript truthiness; `undefined` (None), null, false, 0 and "" are falsy. JSON
      text cannot denote NaN, so no number besides 0 is falsy. */
  predicate Truthy(v: Option<Json>) {
    match v
    case None => false
    case Some(JNull) => false
    case Some(JBool(b)) => b
    case Some(JNumber(n)) => n != 0.0
    case Some(JString(s)) => s != ""
    case Some(JArray(_)) => true
    case Some(JObject(_)) => true
  }

  /** The value of the last member named key: `JSON.parse` keeps the last of
      duplicate names. */
  function Member(members: seq<(string, Json)>, key: string): Option<Json> {
    if members == [] then None
    else
      var last := members[|members| - 1];
      if last.0 == key then Some(last.1) else Member(members[..|members| - 1], key)
  }

  /** `Member` finds the last member named key, and nothing when there is none. */
  lemma {:induction false} MemberLast(members: seq<(string, Json)>, key: string)
    ensures var r := Member(members, key);
            && (r.Some? ==> exists i :: 0 <= i < |members| && members[i] == (key, r.value)
                                       && forall j :: i < j < |members| ==> members[j].0 != key)
            && (r.None? <==> forall i :: 0 <= i < |members| ==> members[i].0 != key)
  {
    if members != [] {
      var init := members[..|members| - 1];
      MemberLast(init, key);
      assert forall i :: 0 <= i < |init| ==> init[i] == members[i];
      if members[|members| - 1].0 != key && Member(init, key).Some? {
        var i :| 0 <= i < |init| && init[i] == (key, Member(init, key).value)
                 && forall j :: i < j < |init| ==> init[j].0 != key;
        assert members[i] == (key, Member(members, key).value);
      }
    }
  }

  /** `o.key` for a value o that is not null or undefined: only objects have the
      properties the client reads; on any other value the access gives undefined. */
  function Get(o: Option<Json>, key: string): Option<Json> {
    match o
    case Some(JObject(members)) => Member(members, key)
    case _ => None
  }

  /** `x[0]`: the first element of an array, the first character of a string, the
      member "0" of an object, and undefined otherwise or when there is none. */
  function Index0(x: Option<Json>): Option<Json> {
    match x
    case Some(JArray(items)) => if items == [] then None else Some(items[0])
    case Some(JString(s)) => if s == "" then None else Some(JString([s[0]]))
    case Some(JObject(members)) => Member(members, "0")
    case _ => None
  }
}
