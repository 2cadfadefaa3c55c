/**
 * A parsed JSON document, as `json.load` hands it to the scripts that read
 * the tag configuration (`config/categories.json`). Numbers are integers;
 * an object keeps its members in file order, and a key given twice takes
 * its last value, as in a Python `dict` built by `json.load`.
 */
module JsonValue {
  import opened Wrappers

  datatype Json =
    | JNull
    | JBool(b: bool)
    | JNum(n: int)
    | JStr(s: string)
    | JArr(items: seq<Json>)
    | JObj(members: seq<(string, Json)>)

  /** `key in obj` */
  predicate HasKey(members: seq<(string, Json)>, key: string) {
    exists i | 0 <= i < |members| :: members[i].0 == key
  }

  /** `obj[key]`: the value of the last member with that key. */
  function Lookup(members: seq<(string, Json)>, key: string): (r: Option<Json>)
    ensures r.Some? <==> HasKey(members, key)
    decreases |members|
  {
    if members == [] then None
    else
      var n := |members| - 1;
      if members[n].0 == key then Some(members[n].1)
      else
        var r := Lookup(members[..n], key);
        assert HasKey(members[..n], key) ==> HasKey(members, key) by {
          if HasKey(members[..n], key) {
            var i :| 0 <= i < n && members[..n][i].0 == key;
            assert members[i].0 == key;
          }
        }
        r
  }

  /** The value found is that of a member with the key, and no later
      member has the key. */
  lemma {:induction false} LookupIsLast(members: seq<(string, Json)>, key: string)
    requires HasKey(members, key)
    ensures exists i | 0 <= i < |members| ::
              && members[i] == (key, Lookup(members, key).value)
              && forall j | i < j < |members| :: members[j].0 != key
    decreases |members|
  {
    var n := |members| - 1;
    if members[n].0 != key {
      var i :| 0 <= i < |members| && members[i].0 == key;
      assert members[..n][i].0 == key;
      LookupIsLast(members[..n], key);
      var k :| 0 <= k < n && members[..n][k] == (key, Lookup(members[..n], key).value)
               && forall j | k < j < n :: members[..n][j].0 != key;
      assert members[k] == members[..n][k];
      forall j | k < j < |members| ensures members[j].0 != key {
        if j < n {
          assert members[..n][j] == members[j];
        }
      }
    }
  }

  /** Python truthiness: `false`, `0`, `null`, and empty strings, arrays
      and objects are false. */
  predicate Truthy(v: Json) {
    match v
    case JNull => false
    case JBool(b) => b
    case JNum(n) => n != 0
    case JStr(s) => s != ""
    case JArr(items) => items != []
    case JObj(members) => members != []
  }

  /** What may be a `dict` key: a list or a dict is unhashable. */
  predicate Hashable(v: Json) {
    !v.JArr? && !v.JObj?
  }
}
