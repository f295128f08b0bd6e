/** The value `yaml.safe_load` produces, restricted to what the rule loaders
    look at: null, booleans, integers, strings, lists and string-keyed
    mappings (entries in document order). */
module YamlValue {
  import opened Wrappers
  import opened Strings

  datatype Yaml =
    | YNull
    | YBool(b: bool)
    | YInt(i: int)
    | YStr(s: string)
    | YList(items: seq<Yaml>)
    | YMap(entries: seq<(string, Yaml)>)

  /** `key in mapping`. */
  predicate HasKey(entries: seq<(string, Yaml)>, key: string) {
    exists i :: 0 <= i < |entries| && entries[i].0 == key
  }

  /** `mapping.get(key)`; of duplicate keys the loader keeps the last. */
  function Get(entries: seq<(string, Yaml)>, key: string): (r: Option<Yaml>)
    ensures r.Some? <==> HasKey(entries, key)
    ensures r.Some? ==> exists i :: 0 <= i < |entries| && entries[i] == (key, r.value)
  {
    if entries == [] then None
    else if entries[|entries| - 1].0 == key then Some(entries[|entries| - 1].1)
    else
      var r := Get(entries[..|entries| - 1], key);
      assert HasKey(entries, key) ==> HasKey(entries[..|entries| - 1], key) by {
        if HasKey(entries, key) {
          var i :| 0 <= i < |entries| && entries[i].0 == key;
          assert entries[..|entries| - 1][i].0 == key;
        }
      }
      assert r.Some? ==> exists i :: 0 <= i < |entries| && entries[i] == (key, r.value) by {
        if r.Some? {
          var i :| 0 <= i < |entries| - 1 && entries[..|entries| - 1][i] == (key, r.value);
          assert entries[i] == (key, r.value);
        }
      }
      r
  }

  /** `mapping.get(key, default)`. */
  function GetOr(entries: seq<(string, Yaml)>, key: string, default: Yaml): Yaml {
    match Get(entries, key)
    case Some(v) => v
    case None => default
  }

  /** Python's truth value of a loaded document. */
  predicate Truthy(v: Yaml) {
    match v
    case YNull => false
    case YBool(b) => b
    case YInt(i) => i != 0
    case YStr(s) => s != []
    case YList(items) => items != []
    case YMap(entries) => entries != []
  }

  /** `type(v).__name__`, used in the `TypeError` texts. */
  function TypeName(v: Yaml): string {
    match v
    case YNull => "NoneType"
    case YBool(_) => "bool"
    case YInt(_) => "int"
    case YStr(_) => "str"
    case YList(_) => "list"
    case YMap(_) => "dict"
  }

  /** `needle in v` for a string needle: key membership for a mapping,
      element membership for a list, substring for a string, and a
      `TypeError` (here `None`) for scalars. */
  function MemberOf(needle: string, v: Yaml): Option<bool> {
    match v
    case YMap(entries) => Some(HasKey(entries, needle))
    case YList(items) => Some(YStr(needle) in items)
    case YStr(s) => Some(Contains(s, needle))
    case _ => None
  }
}
