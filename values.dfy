/** Attribute values shared by nodes, edges and history records.

    Python attribute dictionaries hold arbitrary objects; the knowledge graph only
    ever stores strings (names, descriptions, timestamps, roles) and the two boolean
    markers `is_user_company` / `is_competitor`, so a value is one of those two. */
module Values {

  datatype Option<+T> = None | Some(value: T)

  datatype Value = Text(s: string) | Flag(b: bool)

  /** A Python attribute dictionary (key order is not modelled). */
  type Attrs = map<string, Value>

  /** A caller-supplied stand-in for `datetime.now().isoformat()`. */
  type Timestamp = string

  /** `attrs.get(key)`: `None` when the key is absent. */
  function Get(attrs: Attrs, key: string): (r: Option<Value>)
    ensures r.Some? <==> key in attrs
    ensures r.Some? ==> r.value == attrs[key]
  {
    if key in attrs then Some(attrs[key]) else None
  }

  /** Turns a dictionary of parsed strings into stored attribute values. */
  function TextAttrs(m: map<string, string>): (r: Attrs)
    ensures r.Keys == m.Keys
    ensures forall k :: k in m ==> r[k] == Text(m[k])
  {
    map k | k in m :: Text(m[k])
  }

  /** A non-empty sequence is its prefix without the last element, followed by
      the last element. */
  lemma InitLast<T>(s: seq<T>)
    requires s != []
    ensures s == s[..|s| - 1] + [s[|s| - 1]]
  {
  }
}
