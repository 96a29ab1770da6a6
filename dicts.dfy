/** The dictionaries that flow from the JSON decoder through the field reconciler to
    the record builder: Python `dict`s with string keys, in insertion order, whose
    values are JSON strings or `null` (Python `None`). */
module Dicts {
  import opened Wrappers

  datatype Value = Null | Str(s: string)

  predicate DistinctKeys(entries: seq<(string, Value)>) {
    forall i, j | 0 <= i < j < |entries| :: entries[i].0 != entries[j].0
  }

  /** A dict: its entries in insertion order, no key twice. */
  type Dict = entries: seq<(string, Value)> | DistinctKeys(entries) witness []

  /** `list(d.keys())`. */
  function Keys(d: seq<(string, Value)>): (ks: seq<string>)
    ensures |ks| == |d| && forall i | 0 <= i < |d| :: ks[i] == d[i].0
  {
    seq(|d|, i requires 0 <= i < |d| => d[i].0)
  }

  /** `key in d`. */
  predicate HasKey(d: seq<(string, Value)>, key: string) {
    exists i | 0 <= i < |d| :: d[i].0 == key
  }

  /** `d.get(key)`: the value bound to `key`, `None` when the key is absent. */
  function Get(d: seq<(string, Value)>, key: string): (v: Option<Value>)
    ensures v.Some? <==> HasKey(d, key)
    ensures v.Some? ==> exists i | 0 <= i < |d| :: d[i] == (key, v.value)
  {
    if d == [] then None
    else if d[0].0 == key then Some(d[0].1)
    else
      var v := Get(d[1..], key);
      assert v.Some? ==> exists i | 0 <= i < |d[1..]| :: d[1..][i] == (key, v.value);
      v
  }

  /** In a dict the value found for a key is the one stored at that key's position. */
  lemma {:induction false} GetAt(d: Dict, i: nat)
    requires i < |d|
    ensures Get(d, d[i].0) == Some(d[i].1)
  {
    if i > 0 {
      var tail: Dict := d[1..];
      GetAt(tail, i - 1);
    }
  }

  /** `d.get(key, default)`. */
  function GetOr(d: seq<(string, Value)>, key: string, default: Value): (v: Value)
    ensures HasKey(d, key) ==> Get(d, key) == Some(v)
    ensures !HasKey(d, key) ==> v == default
  {
    match Get(d, key)
    case Some(v) => v
    case None => default
  }
}
