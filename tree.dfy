/** The JSON-like data the YAML loader produces and the AWS payloads are
    made of: `None`, booleans, integers, strings, lists and dicts. A dict is
    an ordered list of entries, since Python dicts keep insertion order. */
module Tree {
  import opened Wrappers
  import Text

  datatype Value =
    | Null
    | Bool(b: bool)
    | Int(i: int)
    | Str(s: string)
    | Arr(items: seq<Value>)
    | Obj(entries: seq<(string, Value)>)

  predicate IsScalar(v: Value) {
    !v.Arr? && !v.Obj?
  }

  /** Python's `str()` of a scalar. */
  function ScalarText(v: Value): string
    requires IsScalar(v)
  {
    match v
    case Null => "None"
    case Bool(b) => if b then "True" else "False"
    case Int(i) => Text.IntToString(i)
    case Str(s) => s
  }

  /** Where key `k` sits in a dict. */
  function KeyIndex(entries: seq<(string, Value)>, k: string): (r: Option<nat>)
    ensures r.Some? ==> r.value < |entries| && entries[r.value].0 == k
    ensures r.Some? ==> forall j :: 0 <= j < r.value ==> entries[j].0 != k
    ensures r.None? ==> forall j :: 0 <= j < |entries| ==> entries[j].0 != k
  {
    if entries == [] then None
    else if entries[0].0 == k then Some(0)
    else match KeyIndex(entries[1..], k)
      case None => None
      case Some(i) => Some(i + 1)
  }

  /** `k in d`. */
  predicate HasKey(entries: seq<(string, Value)>, k: string) {
    KeyIndex(entries, k).Some?
  }

  /** `d.get(k)`. */
  function Get(entries: seq<(string, Value)>, k: string): Option<Value> {
    match KeyIndex(entries, k)
    case None => None
    case Some(i) => Some(entries[i].1)
  }

  /** `d[k] = x` for a key that is present: the entry keeps its place. */
  function SetAt(entries: seq<(string, Value)>, i: nat, x: Value): (r: seq<(string, Value)>)
    requires i < |entries|
    ensures |r| == |entries| && r[i] == (entries[i].0, x)
    ensures forall j :: 0 <= j < |r| && j != i ==> r[j] == entries[j]
  {
    entries[i := (entries[i].0, x)]
  }

  /** Every dict in the tree has distinct keys, as a Python dict does. */
  predicate WellFormed(v: Value)
    decreases v
  {
    match v
    case Arr(items) => forall i :: 0 <= i < |items| ==> WellFormed(items[i])
    case Obj(entries) =>
      && (forall i, j :: 0 <= i < j < |entries| ==> entries[i].0 != entries[j].0)
      && (forall i :: 0 <= i < |entries| ==> WellFormed(entries[i].1))
    case _ => true
  }

  /** One step down a tree: a dict key or a list index. */
  datatype Step = Key(key: string) | Index(index: nat)

  /** The node a route leads to, if there is one. */
  function Lookup(v: Value, route: seq<Step>): Option<Value>
    decreases |route|
  {
    if route == [] then Some(v)
    else match (route[0], v)
      case (Key(k), Obj(entries)) =>
        (match Get(entries, k)
         case None => None
         case Some(child) => Lookup(child, route[1..]))
      case (Index(i), Arr(items)) =>
        if i < |items| then Lookup(items[i], route[1..]) else None
      case _ => None
  }
}
