/** The rewriting a loaded spec file goes through before it is sent to AWS:
    per file type, a table of dotted paths and the function applied to the
    node at each path (key/value lists expanded into lists of dicts,
    numbers turned into strings, resource types upper-cased). */
module YamlConverter {
  import opened Wrappers
  import opened Tree
  import Text

  const TaskDefinitionType := "taskDefinition"
  const JobDefinitionType := "jobDefinition"
  const ServiceType := "service"
  const SecretsType := "secrets"

  /** What the conversion raises: `ValueError` from
      `expand_key_value_list`, `TypeError` from `in` or item assignment on
      a node that does not support them, and `KeyError` for a file type
      the table does not know. */
  datatype ConvertError = ValueError | TypeError | UnknownFileType(fileType: string)

  /** The functions the table applies. */
  datatype Transform =
    | KeyValueList(keyField: string, valueField: string)
    | ToStr
    | UpperStr

  // ---------------------------------------------------------------------
  // expand_key_value_list

  /** The dict display `{key_field: k, value_field: v}`; with equal field
      names the second entry overwrites the first in its place. */
  function KeyValue(keyField: string, k: Value, valueField: string, v: Value): Value {
    if keyField == valueField then Obj([(keyField, v)]) else Obj([(keyField, k), (valueField, v)])
  }

  /** Both fields of the pair can be read back. */
  lemma KeyValueGet(keyField: string, k: Value, valueField: string, v: Value)
    requires keyField != valueField
    ensures KeyValue(keyField, k, valueField, v).Obj?
    ensures Get(KeyValue(keyField, k, valueField, v).entries, keyField) == Some(k)
    ensures Get(KeyValue(keyField, k, valueField, v).entries, valueField) == Some(v)
  {
    var entries := KeyValue(keyField, k, valueField, v).entries;
    assert KeyIndex(entries, keyField) == Some(0);
    assert entries[1..] == [(valueField, v)];
    assert KeyIndex(entries[1..], valueField) == Some(0);
  }

  /** One item of a list input: `"k=v"` split at the first `=`, a dict
      passed through, anything else a `ValueError`. */
  function ExpandItem(keyField: string, valueField: string, item: Value): Result<Value, ConvertError> {
    match item
    case Str(s) =>
      (match Text.FirstIndexOf(s, '=')
       case None => Err(ValueError)
       case Some(p) => Ok(KeyValue(keyField, Str(s[..p]), valueField, Str(s[p + 1..]))))
    case Obj(_) => Ok(item)
    case _ => Err(ValueError)
  }

  /** The items of a list input converted in order; the first item that
      cannot be converted raises. */
  function ExpandItems(keyField: string, valueField: string, items: seq<Value>): Result<seq<Value>, ConvertError> {
    if items == [] then Ok([])
    else
      match ExpandItem(keyField, valueField, items[0])
      case Err(e) => Err(e)
      case Ok(x) =>
        match ExpandItems(keyField, valueField, items[1..])
        case Err(e) => Err(e)
        case Ok(xs) => Ok([x] + xs)
  }

  /** `expand_key_value_list(key_field, value_field, obj)`. */
  function Expand(keyField: string, valueField: string, obj: Value): Result<Value, ConvertError> {
    match obj
    case Obj(entries) =>
      Ok(Arr(seq(|entries|, i requires 0 <= i < |entries| =>
        KeyValue(keyField, Str(entries[i].0), valueField, entries[i].1))))
    case Arr(items) =>
      (match ExpandItems(keyField, valueField, items)
       case Err(e) => Err(e)
       case Ok(xs) => Ok(Arr(xs)))
    case _ => Err(ValueError)
  }

  /** The list branch of `expand_key_value_list`: the append loop over
      the items. */
  method ExpandList(keyField: string, valueField: string, items: seq<Value>) returns (r: Result<seq<Value>, ConvertError>)
    ensures r == ExpandItems(keyField, valueField, items)
  {
    var result: seq<Value> := [];
    assert items[0..] == items;
    PrependNothing(ExpandItems(keyField, valueField, items));
    var i := 0;
    while i < |items|
      invariant 0 <= i <= |items|
      invariant ExpandItems(keyField, valueField, items) == Prepend(result, ExpandItems(keyField, valueField, items[i..]))
    {
      ExpandItemsStep(keyField, valueField, items, i);
      var x := ExpandItem(keyField, valueField, items[i]);
      if x.Err? {
        return Err(x.error);
      }
      PrependTwice(result, [x.value], ExpandItems(keyField, valueField, items[i + 1..]));
      result := result + [x.value];
      i := i + 1;
    }
    assert items[i..] == [] && result + [] == result;
    r := Ok(result);
  }

  /** `xs` put in front of a successful result. */
  function Prepend(xs: seq<Value>, r: Result<seq<Value>, ConvertError>): Result<seq<Value>, ConvertError> {
    match r
    case Err(e) => Err(e)
    case Ok(ys) => Ok(xs + ys)
  }

  lemma PrependNothing(r: Result<seq<Value>, ConvertError>)
    ensures Prepend([], r) == r
  {
    if r.Ok? {
      assert [] + r.value == r.value;
    }
  }

  lemma PrependTwice(xs: seq<Value>, ys: seq<Value>, r: Result<seq<Value>, ConvertError>)
    ensures Prepend(xs, Prepend(ys, r)) == Prepend(xs + ys, r)
  {
    if r.Ok? {
      assert xs + (ys + r.value) == xs + ys + r.value;
    }
  }

  lemma ExpandItemsStep(keyField: string, valueField: string, items: seq<Value>, i: nat)
    requires i < |items|
    ensures var x := ExpandItem(keyField, valueField, items[i]);
      ExpandItems(keyField, valueField, items[i..]) ==
        if x.Err? then Err(x.error) else Prepend([x.value], ExpandItems(keyField, valueField, items[i + 1..]))
  {
    assert items[i..][1..] == items[i + 1..];
  }

  /** `expand_key_value_list`: a dict is expanded in place of the list
      comprehension, a list by the append loop. */
  method ExpandKeyValueList(keyField: string, valueField: string, obj: Value) returns (r: Result<Value, ConvertError>)
    ensures r == Expand(keyField, valueField, obj)
  {
    match obj {
      case Obj(entries) =>
        r := Ok(Arr(seq(|entries|, i requires 0 <= i < |entries| =>
          KeyValue(keyField, Str(entries[i].0), valueField, entries[i].1))));
      case Arr(items) =>
        var xs := ExpandList(keyField, valueField, items);
        r := if xs.Err? then Err(xs.error) else Ok(Arr(xs.value));
      case _ =>
        r := Err(ValueError);
    }
  }

  /** A dict becomes one `{key_field: k, value_field: v}` per entry, in the
      dict's order. */
  lemma ExpandDict(keyField: string, valueField: string, entries: seq<(string, Value)>)
    requires keyField != valueField
    ensures var r := Expand(keyField, valueField, Obj(entries));
      && r.Ok? && r.value.Arr? && |r.value.items| == |entries|
      && forall i :: 0 <= i < |entries| ==>
           && r.value.items[i].Obj?
           && Get(r.value.items[i].entries, keyField) == Some(Str(entries[i].0))
           && Get(r.value.items[i].entries, valueField) == Some(entries[i].1)
  {
    forall i | 0 <= i < |entries| {
      KeyValueGet(keyField, Str(entries[i].0), valueField, entries[i].1);
    }
  }

  /** A `"k=v"` item is cut at its first `=`: the key holds no `=`, the
      value keeps every later one, and key, `=` and value give the item
      back. */
  lemma ExpandSplitsAtFirstEquals(keyField: string, valueField: string, s: string)
    requires keyField != valueField && '=' in s
    ensures var r := ExpandItem(keyField, valueField, Str(s));
      && r.Ok? && r.value.Obj?
      && Get(r.value.entries, keyField).Some? && Get(r.value.entries, keyField).value.Str?
      && Get(r.value.entries, valueField).Some? && Get(r.value.entries, valueField).value.Str?
      && var k := Get(r.value.entries, keyField).value.s;
         var v := Get(r.value.entries, valueField).value.s;
         '=' !in k && k + "=" + v == s
  {
    var p := Text.FirstIndexOf(s, '=').value;
    KeyValueGet(keyField, Str(s[..p]), valueField, Str(s[p + 1..]));
    assert s[..p] + "=" + s[p + 1..] == s;
  }

  /** A list converts exactly when every item is a dict or a string holding
      `=`; the result then has one item per input item, in order, each the
      item's own conversion. */
  lemma {:induction false} ExpandListIff(keyField: string, valueField: string, items: seq<Value>)
    ensures ExpandItems(keyField, valueField, items).Ok? <==>
      forall i :: 0 <= i < |items| ==> items[i].Obj? || (items[i].Str? && '=' in items[i].s)
    ensures ExpandItems(keyField, valueField, items).Ok? ==>
      && |ExpandItems(keyField, valueField, items).value| == |items|
      && forall i :: 0 <= i < |items| ==>
           ExpandItems(keyField, valueField, items).value[i] == ExpandItem(keyField, valueField, items[i]).value
  {
    if items != [] {
      ExpandListIff(keyField, valueField, items[1..]);
      assert forall i :: 1 <= i < |items| ==> items[i] == items[1..][i - 1];
    }
  }

  /** A dict item passes through unchanged; neither a dict nor a list
      raises `ValueError`. */
  lemma ExpandPassThroughAndErrors(keyField: string, valueField: string, obj: Value)
    ensures obj.Obj? ==> ExpandItem(keyField, valueField, obj) == Ok(obj)
    ensures !obj.Obj? && !obj.Arr? ==> Expand(keyField, valueField, obj) == Err(ValueError)
  {
  }

  // ---------------------------------------------------------------------
  // str(), as the table's `str` and `lambda v: str(v).upper()` use it

  /** Python's `repr` of a string: single quotes, or double quotes when the
      string holds a single quote and no double quote. */
  function Quote(s: string): string {
    if '\'' in s && '"' !in s then "\"" + s + "\"" else "'" + s + "'"
  }

  /** Python's `repr` of a value, which `str()` of a list or dict uses for
      the items inside. */
  function Repr(v: Value): string
    decreases v, 1, 0
  {
    match v
    case Str(s) => Quote(s)
    case Arr(items) => "[" + ReprItems(v, 0) + "]"
    case Obj(entries) => "{" + ReprEntries(v, 0) + "}"
    case _ => ScalarText(v)
  }

  function ReprItems(v: Value, i: nat): string
    requires v.Arr?
    decreases v, 0, |v.items| - i
  {
    if i >= |v.items| then ""
    else (if i == 0 then "" else ", ") + Repr(v.items[i]) + ReprItems(v, i + 1)
  }

  function ReprEntries(v: Value, i: nat): string
    requires v.Obj?
    decreases v, 0, |v.entries| - i
  {
    if i >= |v.entries| then ""
    else
      assert v.entries[i].1 < v.entries[i];
      (if i == 0 then "" else ", ") + Quote(v.entries[i].0) + ": " + Repr(v.entries[i].1) + ReprEntries(v, i + 1)
  }

  /** Python's `str(v)`. */
  function PyStr(v: Value): (r: string)
    ensures IsScalar(v) ==> r == ScalarText(v)
  {
    if IsScalar(v) then ScalarText(v) else Repr(v)
  }

  /** Applies one table function to a node. */
  function Run(t: Transform, v: Value): Result<Value, ConvertError> {
    match t
    case KeyValueList(k, f) => Expand(k, f, v)
    case ToStr => Ok(Str(PyStr(v)))
    case UpperStr => Ok(Str(Text.Upper(PyStr(v))))
  }

  // ---------------------------------------------------------------------
  // _apply_function_to_path

  /** The last path segment: `if next_level in obj: obj[next_level] =
      function(obj[next_level])`. On a list, `in` compares the items with
      the segment and the assignment that follows a hit raises; on a string
      `in` is a substring test and the assignment raises; on anything else
      `in` itself raises. */
  function ApplyLast(v: Value, key: string, t: Transform): Result<Value, ConvertError> {
    match v
    case Obj(entries) =>
      (match KeyIndex(entries, key)
       case None => Ok(v)
       case Some(i) =>
         match Run(t, entries[i].1)
         case Err(e) => Err(e)
         case Ok(x) => Ok(Obj(SetAt(entries, i, x))))
    case Arr(items) => if Str(key) in items then Err(TypeError) else Ok(v)
    case Str(s) => if Text.Contains(s, key) then Err(TypeError) else Ok(v)
    case _ => Err(TypeError)
  }

  /** `_apply_function_to_path(obj, path, function)` with `path` already
      split at its dots into `segs`: a `*` segment on a list descends into
      every item, a key present in a dict descends into its value, and
      anything else is left alone. */
  function ApplyPath(v: Value, segs: seq<string>, t: Transform): (r: Result<Value, ConvertError>)
    requires |segs| >= 1
    ensures v.Obj? && !HasKey(v.entries, segs[0]) ==> r == Ok(v)
    ensures |segs| > 1 && IsScalar(v) ==> r == Ok(v)
    ensures |segs| > 1 && v.Arr? && segs[0] != "*" ==> r == Ok(v)
    ensures |segs| == 1 && (v.Null? || v.Bool? || v.Int?) ==> r == Err(TypeError)
    ensures |segs| == 1 && v.Str? ==> r == if Text.Contains(v.s, segs[0]) then Err(TypeError) else Ok(v)
    ensures |segs| == 1 && v.Arr? ==> r == if Str(segs[0]) in v.items then Err(TypeError) else Ok(v)
    decreases |segs|, 1, 0
  {
    if |segs| == 1 then ApplyLast(v, segs[0], t)
    else if segs[0] == "*" && v.Arr? then
      match ApplyEach(v.items, segs[1..], t, 0)
      case Err(e) => Err(e)
      case Ok(xs) => Ok(Arr(xs))
    else if v.Obj? && HasKey(v.entries, segs[0]) then
      var i := KeyIndex(v.entries, segs[0]).value;
      match ApplyPath(v.entries[i].1, segs[1..], t)
      case Err(e) => Err(e)
      case Ok(x) => Ok(Obj(SetAt(v.entries, i, x)))
    else Ok(v)
  }

  /** The `for next_obj in obj` fan-out from item `i` on. */
  function ApplyEach(items: seq<Value>, rest: seq<string>, t: Transform, i: nat): (r: Result<seq<Value>, ConvertError>)
    requires |rest| >= 1
    ensures r.Ok? ==> |r.value| == |items| - i || (i > |items| && r.value == [])
    decreases |rest| + 1, 0, |items| - i
  {
    if i >= |items| then Ok([])
    else
      match ApplyPath(items[i], rest, t)
      case Err(e) => Err(e)
      case Ok(x) =>
        match ApplyEach(items, rest, t, i + 1)
        case Err(e) => Err(e)
        case Ok(xs) => Ok([x] + xs)
  }

  // ---------------------------------------------------------------------
  // What a path addresses, and what it leaves alone

  /** A route step is addressed by a path segment: the dict key of that
      name, or any list item for `*`. */
  predicate StepMatches(step: Step, seg: string) {
    step == Key(seg) || (step.Index? && seg == "*")
  }

  /** The route leaves the path at some step, so it leads neither to an
      addressed node nor into one. */
  predicate Diverges(route: seq<Step>, segs: seq<string>) {
    exists i :: 0 <= i < |route| && i < |segs| && !StepMatches(route[i], segs[i])
  }

  /** Dicts with the same keys in the same order find every key at the
      same place. */
  lemma {:induction false} SameKeysSameIndex(a: seq<(string, Value)>, b: seq<(string, Value)>, k: string)
    requires |a| == |b| && forall j :: 0 <= j < |a| ==> a[j].0 == b[j].0
    ensures KeyIndex(a, k) == KeyIndex(b, k)
  {
    if a != [] && a[0].0 != k {
      SameKeysSameIndex(a[1..], b[1..], k);
    }
  }

  /** Rewriting the value of entry `i` changes what `d.get(k)` returns only
      for the key of that entry. */
  lemma GetAfterSetAt(entries: seq<(string, Value)>, i: nat, x: Value, k: string)
    requires i < |entries| && KeyIndex(entries, entries[i].0) == Some(i)
    ensures Get(SetAt(entries, i, x), k) == if k == entries[i].0 then Some(x) else Get(entries, k)
  {
    SameKeysSameIndex(SetAt(entries, i, x), entries, k);
  }

  /** The fan-out rewrites item `j` exactly as the path does on its own. */
  lemma {:induction false} ApplyEachAt(items: seq<Value>, rest: seq<string>, t: Transform, i: nat, j: nat)
    requires |rest| >= 1 && i <= j < |items| && ApplyEach(items, rest, t, i).Ok?
    ensures ApplyPath(items[j], rest, t).Ok?
    ensures ApplyEach(items, rest, t, i).value[j - i] == ApplyPath(items[j], rest, t).value
    decreases j - i
  {
    if i < j {
      ApplyEachAt(items, rest, t, i + 1, j);
    }
  }

  /** A route is its first step followed by the rest. */
  lemma LookupStep(v: Value, route: seq<Step>)
    requires route != []
    ensures Lookup(v, route) ==
      if Lookup(v, [route[0]]).None? then None else Lookup(Lookup(v, [route[0]]).value, route[1..])
  {
    assert [route[0]][1..] == [];
  }

  /** Where the path descends, the node reached by the first step is
      rewritten by the rest of the path. */
  lemma ApplyDescends(v: Value, segs: seq<string>, t: Transform, step: Step)
    requires |segs| > 1 && StepMatches(step, segs[0])
    requires Lookup(v, [step]).Some? && ApplyPath(v, segs, t).Ok?
    ensures ApplyPath(Lookup(v, [step]).value, segs[1..], t).Ok?
    ensures Lookup(ApplyPath(v, segs, t).value, [step]) == Some(ApplyPath(Lookup(v, [step]).value, segs[1..], t).value)
  {
    var v' := ApplyPath(v, segs, t).value;
    if step.Index? {
      ApplyEachAt(v.items, segs[1..], t, 0, step.index);
    } else {
      var idx := KeyIndex(v.entries, segs[0]).value;
      GetAfterSetAt(v.entries, idx, v'.entries[idx].1, segs[0]);
    }
  }

  /** One step from the top: the rewrite keeps every node a step reaches,
      except where the step is addressed by the first segment. */
  lemma ApplyOneStep(v: Value, segs: seq<string>, t: Transform, step: Step)
    requires |segs| >= 1 && ApplyPath(v, segs, t).Ok?
    ensures Lookup(ApplyPath(v, segs, t).value, [step]).None? == Lookup(v, [step]).None?
    ensures !StepMatches(step, segs[0]) ==> Lookup(ApplyPath(v, segs, t).value, [step]) == Lookup(v, [step])
  {
    var v' := ApplyPath(v, segs, t).value;
    if v' != v && step.Key? && v.Obj? {
      var idx := KeyIndex(v.entries, segs[0]).value;
      GetAfterSetAt(v.entries, idx, v'.entries[idx].1, step.key);
    }
  }

  /** No change off the path: every route that leaves the path somewhere
      finds the same node (or none) after the rewrite as before. */
  lemma {:induction false} ApplyFrame(v: Value, segs: seq<string>, t: Transform, route: seq<Step>)
    requires |segs| >= 1 && ApplyPath(v, segs, t).Ok? && Diverges(route, segs)
    ensures Lookup(ApplyPath(v, segs, t).value, route) == Lookup(v, route)
    decreases |segs|
  {
    var v' := ApplyPath(v, segs, t).value;
    LookupStep(v, route);
    LookupStep(v', route);
    ApplyOneStep(v, segs, t, route[0]);
    if StepMatches(route[0], segs[0]) && Lookup(v, [route[0]]).Some? {
      var i :| 0 <= i < |route| && i < |segs| && !StepMatches(route[i], segs[i]);
      assert Diverges(route[1..], segs[1..]) by {
        assert !StepMatches(route[1..][i - 1], segs[1..][i - 1]);
      }
      ApplyDescends(v, segs, t, route[0]);
      ApplyFrame(Lookup(v, [route[0]]).value, segs[1..], t, route[1..]);
    }
  }

  /** The addressed node is rewritten: a route that follows the path to
      its last key, and finds a node there, finds the function's result
      there afterwards. */
  lemma {:induction false} ApplyRewrite(v: Value, segs: seq<string>, t: Transform, route: seq<Step>)
    requires |segs| >= 1 && |route| == |segs| && route[|route| - 1].Key?
    requires forall i :: 0 <= i < |segs| ==> StepMatches(route[i], segs[i])
    requires Lookup(v, route).Some? && ApplyPath(v, segs, t).Ok?
    ensures Run(t, Lookup(v, route).value).Ok?
    ensures Lookup(ApplyPath(v, segs, t).value, route) == Some(Run(t, Lookup(v, route).value).value)
    decreases |segs|
  {
    var v' := ApplyPath(v, segs, t).value;
    LookupStep(v, route);
    LookupStep(v', route);
    if |segs| == 1 {
      var idx := KeyIndex(v.entries, segs[0]).value;
      GetAfterSetAt(v.entries, idx, v'.entries[idx].1, segs[0]);
    } else {
      assert forall i :: 0 <= i < |segs| - 1 ==> StepMatches(route[1..][i], segs[1..][i]) by {
        forall i | 0 <= i < |segs| - 1 ensures StepMatches(route[1..][i], segs[1..][i]) {
          assert StepMatches(route[i + 1], segs[i + 1]);
        }
      }
      var child := Lookup(v, [route[0]]).value;
      ApplyDescends(v, segs, t, route[0]);
      ApplyRewrite(child, segs[1..], t, route[1..]);
    }
  }

  // ---------------------------------------------------------------------
  // The table and yaml_data_to_dict

  /** `_apply_function_to_path(obj, path, function)`: the path is split at
      its dots. The recursive call re-joins the rest with dots and splits
      it again, which gives the same segments back (`Text.JoinSplit`). */
  function ApplyToPath(v: Value, path: string, t: Transform): Result<Value, ConvertError> {
    ApplyPath(v, Text.Split(path, '.'), t)
  }

  /** `TRANSFORMATIONS[file_type]`, in the table's order, each dotted path
      written as the segments `split(".")` cuts it into. */
  function Transformations(fileType: string): (r: Option<seq<(seq<string>, Transform)>>)
    ensures r.Some? ==> forall i :: 0 <= i < |r.value| ==> |r.value[i].0| >= 1
  {
    if fileType == TaskDefinitionType then Some([
      (["containerDefinitions", "*", "environment"], KeyValueList("name", "value")),
      (["containerDefinitions", "*", "secrets"], KeyValueList("name", "valueFrom")),
      (["proxyConfiguration", "properties"], KeyValueList("name", "value")),
      (["tags"], KeyValueList("key", "value")),
      (["cpu"], ToStr),
      (["memory"], ToStr)])
    else if fileType == JobDefinitionType then Some([
      (["containerProperties", "environment"], KeyValueList("name", "value")),
      (["containerProperties", "secrets"], KeyValueList("name", "valueFrom")),
      (["containerProperties", "resourceRequirements"], KeyValueList("type", "value")),
      (["containerProperties", "resourceRequirements", "*", "type"], UpperStr),
      (["containerProperties", "resourceRequirements", "*", "value"], ToStr)])
    else if fileType == ServiceType then Some([
      (["tags"], KeyValueList("key", "value"))])
    else if fileType == SecretsType then Some([])
    else None
  }

  /** The table's entries applied one after the other, each to the result
      of the one before; the first that raises stops the conversion. */
  function ApplyAll(v: Value, table: seq<(seq<string>, Transform)>): Result<Value, ConvertError>
    requires forall i :: 0 <= i < |table| ==> |table[i].0| >= 1
    decreases |table|
  {
    if table == [] then Ok(v)
    else
      match ApplyPath(v, table[0].0, table[0].1)
      case Err(e) => Err(e)
      case Ok(v') => ApplyAll(v', table[1..])
  }

  /** What `yaml_data_to_dict` returns for `obj` and `file_type`. */
  function DataToDict(v: Value, fileType: string): (r: Result<Value, ConvertError>)
    ensures fileType == SecretsType ==> r == Ok(v)
    ensures Transformations(fileType).None? ==> r == Err(UnknownFileType(fileType))
  {
    match Transformations(fileType)
    case None => Err(UnknownFileType(fileType))
    case Some(table) => ApplyAll(v, table)
  }

  /** `yaml_data_to_dict`: look up the file type's table and apply it. */
  method YamlDataToDict(obj: Value, fileType: string) returns (r: Result<Value, ConvertError>)
    ensures r == DataToDict(obj, fileType)
  {
    var table := Transformations(fileType);
    if table.None? {
      return Err(UnknownFileType(fileType));
    }
    r := ApplyEntries(obj, table.value);
  }

  /** The `for path, function in TRANSFORMATIONS[file_type]` loop of
      `yaml_data_to_dict`. */
  method ApplyEntries(obj: Value, table: seq<(seq<string>, Transform)>) returns (r: Result<Value, ConvertError>)
    requires forall i :: 0 <= i < |table| ==> |table[i].0| >= 1
    ensures r == ApplyAll(obj, table)
  {
    var cur := obj;
    var i := 0;
    while i < |table|
      invariant 0 <= i <= |table|
      invariant ApplyAll(obj, table) == ApplyAll(cur, table[i..])
    {
      var entry := table[i];
      assert table[i..][1..] == table[i + 1..];
      var next := ApplyPath(cur, entry.0, entry.1);
      if next.Err? {
        return Err(next.error);
      }
      cur := next.value;
      i := i + 1;
    }
    r := Ok(cur);
  }

  /** Entries that leave a value alone, one after the other, leave it
      alone. */
  lemma {:induction false} ApplyAllUnchanged(v: Value, table: seq<(seq<string>, Transform)>)
    requires forall i :: 0 <= i < |table| ==> |table[i].0| >= 1 && ApplyPath(v, table[i].0, table[i].1) == Ok(v)
    ensures ApplyAll(v, table) == Ok(v)
    decreases |table|
  {
    if table != [] {
      ApplyAllUnchanged(v, table[1..]);
    }
  }

  /** The converter's own test: an `environment` mapping inside a
      container definition becomes a list of name/value dicts. */
  lemma EnvironmentMappingExpands()
    ensures DataToDict(
        Obj([("containerDefinitions", Arr([Obj([("environment", Obj([("A", Str("b"))]))])]))]),
        TaskDefinitionType)
      == Ok(Obj([("containerDefinitions", Arr([Obj([("environment",
            Arr([Obj([("name", Str("A")), ("value", Str("b"))])]))])]))]))
  {
    EnvironmentEntry();
    OtherTaskEntries();
  }

  /** The first entry of the task-definition table expands the mapping. */
  lemma EnvironmentEntry()
    ensures ApplyPath(
        Obj([("containerDefinitions", Arr([Obj([("environment", Obj([("A", Str("b"))]))])]))]),
        ["containerDefinitions", "*", "environment"], KeyValueList("name", "value"))
      == Ok(Obj([("containerDefinitions", Arr([Obj([("environment",
            Arr([Obj([("name", Str("A")), ("value", Str("b"))])]))])]))]))
  {
    var t := KeyValueList("name", "value");
    var env := Obj([("A", Str("b"))]);
    var c0 := Obj([("environment", env)]);
    var v0 := Obj([("containerDefinitions", Arr([c0]))]);
    var env' := Arr([Obj([("name", Str("A")), ("value", Str("b"))])]);
    var c1 := Obj([("environment", env')]);
    var v1 := Obj([("containerDefinitions", Arr([c1]))]);
    assert Expand("name", "value", env) == Ok(env') by {
      assert seq(1, i requires 0 <= i < 1 => KeyValue("name", Str(env.entries[i].0), "value", env.entries[i].1))
        == [KeyValue("name", Str("A"), "value", Str("b"))];
    }
    assert KeyIndex(c0.entries, "environment") == Some(0);
    assert SetAt(c0.entries, 0, env') == c1.entries;
    assert ApplyEach([c0], ["environment"], t, 1) == Ok([]);
    assert [c1] + [] == [c1];
    assert ApplyEach([c0], ["environment"], t, 0) == Ok([c1]);
    assert KeyIndex(v0.entries, "containerDefinitions") == Some(0);
    var segs := ["containerDefinitions", "*", "environment"];
    assert segs[1..] == ["*", "environment"] && segs[1..][1..] == ["environment"];
    assert SetAt(v0.entries, 0, Arr([c1])) == v1.entries;
  }

  /** The other entries of the task-definition table find nothing to
      change in the expanded tree. */
  lemma OtherTaskEntries()
    ensures var v1 := Obj([("containerDefinitions", Arr([Obj([("environment",
          Arr([Obj([("name", Str("A")), ("value", Str("b"))])]))])]))]);
      ApplyAll(v1, Transformations(TaskDefinitionType).value[1..]) == Ok(v1)
  {
    var env' := Arr([Obj([("name", Str("A")), ("value", Str("b"))])]);
    var c1 := Obj([("environment", env')]);
    var v1 := Obj([("containerDefinitions", Arr([c1]))]);
    var table := Transformations(TaskDefinitionType).value;
    var t := KeyValueList("name", "valueFrom");
    assert KeyIndex(c1.entries, "secrets") == None;
    assert ApplyEach([c1], ["secrets"], t, 1) == Ok([]);
    assert ApplyPath(c1, ["secrets"], t) == Ok(c1);
    assert [c1] + [] == [c1];
    assert ApplyEach([c1], ["secrets"], t, 0) == Ok([c1]);
    assert table[1].0[1..] == ["*", "secrets"] && table[1].0[1..][1..] == ["secrets"];
    assert KeyIndex(v1.entries, "containerDefinitions") == Some(0);
    assert SetAt(v1.entries, 0, Arr([c1])) == v1.entries;
    assert ApplyPath(v1, table[1].0, table[1].1) == Ok(v1);
    forall i | 2 <= i < |table| ensures ApplyPath(v1, table[i].0, table[i].1) == Ok(v1) {
      assert KeyIndex(v1.entries, table[i].0[0]) == None;
    }
    ApplyAllUnchanged(v1, table[1..]);
  }

  /** Entries applied one after the other, each taking the tree to the
      next one of `vs`. */
  lemma {:induction false} ApplyAllChain(vs: seq<Value>, table: seq<(seq<string>, Transform)>)
    requires |vs| == |table| + 1
    requires forall i :: 0 <= i < |table| ==> |table[i].0| >= 1 && ApplyPath(vs[i], table[i].0, table[i].1) == Ok(vs[i + 1])
    ensures ApplyAll(vs[0], table) == Ok(vs[|table|])
    decreases |table|
  {
    if table != [] {
      ApplyAllChain(vs[1..], table[1..]);
    }
  }

  /** Descending through a dict with a single key. */
  lemma ApplyUnderKey(k: string, c: Value, rest: seq<string>, t: Transform)
    requires |rest| >= 1 && ApplyPath(c, rest, t).Ok?
    ensures ApplyPath(Obj([(k, c)]), [k] + rest, t) == Ok(Obj([(k, ApplyPath(c, rest, t).value)]))
  {
    assert KeyIndex([(k, c)], k) == Some(0);
    assert ([k] + rest)[1..] == rest;
    assert SetAt([(k, c)], 0, ApplyPath(c, rest, t).value) == [(k, ApplyPath(c, rest, t).value)];
  }

  /** Fanning out over a list with a single item. */
  lemma ApplyUnderStar(c: Value, rest: seq<string>, t: Transform)
    requires |rest| >= 1 && ApplyPath(c, rest, t).Ok?
    ensures ApplyPath(Arr([c]), ["*"] + rest, t) == Ok(Arr([ApplyPath(c, rest, t).value]))
  {
    assert (["*"] + rest)[1..] == rest;
    assert ApplyEach([c], rest, t, 1) == Ok([]);
    assert [ApplyPath(c, rest, t).value] + [] == [ApplyPath(c, rest, t).value];
  }

  /** With `resourceRequirements` given as a mapping, the job-definition
      table first expands it into a list and only then upper-cases each
      item's `type` and turns each `value` into a string. */
  lemma ResourceRequirementsExpandFirst()
    ensures DataToDict(
        Obj([("containerProperties", Obj([("resourceRequirements", Obj([("gpu", Int(1))]))]))]),
        JobDefinitionType)
      == Ok(Obj([("containerProperties", Obj([("resourceRequirements",
            Arr([Obj([("type", Str("GPU")), ("value", Str("1"))])]))]))]))
  {
    var table := Transformations(JobDefinitionType).value;
    var rr0 := Obj([("gpu", Int(1))]);
    var rr1 := Arr([Obj([("type", Str("gpu")), ("value", Int(1))])]);
    var rr2 := Arr([Obj([("type", Str("GPU")), ("value", Int(1))])]);
    var rr3 := Arr([Obj([("type", Str("GPU")), ("value", Str("1"))])]);
    var vs := seq(4, i requires 0 <= i < 4 =>
      Obj([("containerProperties", Obj([("resourceRequirements", [rr0, rr1, rr2, rr3][i])]))]));
    var steps := [vs[0], vs[0], vs[0], vs[1], vs[2], vs[3]];
    forall i | 0 <= i < 5 ensures ApplyPath(steps[i], table[i].0, table[i].1) == Ok(steps[i + 1]) {
      if i < 2 {
        JobStepsKeep(i);
      } else if i == 2 {
        JobStepExpand();
      } else if i == 3 {
        JobStepType();
      } else {
        JobStepValue();
      }
    }
    ApplyAllChain(steps, table);
  }

  /** Entries 0 and 1 of the job-definition table (environment and
      secrets) find nothing to change. */
  lemma JobStepsKeep(i: nat)
    requires i < 2
    ensures var table := Transformations(JobDefinitionType).value;
      var v := Obj([("containerProperties", Obj([("resourceRequirements", Obj([("gpu", Int(1))]))]))]);
      ApplyPath(v, table[i].0, table[i].1) == Ok(v)
  {
    var table := Transformations(JobDefinitionType).value;
    var inner := Obj([("resourceRequirements", Obj([("gpu", Int(1))]))]);
    var key := table[i].0[1];
    assert table[i].0 == ["containerProperties"] + [key];
    assert KeyIndex(inner.entries, key) == None;
    ApplyUnderKey("containerProperties", inner, [key], table[i].1);
  }

  /** Entry 2 expands the mapping. */
  lemma JobStepExpand()
    ensures var table := Transformations(JobDefinitionType).value;
      ApplyPath(Obj([("containerProperties", Obj([("resourceRequirements", Obj([("gpu", Int(1))]))]))]),
                table[2].0, table[2].1)
        == Ok(Obj([("containerProperties", Obj([("resourceRequirements",
                Arr([Obj([("type", Str("gpu")), ("value", Int(1))])]))]))]))
  {
    var table := Transformations(JobDefinitionType).value;
    ExpandsGpu();
    ApplyUnderKey("containerProperties", Obj([("resourceRequirements", Obj([("gpu", Int(1))]))]),
                  ["resourceRequirements"], table[2].1);
    assert ["containerProperties"] + ["resourceRequirements"] == table[2].0;
  }

  /** Entry 3 upper-cases the item's type. */
  lemma JobStepType()
    ensures var table := Transformations(JobDefinitionType).value;
      ApplyPath(Obj([("containerProperties", Obj([("resourceRequirements",
                  Arr([Obj([("type", Str("gpu")), ("value", Int(1))])]))]))]),
                table[3].0, table[3].1)
        == Ok(Obj([("containerProperties", Obj([("resourceRequirements",
                Arr([Obj([("type", Str("GPU")), ("value", Int(1))])]))]))]))
  {
    var table := Transformations(JobDefinitionType).value;
    UpperType();
    RequirementsEntry(Arr([Obj([("type", Str("gpu")), ("value", Int(1))])]),
                      Arr([Obj([("type", Str("GPU")), ("value", Int(1))])]), ["type"], UpperStr);
    assert ["containerProperties"] + (["resourceRequirements"] + (["*"] + ["type"])) == table[3].0;
    assert table[3].1 == UpperStr;
  }

  /** Entry 4 turns the item's value into a string. */
  lemma JobStepValue()
    ensures var table := Transformations(JobDefinitionType).value;
      ApplyPath(Obj([("containerProperties", Obj([("resourceRequirements",
                  Arr([Obj([("type", Str("GPU")), ("value", Int(1))])]))]))]),
                table[4].0, table[4].1)
        == Ok(Obj([("containerProperties", Obj([("resourceRequirements",
                Arr([Obj([("type", Str("GPU")), ("value", Str("1"))])]))]))]))
  {
    var table := Transformations(JobDefinitionType).value;
    StrValue();
    RequirementsEntry(Arr([Obj([("type", Str("GPU")), ("value", Int(1))])]),
                      Arr([Obj([("type", Str("GPU")), ("value", Str("1"))])]), ["value"], ToStr);
    assert ["containerProperties"] + (["resourceRequirements"] + (["*"] + ["value"])) == table[4].0;
    assert table[4].1 == ToStr;
  }

  lemma ExpandsGpu()
    ensures ApplyPath(Obj([("resourceRequirements", Obj([("gpu", Int(1))]))]), ["resourceRequirements"],
                      KeyValueList("type", "value"))
      == Ok(Obj([("resourceRequirements", Arr([Obj([("type", Str("gpu")), ("value", Int(1))])]))]))
  {
    var rr0 := Obj([("gpu", Int(1))]);
    var rr1 := Arr([Obj([("type", Str("gpu")), ("value", Int(1))])]);
    assert seq(1, i requires 0 <= i < 1 => KeyValue("type", Str(rr0.entries[i].0), "value", rr0.entries[i].1))
      == [KeyValue("type", Str("gpu"), "value", Int(1))];
    assert KeyIndex([("resourceRequirements", rr0)], "resourceRequirements") == Some(0);
    assert SetAt([("resourceRequirements", rr0)], 0, rr1) == [("resourceRequirements", rr1)];
  }

  /** `lambda v: str(v).upper()` on the item's type. */
  lemma UpperType()
    ensures ApplyPath(Obj([("type", Str("gpu")), ("value", Int(1))]), ["type"], UpperStr)
      == Ok(Obj([("type", Str("GPU")), ("value", Int(1))]))
  {
    UpperGpu();
    var e := [("type", Str("gpu")), ("value", Int(1))];
    assert KeyIndex(e, "type") == Some(0);
    assert SetAt(e, 0, Str("GPU")) == [("type", Str("GPU")), ("value", Int(1))];
  }

  lemma UpperGpu()
    ensures Text.Upper("gpu") == "GPU"
  {
    assert Text.Upper("u") == "U";
    assert Text.Upper("pu") == "PU";
  }

  /** `str` on the item's value. */
  lemma StrValue()
    ensures ApplyPath(Obj([("type", Str("GPU")), ("value", Int(1))]), ["value"], ToStr)
      == Ok(Obj([("type", Str("GPU")), ("value", Str("1"))]))
  {
    assert Text.IntToString(1) == "1";
    var e := [("type", Str("GPU")), ("value", Int(1))];
    assert e[1..] == [("value", Int(1))];
    assert KeyIndex(e, "value") == Some(1);
    assert SetAt(e, 1, Str("1")) == [("type", Str("GPU")), ("value", Str("1"))];
  }

  /** An entry below `containerProperties.resourceRequirements.*` on a
      one-item list. */
  lemma RequirementsEntry(rr: Value, rr': Value, last: seq<string>, t: Transform)
    requires rr.Arr? && |rr.items| == 1 && |last| >= 1
    requires ApplyPath(rr.items[0], last, t).Ok? && rr' == Arr([ApplyPath(rr.items[0], last, t).value])
    ensures ApplyPath(Obj([("containerProperties", Obj([("resourceRequirements", rr)]))]),
                      ["containerProperties"] + (["resourceRequirements"] + (["*"] + last)), t)
      == Ok(Obj([("containerProperties", Obj([("resourceRequirements", rr')]))]))
  {
    assert rr == Arr([rr.items[0]]);
    ApplyUnderStar(rr.items[0], last, t);
    ApplyUnderKey("resourceRequirements", rr, ["*"] + last, t);
    ApplyUnderKey("containerProperties", Obj([("resourceRequirements", rr)]), ["resourceRequirements"] + (["*"] + last), t);
  }
}
