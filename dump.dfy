/** `ecsctrl.dump`: flattening the template variables to dotted paths, the
    lookup table from values back to paths, and the reverse substitution
    that turns a secret name into a template expression. */
module Dump {
  import opened Wrappers
  import opened Tree
  import Text

  /** `make_path`: an empty path (falsy in Python) gives the suffix alone. */
  function MakePath(path: string, suffix: string): string {
    if path == "" then suffix else path + "." + suffix
  }

  /** `str()` of a dict key or a list index. */
  function StepText(step: Step): string {
    match step
    case Key(k) => k
    case Index(i) => Text.NatToString(i)
  }

  /** `flat_dict_items(value, path)`: a `(path, leaf)` pair per leaf, depth
      first, dict entries in insertion order and list items by index. */
  function Flat(v: Value, path: string): (r: seq<(string, Value)>)
    ensures forall j :: 0 <= j < |r| ==> IsScalar(r[j].1)
    decreases v, 1, 0
  {
    match v
    case Obj(_) => FlatEntries(v, path, 0)
    case Arr(_) => FlatItems(v, path, 0)
    case _ => [(path, v)]
  }

  function FlatEntries(v: Value, path: string, i: nat): (r: seq<(string, Value)>)
    requires v.Obj?
    ensures forall j :: 0 <= j < |r| ==> IsScalar(r[j].1)
    decreases v, 0, |v.entries| - i
  {
    if i >= |v.entries| then []
    else
      assert v.entries[i].1 < v.entries[i];
      Flat(v.entries[i].1, MakePath(path, v.entries[i].0)) + FlatEntries(v, path, i + 1)
  }

  function FlatItems(v: Value, path: string, i: nat): (r: seq<(string, Value)>)
    requires v.Arr?
    ensures forall j :: 0 <= j < |r| ==> IsScalar(r[j].1)
    decreases v, 0, |v.items| - i
  {
    if i >= |v.items| then []
    else Flat(v.items[i], MakePath(path, Text.NatToString(i))) + FlatItems(v, path, i + 1)
  }

  /** The routes to the leaves of a tree, depth first; a leaf is a node that
      is neither a dict nor a list. */
  function Leaves(v: Value): seq<seq<Step>>
    decreases v, 1, 0
  {
    match v
    case Obj(_) => LeavesEntries(v, 0)
    case Arr(_) => LeavesItems(v, 0)
    case _ => [[]]
  }

  function LeavesEntries(v: Value, i: nat): seq<seq<Step>>
    requires v.Obj?
    decreases v, 0, |v.entries| - i
  {
    if i >= |v.entries| then []
    else
      assert v.entries[i].1 < v.entries[i];
      Under(Key(v.entries[i].0), Leaves(v.entries[i].1)) + LeavesEntries(v, i + 1)
  }

  function LeavesItems(v: Value, i: nat): seq<seq<Step>>
    requires v.Arr?
    decreases v, 0, |v.items| - i
  {
    if i >= |v.items| then []
    else Under(Index(i), Leaves(v.items[i])) + LeavesItems(v, i + 1)
  }

  /** Every route, one step further down. */
  function Under(step: Step, routes: seq<seq<Step>>): (r: seq<seq<Step>>)
    ensures |r| == |routes| && forall j :: 0 <= j < |r| ==> r[j] == [step] + routes[j]
  {
    seq(|routes|, j requires 0 <= j < |routes| => [step] + routes[j])
  }

  /** The path text `flat_dict_items` builds along a route, from `path`. */
  function PathOf(path: string, route: seq<Step>): string
    decreases |route|
  {
    if route == [] then path else PathOf(MakePath(path, StepText(route[0])), route[1..])
  }

  /** Flattening yields one pair per leaf route, in order: the pair's path
      is the route's keys and indices joined as `make_path` does, and its
      value is the leaf that `Lookup` finds along the route. */
  lemma {:induction false} FlatFollowsLeaves(v: Value, path: string)
    requires WellFormed(v)
    ensures |Flat(v, path)| == |Leaves(v)|
    ensures forall j :: 0 <= j < |Leaves(v)| ==>
      Flat(v, path)[j].0 == PathOf(path, Leaves(v)[j]) && Lookup(v, Leaves(v)[j]) == Some(Flat(v, path)[j].1)
    decreases v, 1, 0
  {
    match v
    case Obj(_) => EntriesFollowLeaves(v, path, 0);
    case Arr(_) => ItemsFollowLeaves(v, path, 0);
    case _ =>
  }

  lemma {:induction false} EntriesFollowLeaves(v: Value, path: string, i: nat)
    requires v.Obj? && WellFormed(v)
    ensures |FlatEntries(v, path, i)| == |LeavesEntries(v, i)|
    ensures forall j :: 0 <= j < |LeavesEntries(v, i)| ==>
      FlatEntries(v, path, i)[j].0 == PathOf(path, LeavesEntries(v, i)[j])
      && Lookup(v, LeavesEntries(v, i)[j]) == Some(FlatEntries(v, path, i)[j].1)
    decreases v, 0, |v.entries| - i
  {
    if i < |v.entries| {
      var (k, c) := v.entries[i];
      assert c < v.entries[i];
      var p := MakePath(path, k);
      FlatFollowsLeaves(c, p);
      EntriesFollowLeaves(v, path, i + 1);
      DistinctKeyIndex(v.entries, i);
      var a, b := Flat(c, p), FlatEntries(v, path, i + 1);
      var la, lb := Under(Key(k), Leaves(c)), LeavesEntries(v, i + 1);
      assert FlatEntries(v, path, i) == a + b;
      assert LeavesEntries(v, i) == la + lb;
      forall j | 0 <= j < |la|
        ensures a[j].0 == PathOf(path, la[j]) && Lookup(v, la[j]) == Some(a[j].1)
      {
        OneStepDown(v, Key(k), c, path, Leaves(c)[j]);
      }
      FollowsConcat(v, path, a, b, la, lb);
    }
  }

  lemma {:induction false} ItemsFollowLeaves(v: Value, path: string, i: nat)
    requires v.Arr? && WellFormed(v)
    ensures |FlatItems(v, path, i)| == |LeavesItems(v, i)|
    ensures forall j :: 0 <= j < |LeavesItems(v, i)| ==>
      FlatItems(v, path, i)[j].0 == PathOf(path, LeavesItems(v, i)[j])
      && Lookup(v, LeavesItems(v, i)[j]) == Some(FlatItems(v, path, i)[j].1)
    decreases v, 0, |v.items| - i
  {
    if i < |v.items| {
      var c := v.items[i];
      var p := MakePath(path, Text.NatToString(i));
      FlatFollowsLeaves(c, p);
      ItemsFollowLeaves(v, path, i + 1);
      var a, b := Flat(c, p), FlatItems(v, path, i + 1);
      var la, lb := Under(Index(i), Leaves(c)), LeavesItems(v, i + 1);
      assert FlatItems(v, path, i) == a + b;
      assert LeavesItems(v, i) == la + lb;
      forall j | 0 <= j < |la|
        ensures a[j].0 == PathOf(path, la[j]) && Lookup(v, la[j]) == Some(a[j].1)
      {
        OneStepDown(v, Index(i), c, path, Leaves(c)[j]);
      }
      FollowsConcat(v, path, a, b, la, lb);
    }
  }

  /** Pairs that follow two lists of routes, side by side, follow the two
      lists joined. */
  lemma FollowsConcat(v: Value, path: string, a: seq<(string, Value)>, b: seq<(string, Value)>,
                      la: seq<seq<Step>>, lb: seq<seq<Step>>)
    requires |a| == |la| && |b| == |lb|
    requires forall j :: 0 <= j < |la| ==> a[j].0 == PathOf(path, la[j]) && Lookup(v, la[j]) == Some(a[j].1)
    requires forall j :: 0 <= j < |lb| ==> b[j].0 == PathOf(path, lb[j]) && Lookup(v, lb[j]) == Some(b[j].1)
    ensures forall j :: 0 <= j < |la + lb| ==>
      (a + b)[j].0 == PathOf(path, (la + lb)[j]) && Lookup(v, (la + lb)[j]) == Some((a + b)[j].1)
  {
    forall j | 0 <= j < |la + lb|
      ensures (a + b)[j].0 == PathOf(path, (la + lb)[j]) && Lookup(v, (la + lb)[j]) == Some((a + b)[j].1)
    {
      if j >= |la| {
        assert (a + b)[j] == b[j - |la|] && (la + lb)[j] == lb[j - |la|];
      }
    }
  }

  /** A route that starts with a step to the child `c` continues from `c`,
      and its path text continues from the step's text. */
  lemma OneStepDown(v: Value, step: Step, c: Value, path: string, rest: seq<Step>)
    requires step.Key? ==> v.Obj? && Get(v.entries, step.key) == Some(c)
    requires step.Index? ==> v.Arr? && step.index < |v.items| && v.items[step.index] == c
    ensures Lookup(v, [step] + rest) == Lookup(c, rest)
    ensures PathOf(path, [step] + rest) == PathOf(MakePath(path, StepText(step)), rest)
  {
    assert ([step] + rest)[1..] == rest;
  }

  /** In a dict with distinct keys, each key is found at its own entry. */
  lemma DistinctKeyIndex(entries: seq<(string, Value)>, i: nat)
    requires i < |entries|
    requires forall a, b :: 0 <= a < b < |entries| ==> entries[a].0 != entries[b].0
    ensures KeyIndex(entries, entries[i].0) == Some(i)
    ensures Get(entries, entries[i].0) == Some(entries[i].1)
  {
  }

  /** Every route along which `Lookup` reaches a leaf is a leaf route:
      flattening skips no leaf. */
  lemma {:induction false} LeavesComplete(v: Value, route: seq<Step>)
    requires Lookup(v, route).Some? && IsScalar(Lookup(v, route).value)
    ensures route in Leaves(v)
    decreases |route|
  {
    if route != [] {
      var rest := route[1..];
      assert route == [route[0]] + rest;
      match (route[0], v)
      case (Key(k), Obj(entries)) =>
        var i := KeyIndex(entries, k).value;
        assert entries[i].1 < entries[i];
        LeavesComplete(entries[i].1, rest);
        var j :| 0 <= j < |Leaves(entries[i].1)| && Leaves(entries[i].1)[j] == rest;
        assert Under(Key(k), Leaves(entries[i].1))[j] == route;
        InLeavesEntries(v, 0, i, route);
      case (Index(i), Arr(items)) =>
        LeavesComplete(items[i], rest);
        var j :| 0 <= j < |Leaves(items[i])| && Leaves(items[i])[j] == rest;
        assert Under(Index(i), Leaves(items[i]))[j] == route;
        InLeavesItems(v, 0, i, route);
    }
  }

  lemma {:induction false} InLeavesEntries(v: Value, m: nat, i: nat, route: seq<Step>)
    requires v.Obj? && m <= i < |v.entries|
    requires route in Under(Key(v.entries[i].0), Leaves(v.entries[i].1))
    ensures route in LeavesEntries(v, m)
    decreases i - m
  {
    if m < i {
      InLeavesEntries(v, m + 1, i, route);
    }
  }

  lemma {:induction false} InLeavesItems(v: Value, m: nat, i: nat, route: seq<Step>)
    requires v.Arr? && m <= i < |v.items|
    requires route in Under(Index(i), Leaves(v.items[i]))
    ensures route in LeavesItems(v, m)
    decreases i - m
  {
    if m < i {
      InLeavesItems(v, m + 1, i, route);
    }
  }

  /** No leaf route comes twice, so flattening yields each leaf once. */
  lemma {:induction false} LeavesDistinct(v: Value)
    requires WellFormed(v)
    ensures forall a, b :: 0 <= a < b < |Leaves(v)| ==> Leaves(v)[a] != Leaves(v)[b]
    decreases v, 1, 0
  {
    match v
    case Obj(_) => EntriesDistinct(v, 0);
    case Arr(_) => ItemsDistinct(v, 0);
    case _ =>
  }

  lemma {:induction false} EntriesDistinct(v: Value, m: nat)
    requires v.Obj? && WellFormed(v)
    ensures forall a :: 0 <= a < |LeavesEntries(v, m)| ==>
      var r := LeavesEntries(v, m)[a];
      r != [] && r[0].Key? && KeyIndex(v.entries, r[0].key).Some? && KeyIndex(v.entries, r[0].key).value >= m
    ensures forall a, b :: 0 <= a < b < |LeavesEntries(v, m)| ==> LeavesEntries(v, m)[a] != LeavesEntries(v, m)[b]
    decreases v, 0, |v.entries| - m
  {
    if m < |v.entries| {
      var (k, c) := v.entries[m];
      assert c < v.entries[m];
      LeavesDistinct(c);
      EntriesDistinct(v, m + 1);
      DistinctKeyIndex(v.entries, m);
      var la, lb := Under(Key(k), Leaves(c)), LeavesEntries(v, m + 1);
      assert LeavesEntries(v, m) == la + lb;
      forall a, b | 0 <= a < b < |la|
        ensures la[a] != la[b]
      {
        assert la[a][1..] == Leaves(c)[a] && la[b][1..] == Leaves(c)[b];
      }
    }
  }

  lemma {:induction false} ItemsDistinct(v: Value, m: nat)
    requires v.Arr? && WellFormed(v)
    ensures forall a :: 0 <= a < |LeavesItems(v, m)| ==>
      var r := LeavesItems(v, m)[a];
      r != [] && r[0].Index? && m <= r[0].index
    ensures forall a, b :: 0 <= a < b < |LeavesItems(v, m)| ==> LeavesItems(v, m)[a] != LeavesItems(v, m)[b]
    decreases v, 0, |v.items| - m
  {
    if m < |v.items| {
      var c := v.items[m];
      LeavesDistinct(c);
      ItemsDistinct(v, m + 1);
      var la, lb := Under(Index(m), Leaves(c)), LeavesItems(v, m + 1);
      assert LeavesItems(v, m) == la + lb;
      forall a, b | 0 <= a < b < |la|
        ensures la[a] != la[b]
      {
        assert la[a][1..] == Leaves(c)[a] && la[b][1..] == Leaves(c)[b];
      }
    }
  }

  /** The texts of a route's steps. */
  function StepTexts(route: seq<Step>): (r: seq<string>)
    ensures |r| == |route| && forall j :: 0 <= j < |r| ==> r[j] == StepText(route[j])
  {
    seq(|route|, j requires 0 <= j < |route| => StepText(route[j]))
  }

  /** Below a non-empty path, each step adds a dot and its text. */
  lemma {:induction false} PathOfAppends(path: string, route: seq<Step>)
    requires path != "" && route != []
    ensures PathOf(path, route) == path + "." + Text.Join(".", StepTexts(route))
    decreases |route|
  {
    var t := StepText(route[0]);
    var texts := StepTexts(route);
    if |route| == 1 {
      assert route[1..] == [];
    } else {
      PathOfAppends(path + "." + t, route[1..]);
      assert texts[1..] == StepTexts(route[1..]);
      assert Text.Join(".", texts) == t + "." + Text.Join(".", texts[1..]);
    }
  }

  /** At the top level there is no leading dot: when the first key is not
      empty, a leaf's path is its keys and indices joined with dots. */
  lemma TopLevelPath(route: seq<Step>)
    requires route != [] && StepText(route[0]) != ""
    ensures PathOf("", route) == Text.Join(".", StepTexts(route))
  {
    var t := StepText(route[0]);
    var texts := StepTexts(route);
    if |route| > 1 {
      PathOfAppends(t, route[1..]);
      assert texts[1..] == StepTexts(route[1..]);
    }
  }

  /** `(path, str(leaf))` for every pair `flat_dict_items(vars)` yields. */
  function TextPairs(vars: Value): seq<(string, string)> {
    var f := Flat(vars, "");
    seq(|f|, j requires 0 <= j < |f| => (f[j].0, ScalarText(f[j].1)))
  }

  /** The pairs whose value text is `n` characters long, in order. */
  function OfLength(ps: seq<(string, string)>, n: nat): (r: seq<(string, string)>)
  {
    if ps == [] then [] else (if |ps[0].1| == n then [ps[0]] else []) + OfLength(ps[1..], n)
  }

  /** The pairs whose value text is at most `n` characters long, in order. */
  function AtMost(ps: seq<(string, string)>, n: nat): seq<(string, string)> {
    if ps == [] then [] else (if |ps[0].1| <= n then [ps[0]] else []) + AtMost(ps[1..], n)
  }

  /** The pairs of length `n`, then those of length `n - 1`, and so on. */
  function Bands(ps: seq<(string, string)>, n: nat): (r: seq<(string, string)>)
    decreases n
  {
    OfLength(ps, n) + (if n == 0 then [] else Bands(ps, n - 1))
  }

  function MaxLength(ps: seq<(string, string)>): (r: nat)
    ensures forall j :: 0 <= j < |ps| ==> |ps[j].1| <= r
  {
    if ps == [] then 0
    else
      var m := MaxLength(ps[1..]);
      if |ps[0].1| > m then |ps[0].1| else m
  }

  /** `sorted(ps, key=lambda x: -len(x[1]))`: longest value text first.
      Python's sort is stable, so pairs of equal length keep their order. */
  function SortLongestFirst(ps: seq<(string, string)>): seq<(string, string)> {
    Bands(ps, MaxLength(ps))
  }

  /** The sort puts longer value texts first. */
  lemma SortIsOrdered(ps: seq<(string, string)>)
    ensures var r := SortLongestFirst(ps);
      forall a, b :: 0 <= a < b < |r| ==> |r[a].1| >= |r[b].1|
  {
    BandsOrdered(ps, MaxLength(ps));
  }

  lemma {:induction false} OfLengthLength(ps: seq<(string, string)>, n: nat)
    ensures forall j :: 0 <= j < |OfLength(ps, n)| ==> |OfLength(ps, n)[j].1| == n
  {
    if ps != [] {
      OfLengthLength(ps[1..], n);
    }
  }

  lemma {:induction false} BandsOrdered(ps: seq<(string, string)>, n: nat)
    ensures forall j :: 0 <= j < |Bands(ps, n)| ==> |Bands(ps, n)[j].1| <= n
    ensures forall a, b :: 0 <= a < b < |Bands(ps, n)| ==> |Bands(ps, n)[a].1| >= |Bands(ps, n)[b].1|
    decreases n
  {
    var band := OfLength(ps, n);
    OfLengthLength(ps, n);
    if n == 0 {
      assert Bands(ps, n) == band + [];
    } else {
      var rest := Bands(ps, n - 1);
      BandsOrdered(ps, n - 1);
      var r := band + rest;
      assert Bands(ps, n) == r;
      forall a, b | 0 <= a < b < |r|
        ensures |r[a].1| >= |r[b].1|
      {
        if b < |band| {
        } else if a < |band| {
          assert r[b] == rest[b - |band|];
        } else {
          assert r[a] == rest[a - |band|] && r[b] == rest[b - |band|];
        }
      }
    }
  }

  /** The sort only reorders: it is a permutation of its input. */
  lemma SortIsPermutation(ps: seq<(string, string)>)
    ensures multiset(SortLongestFirst(ps)) == multiset(ps)
  {
    BandsMultiset(ps, MaxLength(ps));
    AtMostAll(ps, MaxLength(ps));
  }

  /** The sort is stable: the pairs of each length come out in the order
      they went in. With the ordering of `SortLongestFirst`, this fixes the
      result completely. */
  lemma SortIsStable(ps: seq<(string, string)>, n: nat)
    ensures OfLength(SortLongestFirst(ps), n) == OfLength(ps, n)
  {
    var m := MaxLength(ps);
    BandsOfLength(ps, m, n);
    if n > m {
      NoneLonger(ps, m, n);
    }
  }

  lemma {:induction false} BandsMultiset(ps: seq<(string, string)>, n: nat)
    ensures multiset(Bands(ps, n)) == multiset(AtMost(ps, n))
    decreases n
  {
    if n == 0 {
      AtMostZero(ps);
      JoinMultiset(OfLength(ps, 0), [], [], AtMost(ps, 0));
    } else {
      BandsMultiset(ps, n - 1);
      SplitAtMost(ps, n);
      JoinMultiset(OfLength(ps, n), Bands(ps, n - 1), AtMost(ps, n - 1), AtMost(ps, n));
    }
  }

  /** Joining a part to a permutation of the rest gives a permutation of
      the whole. */
  lemma JoinMultiset<T>(part: seq<T>, rest: seq<T>, rest': seq<T>, whole: seq<T>)
    requires multiset(rest) == multiset(rest')
    requires multiset(whole) == multiset(part) + multiset(rest')
    ensures multiset(part + rest) == multiset(whole)
  {
  }

  lemma {:induction false} SplitAtMost(ps: seq<(string, string)>, n: nat)
    requires n > 0
    ensures multiset(AtMost(ps, n)) == multiset(OfLength(ps, n)) + multiset(AtMost(ps, n - 1))
  {
    if ps != [] {
      SplitAtMost(ps[1..], n);
    }
  }

  lemma {:induction false} AtMostZero(ps: seq<(string, string)>)
    ensures AtMost(ps, 0) == OfLength(ps, 0)
  {
    if ps != [] {
      AtMostZero(ps[1..]);
    }
  }

  lemma {:induction false} AtMostAll(ps: seq<(string, string)>, n: nat)
    requires forall j :: 0 <= j < |ps| ==> |ps[j].1| <= n
    ensures AtMost(ps, n) == ps
  {
    if ps != [] {
      AtMostAll(ps[1..], n);
    }
  }

  lemma {:induction false} NoneLonger(ps: seq<(string, string)>, m: nat, n: nat)
    requires forall j :: 0 <= j < |ps| ==> |ps[j].1| <= m
    requires m < n
    ensures OfLength(ps, n) == []
  {
    if ps != [] {
      NoneLonger(ps[1..], m, n);
    }
  }

  lemma {:induction false} OfLengthAppend(a: seq<(string, string)>, b: seq<(string, string)>, n: nat)
    ensures OfLength(a + b, n) == OfLength(a, n) + OfLength(b, n)
  {
    if a != [] {
      assert (a + b)[1..] == a[1..] + b;
      OfLengthAppend(a[1..], b, n);
    } else {
      assert a + b == b;
    }
  }

  lemma {:induction false} OfLengthTwice(ps: seq<(string, string)>, m: nat, n: nat)
    ensures OfLength(OfLength(ps, m), n) == if m == n then OfLength(ps, n) else []
  {
    if ps != [] {
      var head := if |ps[0].1| == m then [ps[0]] else [];
      OfLengthTwice(ps[1..], m, n);
      OfLengthAppend(head, OfLength(ps[1..], m), n);
    }
  }

  lemma {:induction false} BandsOfLength(ps: seq<(string, string)>, m: nat, n: nat)
    ensures OfLength(Bands(ps, m), n) == if n <= m then OfLength(ps, n) else []
    decreases m
  {
    var rest := if m == 0 then [] else Bands(ps, m - 1);
    OfLengthAppend(OfLength(ps, m), rest, n);
    OfLengthTwice(ps, m, n);
    if m > 0 {
      BandsOfLength(ps, m - 1, n);
    }
  }

  /** Where key `k` sits in an ordered string-to-string dict. */
  function LutIndex(lut: seq<(string, string)>, k: string): (r: Option<nat>)
    ensures r.Some? ==> r.value < |lut| && lut[r.value].0 == k
    ensures r.Some? ==> forall j :: 0 <= j < r.value ==> lut[j].0 != k
    ensures r.None? ==> forall j :: 0 <= j < |lut| ==> lut[j].0 != k
  {
    if lut == [] then None
    else if lut[0].0 == k then Some(0)
    else match LutIndex(lut[1..], k)
      case None => None
      case Some(i) => Some(i + 1)
  }

  /** `d[k] = v`: a key already present keeps its place and takes the new
      value; a new key goes to the end. */
  function Insert(lut: seq<(string, string)>, k: string, v: string): seq<(string, string)> {
    match LutIndex(lut, k)
    case Some(i) => lut[i := (k, v)]
    case None => lut + [(k, v)]
  }

  /** `{text: path for path, text in ps}`. */
  function LutOf(ps: seq<(string, string)>): seq<(string, string)> {
    if ps == [] then [] else Insert(LutOf(ps[..|ps| - 1]), ps[|ps| - 1].1, ps[|ps| - 1].0)
  }

  /** `generate_var_lut(vars)`: value text to path, longest value first. */
  function GenerateVarLut(vars: Value): seq<(string, string)> {
    LutOf(SortLongestFirst(TextPairs(vars)))
  }

  /** The first pair whose value text is `k`. */
  function FirstWith(ps: seq<(string, string)>, k: string): (r: Option<nat>)
    ensures r.Some? ==> r.value < |ps| && ps[r.value].1 == k
    ensures r.Some? ==> forall j :: 0 <= j < r.value ==> ps[j].1 != k
    ensures r.None? ==> forall j :: 0 <= j < |ps| ==> ps[j].1 != k
  {
    if ps == [] then None
    else if ps[0].1 == k then Some(0)
    else match FirstWith(ps[1..], k)
      case None => None
      case Some(i) => Some(i + 1)
  }

  /** The last pair whose value text is `k`. */
  function LastWith(ps: seq<(string, string)>, k: string): (r: Option<nat>)
    ensures r.Some? ==> r.value < |ps| && ps[r.value].1 == k
    ensures r.Some? ==> forall j :: r.value < j < |ps| ==> ps[j].1 != k
    ensures r.None? ==> forall j :: 0 <= j < |ps| ==> ps[j].1 != k
  {
    if ps == [] then None
    else if ps[|ps| - 1].1 == k then Some(|ps| - 1)
    else LastWith(ps[..|ps| - 1], k)
  }

  predicate DistinctKeys(lut: seq<(string, string)>) {
    forall a, b :: 0 <= a < b < |lut| ==> lut[a].0 != lut[b].0
  }

  /** `d[k] = v` keeps every key where it was, sets the entry of `k` and
      leaves the others alone. */
  lemma InsertFacts(lut: seq<(string, string)>, k: string, v: string)
    ensures var r := Insert(lut, k, v);
      && |r| == |lut| + (if LutIndex(lut, k).Some? then 0 else 1)
      && (forall j :: 0 <= j < |lut| ==> r[j].0 == lut[j].0)
      && (forall j :: 0 <= j < |lut| && lut[j].0 != k ==> r[j] == lut[j])
      && LutIndex(r, k).Some? && r[LutIndex(r, k).value] == (k, v)
      && (LutIndex(lut, k).None? ==> r[|lut|] == (k, v))
  {
    var r := Insert(lut, k, v);
    match LutIndex(lut, k)
    case Some(i) =>
      assert r[i] == (k, v);
    case None =>
      assert r[|lut|] == (k, v);
  }

  /** The comprehension's keys are distinct, as a dict's are. */
  lemma {:induction false} LutDistinct(ps: seq<(string, string)>)
    ensures DistinctKeys(LutOf(ps))
  {
    if ps != [] {
      var init, x := ps[..|ps| - 1], ps[|ps| - 1];
      LutDistinct(init);
      InsertFacts(LutOf(init), x.1, x.0);
    }
  }

  /** Every value text is a key, and every key is some pair's value text. */
  lemma LutKeys(ps: seq<(string, string)>)
    ensures forall i :: 0 <= i < |ps| ==> LutIndex(LutOf(ps), ps[i].1).Some?
    ensures forall j :: 0 <= j < |LutOf(ps)| ==> FirstWith(ps, LutOf(ps)[j].0).Some?
  {
    LutHasEveryText(ps);
    LutKeysAreTexts(ps);
  }

  lemma {:induction false} LutHasEveryText(ps: seq<(string, string)>)
    ensures forall i :: 0 <= i < |ps| ==> LutIndex(LutOf(ps), ps[i].1).Some?
  {
    if ps != [] {
      var init, x := ps[..|ps| - 1], ps[|ps| - 1];
      LutHasEveryText(init);
      var prev, lut := LutOf(init), LutOf(ps);
      InsertFacts(prev, x.1, x.0);
      forall i | 0 <= i < |ps|
        ensures LutIndex(lut, ps[i].1).Some?
      {
        if i < |init| {
          assert ps[i] == init[i];
          var m := LutIndex(prev, init[i].1).value;
          assert lut[m].0 == ps[i].1;
        } else {
          assert ps[i].1 == x.1;
        }
      }
    }
  }

  lemma {:induction false} LutKeysAreTexts(ps: seq<(string, string)>)
    ensures forall j :: 0 <= j < |LutOf(ps)| ==> FirstWith(ps, LutOf(ps)[j].0).Some?
  {
    if ps != [] {
      var init, x := ps[..|ps| - 1], ps[|ps| - 1];
      LutKeysAreTexts(init);
      var prev, lut := LutOf(init), LutOf(ps);
      InsertFacts(prev, x.1, x.0);
      forall j | 0 <= j < |lut|
        ensures FirstWith(ps, lut[j].0).Some?
      {
        if j < |prev| {
          assert lut[j].0 == prev[j].0;
          FirstWithInit(ps, prev[j].0);
        } else {
          assert lut[j] == (x.1, x.0);
          assert ps[|ps| - 1].1 == lut[j].0;
        }
      }
    }
  }

  /** Each key holds the path of the LAST pair with that value text: a
      later duplicate overwrites the path. */
  lemma {:induction false} LutPaths(ps: seq<(string, string)>)
    ensures forall j :: 0 <= j < |LutOf(ps)| ==>
      LastWith(ps, LutOf(ps)[j].0).Some? && LutOf(ps)[j].1 == ps[LastWith(ps, LutOf(ps)[j].0).value].0
  {
    if ps != [] {
      var init, x := ps[..|ps| - 1], ps[|ps| - 1];
      LutPaths(init);
      LutDistinct(ps);
      var prev, lut := LutOf(init), LutOf(ps);
      InsertFacts(prev, x.1, x.0);
      forall j | 0 <= j < |lut|
        ensures LastWith(ps, lut[j].0).Some? && lut[j].1 == ps[LastWith(ps, lut[j].0).value].0
      {
        if lut[j].0 == x.1 {
          assert LastWith(ps, x.1) == Some(|ps| - 1);
          assert j == LutIndex(lut, x.1).value;
        } else {
          assert LastWith(ps, lut[j].0) == LastWith(init, lut[j].0);
          assert lut[j] == prev[j];
        }
      }
    }
  }

  /** Keys come in the order their texts first appear. */
  lemma {:induction false} LutOrder(ps: seq<(string, string)>)
    ensures forall a, b :: 0 <= a < b < |LutOf(ps)| ==>
      FirstWith(ps, LutOf(ps)[a].0).Some? && FirstWith(ps, LutOf(ps)[b].0).Some? &&
      FirstWith(ps, LutOf(ps)[a].0).value < FirstWith(ps, LutOf(ps)[b].0).value
  {
    if ps != [] {
      var init, x := ps[..|ps| - 1], ps[|ps| - 1];
      LutOrder(init);
      LutKeys(init);
      var prev, lut := LutOf(init), LutOf(ps);
      InsertFacts(prev, x.1, x.0);
      forall j | 0 <= j < |prev|
        ensures FirstWith(ps, lut[j].0) == FirstWith(init, prev[j].0)
      {
        FirstWithInit(ps, prev[j].0);
      }
      forall a, b | 0 <= a < b < |lut|
        ensures FirstWith(ps, lut[a].0).Some? && FirstWith(ps, lut[b].0).Some? &&
          FirstWith(ps, lut[a].0).value < FirstWith(ps, lut[b].0).value
      {
        if b < |prev| {
          assert lut[a].0 == prev[a].0 && lut[b].0 == prev[b].0;
        } else {
          NewTextComesLast(ps);
          assert lut[b].0 == x.1;
        }
      }
    } else {
      assert |LutOf(ps)| == 0;
    }
  }

  /** A text that the earlier pairs do not carry first appears at the end. */
  lemma NewTextComesLast(ps: seq<(string, string)>)
    requires ps != [] && LutIndex(LutOf(ps[..|ps| - 1]), ps[|ps| - 1].1).None?
    ensures FirstWith(ps, ps[|ps| - 1].1) == Some(|ps| - 1)
  {
    var init, k := ps[..|ps| - 1], ps[|ps| - 1].1;
    var r := FirstWith(ps, k);
    assert r.Some?;
    if r.value < |init| {
      assert ps[r.value] == init[r.value];
      LutKeys(init);
      assert false;
    }
    assert |init| == |ps| - 1;
    assert r.value == |ps| - 1;
  }

  /** The first pair with a text the earlier pairs already carry stays put. */
  lemma FirstWithInit(ps: seq<(string, string)>, k: string)
    requires ps != [] && FirstWith(ps[..|ps| - 1], k).Some?
    ensures FirstWith(ps, k) == FirstWith(ps[..|ps| - 1], k)
  {
    var init := ps[..|ps| - 1];
    assert forall j :: 0 <= j < |init| ==> ps[j] == init[j];
  }

  /** Over pairs sorted longest first, the table's keys are longest first
      too, since each key sits where its text first appears. */
  lemma LutLongestFirst(ps: seq<(string, string)>)
    requires forall a, b :: 0 <= a < b < |ps| ==> |ps[a].1| >= |ps[b].1|
    ensures forall a, b :: 0 <= a < b < |LutOf(ps)| ==> |LutOf(ps)[a].0| >= |LutOf(ps)[b].0|
  {
    LutOrder(ps);
  }

  /** `generate_var_lut`: one entry per distinct leaf text, longest text
      first, and every leaf's text is among the keys. */
  lemma GenerateVarLutShape(vars: Value)
    ensures var lut := GenerateVarLut(vars);
      && DistinctKeys(lut)
      && (forall a, b :: 0 <= a < b < |lut| ==> |lut[a].0| >= |lut[b].0|)
      && (forall i :: 0 <= i < |TextPairs(vars)| ==> LutIndex(lut, TextPairs(vars)[i].1).Some?)
  {
    var pairs := TextPairs(vars);
    var ps := SortLongestFirst(pairs);
    SortIsOrdered(pairs);
    SortIsPermutation(pairs);
    LutDistinct(ps);
    LutLongestFirst(ps);
    LutCoversPermuted(pairs, ps);
  }

  /** The table of a reordering of the pairs still has every text as a key. */
  lemma LutCoversPermuted(pairs: seq<(string, string)>, ps: seq<(string, string)>)
    requires multiset(ps) == multiset(pairs)
    ensures forall i :: 0 <= i < |pairs| ==> LutIndex(LutOf(ps), pairs[i].1).Some?
  {
    LutKeys(ps);
    forall i | 0 <= i < |pairs|
      ensures LutIndex(LutOf(ps), pairs[i].1).Some?
    {
      assert pairs[i] in multiset(ps);
      var j :| 0 <= j < |ps| && ps[j] == pairs[i];
    }
  }

  /** Where the first table value that occurs in `key` sits. */
  function FirstMatch(key: string, lut: seq<(string, string)>): (r: Option<nat>)
    ensures r.Some? ==> r.value < |lut| && Text.Contains(key, lut[r.value].0)
    ensures r.Some? ==> forall j :: 0 <= j < r.value ==> !Text.Contains(key, lut[j].0)
    ensures r.None? ==> forall j :: 0 <= j < |lut| ==> !Text.Contains(key, lut[j].0)
  {
    if lut == [] then None
    else if Text.Contains(key, lut[0].0) then Some(0)
    else match FirstMatch(key, lut[1..])
      case None => None
      case Some(i) => Some(i + 1)
  }

  /** The template expression for a variable path. */
  function Expression(name: string): string {
    "{{ " + name + " }}"
  }

  /** What `substitute_with_expressions` returns. */
  function Substitute(key: string, lut: seq<(string, string)>): string {
    match FirstMatch(key, lut)
    case None => key
    case Some(j) => Text.ReplaceAll(key, lut[j].0, Expression(lut[j].1))
  }

  /** `substitute_with_expressions(key, vars_lut)`: the first table value
      found in the key, in table order, has every occurrence replaced by
      `{{ path }}`, and the search stops there; a key that contains no
      table value comes back unchanged. */
  method SubstituteWithExpressions(key: string, lut: seq<(string, string)>) returns (r: string)
    ensures r == Substitute(key, lut)
    ensures (forall j :: 0 <= j < |lut| ==> !Text.Contains(key, lut[j].0)) ==> r == key
  {
    for i := 0 to |lut|
      invariant forall j :: 0 <= j < i ==> !Text.Contains(key, lut[j].0)
    {
      if Text.Contains(key, lut[i].0) {
        assert FirstMatch(key, lut).value == i;
        return Text.ReplaceAll(key, lut[i].0, Expression(lut[i].1));
      }
    }
    return key;
  }

  /** With the table `generate_var_lut` builds, the value that gets
      replaced is a longest one among those the key contains. */
  lemma SubstitutesLongest(key: string, vars: Value)
    requires FirstMatch(key, GenerateVarLut(vars)).Some?
    ensures var lut := GenerateVarLut(vars);
      var chosen := lut[FirstMatch(key, lut).value].0;
      forall j :: 0 <= j < |lut| && Text.Contains(key, lut[j].0) ==> |lut[j].0| <= |chosen|
  {
    GenerateVarLutShape(vars);
  }
}
