/** The two pieces of ecsctrl/cli.py with logic of their own: the `--var`
    validator `check_var`, and how `task-definition register` collects the
    services it updated, cluster by cluster, before it waits for them. */
module Cli {
  import opened Wrappers
  import Text
  import opened Paging
  import opened EcsApi
  import opened ServiceUpdater
  import TaskFamily

  /** `.*$` at the end of a `re.match`: `.` stops at a newline and `$`
      matches at the end or just before a final newline, so the only
      newline allowed is the last character. */
  predicate LineTail(t: string) {
    forall i :: 0 <= i < |t| && t[i] == '\n' ==> i == |t| - 1
  }

  /** `re.match("^[^=]+=.*$", v)` succeeds. `[^=]+` cannot step over an
      `=`, so the `=` it stops at is the first one, and it needs at least
      one character before it. */
  predicate MatchesVar(v: string) {
    match Text.FirstIndexOf(v, '=')
    case None => false
    case Some(k) => k > 0 && LineTail(v[k + 1..])
  }

  /** The pattern read as a split: a non-empty name without `=`, then `=`,
      then a value on one line. */
  lemma MatchesVarIff(v: string)
    ensures MatchesVar(v) <==>
      exists k :: 0 < k < |v| && v[k] == '=' && '=' !in v[..k] && LineTail(v[k + 1..])
  {
    if k :| 0 < k < |v| && v[k] == '=' && '=' !in v[..k] && LineTail(v[k + 1..]) {
      var first := Text.FirstIndexOf(v, '=');
      assert v[..k + 1][k] == '=';
      assert forall j :: 0 <= j < k ==> v[..k][j] == v[j];
      assert forall j :: 0 <= j < first.value ==> v[..first.value][j] == v[j];
    }
  }

  /** On a line without a newline the check is what its message says: the
      item holds an `=` and does not start with one. */
  lemma SingleLineVar(v: string)
    requires '\n' !in v
    ensures MatchesVar(v) <==> '=' in v && v[0] != '='
  {
    var first := Text.FirstIndexOf(v, '=');
    if first.Some? {
      var tail := v[first.value + 1..];
      assert forall i :: 0 <= i < |tail| ==> tail[i] == v[first.value + 1 + i];
      assert forall j :: 0 <= j < first.value ==> v[..first.value][j] == v[j];
    }
  }

  /** Items on one line: the validator lets through those with an `=`
      after a non-empty name, and stops the others. */
  lemma VarExamples()
    ensures MatchesVar("a=") && MatchesVar("a=b") && MatchesVar("a=b=c")
    ensures !MatchesVar("=b") && !MatchesVar("ab") && !MatchesVar("")
  {
    assert Text.FirstIndexOf("a=", '=') == Some(1);
    assert Text.FirstIndexOf("a=b", '=') == Some(1);
    assert Text.FirstIndexOf("a=b=c", '=') == Some(1);
    assert Text.FirstIndexOf("=b", '=') == Some(0);
  }

  /** Items with a newline: it is allowed before the `=` (`[^=]` matches
      it) and at the very end, nowhere else. */
  lemma NewlineVarExamples()
    ensures MatchesVar("a=b\n") && MatchesVar("a\nb=c") && !MatchesVar("a=b\nc")
  {
    assert Text.FirstIndexOf("a=b\n", '=') == Some(1);
    assert Text.FirstIndexOf("a\nb=c", '=') == Some(3);
    assert Text.FirstIndexOf("a=b\nc", '=') == Some(1);
    assert "a=b\nc"[2..][1] == '\n';
  }

  /** The `click.BadParameter` message for an invalid item. */
  function BadParameter(v: string): string {
    "'" + v + "'. Variable has to be in format variable=value"
  }

  /** `check_var`: every item must match; the first one that does not
      raises, naming it; otherwise the items come back as they were. */
  method CheckVar(values: seq<string>) returns (r: Result<seq<string>, string>)
    ensures r.Ok? <==> forall i :: 0 <= i < |values| ==> MatchesVar(values[i])
    ensures r.Ok? ==> r.value == values
    ensures r.Err? ==> exists i :: 0 <= i < |values| && !MatchesVar(values[i]) &&
                          (forall j :: 0 <= j < i ==> MatchesVar(values[j])) && r.error == BadParameter(values[i])
  {
    for i := 0 to |values|
      invariant forall j :: 0 <= j < i ==> MatchesVar(values[j])
    {
      if !MatchesVar(values[i]) {
        return Err(BadParameter(values[i]));
      }
    }
    r := Ok(values);
  }

  /** A Python dict as its items in insertion order. */
  type Dict<V> = seq<(string, V)>

  function Keys<V>(d: Dict<V>): seq<string> {
    seq(|d|, i requires 0 <= i < |d| => d[i].0)
  }

  /** `d[k] = v`: a key already present keeps its place and takes the new
      value; a new key goes last. */
  function Assign<V>(d: Dict<V>, k: string, v: V): Dict<V> {
    if d == [] then [(k, v)]
    else if d[0].0 == k then [(k, v)] + d[1..]
    else [d[0]] + Assign(d[1..], k, v)
  }

  predicate DistinctKeys<V>(d: Dict<V>) {
    forall i, j :: 0 <= i < j < |d| ==> d[i].0 != d[j].0
  }

  lemma {:induction false} AssignSpec<V>(d: Dict<V>, k: string, v: V)
    requires DistinctKeys(d)
    ensures k in Keys(d) ==> |Assign(d, k, v)| == |d|
    ensures k !in Keys(d) ==> |Assign(d, k, v)| == |d| + 1 && Assign(d, k, v)[|d|] == (k, v)
    ensures forall i :: 0 <= i < |d| ==> Assign(d, k, v)[i] == if d[i].0 == k then (k, v) else d[i]
  {
    if d != [] {
      assert Keys(d) == [d[0].0] + Keys(d[1..]);
      if d[0].0 != k {
        AssignSpec(d[1..], k, v);
      }
    }
  }

  /** `d[k] = v` keeps the keys and their order, and a new key goes
      last. */
  lemma AssignKeys<V>(d: Dict<V>, k: string, v: V)
    requires DistinctKeys(d)
    ensures Keys(Assign(d, k, v)) == if k in Keys(d) then Keys(d) else Keys(d) + [k]
  {
    AssignSpec(d, k, v);
    var after := Assign(d, k, v);
    if k in Keys(d) {
      assert forall i :: 0 <= i < |after| ==> Keys(after)[i] == Keys(d)[i];
    } else {
      assert forall i :: 0 <= i < |after| ==> Keys(after)[i] == (Keys(d) + [k])[i];
    }
  }

  /** The clusters in the order they first appear, each once. */
  function FirstOccurrences(xs: seq<string>): seq<string> {
    if xs == [] then []
    else
      var seen := FirstOccurrences(xs[..|xs| - 1]);
      if xs[|xs| - 1] in seen then seen else seen + [xs[|xs| - 1]]
  }

  /** Every cluster appears once, and nothing else does. */
  lemma {:induction false} FirstOccurrencesSpec(xs: seq<string>)
    ensures forall i, j :: 0 <= i < j < |FirstOccurrences(xs)| ==> FirstOccurrences(xs)[i] != FirstOccurrences(xs)[j]
    ensures forall x :: x in FirstOccurrences(xs) <==> x in xs
  {
    if xs != [] {
      var init := xs[..|xs| - 1];
      FirstOccurrencesSpec(init);
      assert xs == init + [xs[|xs| - 1]];
    }
  }

  /** `updated_services` after the loop over the `-c` clusters, where the
      `k`-th updater returned `results[k]`. */
  function ServiceMap(clusters: seq<string>, results: seq<seq<ServiceRef>>): Dict<seq<ServiceRef>>
    requires |results| == |clusters|
  {
    if clusters == [] then []
    else
      var n := |clusters| - 1;
      Assign(ServiceMap(clusters[..n], results[..n]), clusters[n], results[n])
  }

  /** The map's keys are the clusters given, in first-seen order, each
      once. */
  lemma {:induction false} ServiceMapKeys(clusters: seq<string>, results: seq<seq<ServiceRef>>)
    requires |results| == |clusters|
    ensures Keys(ServiceMap(clusters, results)) == FirstOccurrences(clusters)
  {
    if clusters != [] {
      var n := |clusters| - 1;
      var before := ServiceMap(clusters[..n], results[..n]);
      ServiceMapKeys(clusters[..n], results[..n]);
      FirstOccurrencesSpec(clusters[..n]);
      assert forall i :: 0 <= i < |before| ==> Keys(before)[i] == before[i].0;
      AssignKeys(before, clusters[n], results[n]);
    }
  }

  lemma ServiceMapDistinctKeys(clusters: seq<string>, results: seq<seq<ServiceRef>>)
    requires |results| == |clusters|
    ensures DistinctKeys(ServiceMap(clusters, results))
  {
    var d := ServiceMap(clusters, results);
    ServiceMapKeys(clusters, results);
    FirstOccurrencesSpec(clusters);
    assert forall i :: 0 <= i < |d| ==> Keys(d)[i] == d[i].0;
  }

  /** Each cluster maps to what its last updater returned: a cluster given
      twice is updated twice and keeps the second answer. */
  lemma {:induction false} ServiceMapValues(clusters: seq<string>, results: seq<seq<ServiceRef>>, i: nat)
    returns (k: nat)
    requires |results| == |clusters| && i < |ServiceMap(clusters, results)|
    ensures k < |clusters| && clusters[k] == ServiceMap(clusters, results)[i].0
    ensures ServiceMap(clusters, results)[i].1 == results[k]
    ensures forall m :: k < m < |clusters| ==> clusters[m] != clusters[k]
  {
    var n := |clusters| - 1;
    var before := ServiceMap(clusters[..n], results[..n]);
    var after := ServiceMap(clusters, results);
    assert after == Assign(before, clusters[n], results[n]);
    ServiceMapDistinctKeys(clusters[..n], results[..n]);
    AssignSpec(before, clusters[n], results[n]);
    if after[i].0 == clusters[n] {
      k := n;
      assert after[i] == (clusters[n], results[n]);
    } else {
      assert i < |before| && after[i] == before[i];
      k := ServiceMapValues(clusters[..n], results[..n], i);
      assert clusters[..n][k] == clusters[k] && results[..n][k] == results[k];
      assert forall m :: k < m < n ==> clusters[..n][m] == clusters[m];
    }
  }

  /** With every cluster given once, the map pairs each cluster with its
      updater's answer, in the order given. */
  lemma {:induction false} ServiceMapDistinct(clusters: seq<string>, results: seq<seq<ServiceRef>>)
    requires |results| == |clusters|
    requires forall i, j :: 0 <= i < j < |clusters| ==> clusters[i] != clusters[j]
    ensures |ServiceMap(clusters, results)| == |clusters|
    ensures forall i :: 0 <= i < |clusters| ==> ServiceMap(clusters, results)[i] == (clusters[i], results[i])
  {
    if clusters != [] {
      var n := |clusters| - 1;
      var before := ServiceMap(clusters[..n], results[..n]);
      ServiceMapDistinct(clusters[..n], results[..n]);
      ServiceMapDistinctKeys(clusters[..n], results[..n]);
      AssignSpec(before, clusters[n], results[n]);
      assert forall j :: 0 <= j < |before| ==> Keys(before)[j] == clusters[j];
    }
  }

  /** The requests the updaters of `register` make, one after the other,
      when updater `k` finds the services `found[k]`. */
  ghost function RegisterCalls(updaters: seq<ServiceUpdater>, found: seq<seq<ServiceRef>>): seq<Call>
    requires |found| == |updaters|
  {
    if updaters == [] then []
    else
      var n := |updaters| - 1;
      var u := updaters[n];
      RegisterCalls(updaters[..n], found[..n]) + DiscoveryCalls(u.clusterName, u.Pages(), |u.Pages()|)
      + UpdateCalls(u.clusterName, u.taskDefinitionArn, found[n])
  }

  /** Updater `k` finds `found[k]`, starting at the request after the last
      one of the updaters before it, the first of them at request `o`. */
  ghost predicate FoundOnTurn(updaters: seq<ServiceUpdater>, found: seq<seq<ServiceRef>>, o: nat, k: nat)
    requires |found| == |updaters| && k < |updaters|
  {
    found[k] == updaters[k].Discovered(o + |RegisterCalls(updaters[..k], found[..k])|, |updaters[k].Pages()|)
  }

  /** Every updater finds what it finds on its turn. */
  ghost predicate FoundInTurn(updaters: seq<ServiceUpdater>, found: seq<seq<ServiceRef>>, o: nat)
    requires |found| == |updaters|
  {
    forall k :: 0 <= k < |updaters| ==> FoundOnTurn(updaters, found, o, k)
  }

  /** Appending an updater leaves the earlier turns as they were. */
  lemma FoundOnTurnAppend(updaters: seq<ServiceUpdater>, found: seq<seq<ServiceRef>>,
                          u: ServiceUpdater, f: seq<ServiceRef>, o: nat, k: nat)
    requires |updaters| == |found| && k < |updaters| && FoundOnTurn(updaters, found, o, k)
    ensures FoundOnTurn(updaters + [u], found + [f], o, k)
  {
    var us, fs := updaters + [u], found + [f];
    assert us[..k] == updaters[..k] && fs[..k] == found[..k];
  }

  /** The updater appended last finds its services at the request after
      the last one of the updaters before it. */
  lemma FoundOnLastTurn(updaters: seq<ServiceUpdater>, found: seq<seq<ServiceRef>>, o: nat,
                        u: ServiceUpdater, f: seq<ServiceRef>, start: nat)
    requires |found| == |updaters|
    requires start == o + |RegisterCalls(updaters, found)| && f == u.Discovered(start, |u.Pages()|)
    ensures FoundOnTurn(updaters + [u], found + [f], o, |updaters|)
  {
    var us, fs := updaters + [u], found + [f];
    assert us[..|updaters|] == updaters && fs[..|updaters|] == found;
  }

  /** One more updater: its requests follow those of the updaters before
      it. */
  lemma RegisterCallsStep(updaters: seq<ServiceUpdater>, found: seq<seq<ServiceRef>>,
                          u: ServiceUpdater, f: seq<ServiceRef>)
    requires |found| == |updaters|
    ensures RegisterCalls(updaters + [u], found + [f]) == RegisterCalls(updaters, found)
      + DiscoveryCalls(u.clusterName, u.Pages(), |u.Pages()|) + UpdateCalls(u.clusterName, u.taskDefinitionArn, f)
  {
    var us, fs := updaters + [u], found + [f];
    assert us[..|updaters|] == updaters && fs[..|updaters|] == found;
  }

  /** One more updater that finds its services on its turn. */
  lemma FoundInTurnStep(updaters: seq<ServiceUpdater>, found: seq<seq<ServiceRef>>, o: nat,
                        u: ServiceUpdater, f: seq<ServiceRef>)
    requires |found| == |updaters| && FoundInTurn(updaters, found, o)
    requires FoundOnTurn(updaters + [u], found + [f], o, |updaters|)
    ensures FoundInTurn(updaters + [u], found + [f], o)
  {
    forall k | 0 <= k < |updaters|
      ensures FoundOnTurn(updaters + [u], found + [f], o, k)
    {
      FoundOnTurnAppend(updaters, found, u, f, o, k);
    }
  }

  /** One more cluster and what its updater returned. */
  lemma ServiceMapStep(clusters: seq<string>, i: nat, results: seq<seq<ServiceRef>>, r: seq<ServiceRef>)
    requires i < |clusters| && |results| == i
    ensures ServiceMap(clusters[..i + 1], results + [r]) == Assign(ServiceMap(clusters[..i], results), clusters[i], r)
  {
    assert clusters[..i + 1][..i] == clusters[..i] && (results + [r])[..i] == results;
  }

  /** `u` is `ServiceUpdater(client, task_definition_arn, cluster)`. */
  ghost predicate Serves(u: ServiceUpdater, client: EcsClient, taskDefinitionArn: string, cluster: string) {
    && u.client == client && u.taskDefinitionArn == taskDefinitionArn && u.clusterName == cluster
    && u.taskDefinitionFamily == TaskFamily.FindAll(taskDefinitionArn)
  }

  /** Updater `k` serves cluster `k`, for every `k`. */
  ghost predicate ServeInTurn(updaters: seq<ServiceUpdater>, client: EcsClient, taskDefinitionArn: string,
                              clusters: seq<string>)
    requires |updaters| == |clusters|
  {
    updaters != [] ==>
      var n := |updaters| - 1;
      ServeInTurn(updaters[..n], client, taskDefinitionArn, clusters[..n])
      && Serves(updaters[n], client, taskDefinitionArn, clusters[n])
  }

  lemma ServeInTurnStep(updaters: seq<ServiceUpdater>, u: ServiceUpdater, client: EcsClient,
                        taskDefinitionArn: string, clusters: seq<string>, i: nat)
    requires i < |clusters| && |updaters| == i
    requires ServeInTurn(updaters, client, taskDefinitionArn, clusters[..i])
    requires Serves(u, client, taskDefinitionArn, clusters[i])
    ensures ServeInTurn(updaters + [u], client, taskDefinitionArn, clusters[..i + 1])
  {
    assert (updaters + [u])[..i] == updaters && clusters[..i + 1][..i] == clusters[..i];
  }

  lemma {:induction false} ServeInTurnEach(updaters: seq<ServiceUpdater>, client: EcsClient,
                                           taskDefinitionArn: string, clusters: seq<string>)
    requires |updaters| == |clusters| && ServeInTurn(updaters, client, taskDefinitionArn, clusters)
    ensures forall k :: 0 <= k < |clusters| ==> Serves(updaters[k], client, taskDefinitionArn, clusters[k])
  {
    if updaters != [] {
      var n := |updaters| - 1;
      ServeInTurnEach(updaters[..n], client, taskDefinitionArn, clusters[..n]);
      assert forall k :: 0 <= k < n ==> updaters[..n][k] == updaters[k] && clusters[..n][k] == clusters[k];
    }
  }

  /** One turn of the loop of `register`: a `ServiceUpdater` for `cluster`
      updates its services, after the updaters before it. */
  method UpdateCluster(client: EcsClient, taskDefinitionArn: string, cluster: string,
                       ghost base: seq<Call>, ghost updaters: seq<ServiceUpdater>,
                       ghost found: seq<seq<ServiceRef>>)
    returns (services: seq<ServiceRef>, updater: ServiceUpdater)
    requires |found| == |updaters| && FoundInTurn(updaters, found, |base|)
    requires WellChained(client.servicePages(cluster))
    requires client.log == base + RegisterCalls(updaters, found)
    modifies client
    ensures Serves(updater, client, taskDefinitionArn, cluster)
    ensures FoundInTurn(updaters + [updater], found + [services], |base|)
    ensures client.log == base + RegisterCalls(updaters + [updater], found + [services])
  {
    updater := new ServiceUpdater(client, taskDefinitionArn, cluster);
    ghost var start := |client.log|;
    assert start == |base| + |RegisterCalls(updaters, found)|;
    services := updater.Update();
    assert services == updater.Discovered(start, |updater.Pages()|);
    FoundOnLastTurn(updaters, found, |base|, updater, services, start);
    FoundInTurnStep(updaters, found, |base|, updater, services);
    RegisterCallsStep(updaters, found, updater, services);
    ghost var calls := RegisterCalls(updaters, found);
    ghost var discovery := DiscoveryCalls(cluster, updater.Pages(), |updater.Pages()|);
    Assoc(base, calls, discovery);
    Assoc(base, calls + discovery, UpdateCalls(cluster, taskDefinitionArn, services));
  }

  /** The loop of `register` over the `-c` clusters: one `ServiceUpdater`
      per cluster, in turn, each result stored under its cluster. */
  method UpdateClusters(client: EcsClient, taskDefinitionArn: string, clusters: seq<string>)
    returns (updated: Dict<seq<ServiceRef>>, ghost updaters: seq<ServiceUpdater>,
             ghost found: seq<seq<ServiceRef>>)
    requires forall c :: c in clusters ==> WellChained(client.servicePages(c))
    modifies client
    ensures |updaters| == |clusters| && |found| == |clusters|
    ensures forall k :: 0 <= k < |clusters| ==> Serves(updaters[k], client, taskDefinitionArn, clusters[k])
    ensures FoundInTurn(updaters, found, |old(client.log)|)
    ensures updated == ServiceMap(clusters, found)
    ensures client.log == old(client.log) + RegisterCalls(updaters, found)
  {
    updated := [];
    updaters, found := [], [];
    ghost var base := client.log;
    for i := 0 to |clusters|
      invariant |updaters| == i && |found| == i
      invariant ServeInTurn(updaters, client, taskDefinitionArn, clusters[..i])
      invariant FoundInTurn(updaters, found, |base|)
      invariant updated == ServiceMap(clusters[..i], found)
      invariant client.log == base + RegisterCalls(updaters, found)
    {
      var services, updater := UpdateCluster(client, taskDefinitionArn, clusters[i], base, updaters, found);
      ServeInTurnStep(updaters, updater, client, taskDefinitionArn, clusters, i);
      ServiceMapStep(clusters, i, found, services);
      updated := Assign(updated, clusters[i], services);
      updaters, found := updaters + [updater], found + [services];
    }
    assert clusters[..|clusters|] == clusters;
    ServeInTurnEach(updaters, client, taskDefinitionArn, clusters);
  }

  /** The part of `register` after the task definition is registered as
      `taskDefinitionArn`: with at least one `-c` cluster, update the
      services of each cluster in turn and collect what each updater
      returned; with `--wait-for-update` too, wait on that same map once
      every update is made. The waiter polls at most `maxCycles` times. */
  method Register(client: EcsClient, taskDefinitionArn: string, clusters: seq<string>,
                  waitForUpdate: bool, maxCycles: nat)
    returns (updated: Dict<seq<ServiceRef>>, waiter: WaitForUpdate?, outcome: Option<WaitOutcome>,
             ghost updaters: seq<ServiceUpdater>, ghost found: seq<seq<ServiceRef>>)
    requires forall c :: c in clusters ==> WellChained(client.servicePages(c))
    modifies client
    ensures |updaters| == |clusters| && |found| == |clusters|
    ensures forall k :: 0 <= k < |clusters| ==> Serves(updaters[k], client, taskDefinitionArn, clusters[k])
    ensures FoundInTurn(updaters, found, |old(client.log)|)
    ensures updated == ServiceMap(clusters, found)
    ensures waiter != null <==> clusters != [] && waitForUpdate
    ensures waiter == null ==>
      outcome.None? && client.log == old(client.log) + RegisterCalls(updaters, found)
    ensures waiter != null ==>
      var before := old(client.log) + RegisterCalls(updaters, found);
      var wait := waiter.Wait(|before|, maxCycles);
      waiter.client == client && waiter.servicesInClusters == updated
      && outcome == Some(wait.0) && client.log == before + wait.1
  {
    waiter := null;
    outcome := None;
    if clusters == [] {
      updated, updaters, found := [], [], [];
      return;
    }
    updated, updaters, found := UpdateClusters(client, taskDefinitionArn, clusters);
    if waitForUpdate {
      waiter := new WaitForUpdate(client, updated);
      var waited := waiter.WaitForAll(maxCycles);
      outcome := Some(waited);
    }
  }
}
