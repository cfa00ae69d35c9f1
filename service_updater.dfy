/** `ServiceUpdater` points every service of one cluster that runs a
    revision of the registered task definition's family at the new
    revision; `WaitForUpdate` polls the updated services until they have
    all settled or one rollout has failed. */
module ServiceUpdater {
  import opened Wrappers
  import opened Paging
  import opened EcsApi
  import TaskFamily
  import opened RolloutHealth

  /** `(service_arn, service_name)`. */
  type ServiceRef = (string, string)

  /** The described services whose task definition has family `family`,
      as `(arn, name)` pairs, in the order they were described. */
  function Matching(descs: seq<Service>, family: seq<string>): seq<ServiceRef> {
    if descs == [] then []
    else
      var d := descs[|descs| - 1];
      var found := if TaskFamily.FindAll(d.taskDefinition) == family then [(d.serviceArn, d.serviceName)] else [];
      Matching(descs[..|descs| - 1], family) + found
  }

  /** A pair is kept exactly when some described service with that ARN and
      name has the family. */
  lemma {:induction false} MatchingIff(descs: seq<Service>, family: seq<string>, ref: ServiceRef)
    ensures ref in Matching(descs, family) <==>
      exists i :: 0 <= i < |descs| && descs[i].serviceArn == ref.0 && descs[i].serviceName == ref.1 &&
        TaskFamily.FindAll(descs[i].taskDefinition) == family
  {
    if descs != [] {
      var init := descs[..|descs| - 1];
      MatchingIff(init, family, ref);
      assert forall i :: 0 <= i < |init| ==> init[i] == descs[i];
    }
  }

  lemma MatchingAppend(descs: seq<Service>, i: nat, family: seq<string>)
    requires i < |descs|
    ensures Matching(descs[..i + 1], family) == Matching(descs[..i], family) +
      (if TaskFamily.FindAll(descs[i].taskDefinition) == family then [(descs[i].serviceArn, descs[i].serviceName)] else [])
  {
    assert descs[..i + 1][..i] == descs[..i];
  }

  /** The requests of the first `n` rounds of the listing loop: a
      `list_services` for ten services with the chained token, then a
      `describe_services` for what the page listed. */
  ghost function DiscoveryCalls(cluster: string, pages: seq<ListPage>, n: nat): (r: seq<Call>)
    requires n <= |pages|
    ensures |r| == 2 * n
  {
    if n == 0 then []
    else
      DiscoveryCalls(cluster, pages, n - 1)
      + [Call.ListServices(cluster, 10, TokenBefore(pages, n - 1)), Call.DescribeServices(cluster, pages[n - 1].items)]
  }

  /** Round `k` asks for page `k` and then describes exactly what it lists. */
  lemma {:induction false} DiscoveryCallsShape(cluster: string, pages: seq<ListPage>, n: nat, k: nat)
    requires n <= |pages| && k < n
    ensures DiscoveryCalls(cluster, pages, n)[2 * k] == Call.ListServices(cluster, 10, TokenBefore(pages, k))
    ensures DiscoveryCalls(cluster, pages, n)[2 * k + 1] == Call.DescribeServices(cluster, pages[k].items)
  {
    if k < n - 1 {
      DiscoveryCallsShape(cluster, pages, n - 1, k);
    }
  }

  /** The calls `update` makes after the search: one `update_service` per
      found service, in order, with the new task definition. */
  function UpdateCalls(cluster: string, taskDefinition: string, services: seq<ServiceRef>): (r: seq<Call>)
    ensures |r| == |services|
    ensures forall i :: 0 <= i < |r| ==> r[i] == Call.UpdateService(cluster, services[i].0, taskDefinition)
  {
    if services == [] then []
    else
      UpdateCalls(cluster, taskDefinition, services[..|services| - 1])
      + [Call.UpdateService(cluster, services[|services| - 1].0, taskDefinition)]
  }

  class ServiceUpdater {
    const client: EcsClient
    const taskDefinitionArn: string
    const clusterName: string
    const taskDefinitionFamily: seq<string>

    constructor (client: EcsClient, taskDefinitionArn: string, clusterName: string)
      ensures this.client == client && this.taskDefinitionArn == taskDefinitionArn
      ensures this.clusterName == clusterName
      ensures taskDefinitionFamily == TaskFamily.FindAll(taskDefinitionArn)
    {
      this.client := client;
      this.taskDefinitionArn := taskDefinitionArn;
      this.clusterName := clusterName;
      taskDefinitionFamily := TaskFamily.FindAll(taskDefinitionArn);
    }

    function Pages(): seq<ListPage> {
      client.servicePages(clusterName)
    }

    /** What `describe_services` answers in round `k` of a search whose
        first request was number `o`. */
    function PageServices(o: nat, k: nat): seq<Service>
      requires k < |Pages()|
    {
      client.describeAnswer(o + 2 * k + 1, clusterName, Pages()[k].items)
    }

    /** The services found in the first `n` rounds. */
    function Discovered(o: nat, n: nat): seq<ServiceRef>
      requires n <= |Pages()|
    {
      if n == 0 then [] else Discovered(o, n - 1) + Matching(PageServices(o, n - 1), taskDefinitionFamily)
    }

    /** Service `i` of round `k` is `ref` and runs the registered family. */
    predicate FoundAt(o: nat, k: nat, i: nat, ref: ServiceRef) {
      && k < |Pages()|
      && i < |PageServices(o, k)|
      && PageServices(o, k)[i].serviceArn == ref.0
      && PageServices(o, k)[i].serviceName == ref.1
      && TaskFamily.FindAll(PageServices(o, k)[i].taskDefinition) == taskDefinitionFamily
    }

    /** A service is found exactly when some round describes it with a
        task definition of the registered family. */
    lemma {:induction false} DiscoveredIff(o: nat, n: nat, ref: ServiceRef)
      requires n <= |Pages()|
      ensures ref in Discovered(o, n) <==> exists k: nat, i: nat :: k < n && FoundAt(o, k, i, ref)
    {
      if n > 0 {
        var m := n - 1;
        DiscoveredIff(o, m, ref);
        assert Discovered(o, n) == Discovered(o, m) + Matching(PageServices(o, m), taskDefinitionFamily);
        if ref in Discovered(o, n) {
          if ref in Discovered(o, m) {
            var k: nat, i: nat :| k < m && FoundAt(o, k, i, ref);
            assert k < n;
          } else {
            var i := FoundInRound(o, m, ref);
            assert m < n && FoundAt(o, m, i, ref);
          }
        }
        forall k: nat, i: nat | k < n && FoundAt(o, k, i, ref) ensures ref in Discovered(o, n) {
          if k == m {
            FoundLastRound(o, m, i, ref);
          } else {
            assert ref in Discovered(o, m);
          }
        }
      }
    }

    /** A service found in round `m` is among those discovered after it. */
    lemma FoundLastRound(o: nat, m: nat, i: nat, ref: ServiceRef)
      requires m < |Pages()| && FoundAt(o, m, i, ref)
      ensures ref in Discovered(o, m + 1)
    {
      MatchingIff(PageServices(o, m), taskDefinitionFamily, ref);
    }

    /** A service that round `m` adds is described in that round. */
    lemma FoundInRound(o: nat, m: nat, ref: ServiceRef) returns (i: nat)
      requires m < |Pages()| && ref in Discovered(o, m + 1) && ref !in Discovered(o, m)
      ensures FoundAt(o, m, i, ref)
    {
      MatchingIff(PageServices(o, m), taskDefinitionFamily, ref);
      i :| 0 <= i < |PageServices(o, m)| && PageServices(o, m)[i].serviceArn == ref.0 &&
        PageServices(o, m)[i].serviceName == ref.1 &&
        TaskFamily.FindAll(PageServices(o, m)[i].taskDefinition) == taskDefinitionFamily;
    }

    /** The two requests of one round of `find_services_to_update`: list
        page `k`, then describe what it lists. */
    method ListRound(ghost o: nat, ghost k: nat, ghost prefix: seq<Call>, token: Option<string>)
      returns (page: ListPage, described: seq<Service>)
      requires WellChained(Pages()) && k < |Pages()| && token == TokenBefore(Pages(), k)
      requires |prefix| == o && client.log == prefix + DiscoveryCalls(clusterName, Pages(), k)
      modifies client
      ensures page == Pages()[k] && described == PageServices(o, k)
      ensures client.log == prefix + DiscoveryCalls(clusterName, Pages(), k + 1)
    {
      ghost var calls := DiscoveryCalls(clusterName, Pages(), k);
      TokensWalkThePages(Pages(), k);
      page := client.ListServices(clusterName, 10, token);
      described := client.DescribeServices(clusterName, page.items);
      ghost var round := [Call.ListServices(clusterName, 10, token), Call.DescribeServices(clusterName, page.items)];
      assert prefix + calls + round == prefix + (calls + round);
    }

    /** `find_services_to_update`: list the cluster's services page by
        page, describe each page, and keep those whose task definition has
        the registered family. */
    method FindServicesToUpdate() returns (services: seq<ServiceRef>)
      requires WellChained(Pages())
      modifies client
      ensures client.log == old(client.log) + DiscoveryCalls(clusterName, Pages(), |Pages()|)
      ensures services == Discovered(|old(client.log)|, |Pages()|)
    {
      ghost var pages := Pages();
      ghost var o := |client.log|;
      services := [];
      var token: Option<string> := None;
      var done := false;
      ghost var k := 0;
      while !done
        invariant 0 <= k <= |pages|
        invariant done <==> k == |pages|
        invariant !done ==> token == TokenBefore(pages, k)
        invariant client.log == old(client.log) + DiscoveryCalls(clusterName, pages, k)
        invariant services == Discovered(o, k)
        decreases |pages| - k
      {
        var page, described := ListRound(o, k, old(client.log), token);
        services := KeepMatching(services, described);
        k := k + 1;
        if HasMore(page.nextToken) {
          token := page.nextToken;
        } else {
          done := true;
        }
      }
    }

    /** The `for service in response["services"]` loop of
        `find_services_to_update`: append each described service whose task
        definition has the registered family. */
    method KeepMatching(services: seq<ServiceRef>, described: seq<Service>) returns (services': seq<ServiceRef>)
      ensures services' == services + Matching(described, taskDefinitionFamily)
    {
      services' := services;
      var i := 0;
      while i < |described|
        invariant 0 <= i <= |described|
        invariant services' == services + Matching(described[..i], taskDefinitionFamily)
      {
        MatchingAppend(described, i, taskDefinitionFamily);
        var service := described[i];
        if TaskFamily.FindAll(service.taskDefinition) == taskDefinitionFamily {
          services' := services' + [(service.serviceArn, service.serviceName)];
        }
        i := i + 1;
      }
      assert described[..i] == described;
    }

    /** `update_service` for one service. */
    method UpdateService(serviceArn: string)
      modifies client
      ensures client.log == old(client.log) + [Call.UpdateService(clusterName, serviceArn, taskDefinitionArn)]
    {
      client.UpdateService(clusterName, serviceArn, taskDefinitionArn);
    }

    /** `update`: find the services, point each at the new task definition,
        and return what was found. */
    method Update() returns (services: seq<ServiceRef>)
      requires WellChained(Pages())
      modifies client
      ensures services == Discovered(|old(client.log)|, |Pages()|)
      ensures client.log == old(client.log) + DiscoveryCalls(clusterName, Pages(), |Pages()|)
        + UpdateCalls(clusterName, taskDefinitionArn, services)
    {
      services := FindServicesToUpdate();
      ghost var mid := client.log;
      var i := 0;
      while i < |services|
        invariant 0 <= i <= |services|
        invariant client.log == mid + UpdateCalls(clusterName, taskDefinitionArn, services[..i])
      {
        assert services[..i + 1][..i] == services[..i];
        UpdateService(services[i].0);
        i := i + 1;
      }
      assert services[..i] == services;
    }
  }

  /** `arns[:10]`, `arns[10:]`, ... until nothing is left. */
  function Chunks(arns: seq<string>): seq<seq<string>>
    decreases |arns|
  {
    if arns == [] then []
    else
      var n := if |arns| < 10 then |arns| else 10;
      [arns[..n]] + Chunks(arns[n..])
  }

  function Flatten(xs: seq<seq<string>>): seq<string> {
    if xs == [] then [] else xs[0] + Flatten(xs[1..])
  }

  /** The chunks put back together are the ARN list, each chunk holds one
      to ten ARNs, and only the last one may hold fewer than ten. */
  lemma {:induction false} ChunksCover(arns: seq<string>)
    ensures Flatten(Chunks(arns)) == arns
    ensures forall i :: 0 <= i < |Chunks(arns)| ==> 1 <= |Chunks(arns)[i]| <= 10
    ensures forall i :: 0 <= i < |Chunks(arns)| - 1 ==> |Chunks(arns)[i]| == 10
    decreases |arns|
  {
    if arns != [] {
      var n := if |arns| < 10 then |arns| else 10;
      ChunksCover(arns[n..]);
      assert arns[..n] + arns[n..] == arns;
      var cs := Chunks(arns);
      assert cs[1..] == Chunks(arns[n..]);
      forall i | 1 <= i < |cs| ensures cs[i] == Chunks(arns[n..])[i - 1] {
      }
    }
  }

  /** Sending the next chunk moves it from the pending batches to the
      sent ones. */
  lemma ChunkStep(sent: seq<(string, seq<string>)>, cluster: string, arns: seq<string>)
    requires arns != []
    ensures var n := if |arns| < 10 then |arns| else 10;
      sent + Tag(cluster, Chunks(arns)) == (sent + [(cluster, arns[..n])]) + Tag(cluster, Chunks(arns[n..]))
  {
    var n := if |arns| < 10 then |arns| else 10;
    assert Tag(cluster, Chunks(arns)) == [(cluster, arns[..n])] + Tag(cluster, Chunks(arns[n..]));
  }

  /** `[service_arn for service_arn, service_name in services]`. */
  function Arns(services: seq<ServiceRef>): seq<string> {
    seq(|services|, i requires 0 <= i < |services| => services[i].0)
  }

  /** Each chunk paired with its cluster. */
  function Tag(cluster: string, chunks: seq<seq<string>>): seq<(string, seq<string>)> {
    if chunks == [] then [] else [(cluster, chunks[0])] + Tag(cluster, chunks[1..])
  }

  lemma {:induction false} TagAt(cluster: string, chunks: seq<seq<string>>)
    ensures |Tag(cluster, chunks)| == |chunks|
    ensures forall i :: 0 <= i < |chunks| ==> Tag(cluster, chunks)[i] == (cluster, chunks[i])
  {
    if chunks != [] {
      TagAt(cluster, chunks[1..]);
    }
  }

  /** The `describe_services` requests of one `describe_all_services`, as
      `(cluster, arns)`: each cluster in order, its ARNs ten at a time. */
  function Batches(groups: seq<(string, seq<ServiceRef>)>): seq<(string, seq<string>)> {
    if groups == [] then []
    else
      var last := groups[|groups| - 1];
      Batches(groups[..|groups| - 1]) + Tag(last.0, Chunks(Arns(last.1)))
  }

  lemma BatchesStep(groups: seq<(string, seq<ServiceRef>)>, g: nat)
    requires g < |groups|
    ensures Batches(groups[..g + 1]) == Batches(groups[..g]) + Tag(groups[g].0, Chunks(Arns(groups[g].1)))
  {
    assert groups[..g + 1][..g] == groups[..g];
  }

  function BatchArns(batches: seq<(string, seq<string>)>): seq<string> {
    if batches == [] then [] else batches[0].1 + BatchArns(batches[1..])
  }

  function GroupArns(groups: seq<(string, seq<ServiceRef>)>): seq<string> {
    if groups == [] then [] else GroupArns(groups[..|groups| - 1]) + Arns(groups[|groups| - 1].1)
  }

  lemma {:induction false} BatchArnsAppend(a: seq<(string, seq<string>)>, b: seq<(string, seq<string>)>)
    ensures BatchArns(a + b) == BatchArns(a) + BatchArns(b)
  {
    if a != [] {
      assert (a + b)[0] == a[0] && (a + b)[1..] == a[1..] + b;
      BatchArnsAppend(a[1..], b);
      assert a[0].1 + (BatchArns(a[1..]) + BatchArns(b)) == (a[0].1 + BatchArns(a[1..])) + BatchArns(b);
    } else {
      assert a + b == b;
    }
  }

  lemma {:induction false} TaggedArns(cluster: string, chunks: seq<seq<string>>)
    ensures BatchArns(Tag(cluster, chunks)) == Flatten(chunks)
  {
    if chunks != [] {
      assert Tag(cluster, chunks)[1..] == Tag(cluster, chunks[1..]);
      TaggedArns(cluster, chunks[1..]);
    }
  }

  /** Every service of every cluster is described exactly once, clusters in
      order and services in order, and no request asks for more than ten. */
  lemma {:induction false} BatchesCover(groups: seq<(string, seq<ServiceRef>)>)
    ensures BatchArns(Batches(groups)) == GroupArns(groups)
    ensures forall i :: 0 <= i < |Batches(groups)| ==> 1 <= |Batches(groups)[i].1| <= 10
  {
    if groups != [] {
      var init := groups[..|groups| - 1];
      var last := groups[|groups| - 1];
      BatchesCover(init);
      ChunksCover(Arns(last.1));
      TaggedArns(last.0, Chunks(Arns(last.1)));
      var tagged := Tag(last.0, Chunks(Arns(last.1)));
      TagAt(last.0, Chunks(Arns(last.1)));
      BatchArnsAppend(Batches(init), tagged);
      assert Batches(groups) == Batches(init) + tagged;
      BoundedAppend(Batches(init), tagged);
    }
  }

  /** Two lists of requests of one to ten services each, joined. */
  lemma BoundedAppend(a: seq<(string, seq<string>)>, b: seq<(string, seq<string>)>)
    requires forall i :: 0 <= i < |a| ==> 1 <= |a[i].1| <= 10
    requires forall i :: 0 <= i < |b| ==> 1 <= |b[i].1| <= 10
    ensures forall i :: 0 <= i < |a + b| ==> 1 <= |(a + b)[i].1| <= 10
  {
    forall i | |a| <= i < |a + b| ensures 1 <= |(a + b)[i].1| <= 10 {
      assert (a + b)[i] == b[i - |a|];
    }
  }

  /** The requests made for the batches. */
  function BatchCalls(batches: seq<(string, seq<string>)>): (r: seq<Call>)
    ensures |r| == |batches|
  {
    if batches == [] then []
    else
      BatchCalls(batches[..|batches| - 1])
      + [Call.DescribeServices(batches[|batches| - 1].0, batches[|batches| - 1].1)]
  }

  /** `service_description["clusterName"] = cluster` on every answer. */
  function Stamp(descs: seq<Service>, cluster: string): (r: seq<Service>)
    ensures |r| == |descs|
  {
    if descs == [] then []
    else Stamp(descs[..|descs| - 1], cluster) + [descs[|descs| - 1].(clusterName := cluster)]
  }

  lemma {:induction false} StampAt(descs: seq<Service>, cluster: string, i: nat)
    requires i < |descs|
    ensures Stamp(descs, cluster)[i] == descs[i].(clusterName := cluster)
  {
    if i < |descs| - 1 {
      StampAt(descs[..|descs| - 1], cluster, i);
    }
  }

  lemma StampStep(descs: seq<Service>, j: nat, cluster: string)
    requires j < |descs|
    ensures Stamp(descs[..j + 1], cluster) == Stamp(descs[..j], cluster) + [descs[j].(clusterName := cluster)]
  {
    assert descs[..j + 1][..j] == descs[..j];
  }

  /** One `describe_tasks` request per task ARN. */
  function DescribeTaskCalls(cluster: string, taskArns: seq<string>): (r: seq<Call>)
    ensures |r| == |taskArns|
  {
    if taskArns == [] then []
    else [Call.DescribeTasks(cluster, [taskArns[0]])] + DescribeTaskCalls(cluster, taskArns[1..])
  }

  /** How many `describe_tasks` requests are made before the first answer
      without a task stops the check. */
  function TasksDescribed(answers: seq<seq<Task>>): nat {
    match FirstEmpty(answers)
    case None => |answers|
    case Some(j) => j + 1
  }

  /** What an outcome that did not raise says about the service it judged:
      the service has a primary deployment, the outcome is critical
      exactly when that deployment's rollout FAILED, and zero failures
      means the running count is the desired one and nothing is pending. */
  predicate Judged(r: Result<PollOutcome, CheckError>, desc: Service) {
    r.Ok? ==>
      && PrimaryDeployment(desc.deployments).Some?
      && (r.value.critical <==> PrimaryDeployment(desc.deployments).value.rolloutState == "FAILED")
      && (r.value.failures == 0 ==> desc.runningCount == desc.desiredCount && desc.pendingCount == 0)
  }

  /** Outcomes that judge the services before one more, followed by one
      that judges it, judge the services up to it. */
  lemma JudgedExtend(services: seq<Service>, done: seq<PollOutcome>, v: PollOutcome)
    requires |done| < |services| && Judged(Ok(v), services[|done|])
    requires forall j :: 0 <= j < |done| ==> Judged(Ok(done[j]), services[j])
    ensures forall j :: 0 <= j <= |done| ==> Judged(Ok((done + [v])[j]), services[j])
  {
    forall j | 0 <= j <= |done|
      ensures Judged(Ok((done + [v])[j]), services[j])
    {
      if j < |done| {
        assert (done + [v])[j] == done[j];
      }
    }
  }

  /** Totals that meet the exit test, over outcomes that each judged their
      service, mean every service settled or some rollout FAILED. */
  lemma SettledJudged(described: seq<Service>, outcomes: seq<PollOutcome>)
    requires |outcomes| == |described| && Settles(Aggregate(outcomes))
    requires forall j :: 0 <= j < |described| ==> Judged(Ok(outcomes[j]), described[j])
    ensures || (forall i :: 0 <= i < |described| ==>
                  described[i].runningCount == described[i].desiredCount && described[i].pendingCount == 0)
            || (exists i :: 0 <= i < |described| && PrimaryDeployment(described[i].deployments).Some? &&
                  PrimaryDeployment(described[i].deployments).value.rolloutState == "FAILED")
  {
    AggregateIff(outcomes);
    forall j | 0 <= j < |described|
      ensures outcomes[j].critical ==>
                && PrimaryDeployment(described[j].deployments).Some?
                && PrimaryDeployment(described[j].deployments).value.rolloutState == "FAILED"
      ensures outcomes[j].failures == 0 ==>
                described[j].runningCount == described[j].desiredCount && described[j].pendingCount == 0
    {
      assert Judged(Ok(outcomes[j]), described[j]);
    }
  }

  /** The totals of a cycle: its error if a check raised, else the
      failures added up and the critical flags or-ed. */
  function Totals(outcomes: Result<seq<PollOutcome>, CheckError>): Result<PollOutcome, CheckError> {
    if outcomes.Err? then Err(outcomes.error) else Ok(Aggregate(outcomes.value))
  }

  /** `self.check_single_service(service)` in `wait_for_all` passes one
      argument to a method declared with two, `cluster_name` and
      `service_description`: Python raises `TypeError` for the missing one
      before the method body runs. */
  datatype CallError = MissingServiceDescription

  /** The `for service in services` loop of `wait_for_all` as it is
      written: the first service raises; only an empty list gets through,
      with `(0, False)`. */
  function CheckServicesAsWritten(services: seq<Service>): Result<PollOutcome, CallError> {
    if services == [] then Ok(PollOutcome(0, false)) else Err(MissingServiceDescription)
  }

  /** The discrepancy on any settled service without tasks: the check as
      intended passes it with `(0, False)`, which ends the wait; the loop
      as written raises on it. */
  lemma SettledServiceRaisesAsWritten(desc: Service)
    requires PrimaryDeployment(desc.deployments) == Some(Deployment("PRIMARY", "COMPLETED"))
    requires desc.runningCount == desc.desiredCount && desc.pendingCount == 0
    ensures Assess(desc, [], []) == Ok(PollOutcome(0, false))
    ensures Settles(Aggregate([PollOutcome(0, false)]))
    ensures CheckServicesAsWritten([desc]) == Err(MissingServiceDescription)
  {
    HealthyServicePasses(desc, [], []);
  }

  /** How `wait_for_all` ends: the loop test is met after a cycle, a check
      raised, or the cycle budget of the model ran out. */
  datatype WaitOutcome = Stopped(last: PollOutcome) | Raised(error: CheckError) | BudgetSpent

  class WaitForUpdate {
    const client: EcsClient
    const servicesInClusters: seq<(string, seq<ServiceRef>)>

    constructor (client: EcsClient, servicesInClusters: seq<(string, seq<ServiceRef>)>)
      ensures this.client == client && this.servicesInClusters == servicesInClusters
    {
      this.client := client;
      this.servicesInClusters := servicesInClusters;
    }

    /** The services described by the batches, batch `m` answered as
        request number `o + m`. */
    function Described(o: nat, batches: seq<(string, seq<string>)>): seq<Service> {
      if batches == [] then []
      else
        var n := |batches| - 1;
        Described(o, batches[..n]) + Stamp(client.describeAnswer(o + n, batches[n].0, batches[n].1), batches[n].0)
    }

    /** Service `i` of the described services is an answer to batch `m`:
        it sits in that batch's stretch of the result and it is the
        matching answer to that batch's request, with the batch's cluster
        written over its `clusterName`. */
    ghost predicate AnsweredIn(o: nat, batches: seq<(string, seq<string>)>, i: nat, m: nat) {
      m < |batches| && i < |Described(o, batches)| &&
      var lo := |Described(o, batches[..m])|;
      var answer := client.describeAnswer(o + m, batches[m].0, batches[m].1);
      lo <= i < |Described(o, batches[..m + 1])| && i - lo < |answer|
      && Described(o, batches)[i] == answer[i - lo].(clusterName := batches[m].0)
    }

    /** Every described service is an answer to one batch. */
    lemma {:induction false} DescribedInBatchCluster(o: nat, batches: seq<(string, seq<string>)>, i: nat)
      returns (m: nat)
      requires i < |Described(o, batches)|
      ensures m < |batches| && AnsweredIn(o, batches, i, m)
      ensures Described(o, batches)[i].clusterName == batches[m].0
    {
      var n := |batches| - 1;
      if i < |Described(o, batches[..n])| {
        m := DescribedInBatchCluster(o, batches[..n], i);
        AnsweredInEarlier(o, batches, i, m);
      } else {
        m := n;
        AnsweredInLast(o, batches, i);
      }
    }

    lemma AnsweredInLast(o: nat, batches: seq<(string, seq<string>)>, i: nat)
      requires batches != [] && |Described(o, batches[..|batches| - 1])| <= i < |Described(o, batches)|
      ensures AnsweredIn(o, batches, i, |batches| - 1)
    {
      var n := |batches| - 1;
      assert batches[..n + 1] == batches;
      StampAt(client.describeAnswer(o + n, batches[n].0, batches[n].1), batches[n].0, i - |Described(o, batches[..n])|);
    }

    lemma AnsweredInEarlier(o: nat, batches: seq<(string, seq<string>)>, i: nat, m: nat)
      requires batches != [] && m < |batches| - 1 && AnsweredIn(o, batches[..|batches| - 1], i, m)
      ensures AnsweredIn(o, batches, i, m)
    {
      var n := |batches| - 1;
      assert batches[..n][..m] == batches[..m];
      assert batches[..n][..m + 1] == batches[..m + 1];
      assert batches[..n][m] == batches[m];
      DescribedKeepsHead(o, batches, i);
    }

    /** A later batch leaves the services described before it in place. */
    lemma DescribedKeepsHead(o: nat, batches: seq<(string, seq<string>)>, i: nat)
      requires batches != [] && i < |Described(o, batches[..|batches| - 1])|
      ensures Described(o, batches)[i] == Described(o, batches[..|batches| - 1])[i]
    {
    }

    lemma BatchStep(o: nat, done: seq<(string, seq<string>)>, batch: (string, seq<string>))
      ensures BatchCalls(done + [batch]) == BatchCalls(done) + [Call.DescribeServices(batch.0, batch.1)]
      ensures Described(o, done + [batch]) ==
        Described(o, done) + Stamp(client.describeAnswer(o + |done|, batch.0, batch.1), batch.0)
    {
      assert (done + [batch])[..|done|] == done;
    }

    /** `describe_all_services`. */
    method DescribeAllServices() returns (described: seq<Service>)
      modifies client
      ensures client.log == old(client.log) + BatchCalls(Batches(servicesInClusters))
      ensures described == Described(|old(client.log)|, Batches(servicesInClusters))
    {
      ghost var o := |client.log|;
      described := [];
      var g := 0;
      while g < |servicesInClusters|
        invariant 0 <= g <= |servicesInClusters|
        invariant client.log == old(client.log) + BatchCalls(Batches(servicesInClusters[..g]))
        invariant described == Described(o, Batches(servicesInClusters[..g]))
      {
        BatchesStep(servicesInClusters, g);
        described := DescribeCluster(old(client.log), Batches(servicesInClusters[..g]), described,
          servicesInClusters[g].0, Arns(servicesInClusters[g].1));
        g := g + 1;
      }
      assert servicesInClusters[..g] == servicesInClusters;
    }

    /** The `while arns:` loop of `describe_all_services` for one cluster:
        describe the ARNs ten at a time and append the answers, stamped
        with the cluster, to `described`. `done` are the batches sent
        since the log was `prefix`. */
    method DescribeCluster(ghost prefix: seq<Call>, ghost done: seq<(string, seq<string>)>, described: seq<Service>,
                           cluster: string, arns: seq<string>)
      returns (described': seq<Service>)
      requires client.log == prefix + BatchCalls(done)
      requires described == Described(|prefix|, done)
      modifies client
      ensures client.log == prefix + BatchCalls(done + Tag(cluster, Chunks(arns)))
      ensures described' == Described(|prefix|, done + Tag(cluster, Chunks(arns)))
    {
      ghost var o := |prefix|;
      ghost var sent := done;
      ghost var target := done + Tag(cluster, Chunks(arns));
      described' := described;
      var rest := arns;
      while rest != []
        invariant sent + Tag(cluster, Chunks(rest)) == target
        invariant client.log == prefix + BatchCalls(sent)
        invariant described' == Described(o, sent)
        decreases |rest|
      {
        var n := if |rest| < 10 then |rest| else 10;
        var response := client.DescribeServices(cluster, rest[..n]);
        BatchStep(o, sent, (cluster, rest[..n]));
        ChunkStep(sent, cluster, rest);
        Assoc(prefix, BatchCalls(sent), [Call.DescribeServices(cluster, rest[..n])]);
        described' := AppendStamped(described', response, cluster);
        sent := sent + [(cluster, rest[..n])];
        rest := rest[n..];
      }
      assert sent + Tag(cluster, Chunks(rest)) == sent + [];
      assert sent == target;
    }

    /** The `for service_description in response["services"]` loop of
        `describe_all_services`: stamp each answer with its cluster and
        append it. */
    method AppendStamped(described: seq<Service>, response: seq<Service>, cluster: string)
      returns (described': seq<Service>)
      ensures described' == described + Stamp(response, cluster)
    {
      described' := described;
      var j := 0;
      while j < |response|
        invariant 0 <= j <= |response|
        invariant described' == described + Stamp(response[..j], cluster)
      {
        StampStep(response, j, cluster);
        var stamped := response[j].(clusterName := cluster);
        assert described + Stamp(response[..j], cluster) + [stamped] == described + (Stamp(response[..j], cluster) + [stamped]);
        described' := described' + [stamped];
        j := j + 1;
      }
      assert response[..j] == response;
    }

    /** The `describe_tasks` answers for a service's tasks, the first one
        being request number `o`. */
    function TaskAnswers(o: nat, cluster: string, taskArns: seq<string>): (r: seq<seq<Task>>)
      ensures |r| == |taskArns|
    {
      seq(|taskArns|, j requires 0 <= j < |taskArns| => client.tasksAnswer(o + j, cluster, [taskArns[j]]))
    }

    /** The `for task_arn in task_arns` loop of `check_single_service` from
        task `i` on, with `failures` counted and the requests `calls` made so
        far; task `j` is described by request number `o + j`. An answer
        without a task raises. */
    function TaskLoop(o: nat, desc: Service, taskArns: seq<string>, i: nat, failures: nat, calls: seq<Call>)
      : (Result<nat, CheckError>, seq<Call>)
      requires i <= |taskArns|
      decreases |taskArns| - i
    {
      if i == |taskArns| then (Ok(failures), calls)
      else
        var call := Call.DescribeTasks(desc.clusterName, [taskArns[i]]);
        var tasks := client.tasksAnswer(o + i, desc.clusterName, [taskArns[i]]);
        if tasks == [] then (Err(TaskNotDescribed(taskArns[i])), calls + [call])
        else
          var young := if tasks[0].age < MinTaskAge then 1 else 0;
          var stale := if tasks[0].taskDefinitionArn != desc.taskDefinition then 1 else 0;
          TaskLoop(o, desc, taskArns, i + 1, failures + young + stale, calls + [call])
    }

    /** One pass of the task loop: the answer for task `i` either raises or
        moves the loop on with the task's failures added. */
    lemma TaskLoopStep(o: nat, desc: Service, taskArns: seq<string>, i: nat, failures: nat, calls: seq<Call>)
      requires i < |taskArns|
      ensures var tasks := client.tasksAnswer(o + i, desc.clusterName, [taskArns[i]]);
        var call := Call.DescribeTasks(desc.clusterName, [taskArns[i]]);
        && (tasks == [] ==> TaskLoop(o, desc, taskArns, i, failures, calls) == (Err(TaskNotDescribed(taskArns[i])), calls + [call]))
        && (tasks != [] ==>
              var young := if tasks[0].age < MinTaskAge then 1 else 0;
              var stale := if tasks[0].taskDefinitionArn != desc.taskDefinition then 1 else 0;
              TaskLoop(o, desc, taskArns, i, failures, calls) == TaskLoop(o, desc, taskArns, i + 1, failures + young + stale, calls + [call]))
    {
    }

    /** The verdict on one service and the requests its check makes, the
        first request being number `o`. */
    function ServiceCheck(o: nat, desc: Service): (Result<PollOutcome, CheckError>, seq<Call>) {
      match PrimaryDeployment(desc.deployments)
      case None => (Err(NoPrimaryDeployment), [])
      case Some(primary) =>
        var taskArns := client.taskArnsAnswer(o, desc.clusterName, desc.serviceName);
        var loop := TaskLoop(o + 1, desc, taskArns, 0, Mismatches(desc), [Call.ListTasks(desc.clusterName, desc.serviceName)]);
        (if loop.0.Err? then Err(loop.0.error) else Ok(PollOutcome(loop.0.value, primary.rolloutState == "FAILED")), loop.1)
    }

    /** From task `i` on, the loop describes the tasks one by one up to
        the first that is not found. */
    lemma {:induction false} TaskLoopCalls(o: nat, desc: Service, taskArns: seq<string>, i: nat,
                                           failures: nat, calls: seq<Call>)
      requires i <= |taskArns|
      requires var answers := TaskAnswers(o, desc.clusterName, taskArns);
        forall j :: 0 <= j < i ==> answers[j] != []
      ensures var answers := TaskAnswers(o, desc.clusterName, taskArns);
        && i <= TasksDescribed(answers)
        && TaskLoop(o, desc, taskArns, i, failures, calls).1
             == calls + DescribeTaskCalls(desc.clusterName, taskArns[i..TasksDescribed(answers)])
      decreases |taskArns| - i
    {
      var answers := TaskAnswers(o, desc.clusterName, taskArns);
      if i == |taskArns| {
        assert FirstEmpty(answers).None?;
        assert taskArns[i..|taskArns|] == [];
      } else {
        assert answers[i] == client.tasksAnswer(o + i, desc.clusterName, [taskArns[i]]);
        TaskLoopStep(o, desc, taskArns, i, failures, calls);
        if answers[i] == [] {
          assert FirstEmpty(answers) == Some(i);
          assert taskArns[i..i + 1] == [taskArns[i]];
        } else {
          var call := Call.DescribeTasks(desc.clusterName, [taskArns[i]]);
          var tasks := answers[i];
          var young := if tasks[0].age < MinTaskAge then 1 else 0;
          var stale := if tasks[0].taskDefinitionArn != desc.taskDefinition then 1 else 0;
          TaskLoopCalls(o, desc, taskArns, i + 1, failures + young + stale, calls + [call]);
          var k := TasksDescribed(answers);
          assert taskArns[i..k][1..] == taskArns[i + 1..k];
          Assoc(calls, [call], DescribeTaskCalls(desc.clusterName, taskArns[i + 1..k]));
        }
      }
    }

    /** From task `i` on, after the tasks `seen` were found, the loop
        raises at the first task without an answer, or else counts the
        failures of all the tasks. */
    lemma {:induction false} TaskLoopVerdict(o: nat, desc: Service, taskArns: seq<string>, i: nat,
                                             seen: seq<Task>, calls: seq<Call>)
      requires i <= |taskArns| && |seen| == i
      requires var answers := TaskAnswers(o, desc.clusterName, taskArns);
        forall j :: 0 <= j < i ==> answers[j] != [] && seen[j] == answers[j][0]
      ensures var answers := TaskAnswers(o, desc.clusterName, taskArns);
        TaskLoop(o, desc, taskArns, i, ServiceFailures(desc, seen), calls).0
          == (match FirstEmpty(answers)
              case Some(j) => Err(TaskNotDescribed(taskArns[j]))
              case None => Ok(ServiceFailures(desc, Firsts(answers))))
      decreases |taskArns| - i
    {
      var answers := TaskAnswers(o, desc.clusterName, taskArns);
      var failures := ServiceFailures(desc, seen);
      if i == |taskArns| {
        assert FirstEmpty(answers).None?;
        assert seen == Firsts(answers);
        assert TaskLoop(o, desc, taskArns, i, failures, calls).0 == Ok(failures);
      } else {
        assert answers[i] == client.tasksAnswer(o + i, desc.clusterName, [taskArns[i]]);
        TaskLoopStep(o, desc, taskArns, i, failures, calls);
        if answers[i] == [] {
          assert FirstEmpty(answers) == Some(i);
        } else {
          var call := Call.DescribeTasks(desc.clusterName, [taskArns[i]]);
          var t := answers[i][0];
          TaskFound(o, desc, taskArns, i, seen, calls);
          TaskLoopVerdict(o, desc, taskArns, i + 1, seen + [t], calls + [call]);
        }
      }
    }

    /** A task that is found moves the loop on with that task seen. */
    lemma TaskFound(o: nat, desc: Service, taskArns: seq<string>, i: nat, seen: seq<Task>, calls: seq<Call>)
      requires i < |taskArns| && |seen| == i
      requires var answers := TaskAnswers(o, desc.clusterName, taskArns);
        && answers[i] != []
        && forall j :: 0 <= j < i ==> answers[j] != [] && seen[j] == answers[j][0]
      ensures var answers := TaskAnswers(o, desc.clusterName, taskArns);
        var t := answers[i][0];
        var call := Call.DescribeTasks(desc.clusterName, [taskArns[i]]);
        && (forall j :: 0 <= j < i + 1 ==> answers[j] != [] && (seen + [t])[j] == answers[j][0])
        && TaskLoop(o, desc, taskArns, i, ServiceFailures(desc, seen), calls)
             == TaskLoop(o, desc, taskArns, i + 1, ServiceFailures(desc, seen + [t]), calls + [call])
    {
      var answers := TaskAnswers(o, desc.clusterName, taskArns);
      var t := answers[i][0];
      TaskLoopStep(o, desc, taskArns, i, ServiceFailures(desc, seen), calls);
      CountsAppend(seen, t, desc.taskDefinition);
      assert forall j :: 0 <= j < i + 1 ==> answers[j] != [] && (seen + [t])[j] == answers[j][0];
    }

    /** The check is the verdict `Assess` gives on the answers, and it
        lists the tasks and then describes them one by one up to the first
        that is not found. */
    lemma ServiceCheckAssess(o: nat, desc: Service)
      ensures var taskArns := client.taskArnsAnswer(o, desc.clusterName, desc.serviceName);
        var answers := TaskAnswers(o + 1, desc.clusterName, taskArns);
        && ServiceCheck(o, desc).0 == Assess(desc, taskArns, answers)
        && (PrimaryDeployment(desc.deployments).None? ==> ServiceCheck(o, desc).1 == [])
        && (PrimaryDeployment(desc.deployments).Some? ==>
              ServiceCheck(o, desc).1 == [Call.ListTasks(desc.clusterName, desc.serviceName)]
                + DescribeTaskCalls(desc.clusterName, taskArns[..TasksDescribed(answers)]))
    {
      var taskArns := client.taskArnsAnswer(o, desc.clusterName, desc.serviceName);
      var answers := TaskAnswers(o + 1, desc.clusterName, taskArns);
      if PrimaryDeployment(desc.deployments).Some? {
        var calls := [Call.ListTasks(desc.clusterName, desc.serviceName)];
        TaskLoopCalls(o + 1, desc, taskArns, 0, Mismatches(desc), calls);
        TaskLoopVerdict(o + 1, desc, taskArns, 0, [], calls);
        assert taskArns[0..TasksDescribed(answers)] == taskArns[..TasksDescribed(answers)];
        if FirstEmpty(answers).None? {
          AssessCounts(desc, taskArns, answers);
        }
      }
    }

    /** With a primary deployment, the check lists the tasks and runs the
        task loop from the count mismatches. */
    lemma ServiceCheckLoop(o: nat, desc: Service)
      requires PrimaryDeployment(desc.deployments).Some?
      ensures var taskArns := client.taskArnsAnswer(o, desc.clusterName, desc.serviceName);
        var loop := TaskLoop(o + 1, desc, taskArns, 0, Mismatches(desc), [Call.ListTasks(desc.clusterName, desc.serviceName)]);
        var failed := PrimaryDeployment(desc.deployments).value.rolloutState == "FAILED";
        && ServiceCheck(o, desc).1 == loop.1
        && (loop.0.Err? ==> ServiceCheck(o, desc).0 == Err(loop.0.error))
        && (loop.0.Ok? ==> ServiceCheck(o, desc).0 == Ok(PollOutcome(loop.0.value, failed)))
    {
    }

    /** The body of the `for task_arn in task_arns` loop for task `i`:
        describe it, raise if nothing comes back, else add its failures. */
    method TaskStep(ghost o: nat, desc: Service, taskArns: seq<string>, i: nat, failures: nat,
                    ghost prefix: seq<Call>, ghost calls: seq<Call>)
      returns (r: Result<nat, CheckError>, ghost calls': seq<Call>)
      requires i < |taskArns|
      requires client.log == prefix + calls && |client.log| == o + i
      modifies client
      ensures client.log == prefix + calls' && |client.log| == o + i + 1
      ensures r.Err? ==> TaskLoop(o, desc, taskArns, i, failures, calls) == (Err(r.error), calls')
      ensures r.Ok? ==> TaskLoop(o, desc, taskArns, i, failures, calls) == TaskLoop(o, desc, taskArns, i + 1, r.value, calls')
    {
      ghost var call := Call.DescribeTasks(desc.clusterName, [taskArns[i]]);
      var tasks := client.DescribeTasks(desc.clusterName, [taskArns[i]]);
      Assoc(prefix, calls, [call]);
      TaskLoopStep(o, desc, taskArns, i, failures, calls);
      calls' := calls + [call];
      if tasks == [] {
        r := Err(TaskNotDescribed(taskArns[i]));
        return;
      }
      var failures' := failures;
      var task := tasks[0];
      if task.age < MinTaskAge {
        failures' := failures' + 1;
      }
      if task.taskDefinitionArn != desc.taskDefinition {
        failures' := failures' + 1;
      }
      r := Ok(failures');
    }

    /** `check_single_service`, with the service description as its one
        argument. */
    method CheckSingleService(desc: Service) returns (r: Result<PollOutcome, CheckError>)
      modifies client
      ensures r == ServiceCheck(|old(client.log)|, desc).0
      ensures client.log == old(client.log) + ServiceCheck(|old(client.log)|, desc).1
    {
      ghost var o := |client.log|;
      var primary := PrimaryDeployment(desc.deployments);
      if primary.None? {
        return Err(NoPrimaryDeployment);
      }
      ServiceCheckLoop(o, desc);
      var failures: nat := 0;
      if desc.desiredCount != desc.runningCount {
        failures := failures + 1;
      }
      if desc.pendingCount != 0 {
        failures := failures + 1;
      }
      assert failures == Mismatches(desc);
      var taskArns := client.ListTasks(desc.clusterName, desc.serviceName);
      ghost var calls := [Call.ListTasks(desc.clusterName, desc.serviceName)];
      ghost var loop := TaskLoop(o + 1, desc, taskArns, 0, failures, calls);
      var i := 0;
      while i < |taskArns|
        invariant 0 <= i <= |taskArns|
        invariant client.log == old(client.log) + calls
        invariant |client.log| == o + 1 + i
        invariant loop == TaskLoop(o + 1, desc, taskArns, i, failures, calls)
      {
        var step;
        step, calls := TaskStep(o + 1, desc, taskArns, i, failures, old(client.log), calls);
        if step.Err? {
          return Err(step.error);
        }
        failures := step.value;
        i := i + 1;
      }
      r := Ok(PollOutcome(failures, primary.value.rolloutState == "FAILED"));
    }

    /** Every outcome of the check that does not raise judges its service. */
    lemma ServiceCheckJudged(o: nat, desc: Service)
      ensures Judged(ServiceCheck(o, desc).0, desc)
    {
      var taskArns := client.taskArnsAnswer(o, desc.clusterName, desc.serviceName);
      var answers := TaskAnswers(o + 1, desc.clusterName, taskArns);
      ServiceCheckAssess(o, desc);
      if Assess(desc, taskArns, answers).Ok? {
        CriticalIffPrimaryFailed(desc, taskArns, answers, desc.deployments);
        ZeroFailuresIffHealthy(desc, taskArns, answers);
      }
    }

    /** The checks of one cycle from service `i` on, after the outcomes
        `done` and the requests `calls` of the services before it; the
        cycle's first request is number `o`. The first check that raises
        ends the cycle. */
    function Cycle(o: nat, services: seq<Service>, i: nat, done: seq<PollOutcome>, calls: seq<Call>)
      : (Result<seq<PollOutcome>, CheckError>, seq<Call>)
      requires i <= |services|
      decreases |services| - i
    {
      if i == |services| then (Ok(done), calls)
      else
        var c := ServiceCheck(o + |calls|, services[i]);
        if c.0.Err? then (Err(c.0.error), calls + c.1)
        else Cycle(o, services, i + 1, done + [c.0.value], calls + c.1)
    }

    /** A cycle that does not raise has an outcome for every service, and
        each outcome judges its service as a single check does. */
    lemma {:induction false} CycleJudgesEveryService(o: nat, services: seq<Service>,
                                                     i: nat, done: seq<PollOutcome>, calls: seq<Call>)
      requires i <= |services| && |done| == i
      requires forall j :: 0 <= j < i ==> Judged(Ok(done[j]), services[j])
      requires Cycle(o, services, i, done, calls).0.Ok?
      ensures var outcomes := Cycle(o, services, i, done, calls).0.value;
        && |outcomes| == |services|
        && forall j :: 0 <= j < |services| ==> Judged(Ok(outcomes[j]), services[j])
      decreases |services| - i
    {
      if i < |services| {
        var c := ServiceCheck(o + |calls|, services[i]);
        CycleStep(o, services, i, done, calls);
        assert c.0.Ok?;
        ServiceCheckJudged(o + |calls|, services[i]);
        var done' := done + [c.0.value];
        JudgedExtend(services, done, c.0.value);
        CycleJudgesEveryService(o, services, i + 1, done', calls + c.1);
      }
    }

    /** One whole cycle of `wait_for_all`, its first request numbered `o`:
        describe every service, then check them in order, adding the
        failures up and or-ing the critical flags. */
    function Poll(o: nat): (Result<PollOutcome, CheckError>, seq<Call>) {
      var batches := Batches(servicesInClusters);
      var cycle := Cycle(o + |batches|, Described(o, batches), 0, [], []);
      (Totals(cycle.0), BatchCalls(batches) + cycle.1)
    }

    /** One pass of the body of the `wait_for_all` loop. */
    method PollOnce() returns (r: Result<PollOutcome, CheckError>)
      modifies client
      ensures r == Poll(|old(client.log)|).0
      ensures client.log == old(client.log) + Poll(|old(client.log)|).1
    {
      var services := DescribeAllServices();
      ghost var described := client.log;
      r := CheckServices(services);
      Assoc(old(client.log), BatchCalls(Batches(servicesInClusters)), Cycle(|described|, services, 0, [], []).1);
    }

    /** One check of a cycle: it raises and ends the cycle, or adds its
        outcome and moves on. */
    lemma CycleStep(o: nat, services: seq<Service>, i: nat, done: seq<PollOutcome>, calls: seq<Call>)
      requires i < |services|
      ensures var c := ServiceCheck(o + |calls|, services[i]);
        && (c.0.Err? ==> Cycle(o, services, i, done, calls) == (Err(c.0.error), calls + c.1))
        && (c.0.Ok? ==> Cycle(o, services, i, done, calls) == Cycle(o, services, i + 1, done + [c.0.value], calls + c.1))
    {
    }

    /** One pass of the `for service in services` loop: check service `i`
        and say where that leaves the cycle. */
    method CheckNext(ghost o: nat, services: seq<Service>, i: nat, ghost prefix: seq<Call>,
                     ghost outcomes: seq<PollOutcome>, ghost calls: seq<Call>)
      returns (check: Result<PollOutcome, CheckError>, ghost calls': seq<Call>)
      requires i < |services|
      requires client.log == prefix + calls && |client.log| == o + |calls|
      modifies client
      ensures client.log == prefix + calls' && |client.log| == o + |calls'|
      ensures check.Err? ==> Cycle(o, services, i, outcomes, calls) == (Err(check.error), calls')
      ensures check.Ok? ==> Cycle(o, services, i, outcomes, calls) == Cycle(o, services, i + 1, outcomes + [check.value], calls')
    {
      ghost var c := ServiceCheck(o + |calls|, services[i]);
      check := CheckSingleService(services[i]);
      Assoc(prefix, calls, c.1);
      CycleStep(o, services, i, outcomes, calls);
      calls' := calls + c.1;
    }

    /** The `for service in services` loop of `wait_for_all`: check each
        service, adding the failures up and or-ing the critical flags. */
    method CheckServices(services: seq<Service>) returns (r: Result<PollOutcome, CheckError>)
      modifies client
      ensures r == Totals(Cycle(|old(client.log)|, services, 0, [], []).0)
      ensures client.log == old(client.log) + Cycle(|old(client.log)|, services, 0, [], []).1
    {
      ghost var o := |client.log|;
      ghost var cycle := Cycle(o, services, 0, [], []);
      ghost var outcomes: seq<PollOutcome> := [];
      ghost var calls: seq<Call> := [];
      var totalFailures: nat := 0;
      var totalCritical := false;
      var i := 0;
      while i < |services|
        invariant 0 <= i <= |services|
        invariant client.log == old(client.log) + calls
        invariant |client.log| == o + |calls|
        invariant cycle == Cycle(o, services, i, outcomes, calls)
        invariant PollOutcome(totalFailures, totalCritical) == Aggregate(outcomes)
      {
        var check;
        check, calls := CheckNext(o, services, i, old(client.log), outcomes, calls);
        if check.Err? {
          return Err(check.error);
        }
        assert (outcomes + [check.value])[..|outcomes|] == outcomes;
        totalFailures := totalFailures + check.value.failures;
        totalCritical := totalCritical || check.value.critical;
        outcomes := outcomes + [check.value];
        i := i + 1;
      }
      r := Ok(PollOutcome(totalFailures, totalCritical));
    }

    /** The wait stops only when, in the last cycle, every service ran its
        desired count with nothing pending, or some service's primary
        rollout FAILED. */
    lemma StopMeansSettledOrFailed(o: nat)
      requires Poll(o).0.Ok? && Settles(Poll(o).0.value)
      ensures var described := Described(o, Batches(servicesInClusters));
        || (forall i :: 0 <= i < |described| ==>
              described[i].runningCount == described[i].desiredCount && described[i].pendingCount == 0)
        || (exists i :: 0 <= i < |described| && PrimaryDeployment(described[i].deployments).Some? &&
              PrimaryDeployment(described[i].deployments).value.rolloutState == "FAILED")
    {
      var batches := Batches(servicesInClusters);
      var described := Described(o, batches);
      var outcomes := Cycle(o + |batches|, described, 0, [], []).0.value;
      CycleJudgesEveryService(o + |batches|, described, 0, [], []);
      assert Poll(o).0.value == Aggregate(outcomes);
      SettledJudged(described, outcomes);
    }

    /** `wait_for_all` with at most `fuel` cycles to go, its first request
        numbered `o`: the loop starts from one failure and nothing critical,
        so it polls at least once when the budget allows. */
    function Wait(o: nat, fuel: nat): (WaitOutcome, seq<Call>) {
      WaitWhile(o, fuel, [], PollOutcome(1, false))
    }

    /** The loop test `while total_failures and not total_critical` on the
        totals `last` of the cycle before, after the requests `calls`. */
    function WaitWhile(o: nat, fuel: nat, calls: seq<Call>, last: PollOutcome): (WaitOutcome, seq<Call>)
      decreases fuel, 2
    {
      if Settles(last) then (Stopped(last), calls) else WaitBudget(o, fuel, calls)
    }

    /** The cycle budget the model puts on the loop. */
    function WaitBudget(o: nat, fuel: nat, calls: seq<Call>): (WaitOutcome, seq<Call>)
      decreases fuel, 1
    {
      if fuel == 0 then (BudgetSpent, calls) else WaitCycle(o, fuel, calls)
    }

    /** One pass of the loop body: poll, then raise or go back to the test
        with the new totals. */
    function WaitCycle(o: nat, fuel: nat, calls: seq<Call>): (WaitOutcome, seq<Call>)
      requires fuel > 0
      decreases fuel, 0
    {
      var p := Poll(o + |calls|);
      if p.0.Err? then (Raised(p.0.error), calls + p.1)
      else WaitWhile(o, fuel - 1, calls + p.1, p.0.value)
    }

    /** Past a failing loop test, with budget left, the loop polls. */
    lemma WaitPolls(o: nat, fuel: nat, calls: seq<Call>, last: PollOutcome)
      requires !Settles(last) && fuel > 0
      ensures WaitWhile(o, fuel, calls, last) == WaitCycle(o, fuel, calls)
    {
    }

    /** Past a failing loop test, with no budget left, the wait gives up. */
    lemma WaitGivesUp(o: nat, calls: seq<Call>, last: PollOutcome)
      requires !Settles(last)
      ensures WaitWhile(o, 0, calls, last) == (BudgetSpent, calls)
    {
    }

    /** The requests made so far stay a prefix of the log, the loop polls
        whenever its test fails and the budget allows, and it stops only
        with totals that meet the exit test. */
    lemma {:induction false} WaitStopsSettled(o: nat, fuel: nat, calls: seq<Call>, last: PollOutcome)
      ensures calls <= WaitWhile(o, fuel, calls, last).1
      ensures !Settles(last) && fuel > 0 ==> calls + Poll(o + |calls|).1 <= WaitWhile(o, fuel, calls, last).1
      ensures WaitWhile(o, fuel, calls, last).0.Stopped? ==> Settles(WaitWhile(o, fuel, calls, last).0.last)
      decreases fuel
    {
      if !Settles(last) && fuel > 0 {
        WaitPolls(o, fuel, calls, last);
        var p := Poll(o + |calls|);
        if p.0.Ok? {
          WaitStopsSettled(o, fuel - 1, calls + p.1, p.0.value);
        }
        assert calls <= calls + p.1;
      }
    }

    /** One pass of the `wait_for_all` loop body after the totals `last`,
        and where it leaves the wait with `fuel` cycles to go after the
        requests `calls`. */
    method WaitStep(ghost o: nat, ghost fuel: nat, ghost prefix: seq<Call>, ghost calls: seq<Call>,
                    ghost last: PollOutcome, ghost result: (WaitOutcome, seq<Call>))
      returns (r: Result<PollOutcome, CheckError>, ghost calls': seq<Call>)
      requires fuel > 0 && !Settles(last) && result == WaitWhile(o, fuel, calls, last)
      requires client.log == prefix + calls && |client.log| == o + |calls|
      modifies client
      ensures client.log == prefix + calls' && |client.log| == o + |calls'|
      ensures r.Err? ==> result == (Raised(r.error), calls')
      ensures r.Ok? ==> result == WaitWhile(o, fuel - 1, calls', r.value)
    {
      WaitPolls(o, fuel, calls, last);
      ghost var p := Poll(o + |calls|);
      r := PollOnce();
      Assoc(prefix, calls, p.1);
      calls' := calls + p.1;
    }

    /** `wait_for_all`: poll until there are no failures or one is
        critical. The source loops without bound; here the caller passes
        the most cycles it will wait. */
    method WaitForAll(maxCycles: nat) returns (outcome: WaitOutcome)
      modifies client
      ensures outcome == Wait(|old(client.log)|, maxCycles).0
      ensures client.log == old(client.log) + Wait(|old(client.log)|, maxCycles).1
    {
      ghost var o := |client.log|;
      ghost var calls: seq<Call> := [];
      ghost var left := maxCycles;
      ghost var result := Wait(o, maxCycles);
      var totalFailures: nat := 1;
      var totalCritical := false;
      var cycles := 0;
      while totalFailures != 0 && !totalCritical
        invariant 0 <= cycles <= maxCycles && left == maxCycles - cycles
        invariant client.log == old(client.log) + calls && |client.log| == o + |calls|
        invariant result == WaitWhile(o, left, calls, PollOutcome(totalFailures, totalCritical))
        decreases left
      {
        if cycles == maxCycles {
          WaitGivesUp(o, calls, PollOutcome(totalFailures, totalCritical));
          return BudgetSpent;
        }
        var r;
        r, calls := WaitStep(o, left, old(client.log), calls, PollOutcome(totalFailures, totalCritical), result);
        if r.Err? {
          return Raised(r.error);
        }
        totalFailures := r.value.failures;
        totalCritical := r.value.critical;
        assert PollOutcome(totalFailures, totalCritical) == r.value;
        cycles := cycles + 1;
        left := left - 1;
      }
      outcome := Stopped(PollOutcome(totalFailures, totalCritical));
    }
  }
}
