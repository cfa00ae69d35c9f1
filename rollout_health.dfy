/** What `WaitForUpdate.check_single_service` decides about one service,
    and how `wait_for_all` adds those decisions up, as functions of what the
    API answered. */
module RolloutHealth {
  import opened Wrappers
  import opened EcsApi

  /** A task younger than this many seconds counts as a failure. */
  const MinTaskAge := 60

  /** `(failures, critical)` as `check_single_service` returns it. */
  datatype PollOutcome = PollOutcome(failures: nat, critical: bool)

  /** What makes `check_single_service` raise: no PRIMARY deployment
      (`IndexError` on `[...][0]`), or a `describe_tasks` answer without
      tasks (`IndexError` on `["tasks"][0]`). */
  datatype CheckError = NoPrimaryDeployment | TaskNotDescribed(taskArn: string)

  /** Where the first deployment whose status is PRIMARY sits. */
  function PrimaryIndex(deployments: seq<Deployment>): (r: Option<nat>)
    ensures r.Some? ==> r.value < |deployments| && deployments[r.value].status == "PRIMARY"
    ensures r.Some? ==> forall j :: 0 <= j < r.value ==> deployments[j].status != "PRIMARY"
    ensures r.None? ==> forall j :: 0 <= j < |deployments| ==> deployments[j].status != "PRIMARY"
  {
    if deployments == [] then None
    else if deployments[0].status == "PRIMARY" then Some(0)
    else match PrimaryIndex(deployments[1..])
      case None => None
      case Some(i) => Some(i + 1)
  }

  /** `[d for d in deployments if d["status"] == "PRIMARY"][0]`, with
      `None` where that list is empty. */
  function PrimaryDeployment(deployments: seq<Deployment>): Option<Deployment> {
    match PrimaryIndex(deployments)
    case None => None
    case Some(i) => Some(deployments[i])
  }

  /** Tasks created less than `MinTaskAge` seconds ago. */
  function CountYoung(tasks: seq<Task>): nat {
    if tasks == [] then 0
    else CountYoung(tasks[..|tasks| - 1]) + (if tasks[|tasks| - 1].age < MinTaskAge then 1 else 0)
  }

  /** Tasks running another task definition than the service's. */
  function CountStale(tasks: seq<Task>, taskDefinition: string): nat {
    if tasks == [] then 0
    else
      var last := if tasks[|tasks| - 1].taskDefinitionArn != taskDefinition then 1 else 0;
      CountStale(tasks[..|tasks| - 1], taskDefinition) + last
  }

  /** The failures found before any task is looked at: one for a running
      count that differs from the desired count, one for pending tasks. */
  function Mismatches(desc: Service): nat {
    (if desc.desiredCount != desc.runningCount then 1 else 0) + (if desc.pendingCount != 0 then 1 else 0)
  }

  /** The failure count of one service: the count mismatches, and one per
      young task and per stale task. */
  function ServiceFailures(desc: Service, tasks: seq<Task>): nat {
    Mismatches(desc) + CountYoung(tasks) + CountStale(tasks, desc.taskDefinition)
  }

  /** Where `describe_tasks` first answered with no task. */
  function FirstEmpty(answers: seq<seq<Task>>): (r: Option<nat>)
    ensures r.Some? ==> r.value < |answers| && answers[r.value] == []
    ensures r.Some? ==> forall j :: 0 <= j < r.value ==> answers[j] != []
    ensures r.None? ==> forall j :: 0 <= j < |answers| ==> answers[j] != []
  {
    if answers == [] then None
    else if answers[0] == [] then Some(0)
    else match FirstEmpty(answers[1..])
      case None => None
      case Some(j) => Some(j + 1)
  }

  /** The first task of every answer (the code reads `["tasks"][0]`). */
  function Firsts(answers: seq<seq<Task>>): (r: seq<Task>)
    requires forall j :: 0 <= j < |answers| ==> answers[j] != []
    ensures |r| == |answers| && forall j :: 0 <= j < |r| ==> r[j] == answers[j][0]
  {
    seq(|answers|, j requires 0 <= j < |answers| && answers[j] != [] => answers[j][0])
  }

  lemma CountsAppend(tasks: seq<Task>, t: Task, taskDefinition: string)
    ensures CountYoung(tasks + [t]) == CountYoung(tasks) + (if t.age < MinTaskAge then 1 else 0)
    ensures CountStale(tasks + [t], taskDefinition) == CountStale(tasks, taskDefinition)
      + (if t.taskDefinitionArn != taskDefinition then 1 else 0)
  {
    assert (tasks + [t])[..|tasks|] == tasks;
  }

  /** The verdict on one service, given the task ARNs `list_tasks` returned
      and the `describe_tasks` answer for each of them. */
  function Assess(desc: Service, taskArns: seq<string>, answers: seq<seq<Task>>): Result<PollOutcome, CheckError>
    requires |answers| == |taskArns|
  {
    match PrimaryDeployment(desc.deployments)
    case None => Err(NoPrimaryDeployment)
    case Some(primary) =>
      match FirstEmpty(answers)
      case Some(j) => Err(TaskNotDescribed(taskArns[j]))
      case None => Ok(PollOutcome(ServiceFailures(desc, Firsts(answers)), primary.rolloutState == "FAILED"))
  }

  /** The check raises at the first task `describe_tasks` did not find. */
  lemma AssessRaisesAt(desc: Service, taskArns: seq<string>, answers: seq<seq<Task>>, i: nat)
    requires |answers| == |taskArns| && PrimaryDeployment(desc.deployments).Some?
    requires i < |answers| && answers[i] == [] && forall j :: 0 <= j < i ==> answers[j] != []
    ensures FirstEmpty(answers) == Some(i)
    ensures Assess(desc, taskArns, answers) == Err(TaskNotDescribed(taskArns[i]))
  {
  }

  /** With every task found, the check counts the failures. */
  lemma AssessCounts(desc: Service, taskArns: seq<string>, answers: seq<seq<Task>>)
    requires |answers| == |taskArns| && PrimaryDeployment(desc.deployments).Some?
    requires forall j :: 0 <= j < |answers| ==> answers[j] != []
    ensures FirstEmpty(answers) == None
    ensures Assess(desc, taskArns, answers) == Ok(PollOutcome(ServiceFailures(desc, Firsts(answers)),
      PrimaryDeployment(desc.deployments).value.rolloutState == "FAILED"))
  {
  }

  predicate TaskSettled(task: Task, taskDefinition: string) {
    task.age >= MinTaskAge && task.taskDefinitionArn == taskDefinition
  }

  /** No young and no stale task is the same as every task settled. */
  lemma {:induction false} NoTaskFailuresIff(tasks: seq<Task>, taskDefinition: string)
    ensures CountYoung(tasks) + CountStale(tasks, taskDefinition) == 0 <==>
      forall j :: 0 <= j < |tasks| ==> TaskSettled(tasks[j], taskDefinition)
  {
    if tasks != [] {
      var init := tasks[..|tasks| - 1];
      NoTaskFailuresIff(init, taskDefinition);
      assert forall j :: 0 <= j < |init| ==> init[j] == tasks[j];
    }
  }

  /** A service passes (zero failures) exactly when running equals desired,
      nothing is pending, and every task is old enough and runs the
      service's task definition. */
  lemma ZeroFailuresIffHealthy(desc: Service, taskArns: seq<string>, answers: seq<seq<Task>>)
    requires |answers| == |taskArns|
    requires Assess(desc, taskArns, answers).Ok?
    ensures var tasks := Firsts(answers);
      Assess(desc, taskArns, answers).value.failures == 0 <==>
        && desc.runningCount == desc.desiredCount
        && desc.pendingCount == 0
        && forall j :: 0 <= j < |tasks| ==> TaskSettled(tasks[j], desc.taskDefinition)
  {
    NoTaskFailuresIff(Firsts(answers), desc.taskDefinition);
  }

  /** The result is critical exactly when the first PRIMARY deployment's
      rollout state is FAILED, and the deployments do not enter the failure
      count: the same service with any other deployments that still have a
      PRIMARY one gets the same count. In particular a FAILED rollout adds
      no failure. */
  lemma CriticalIffPrimaryFailed(desc: Service, taskArns: seq<string>, answers: seq<seq<Task>>, deployments: seq<Deployment>)
    requires |answers| == |taskArns|
    requires Assess(desc, taskArns, answers).Ok?
    requires PrimaryDeployment(deployments).Some?
    ensures Assess(desc, taskArns, answers).value.critical <==>
      PrimaryDeployment(desc.deployments).value.rolloutState == "FAILED"
    ensures var other := desc.(deployments := deployments);
      && Assess(other, taskArns, answers).Ok?
      && Assess(other, taskArns, answers).value.failures == Assess(desc, taskArns, answers).value.failures
      && (Assess(other, taskArns, answers).value.critical <==>
          PrimaryDeployment(deployments).value.rolloutState == "FAILED")
  {
  }

  /** A settled service on a completed rollout passes: `(0, False)`. */
  lemma HealthyServicePasses(desc: Service, taskArns: seq<string>, answers: seq<seq<Task>>)
    requires |answers| == |taskArns|
    requires PrimaryDeployment(desc.deployments) == Some(Deployment("PRIMARY", "COMPLETED"))
    requires desc.runningCount == desc.desiredCount && desc.pendingCount == 0
    requires forall j :: 0 <= j < |answers| ==> answers[j] != [] && TaskSettled(answers[j][0], desc.taskDefinition)
    ensures Assess(desc, taskArns, answers) == Ok(PollOutcome(0, false))
  {
    NoTaskFailuresIff(Firsts(answers), desc.taskDefinition);
  }

  /** The totals of one `wait_for_all` cycle: failures added up, critical
      flags or-ed. */
  function Aggregate(outcomes: seq<PollOutcome>): PollOutcome {
    if outcomes == [] then PollOutcome(0, false)
    else
      var rest := Aggregate(outcomes[..|outcomes| - 1]);
      var last := outcomes[|outcomes| - 1];
      PollOutcome(rest.failures + last.failures, rest.critical || last.critical)
  }

  /** A cycle's totals are zero exactly when every service passed, and
      critical exactly when some service was. */
  lemma {:induction false} AggregateIff(outcomes: seq<PollOutcome>)
    ensures Aggregate(outcomes).failures == 0 <==> forall j :: 0 <= j < |outcomes| ==> outcomes[j].failures == 0
    ensures Aggregate(outcomes).critical <==> exists j :: 0 <= j < |outcomes| && outcomes[j].critical
  {
    if outcomes != [] {
      var init := outcomes[..|outcomes| - 1];
      AggregateIff(init);
      assert forall j :: 0 <= j < |init| ==> init[j] == outcomes[j];
    }
  }

  /** The loop's exit test: `not (total_failures and not total_critical)`. */
  predicate Settles(total: PollOutcome) {
    total.failures == 0 || total.critical
  }
}
