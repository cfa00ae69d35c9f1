/** The part of the ECS API that the rollout code talks to, seen from the
    client side. Every call is appended to `log`. An answer may depend on
    the call's position in the log, so the cluster may change between polls.
    `list_services` pages are a fixed chain per cluster that the tokens
    walk. */
module EcsApi {
  import opened Wrappers
  import opened Paging

  /** A `list_services` page: service ARNs and the continuation token. */
  type ListPage = Page<string>

  datatype Deployment = Deployment(status: string, rolloutState: string)

  /** The fields of a `describe_services` entry that the code reads.
      `clusterName` is the one it writes. */
  datatype Service = Service(
    serviceArn: string,
    serviceName: string,
    clusterName: string,
    taskDefinition: string,
    desiredCount: int,
    runningCount: int,
    pendingCount: int,
    deployments: seq<Deployment>)

  /** A described task. `age` is the whole number of seconds since it was
      created, truncated toward zero as `int()` does. */
  datatype Task = Task(taskArn: string, taskDefinitionArn: string, age: int)

  /** One request, with the keyword arguments the code passes. */
  datatype Call =
    | ListServices(cluster: string, maxResults: nat, nextToken: Option<string>)
    | DescribeServices(cluster: string, services: seq<string>)
    | UpdateService(cluster: string, service: string, taskDefinition: string)
    | ListTasks(cluster: string, serviceName: string)
    | DescribeTasks(cluster: string, tasks: seq<string>)

  /** The ECS client. The `*Answer` functions are the service's side;
      `log` records what the code asked, in order. */
  class EcsClient {
    const servicePages: string -> seq<ListPage>
    const describeAnswer: (nat, string, seq<string>) -> seq<Service>
    const taskArnsAnswer: (nat, string, string) -> seq<string>
    const tasksAnswer: (nat, string, seq<string>) -> seq<Task>
    var log: seq<Call>

    constructor (
      servicePages: string -> seq<ListPage>,
      describeAnswer: (nat, string, seq<string>) -> seq<Service>,
      taskArnsAnswer: (nat, string, string) -> seq<string>,
      tasksAnswer: (nat, string, seq<string>) -> seq<Task>)
      ensures this.servicePages == servicePages && this.describeAnswer == describeAnswer
      ensures this.taskArnsAnswer == taskArnsAnswer && this.tasksAnswer == tasksAnswer
      ensures log == []
    {
      this.servicePages := servicePages;
      this.describeAnswer := describeAnswer;
      this.taskArnsAnswer := taskArnsAnswer;
      this.tasksAnswer := tasksAnswer;
      log := [];
    }

    /** `list_services`. A token the service never handed out would be an
        API error; the callers here only send tokens from the chain. */
    method ListServices(cluster: string, maxResults: nat, token: Option<string>) returns (page: ListPage)
      requires |servicePages(cluster)| > 0
      requires token.Some? ==> TokenIndex(servicePages(cluster), token.value).Some?
      modifies this
      ensures log == old(log) + [Call.ListServices(cluster, maxResults, token)]
      ensures page == PageFor(servicePages(cluster), token)
    {
      page := PageFor(servicePages(cluster), token);
      log := log + [Call.ListServices(cluster, maxResults, token)];
    }

    /** `describe_services`: the `services` list of the response. */
    method DescribeServices(cluster: string, arns: seq<string>) returns (services: seq<Service>)
      modifies this
      ensures log == old(log) + [Call.DescribeServices(cluster, arns)]
      ensures services == describeAnswer(|old(log)|, cluster, arns)
    {
      services := describeAnswer(|log|, cluster, arns);
      log := log + [Call.DescribeServices(cluster, arns)];
    }

    /** `update_service`; its response is not read. */
    method UpdateService(cluster: string, service: string, taskDefinition: string)
      modifies this
      ensures log == old(log) + [Call.UpdateService(cluster, service, taskDefinition)]
    {
      log := log + [Call.UpdateService(cluster, service, taskDefinition)];
    }

    /** `list_tasks`: the `taskArns` list of the response. */
    method ListTasks(cluster: string, serviceName: string) returns (taskArns: seq<string>)
      modifies this
      ensures log == old(log) + [Call.ListTasks(cluster, serviceName)]
      ensures taskArns == taskArnsAnswer(|old(log)|, cluster, serviceName)
    {
      taskArns := taskArnsAnswer(|log|, cluster, serviceName);
      log := log + [Call.ListTasks(cluster, serviceName)];
    }

    /** `describe_tasks`: the `tasks` list of the response. */
    method DescribeTasks(cluster: string, taskArns: seq<string>) returns (tasks: seq<Task>)
      modifies this
      ensures log == old(log) + [Call.DescribeTasks(cluster, taskArns)]
      ensures tasks == tasksAnswer(|old(log)|, cluster, taskArns)
    {
      tasks := tasksAnswer(|log|, cluster, taskArns);
      log := log + [Call.DescribeTasks(cluster, taskArns)];
    }
  }
}
