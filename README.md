# ecsctrl core in Dafny

ecsctrl is a small command-line tool that deploys to AWS ECS. It registers
task definitions, points services at new revisions and waits for their
rollouts. It also checks and dumps the SSM parameters that containers read
their secrets from. This project models the decision and transformation
logic that sits between the AWS client and the command line, and proves
what that logic promises.

- **ServiceUpdater** (`service_updater.dfy`)
  - Finds, page by page, the services of a cluster whose task definition
    has the family of the registered ARN, and updates each of them.
  - **WaitForUpdate** polls those services until every one has settled or
    a primary rollout has failed. It describes the services ten at a time,
    lists and describes their tasks, and counts failures.
- **TaskFamily** (`task_family.dfy`): `re.findall(r".+\/(.+)\:\d+?", arn)`,
  modelled line by line.
- **RolloutHealth** (`rollout_health.dfy`): the verdict on one service and
  the totals of one poll cycle, as pure functions of what the API answered.
- **EcsApi** (`ecs_api.dfy`) and **Paging** (`paging.dfy`): the ECS client.
  - The client is an object that logs every request.
  - Its answers are functions of the request and of the request's position
    in the log, so the cluster may change between polls.
  - A paginated listing is a fixed chain of pages that the `nextToken`s
    walk.
- **YamlConverter** (`yaml_converter.dfy`)
  - `expand_key_value_list`, `_apply_function_to_path` and
    `yaml_data_to_dict`, with the `TRANSFORMATIONS` table.
  - It works on a JSON-like `Tree.Value` (`tree.dfy`).
- **Dump** (`dump.dfy`): `flat_dict_items`, `generate_var_lut` and
  `substitute_with_expressions`.
- **DumpSecrets** (`dump_secrets.dfy`): `list_secrets`, `dump_secrets` and
  `render_dumped_secrets`, over an SSM client that logs its calls.
- **SecretChecker** (`secret_checker.dfy`): collects every secret's
  `valueFrom` and reports the ones the parameter store does not know.
- **Cli** (`cli.dfy`): the `--var` validator `check_var`, and how
  `task-definition register` builds its cluster → updated-services map
  before it waits.
- `wrappers.dfy` and `text.dfy` hold `Option`/`Result` and the few Python
  string operations the code uses: `in`, `str.replace`, `", ".join`,
  `str.split`, `str(int)`, and ASCII `str.upper`.

Errors that the code raises and does not catch become the `Err` side of a
`Result`, so the raising path is modelled as well. Examples:

- `IndexError` on a missing PRIMARY deployment or on an empty
  `describe_tasks` answer;
- `KeyError` on a secret without `valueFrom`;
- `ValueError` from `expand_key_value_list`;
- `TypeError` from a path ending on a scalar.

Some of what the code does may surprise a reader. The model follows the
code:

- A PRIMARY deployment whose rollout FAILED makes the outcome critical, but
  adds no failure to the count (service_updater.py:165-167).
- `wait_for_all` has no timeout. It loops until the totals settle.
- Tasks are described one per request, not in batches.
- `check_var`'s pattern `^[^=]+=.*$` does more than require an `=` that is
  not first:
  - it accepts a newline before the `=`;
  - after the `=`, it accepts a newline only as the last character.

## Model

| member | source | states |
|---|---|---|
| TaskFamily.LastRevisionColonBelow | ecsctrl/service_updater.py:14-16 | the last `:` followed by a digit below a bound, or none below it: where `\:\d+?` can match |
| TaskFamily.LastSlashBelow | ecsctrl/service_updater.py:14-16 | the last `/` below a bound, not at position 0 (`.+` needs a character before it) |
| TaskFamily.LineFamilyIsFirstMatch | ecsctrl/service_updater.py:14-16 | the group found per line is what the regular expression captures: no group when no (slash, colon) placement matches, else the greedy placement |
| TaskFamily.FamilyOfRevisionedArn | ecsctrl/service_updater.py:14-16 | `prefix/family:revision` with a digit-led revision yields exactly `[family]` |
| TaskFamily.SingleLine | ecsctrl/service_updater.py:14-16 | text without a line break is matched as one line |
| TaskFamily.SameFamilyAcrossRevisions | ecsctrl/service_updater.py:14-16 | two revisions of one task definition give the same family, so both compare equal at line 43 |
| TaskFamily.NoColonNoFamily | ecsctrl/service_updater.py:14-16 | a string without a colon (the dry-run "N/A") yields `[]` |
| TaskFamily.RegisteredArnFamily | tests/cli/task_definition/test_register.py:12 | the ARN of the registration test has family `ecs-test-web` |
| Paging.TokenIndex | ecsctrl/service_updater.py:45-46 | the first page that hands out a token, which is never the last page |
| Paging.PageAfterToken | ecsctrl/service_updater.py:45-46 | passing a page's `nextToken` fetches the next page |
| Paging.TokenIndexFinds | ecsctrl/service_updater.py:45-46 | a token some page hands out is found, at that page or earlier |
| Paging.TokensWalkThePages | ecsctrl/service_updater.py:29-48 | the token sent in round `k` is a known one and fetches page `k` |
| EcsApi.EcsClient.ListServices | ecsctrl/service_updater.py:31-33 | logs `list_services(cluster, maxResults, nextToken)` and answers with the page the token selects |
| EcsApi.EcsClient.DescribeServices | ecsctrl/service_updater.py:34-38 | logs `describe_services` and answers with the service's reply for that request number |
| EcsApi.EcsClient.UpdateService | ecsctrl/service_updater.py:52-58 | logs `update_service(cluster, service, taskDefinition)` and nothing else |
| EcsApi.EcsClient.ListTasks | ecsctrl/service_updater.py:132-134 | logs `list_tasks(cluster, serviceName)` and answers with the task ARNs |
| EcsApi.EcsClient.DescribeTasks | ecsctrl/service_updater.py:137-139 | logs `describe_tasks(cluster, [arn])` and answers with the tasks found |
| ServiceUpdater.MatchingIff | ecsctrl/service_updater.py:40-44 | a pair `(arn, name)` is kept exactly when some described service with that ARN and name has the registered family |
| ServiceUpdater.MatchingAppend | ecsctrl/service_updater.py:40-44 | appending one described service appends its pair exactly when its family matches |
| ServiceUpdater.DiscoveryCalls | ecsctrl/service_updater.py:29-48 | two requests per round: `list_services` then `describe_services` |
| ServiceUpdater.DiscoveryCallsShape | ecsctrl/service_updater.py:29-48 | round `k` lists ten services with the chained token and describes exactly what that page listed |
| ServiceUpdater.UpdateCalls | ecsctrl/service_updater.py:20-22 | one `update_service` per found service, in order, with the new task definition |
| ServiceUpdater.ServiceUpdater.constructor | ecsctrl/service_updater.py:8-16 | keeps the client, ARN and cluster, and computes the family with `findall` |
| ServiceUpdater.ServiceUpdater.DiscoveredIff | ecsctrl/service_updater.py:26-50 | a service is found exactly when some listed page's description shows it running the registered family |
| ServiceUpdater.ServiceUpdater.FindServicesToUpdate | ecsctrl/service_updater.py:26-50 | makes one listing round per page (the loop stops at the first page without a token) and returns the matching services in response order |
| ServiceUpdater.ServiceUpdater.KeepMatching | ecsctrl/service_updater.py:40-44 | appends exactly the described services of the registered family |
| ServiceUpdater.ServiceUpdater.UpdateService | ecsctrl/service_updater.py:52-58 | a single `update_service` with this cluster and task definition |
| ServiceUpdater.ServiceUpdater.Update | ecsctrl/service_updater.py:18-24 | the discovery requests, then one update per found service; returns what was found |
| ServiceUpdater.ChunksCover | ecsctrl/service_updater.py:69-78 | the `arns[:10]` chunks put back together are the ARN list, each holds one to ten ARNs, and only the last may hold fewer than ten |
| ServiceUpdater.BatchesCover | ecsctrl/service_updater.py:66-80 | every service of every cluster is described exactly once, clusters in order and services in order, at most ten per request |
| ServiceUpdater.BatchCalls | ecsctrl/service_updater.py:70-73 | one `describe_services` request per batch, with the batch's cluster and ARNs |
| ServiceUpdater.Stamp | ecsctrl/service_updater.py:74-76 | each answer gets `clusterName` set to the cluster asked, nothing else changes |
| ServiceUpdater.DescribeTaskCalls | ecsctrl/service_updater.py:136-139 | one `describe_tasks` request per task ARN, in order |
| ServiceUpdater.WaitForUpdate.constructor | ecsctrl/service_updater.py:62-64 | keeps the client and the cluster → services map |
| ServiceUpdater.WaitForUpdate.DescribedInBatchCluster | ecsctrl/service_updater.py:68-76 | every described service lies in the stretch of the result that one batch `m` produced; it is that batch's answer with the batch's cluster written in, so it carries the cluster of the batch that described it |
| ServiceUpdater.WaitForUpdate.DescribeAllServices | ecsctrl/service_updater.py:66-80 | sends exactly the batches of `BatchesCover` and returns the stamped answers in order |
| ServiceUpdater.WaitForUpdate.DescribeCluster | ecsctrl/service_updater.py:69-78 | the `while arns:` loop for one cluster sends its chunks in order |
| ServiceUpdater.WaitForUpdate.AppendStamped | ecsctrl/service_updater.py:74-76 | appends the answers, each stamped with the cluster |
| ServiceUpdater.WaitForUpdate.TaskLoopCalls | ecsctrl/service_updater.py:136-139 | describes the tasks one by one up to the first that is not found |
| ServiceUpdater.WaitForUpdate.TaskLoopVerdict | ecsctrl/service_updater.py:136-159 | raises at the first task without an answer, else counts one failure per young task and one per stale task |
| ServiceUpdater.WaitForUpdate.ServiceCheckAssess | ecsctrl/service_updater.py:97-172 | the check's verdict is `Assess` on the answers; it lists the tasks, then describes them up to the first one not found |
| ServiceUpdater.WaitForUpdate.CheckSingleService | ecsctrl/service_updater.py:97-172 | `check_single_service` on one description: its outcome and its requests |
| ServiceUpdater.WaitForUpdate.ServiceCheckJudged | ecsctrl/service_updater.py:110-172 | an outcome that does not raise means a PRIMARY deployment exists, critical iff it FAILED, zero failures only with running = desired and nothing pending |
| ServiceUpdater.WaitForUpdate.CycleJudgesEveryService | ecsctrl/service_updater.py:89-92 | a cycle that does not raise has one outcome per service, each judging its service |
| ServiceUpdater.WaitForUpdate.PollOnce | ecsctrl/service_updater.py:86-94 | one loop body: describe everything, then check every service |
| ServiceUpdater.WaitForUpdate.CheckServices | ecsctrl/service_updater.py:89-93 | checks each service, passing it the description, adding failures and or-ing the critical flags; the first check that raises ends the cycle |
| ServiceUpdater.WaitForUpdate.StopMeansSettledOrFailed | ecsctrl/service_updater.py:85 | the wait stops only when every service ran its desired count with nothing pending, or some primary rollout FAILED |
| ServiceUpdater.WaitForUpdate.WaitStopsSettled | ecsctrl/service_updater.py:82-95 | the requests made stay a prefix of the log, a cycle is polled whenever the loop test fails and the budget allows, and a stop always meets the exit test |
| ServiceUpdater.WaitForUpdate.WaitStep | ecsctrl/service_updater.py:86-95 | one loop pass either raises or hands the cycle's totals to the next loop test, with one cycle less to go |
| ServiceUpdater.WaitForUpdate.WaitForAll | ecsctrl/service_updater.py:82-95 | `wait_for_all` ends as `Wait` says: stopped on totals that meet the exit test, raised, or out of budget; its requests are `Wait`'s |
| ServiceUpdater.SettledServiceRaisesAsWritten | ecsctrl/service_updater.py:90 | on a settled service without tasks, the intended check gives `(0, False)`, but the loop as written raises `TypeError` |
| RolloutHealth.PrimaryIndex | ecsctrl/service_updater.py:110 | the first deployment whose status is PRIMARY, or none |
| RolloutHealth.FirstEmpty | ecsctrl/service_updater.py:137-139 | the first `describe_tasks` answer without a task, or none |
| RolloutHealth.Firsts | ecsctrl/service_updater.py:137-139 | `["tasks"][0]` of every answer |
| RolloutHealth.CountsAppend | ecsctrl/service_updater.py:147-159 | one more task adds one failure if it is younger than 60 s and one if it runs another task definition |
| RolloutHealth.AssessRaisesAt | ecsctrl/service_updater.py:136-139 | the check raises `IndexError` at the first task not found |
| RolloutHealth.AssessCounts | ecsctrl/service_updater.py:118-172 | with every task found, failures are the count mismatches plus young and stale tasks, critical iff the primary rollout FAILED |
| RolloutHealth.NoTaskFailuresIff | ecsctrl/service_updater.py:147-159 | no young and no stale task is the same as every task being at least 60 s old and on the service's task definition |
| RolloutHealth.ZeroFailuresIffHealthy | ecsctrl/service_updater.py:118-159 | zero failures iff running = desired, nothing pending and every task settled |
| RolloutHealth.CriticalIffPrimaryFailed | ecsctrl/service_updater.py:161-167 | critical iff the first PRIMARY deployment's rollout FAILED; the deployments do not change the failure count, so a FAILED rollout adds no failure |
| RolloutHealth.HealthyServicePasses | ecsctrl/service_updater.py:118-172 | a settled service on a COMPLETED rollout gets `(0, False)` |
| RolloutHealth.AggregateIff | ecsctrl/service_updater.py:89-92 | a cycle's total is zero iff every service had zero failures, and critical iff some service was |
| YamlConverter.KeyValueGet | ecsctrl/yaml_converter.py:16 | both fields of a built `{key_field: k, value_field: v}` read back |
| YamlConverter.ExpandList | ecsctrl/yaml_converter.py:18-30 | the append loop over a list input equals the item-by-item conversion, stopping at the first bad item |
| YamlConverter.ExpandKeyValueList | ecsctrl/yaml_converter.py:14-33 | `expand_key_value_list` on any value, its `ValueError` included |
| YamlConverter.ExpandDict | ecsctrl/yaml_converter.py:15-16 | a dict becomes one `{key_field: k, value_field: v}` per entry, in order |
| YamlConverter.ExpandSplitsAtFirstEquals | ecsctrl/yaml_converter.py:21-23 | a `"k=v"` item is cut at its first `=`; the key holds no `=` and key, `=`, value give the item back |
| YamlConverter.ExpandListIff | ecsctrl/yaml_converter.py:18-30 | a list converts exactly when every item is a dict or a string holding `=`, and then item by item |
| YamlConverter.ExpandPassThroughAndErrors | ecsctrl/yaml_converter.py:25-33 | a dict item passes through unchanged; a non-dict, non-list input raises `ValueError` |
| YamlConverter.PyStr | ecsctrl/yaml_converter.py:48-49 | `str()` of a scalar is its text |
| YamlConverter.ApplyPath | ecsctrl/yaml_converter.py:71-84 | a missing key, a scalar above the last segment, or a list under a segment other than `*` leaves the tree alone. At the last segment, `None`, a bool or an int raises `TypeError`. A string raises `TypeError` exactly when the segment is a substring of it, and is otherwise left alone. A list raises exactly when it holds the segment as an item, and is otherwise left alone |
| YamlConverter.ApplyEach | ecsctrl/yaml_converter.py:77-79 | the `*` fan-out keeps the list's length |
| YamlConverter.ApplyEachAt | ecsctrl/yaml_converter.py:77-79 | the fan-out rewrites each item exactly as the path does on its own |
| YamlConverter.ApplyDescends | ecsctrl/yaml_converter.py:75-81 | where the path descends, the child reached is rewritten by the rest of the path |
| YamlConverter.ApplyFrame | ecsctrl/yaml_converter.py:71-84 | every route that leaves the path leads to the same node afterwards |
| YamlConverter.ApplyRewrite | ecsctrl/yaml_converter.py:71-84 | a route that follows the path to a present key now holds the function's result |
| YamlConverter.Transformations | ecsctrl/yaml_converter.py:36-68 | the table of each file type, every path having at least one segment; other file types have none (`KeyError`) |
| YamlConverter.DataToDict | ecsctrl/yaml_converter.py:87-90 | `secrets` files pass unchanged; an unknown file type raises |
| YamlConverter.YamlDataToDict | ecsctrl/yaml_converter.py:87-90 | an unknown file type raises; otherwise the result is the file type's table applied in order (`DataToDict`) |
| YamlConverter.ApplyEntries | ecsctrl/yaml_converter.py:88-89 | the loop over the table applies the entries one after the other, and the first that raises stops it |
| YamlConverter.ApplyAllUnchanged | ecsctrl/yaml_converter.py:88-89 | entries that leave a value alone leave it alone together |
| YamlConverter.ApplyAllChain | ecsctrl/yaml_converter.py:88-89 | entries applied one after the other give the last tree of the chain |
| YamlConverter.EnvironmentMappingExpands | tests/test_yaml_converter.py:4-29 | the converter's test: an `environment` mapping becomes a `name`/`value` list |
| YamlConverter.ResourceRequirementsExpandFirst | ecsctrl/yaml_converter.py:58-62 | a `resourceRequirements` mapping is expanded first, then each item's type is upper-cased and its value turned into a string |
| YamlConverter.UpperGpu | ecsctrl/yaml_converter.py:61 | `"gpu".upper()` is `"GPU"` |
| Dump.Flat | ecsctrl/dump/__init__.py:4-19 | every pair `flat_dict_items` yields holds a scalar |
| Dump.FlatFollowsLeaves | ecsctrl/dump/__init__.py:4-19 | one pair per leaf in tree order; each pair's path spells its route and its value is what the route leads to |
| Dump.LeavesComplete | ecsctrl/dump/__init__.py:10-19 | every route to a scalar is a leaf, so no value is skipped |
| Dump.LeavesDistinct | ecsctrl/dump/__init__.py:10-19 | each leaf is yielded once |
| Dump.TopLevelPath | ecsctrl/dump/__init__.py:5-8 | from the top, a path is its keys and indices joined with dots |
| Dump.PathOfAppends | ecsctrl/dump/__init__.py:5-8 | below a non-empty path, the steps are appended after a dot |
| Dump.SortIsOrdered | ecsctrl/dump/__init__.py:25-27 | `sorted(..., key=-len(str(value)))` puts longer values first |
| Dump.SortIsPermutation | ecsctrl/dump/__init__.py:25-27 | the sort keeps every pair, as many times as before |
| Dump.SortIsStable | ecsctrl/dump/__init__.py:25-27 | pairs of equal value length keep their order |
| Dump.LutIndex | ecsctrl/dump/__init__.py:23-24 | where a key sits in the dict, or nowhere |
| Dump.LutDistinct | ecsctrl/dump/__init__.py:23-24 | the table's keys are distinct |
| Dump.LutKeys | ecsctrl/dump/__init__.py:23-27 | every value text is a key, and every key is some value's text |
| Dump.LutPaths | ecsctrl/dump/__init__.py:23-27 | a key maps to the path of the last pair with that text: later pairs overwrite |
| Dump.LutOrder | ecsctrl/dump/__init__.py:23-27 | keys sit in the order their texts first appear |
| Dump.LutLongestFirst | ecsctrl/dump/__init__.py:23-27 | over sorted pairs, the keys come longest first |
| Dump.GenerateVarLutShape | ecsctrl/dump/__init__.py:22-28 | `generate_var_lut` has distinct keys, longest first, and every leaf's text is a key |
| Dump.FirstMatch | ecsctrl/dump/__init__.py:32-33 | the first table entry whose value occurs in the key, or none |
| Dump.SubstituteWithExpressions | ecsctrl/dump/__init__.py:31-36 | only the first matching value is replaced, every occurrence of it, by `{{ path }}`; without a match the key is unchanged |
| Dump.SubstitutesLongest | ecsctrl/dump/__init__.py:22-36 | with the generated table, the value replaced is one of the longest contained in the key |
| DumpSecrets.SsmClient.constructor | ecsctrl/dump/secrets.py:5-13 | the parameter pages and value answers, with an empty log |
| DumpSecrets.SsmClient.DescribeParameters | ecsctrl/dump/secrets.py:10-13 | logs `describe_parameters` with the token and answers with the page it selects |
| DumpSecrets.SsmClient.GetParameter | ecsctrl/dump/secrets.py:24-28 | logs `get_parameter(Name, WithDecryption)` and answers with the value |
| DumpSecrets.ListCalls | ecsctrl/dump/secrets.py:9-15 | call `k` sends the token of page `k - 1`, and none at first |
| DumpSecrets.ListSecrets | ecsctrl/dump/secrets.py:5-18 | one `describe_parameters` per page (it stops after the first page without a token) and every parameter of every page, in order |
| DumpSecrets.DumpSecrets | ecsctrl/dump/secrets.py:21-31 | the listing's calls with one `get_parameter` per listed name; yields the pairs the filter keeps, in order |
| DumpSecrets.DumpPage | ecsctrl/dump/secrets.py:22-31 | one page: its listing call, then a fetch per parameter |
| DumpSecrets.FetchPage | ecsctrl/dump/secrets.py:22-31 | fetches every name of a page and keeps what the filter accepts |
| DumpSecrets.DumpDescribesAsListing | ecsctrl/dump/secrets.py:21-22 | the `describe_parameters` calls of a dump are exactly those of `list_secrets` |
| DumpSecrets.DumpGetsEveryListed | ecsctrl/dump/secrets.py:22-28 | a dump fetches every listed parameter, including those the filter rejects |
| DumpSecrets.FetchedNames | ecsctrl/dump/secrets.py:22-28 | the fetched pairs carry the listed names, in order |
| DumpSecrets.KeepIff | ecsctrl/dump/secrets.py:30-31 | a pair is yielded iff it was fetched and the filter is `None` or matches its name |
| DumpSecrets.KeepAppend | ecsctrl/dump/secrets.py:30-31 | the filter keeps order |
| DumpSecrets.KeepAll | ecsctrl/dump/secrets.py:30 | with no filter, everything is yielded |
| DumpSecrets.RenderDumpedSecrets | ecsctrl/dump/secrets.py:34-40 | one line `substitute(name): value` per secret, in order |
| DumpSecrets.PlainNameLine | ecsctrl/dump/secrets.py:37-39 | a name that contains no table value is written as it is |
| SecretChecker.ValueFromsSpec | ecsctrl/secret_checker.py:44-45 | a container's names are its secrets' `valueFrom`s, one for one; a missing `valueFrom` raises `KeyError` |
| SecretChecker.ContainersNamesFails | ecsctrl/secret_checker.py:38-45 | `get_secret_names` raises exactly when some declared secret has no `valueFrom` |
| SecretChecker.ContainersNamesOrder | ecsctrl/secret_checker.py:38-45 | names come in container order and then secret order; containers without `secrets` add nothing |
| SecretChecker.ContainersNamesMembers | ecsctrl/secret_checker.py:38-45 | a name is returned iff some container declares a secret with that `valueFrom` |
| SecretChecker.ReportNamesEach | ecsctrl/secret_checker.py:12-14 | a report is printed iff something is missing, and it names every missing secret |
| SecretChecker.SecretChecker.DescribeSecret | ecsctrl/secret_checker.py:49-57 | the first parameter of the answer, none where `[0]` raises `IndexError` |
| SecretChecker.SecretChecker.SecretExistsIff | ecsctrl/secret_checker.py:24-29 | false when nothing is found; otherwise true iff the first parameter found has the queried name |
| SecretChecker.SecretChecker.MissingAppend | ecsctrl/secret_checker.py:19-21 | the missing-secret filter keeps order |
| SecretChecker.SecretChecker.MissingCounts | ecsctrl/secret_checker.py:19-21 | a missing name is kept as often as it occurs; an existing one never |
| SecretChecker.SecretChecker.MissingIff | ecsctrl/secret_checker.py:16-22 | a name is missing iff it was asked for and does not exist |
| SecretChecker.SecretChecker.GetSecretNames | ecsctrl/secret_checker.py:31-47 | the nested loops return `SecretNames`; a spec without `containerDefinitions` gives `[]` |
| SecretChecker.SecretChecker.FindMissingSecrets | ecsctrl/secret_checker.py:16-22 | the declared names that do not exist, in order, or the `KeyError` |
| SecretChecker.SecretChecker.Check | ecsctrl/secret_checker.py:10-14 | the report on the missing names, or the `KeyError` |
| SecretChecker.SecretChecker.ReportNamesMissingDeclared | ecsctrl/secret_checker.py:10-22 | a declared secret that does not exist is named in the report |
| SecretChecker.SecretChecker.ReportsIffSomeMissing | ecsctrl/secret_checker.py:10-22 | `check` reports exactly when some container declares a secret whose parameter does not exist |
| Cli.MatchesVarIff | ecsctrl/cli.py:16 | the pattern holds iff the item splits into a non-empty name without `=`, `=`, and a value with no newline except at the very end |
| Cli.SingleLineVar | ecsctrl/cli.py:16 | on a line without newlines: accepted iff it contains `=` and does not start with `=` |
| Cli.VarExamples | ecsctrl/cli.py:16 | `a=`, `a=b` and `a=b=c` pass; `=b`, `ab` and the empty string fail |
| Cli.NewlineVarExamples | ecsctrl/cli.py:16 | `a=b\n` and `a\nb=c` pass, `a=b\nc` fails |
| Cli.CheckVar | ecsctrl/cli.py:14-20 | accepts iff every item matches and then returns the items unchanged; else raises naming the first item that does not match |
| Cli.AssignSpec | ecsctrl/cli.py:73 | `d[k] = v` replaces the value of a present key in place and appends a new key |
| Cli.FirstOccurrencesSpec | ecsctrl/cli.py:68 | the first-seen clusters are distinct and are exactly the clusters given |
| Cli.ServiceMapKeys | ecsctrl/cli.py:65-73 | the map's keys are the `-c` clusters in first-seen order, each once |
| Cli.ServiceMapValues | ecsctrl/cli.py:68-73 | each cluster maps to what its last updater returned |
| Cli.ServiceMapDistinct | ecsctrl/cli.py:68-73 | with distinct clusters, the map pairs each cluster with its updater's answer, in the order given |
| Cli.UpdateCluster | ecsctrl/cli.py:69-73 | one turn: the new updater is `ServiceUpdater(client, arn, cluster)`, it finds what `ServiceUpdater.Update` finds from the current request number on, and its requests extend the log |
| Cli.UpdateClusters | ecsctrl/cli.py:66-73 | updater `k` is built for cluster `k` and finds its services on its turn, the map holds what they returned, and the log is every updater's requests in cluster order |
| Cli.Register | ecsctrl/cli.py:65-77 | updater `k` serves cluster `k` and finds what `ServiceUpdater.Update` finds when it starts right after the updaters before it. The map pairs the clusters with those results. The log is the updaters' requests in order (nothing without clusters). A waiter exists exactly when there are clusters and waiting was asked. It is built on that same map, and its outcome and requests are `WaitForUpdate.Wait`'s, starting right after the last update |

## Left out

- I/O is not modelled:
  - `print`/`click.echo`, the emoji reports and `sleep`;
  - the file written by `render_dumped_secrets`, modelled as the list of lines it writes;
  - YAML parsing, `SpecFileLoader` and `VarsLoader`, which are not part of this model. The converter starts from the parsed value.
- The AWS client is not modelled:
  - `BotoClient`'s `getattr` dispatch and its dry-run canned responses;
  - the `register_task_definition` request. `Cli.Register` receives the new ARN.
  - `create`, `update` and `store` in cli.py only forward a spec to one API call.
- The wiring that cannot run as written is left out:
  - `from boto_client import …` and `BotoClient(dry_run)` / `self.client(...)` in secret_checker.py at lines 2, 8 and 50;
  - `yaml_file_to_dict` called with two of its three arguments.
  - `SecretChecker` takes the store's answer as a function.
- `SecretChecker` reads a typed projection of the spec. Containers, secrets and `valueFrom` have the list and string shapes the ECS API requires. Other shapes (which raise `TypeError` in Python) are not modelled.
- The task age comes in as a whole number of seconds: the clock (`datetime.now()`) is an input.
- The regular expression of `dump_secrets`' filter is an abstract predicate on the name.
- `ServiceUpdater.WaitForUpdate.WaitForAll`: the source loops without bound. The model takes a cycle budget and reports `BudgetSpent` when it runs out.
- The converter works on values. Rewriting in place, and aliasing between parts of the tree, are not modelled. `str()` of a list or dict (`repr`) is kept as a function but not proved to match Python's escaping.
- `Text.Upper` upper-cases ASCII letters only, not all Unicode.
- TaskFamily: `\d` is modelled as the ASCII digits `0`-`9`. Python 3's `\d` also matches other Unicode decimal digits, such as Arabic-Indic ones, and so would accept a revision written in them.
- Tree: dictionary keys are strings only. YAML can also give int or bool keys. `expand_key_value_list` copies such keys and the dump's `str()` turns them into text, but the model does not represent them.
- `flat_dict_items` treats tuples as lists. YAML gives no tuples, so the model has lists only. Floats are not modelled.
- A `list_services` or `describe_parameters` page chain is assumed well formed: tokens are distinct, and only the last page has none. A token the service never handed out would be an API error.
- `DumpSecrets.PlainNameLine` is a consequence of `Dump.SubstituteWithExpressions`' contract, stated for the rendered line.

## Findings

| source | as written | input that shows it | evidently intended | confidence | as-written member | corrected member |
|---|---|---|---|---|---|---|
| ecsctrl/service_updater.py:90 | `self.check_single_service(service)` passes one argument to a method declared at line 97 with two (`cluster_name`, `service_description`), so Python raises `TypeError` before the check runs | any non-empty cluster → services map, e.g. one service that has settled | pass the description as the only argument: line 100 overwrites `cluster_name` from the description anyway | high (not executed) | ServiceUpdater.SettledServiceRaisesAsWritten | ServiceUpdater.WaitForUpdate.CheckServices |
