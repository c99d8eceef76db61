# fargate ECS tasks — a Dafny model

This project models the task side of the `fargate` command-line client's ECS
package (`ecs/task.go`):

- **Describing tasks.** `DescribeTasks` turns each raw ECS task record into a `Task`. It takes the task id from the ARN, the image from the first container definition and the role from the task definition. It merges the override environment with the declared one, takes the command from the first container override, and reads the ENI and subnet ids from the network attachment.
- **Listing tasks.** `listTasks` pages through `ListTasks`, drops empty pages, and describes each remaining batch in order. `DescribeTasksForService` and `DescribeTasksForTaskGroup` are its two filtered entry points.
- **Task groups.** A task group is not an ECS concept. `RunTask` marks each launched task with `startedBy = "fargate:<name>"`. `ListTaskGroups` recovers the groups from that marker with the pattern `fargate:(.*)` and counts the instances of each.
- **Launching and stopping.** `RunTask` builds the launch request. `StopTask` and `StopTasks` stop tasks one at a time, and the first failure ends the run.

The `ECS` receiver holds no mutable state, so it is a datatype (`EcsTypes.Ecs`). It carries the cluster name, the ECS API, and the two lookups defined outside this file: the task definition and the deployment id of a task-definition ARN.

- **ECS API.** Every API call is a total function of its request (`EcsTypes.Service`).
- **Operations.** Each operation is a method that returns:
  - its result, or the `Fatal` error (cause and message) that `console.ErrorExit` would report;
  - the log of API calls it issued, in order.
- **Specification functions and predicates.** Most methods are proved to agree with one of these, stated on values:
  - `MergedEnv`, `Copies`, `DetailOf` and `AssembledFrom` for describing;
  - `NonEmptyPages`, `BatchRecords`, `BatchCalls`, `ListedRecords` and `ListCalls` for listing;
  - `Decode` and `TaskGroupsOf` for task groups;
  - `RequestFor` for the launch request.

  The lemmas then prove what the code promises about those functions. `RunTask`, `StopTask`, `StopTasks` and `FindGroup` are specified directly by properties of their results and call logs.

Files:

- `types.dfy` (`EcsTypes`): records, requests, the call log, the API, the error messages.
- `started_by.dfy` (`StartedBy`): `fargate:%s` encoding and the `fargate:(.*)` decoding.
- `task_id.dfy` (`TaskIds`): `strings.Split` on `/` and the task id.
- `environment.dfy` (`Environment`): the environment merge.
- `attachments.dfy` (`Attachments`): ENI and subnet extraction.
- `describe.dfy` (`TaskAssembly`): `DescribeTasks`.
- `listing.dfy` (`Listing`): `listTasks` and its two filtered callers.
- `task_groups.dfy` (`TaskGroups`): `ListTaskGroups`.
- `launch.dfy` (`Launch`): `RunTask`, `StopTask`, `StopTasks`.

### The merge is not "override wins"

The environment loops (ecs/task.go:262-276) do not always drop a declared variable that an override redefines. They append each declared variable once for every override key whose name differs from it:

- With no overrides, no declared variable appears at all (`Environment.NoOverridesDropsDeclared`).
- With two or more overrides, a declared variable can appear next to an override of the same name, still carrying its declared value.
- With exactly one override, the declared variables of that name are dropped and every other one appears once (`Environment.SingleOverrideWins`).

For example, overrides `{B: 9, C: 3}` over declared `{A: 1, B: 2}` give `[B=9, C=3, A=1, A=1, B=2]` (`Environment.MergeExample`).

### Absent data while describing

A missing attachment is benign: the ENI and subnet ids stay empty. An empty `ContainerOverrides` or `ContainerDefinitions` list makes the `[0]` index panic. The model states that case as a precondition (`TaskAssembly.Describable`).

## Model

| member | source | states |
|---|---|---|
| StartedBy.Encode | ecs/task.go:65 | the started-by value begins with the marker `fargate:` and the rest of it is the task name |
| StartedBy.Decode | ecs/task.go:136-139 | no submatch when `fargate:` occurs nowhere in the value; a submatch never contains a newline |
| StartedBy.FindMarker | ecs/task.go:136 | finds the leftmost position at or after `from` where `fargate:` occurs, or reports that there is none |
| StartedBy.Line | ecs/task.go:18 | `.*` captures the longest prefix without a newline: a prefix of the input, newline-free, and followed by a newline when shorter than the input |
| StartedBy.DecodeMatchesLeftmostMarker | ecs/task.go:136-139 | a started-by value has a group exactly when it contains `fargate:`; the group name is the rest of the line after the leftmost marker and never contains a newline |
| StartedBy.DecodeEncode | ecs/task.go:17-18 | decoding `fargate:<name>` gives back `name` up to its first newline, so a newline-free name round-trips exactly |
| StartedBy.DecodeIsStable | ecs/task.go:17-18 | re-encoding a decoded group name and decoding again gives the same group |
| StartedBy.NoMarkerNoGroup | ecs/task.go:136-138 | `sidecar-xyz` belongs to no group and `fargate:web` to group `web` |
| TaskIds.Split | ecs/task.go:230 | `strings.Split` yields one more part than there are separators, and no part contains the separator |
| TaskIds.TaskIdOf | ecs/task.go:229-231 | the last part of the split ARN contains no `/` |
| TaskIds.JoinSplit | ecs/task.go:230 | joining the split parts with the separator restores the ARN, so splitting loses nothing |
| TaskIds.TaskIdIsLastSegment | ecs/task.go:229-231 | the task id has no `/`, is a suffix of the ARN, equals the whole ARN exactly when the ARN has no `/`, and is otherwise preceded by the last `/` |
| TaskIds.TaskIdExamples | ecs/task.go:229-231 | the id of `arn:...:task/abc` is `abc`, and an ARN without `/` is its own id |
| Environment.MergeEnvironment | ecs/task.go:248-276 | the two loops produce the override variables followed by the replicated declared variables (`MergedEnv`) |
| Environment.AppendCopies | ecs/task.go:263-275 | the inner loop appends the declared variable once for each key whose name differs from its own |
| Environment.OverridesComeFirst | ecs/task.go:248-260 | the first entries of the merged environment are the override pairs in override order, duplicates kept |
| Environment.CopiesCount | ecs/task.go:262-275 | a declared variable is appended once per override key with a different name, always with its declared value |
| Environment.NoOverridesDropsDeclared | ecs/task.go:262-276 | with no override variables the merged environment is empty, whatever the definition declares |
| Environment.ReplicatedMembership | ecs/task.go:262-276 | a pair appears after the overrides exactly when some declared variable has that pair and at least one override key differs from its name |
| Environment.SingleOverrideWins | ecs/task.go:262-276 | with one override key the declared part is the declared list minus the variables of that name, in declared order |
| Environment.MergeExample | ecs/task.go:248-276 | overrides `{B:9, C:3}` over declared `{A:1, B:2}` give `[B=9, C=3, A=1, A=1, B=2]` |
| Attachments.LastValue | ecs/task.go:283-289 | the value of the last detail with the key, or empty when no detail has the key |
| Attachments.ExtractNetworkDetails | ecs/task.go:282-291 | the ENI and subnet ids are read from the single attachment, and both are empty unless there is exactly one |
| Attachments.LastDetailWins | ecs/task.go:282-291 | a later `subnetId` detail overrides an earlier one, and two attachments leave the subnet id empty |
| TaskAssembly.AssembleTask | ecs/task.go:229-293 | each task is assembled as `AssembledFrom` states: runtime fields copied, id from the ARN, image from the first container definition, role from the task definition, merged environment, command from the first override only, network ids from the attachment, no security groups |
| TaskAssembly.AssembleAll | ecs/task.go:228-294 | the loop over the returned records yields one assembled task per record, in the order returned |
| TaskAssembly.DescribeTasks | ecs/task.go:210-297 | an empty batch returns nothing and issues no call; otherwise one describe call, whose failure is fatal with "Could not describe ECS tasks", and one task per returned record in the order returned |
| Listing.BatchesAreNonEmptyPages | ecs/task.go:186-190 | every collected batch is non-empty and is one of the pages |
| Listing.BatchesKeepEveryArn | ecs/task.go:186-190 | dropping the empty pages keeps every task ARN, in page order |
| Listing.CollectBatches | ecs/task.go:182-193 | the paging callback keeps exactly the non-empty pages, in order |
| Listing.DescribeBatches | ecs/task.go:199-205 | the batches are described in order, the first failure is fatal and ends the walk, and the result is the concatenation of the tasks of each batch |
| Listing.ListTasks | ecs/task.go:180-208 | one listing call, then the describe calls of the non-empty batches; a listing failure is fatal with "Could not list ECS tasks"; otherwise the tasks assembled from every batch's records, in order |
| Listing.FailureIsFinal | ecs/task.go:199-205 | once a describe has failed, later batches change neither the outcome nor the calls |
| Listing.EmptyListing | ecs/task.go:199-207 | a listing with no task ARNs yields no tasks and issues only the listing call |
| Listing.FlattenOfNonEmpty | ecs/task.go:187-189 | every batch contributes all its task ARNs to the flattened listing, so any non-empty batch makes the listing non-empty |
| Listing.BatchCallsInOrder | ecs/task.go:200-201 | when every describe succeeds, there is one describe call per batch, in batch order, for exactly that batch |
| Listing.FailingBatch | ecs/task.go:224-226 | a failed walk names a batch within the list |
| Listing.FirstFailureAborts | ecs/task.go:199-205 | a failed walk is the successful walk up to the first failing batch, then that batch's call, whose error is the result; no later batch is described |
| Listing.DescribeTasksForService | ecs/task.go:106-114 | lists by cluster, `FARGATE` launch type and service name, issues exactly that listing's calls, fails with that listing's fatal error ("Could not list ECS tasks" or "Could not describe ECS tasks"), and otherwise returns its tasks |
| Listing.DescribeTasksForTaskGroup | ecs/task.go:116-123 | lists by cluster and the started-by marker `fargate:<name>`, issues exactly that listing's calls, fails with that listing's fatal error, and otherwise returns its tasks |
| TaskGroups.FirstIndex | ecs/task.go:141-146 | the position of the first occurrence of a name: it holds the name and no earlier position does |
| TaskGroups.DistinctProperties | ecs/task.go:141-154 | the group names are exactly the decoded names, each once |
| TaskGroups.CountPositive | ecs/task.go:143-152 | a name has a positive count exactly when some task carries it |
| TaskGroups.DistinctInFirstSightOrder | ecs/task.go:148-154 | groups are listed in the order their names are first seen |
| TaskGroups.TaskGroupsSkip | ecs/task.go:136-138 | a task without the marker leaves the groups unchanged |
| TaskGroups.TaskGroupsBump | ecs/task.go:141-145 | a task of an existing group increments that group's instance count and nothing else |
| TaskGroups.TaskGroupsAdd | ecs/task.go:148-154 | a task of a new group appends that group with one instance |
| TaskGroups.TotalStep | ecs/task.go:136-155 | each task raises the total instance count by one exactly when its marker decodes to a group |
| TaskGroups.InstancesSumToMarkedTasks | ecs/task.go:125-158 | the instance counts add up to the number of tasks whose started-by contains `fargate:` |
| TaskGroups.TaskGroupsWellFormed | ecs/task.go:125-158 | group names are pairwise distinct and in first-sight order, every decoded name has a group and only those do, and each count is the number of tasks in the group (at least 1) |
| TaskGroups.GroupingExample | ecs/task.go:125-158 | `fargate:web`, `fargate:web`, `sidecar-xyz` give the single group `web` with two instances |
| TaskGroups.FindGroup | ecs/task.go:141-146 | the search either finds the group carrying the decoded name or establishes that no group carries it |
| TaskGroups.GroupTasks | ecs/task.go:134-158 | the labelled loop with its in-place increments computes `TaskGroupsOf` of the tasks' started-by values |
| TaskGroups.ListTaskGroups | ecs/task.go:125-159 | lists the whole cluster with the listing's calls and errors, and returns the groups of the listed tasks |
| Launch.BuildRunTaskRequest | ecs/task.go:59-97 | the request carries the cluster, count, definition, `FARGATE`, `fargate:<name>`, public IP `ENABLED`, subnets and security groups, and one container override named after the task, with the command and the environment pairs in order, exactly when a command or variables are given |
| Launch.RunTask | ecs/task.go:59-104 | one launch call with that request; its failure is fatal with "Could not run ECS task" |
| Launch.LaunchedTaskJoinsItsGroup | ecs/task.go:65 | a task launched under a newline-free name decodes to that group name |
| Launch.LaunchedEnvironmentRoundTrip | ecs/task.go:78-97 | the launched environment, read back by a describe against a definition that declares nothing, is the given variables in the given order |
| Launch.StopTask | ecs/task.go:167-178 | one stop call for the task in the cluster; its failure is fatal with "Could not stop ECS task" |
| Launch.StopTasks | ecs/task.go:161-165 | the tasks are stopped one at a time in input order; every stop before the last one issued succeeded; success means every task was stopped; failure is the last issued stop's error, and no later task is stopped |

## Left out

- The ECS API calls (`RunTask`, `ListTasksPages`, `DescribeTasks`, `StopTask`) are modelled as total functions of their request. `ListTasksPages` is a function that returns every page at once, or the error that ended the paging. Network behaviour, retries and page tokens are not modelled.
- `console.ErrorExit` ends the process in Go. Here it is a `Fatal` result that the operation returns at once, with nothing issued after it.
- `DescribeTaskDefinition` and `getDeploymentId` are not part of this model. They are fixed functions of the task-definition ARN.
- `CreatedAt` and `RunningFor` (ecs/task.go:39-41) read the wall clock and are not modelled.
- The unchecked `[0]` indexing on container overrides and container definitions would panic in Go. The panic is not modelled; a precondition excludes it (`TaskAssembly.Describable`, `TaskAssembly.DescribesWell`, `Listing.ListsWell`).
- A nil `*string` read through `aws.StringValue` is the empty string. The model does not distinguish nil from empty.
- Only the fixed pattern `fargate:(.*)` is modelled, as the leftmost-marker rule. General regular expressions are not.
- `TaskGroup` values are returned in Go as pointers that the loop updates in place. Here they are a sequence of values updated by index. Aliasing of those pointers is not modelled.
- `Instances` and `Count` are Go `int64`. The model uses unbounded integers because no realistic listing can overflow them.
- The model does not relate listings that split the same ARNs into pages differently. Each describe call is a function of its own batch, so two paginations can be described differently. The model proves that batching keeps every ARN in page order (`Listing.BatchesKeepEveryArn`). It also proves that the result is the concatenation of the per-batch results (`Listing.DescribeBatches`).
