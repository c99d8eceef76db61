/**
 * `DescribeTasks`: one describe call for a batch of task ARNs, then one
 * `Task` assembled from each raw record the API returns, in the order it
 * returns them.
 */
module TaskAssembly {
  import opened EcsTypes
  import TaskIds
  import Environment
  import Attachments

  /**
   * A raw record the loop body can read without indexing past the end: its
   * first container override and its definition's first container exist.
   */
  predicate Describable(ecs: Ecs, raw: RawTask)
  {
    |raw.containerOverrides| > 0
    && |ecs.describeTaskDefinition(raw.taskDefinitionArn).containerDefinitions| > 0
  }

  /**
   * `task` is the task assembled from `raw`: runtime fields copied, the id
   * taken from the ARN, the image from the first container definition, the
   * role from the task definition, environment merged, command from the
   * first override only, network details from the attachment.
   */
  predicate AssembledFrom(ecs: Ecs, raw: RawTask, task: Task)
  {
    Describable(ecs, raw)
    && var definition := ecs.describeTaskDefinition(raw.taskDefinitionArn);
    var container := definition.containerDefinitions[0];
    var override := raw.containerOverrides[0];
    && task.taskId == TaskIds.TaskIdOf(raw.taskArn)
    && task.cpu == raw.cpu
    && task.memory == raw.memory
    && task.desiredStatus == raw.desiredStatus
    && task.lastStatus == raw.lastStatus
    && task.startedBy == raw.startedBy
    && task.deploymentId == ecs.deploymentIdOf(raw.taskDefinitionArn)
    && task.image == container.image
    && task.taskRole == definition.taskRoleArn
    && task.envVars == Environment.MergedEnv(override.environment, container.environment)
    && task.command == override.command
    && task.eniId == Attachments.DetailOf(raw.attachments, Attachments.NetworkInterfaceIdKey)
    && task.subnetId == Attachments.DetailOf(raw.attachments, Attachments.SubnetIdKey)
    && task.securityGroupIds == []
  }

  /** `tasks` are assembled one for one, in order, from `raws`. */
  predicate AssembledAll(ecs: Ecs, raws: seq<RawTask>, tasks: seq<Task>)
  {
    |raws| == |tasks| && forall k :: 0 <= k < |tasks| ==> AssembledFrom(ecs, raws[k], tasks[k])
  }

  /** The body of the loop over `resp.Tasks`. */
  method AssembleTask(ecs: Ecs, t: RawTask) returns (task: Task)
    requires Describable(ecs, t)
    ensures AssembledFrom(ecs, t, task)
  {
    var taskArn := t.taskArn;
    var contents := TaskIds.Split(taskArn, TaskIds.ArnSeparator);
    var taskId := contents[|contents| - 1];

    task := Task(
      cpu := t.cpu,
      deploymentId := ecs.deploymentIdOf(t.taskDefinitionArn),
      desiredStatus := t.desiredStatus,
      eniId := "",
      envVars := [],
      image := "",
      lastStatus := t.lastStatus,
      memory := t.memory,
      securityGroupIds := [],
      startedBy := t.startedBy,
      subnetId := "",
      command := [],
      taskId := taskId,
      taskRole := "");

    var taskDefinition := ecs.describeTaskDefinition(t.taskDefinitionArn);
    task := task.(image := taskDefinition.containerDefinitions[0].image,
                  taskRole := taskDefinition.taskRoleArn);

    var envVars := Environment.MergeEnvironment(
      t.containerOverrides[0].environment, taskDefinition.containerDefinitions[0].environment);
    task := task.(envVars := envVars);

    if |t.containerOverrides[0].command| > 0 {
      task := task.(command := t.containerOverrides[0].command);
    }

    var eniId, subnetId := Attachments.ExtractNetworkDetails(t.attachments);
    task := task.(eniId := eniId, subnetId := subnetId);
  }

  /** The records a describe of `taskIds` yields; an empty batch is never sent. */
  function DescribeResponse(ecs: Ecs, taskIds: seq<string>): Result<seq<RawTask>, string>
  {
    if taskIds == [] then Ok([])
    else ecs.svc.describeTasks(DescribeTasksInput(ecs.clusterName, taskIds))
  }

  /** Every record a describe of `taskIds` would return can be assembled. */
  predicate DescribesWell(ecs: Ecs, taskIds: seq<string>)
  {
    DescribeResponse(ecs, taskIds).Ok? ==>
      forall t :: t in DescribeResponse(ecs, taskIds).value ==> Describable(ecs, t)
  }

  /** The calls a describe of `taskIds` issues. */
  function DescribeCalls(ecs: Ecs, taskIds: seq<string>): seq<Call>
  {
    if taskIds == [] then [] else [DescribeTasksCall(DescribeTasksInput(ecs.clusterName, taskIds))]
  }

  /**
   * `DescribeTasks`. An empty batch gives an empty result and issues no call;
   * otherwise one describe call is issued, a failure of it is fatal, and each
   * returned record becomes one task, in the order returned.
   */
  method DescribeTasks(ecs: Ecs, taskIds: seq<string>)
    returns (r: Result<seq<Task>, Fatal>, calls: seq<Call>)
    requires DescribesWell(ecs, taskIds)
    ensures taskIds == [] ==> r == Ok([]) && calls == []
    ensures taskIds != [] ==> calls == [DescribeTasksCall(DescribeTasksInput(ecs.clusterName, taskIds))]
    ensures r.Err? <==> DescribeResponse(ecs, taskIds).Err?
    ensures r.Err? ==> r.error == Fatal(DescribeResponse(ecs, taskIds).error, DescribeTasksFailed)
    ensures r.Ok? ==> AssembledAll(ecs, DescribeResponse(ecs, taskIds).value, r.value)
  {
    var tasks: seq<Task> := [];
    calls := [];

    if |taskIds| == 0 {
      return Ok(tasks), calls;
    }

    var input := DescribeTasksInput(ecs.clusterName, taskIds);
    calls := [DescribeTasksCall(input)];
    var resp := ecs.svc.describeTasks(input);

    if resp.Err? {
      return Err(Fatal(resp.error, DescribeTasksFailed)), calls;
    }

    tasks := AssembleAll(ecs, resp.value);
    r := Ok(tasks);
  }

  /** The loop over `resp.Tasks`: one task per record, in order. */
  method AssembleAll(ecs: Ecs, records: seq<RawTask>) returns (tasks: seq<Task>)
    requires forall t :: t in records ==> Describable(ecs, t)
    ensures AssembledAll(ecs, records, tasks)
  {
    tasks := [];
    for i := 0 to |records|
      invariant AssembledAll(ecs, records[..i], tasks)
    {
      assert records[i] in records;
      var task := AssembleTask(ecs, records[i]);
      AssembledSnoc(ecs, records[..i], tasks, records[i], task);
      tasks := tasks + [task];
      TakeOneMore(records, i);
    }
    assert records[..|records|] == records;
  }

  /** The first `i + 1` elements are the first `i` followed by element `i`. */
  lemma TakeOneMore<T>(s: seq<T>, i: nat)
    requires i < |s|
    ensures s[..i + 1] == s[..i] + [s[i]]
  {
  }

  /** Assembling one more record extends the assembled run by one task. */
  lemma AssembledSnoc(ecs: Ecs, raws: seq<RawTask>, tasks: seq<Task>, raw: RawTask, task: Task)
    requires AssembledAll(ecs, raws, tasks) && AssembledFrom(ecs, raw, task)
    ensures AssembledAll(ecs, raws + [raw], tasks + [task])
  {
  }
}
