/**
 * `RunTask`, `StopTask` and `StopTasks`: the launch request with its
 * encoded started-by marker and optional container override, and the
 * one-at-a-time stop calls.
 */
module Launch {
  import opened EcsTypes
  import StartedBy
  import Environment

  /** The container override `RunTask` attaches: the task name, the command, the environment in order. */
  predicate OverrideFor(i: RunTaskInput, o: ContainerOverride)
  {
    o.name == i.taskName
    && o.command == i.command
    && |o.environment| == |i.envVars|
    && forall k :: 0 <= k < |i.envVars| ==>
      o.environment[k] == KeyValuePair(i.envVars[k].key, i.envVars[k].value)
  }

  /**
   * `req` is the request `RunTask` sends for `i`: Fargate launch type, public
   * IP assigned, marker `fargate:<TaskName>`, and one container override
   * exactly when a command or environment variables were supplied.
   */
  predicate RequestFor(i: RunTaskInput, req: RunTaskRequest)
  {
    req.cluster == i.clusterName
    && req.count == i.count
    && req.taskDefinition == i.taskDefinitionArn
    && req.launchType == LaunchTypeFargate
    && req.startedBy == StartedBy.Encode(i.taskName)
    && req.assignPublicIp == AssignPublicIpEnabled
    && req.subnets == i.subnetIds
    && req.securityGroups == i.securityGroupIds
    && |req.containerOverrides| == (if |i.command| > 0 || |i.envVars| > 0 then 1 else 0)
    && (|req.containerOverrides| == 1 ==> OverrideFor(i, req.containerOverrides[0]))
  }

  /** The request-building part of `RunTask`, with its loop over the environment variables. */
  method BuildRunTaskRequest(i: RunTaskInput) returns (runTaskInput: RunTaskRequest)
    ensures RequestFor(i, runTaskInput)
    ensures i.command == [] && i.envVars == [] ==> runTaskInput.containerOverrides == []
  {
    runTaskInput := RunTaskRequest(
      cluster := i.clusterName,
      count := i.count,
      taskDefinition := i.taskDefinitionArn,
      launchType := LaunchTypeFargate,
      startedBy := StartedBy.Encode(i.taskName),
      assignPublicIp := AssignPublicIpEnabled,
      subnets := i.subnetIds,
      securityGroups := i.securityGroupIds,
      containerOverrides := []);

    var environment: seq<KeyValuePair> := [];
    for k := 0 to |i.envVars|
      invariant |environment| == k
      invariant forall m :: 0 <= m < k ==>
        environment[m] == KeyValuePair(i.envVars[m].key, i.envVars[m].value)
    {
      var envVar := i.envVars[k];
      environment := environment + [KeyValuePair(envVar.key, envVar.value)];
    }

    if |i.command| > 0 || |i.envVars| > 0 {
      runTaskInput := runTaskInput.(containerOverrides := runTaskInput.containerOverrides
        + [ContainerOverride(name := i.taskName, command := i.command, environment := environment)]);
    }
  }

  /** `RunTask`: one launch call with the built request; its failure is fatal. */
  method RunTask(ecs: Ecs, i: RunTaskInput) returns (r: Outcome, calls: seq<Call>)
    ensures |calls| == 1 && calls[0].RunTaskCall? && RequestFor(i, calls[0].runInput)
    ensures r.Pass? <==> ecs.svc.runTask(calls[0].runInput).None?
    ensures r.Fail? ==> r.error == Fatal(ecs.svc.runTask(calls[0].runInput).value, RunTaskFailed)
  {
    var runTaskInput := BuildRunTaskRequest(i);
    calls := [RunTaskCall(runTaskInput)];
    var err := ecs.svc.runTask(runTaskInput);
    if err.Some? {
      return Fail(Fatal(err.value, RunTaskFailed)), calls;
    }
    r := Pass;
  }

  /** A task launched under a name without a newline is counted in the group of that name. */
  lemma {:induction false} LaunchedTaskJoinsItsGroup(i: RunTaskInput, req: RunTaskRequest)
    requires RequestFor(i, req)
    requires '\n' !in i.taskName
    ensures StartedBy.Decode(req.startedBy) == Some(i.taskName)
  {
    StartedBy.DecodeEncode(i.taskName);
  }

  /**
   * The environment sent with a launch is what a describe of that task shows
   * when its definition declares no variables: the same pairs in the same order.
   */
  lemma {:induction false} LaunchedEnvironmentRoundTrip(i: RunTaskInput, req: RunTaskRequest)
    requires RequestFor(i, req)
    requires |req.containerOverrides| == 1
    ensures Environment.MergedEnv(req.containerOverrides[0].environment, []) == i.envVars
  {
    var environment := req.containerOverrides[0].environment;
    Environment.ReplicatedWithoutKeys([]);
    assert Environment.OverrideVars(environment) == i.envVars;
  }

  /** The error a stop of `taskId` in the cluster gives, if any. */
  function StopError(ecs: Ecs, taskId: string): Option<string>
  {
    ecs.svc.stopTask(StopTaskInput(ecs.clusterName, taskId))
  }

  /** `StopTask`: one stop call; its failure is fatal. */
  method StopTask(ecs: Ecs, taskId: string) returns (r: Outcome, calls: seq<Call>)
    ensures calls == [StopTaskCall(StopTaskInput(ecs.clusterName, taskId))]
    ensures r.Pass? <==> StopError(ecs, taskId).None?
    ensures r.Fail? ==> r.error == Fatal(StopError(ecs, taskId).value, StopTaskFailed)
  {
    var input := StopTaskInput(ecs.clusterName, taskId);
    calls := [StopTaskCall(input)];
    var err := ecs.svc.stopTask(input);
    if err.Some? {
      return Fail(Fatal(err.value, StopTaskFailed)), calls;
    }
    r := Pass;
  }

  /**
   * `StopTasks`: the tasks are stopped one at a time in input order; the
   * first failure is fatal and no later task is stopped.
   */
  method StopTasks(ecs: Ecs, taskIds: seq<string>) returns (r: Outcome, calls: seq<Call>)
    ensures |calls| <= |taskIds|
    ensures forall k :: 0 <= k < |calls| ==> calls[k] == StopTaskCall(StopTaskInput(ecs.clusterName, taskIds[k]))
    ensures forall k :: 0 <= k < |calls| - 1 ==> StopError(ecs, taskIds[k]).None?
    ensures r.Pass? ==> |calls| == |taskIds| && forall k :: 0 <= k < |taskIds| ==> StopError(ecs, taskIds[k]).None?
    ensures r.Fail? ==> |calls| >= 1 && r.error.message == StopTaskFailed
    ensures r.Fail? ==> |calls| >= 1 && StopError(ecs, taskIds[|calls| - 1]) == Some(r.error.cause)
  {
    calls := [];
    for k := 0 to |taskIds|
      invariant |calls| == k
      invariant forall m :: 0 <= m < k ==> calls[m] == StopTaskCall(StopTaskInput(ecs.clusterName, taskIds[m]))
      invariant forall m :: 0 <= m < k ==> StopError(ecs, taskIds[m]).None?
    {
      var stopped, stopCalls := StopTask(ecs, taskIds[k]);
      calls := calls + stopCalls;
      if stopped.Fail? {
        return stopped, calls;
      }
    }
    r := Pass;
  }
}
