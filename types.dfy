/**
 * Values exchanged between the fargate ECS client and the ECS API: the raw
 * records the API returns, the requests the client sends, the reconstructed
 * `Task` and `TaskGroup`, and the recorded log of API calls.
 *
 * Go strings become `string`; a nil `*string` read through `aws.StringValue`
 * is the empty string here.
 */
module EcsTypes {

  datatype Option<+T> = None | Some(value: T)

  datatype Result<+T, +E> = Ok(value: T) | Err(error: E)

  /** What `console.ErrorExit` reports: the underlying cause and the context message. */
  datatype Fatal = Fatal(cause: string, message: string)

  /** The end of an operation that returns nothing: it went through, or it hit a fatal error. */
  datatype Outcome = Pass | Fail(error: Fatal)

  const ListTasksFailed: string := "Could not list ECS tasks"
  const DescribeTasksFailed: string := "Could not describe ECS tasks"
  const RunTaskFailed: string := "Could not run ECS task"
  const StopTaskFailed: string := "Could not stop ECS task"

  /** `awsecs.CompatibilityFargate` and `awsecs.AssignPublicIpEnabled`. */
  const LaunchTypeFargate: string := "FARGATE"
  const AssignPublicIpEnabled: string := "ENABLED"

  /** The package's own name/value pair. */
  datatype EnvVar = EnvVar(key: string, value: string)

  /** `awsecs.KeyValuePair`, used for environment entries and attachment details. */
  datatype KeyValuePair = KeyValuePair(name: string, value: string)

  datatype ContainerOverride = ContainerOverride(
    name: string,
    command: seq<string>,
    environment: seq<KeyValuePair>)

  datatype Attachment = Attachment(details: seq<KeyValuePair>)

  /** The fields of an `awsecs.Task` record that the client reads. */
  datatype RawTask = RawTask(
    taskArn: string,
    cpu: string,
    memory: string,
    desiredStatus: string,
    lastStatus: string,
    startedBy: string,
    taskDefinitionArn: string,
    containerOverrides: seq<ContainerOverride>,
    attachments: seq<Attachment>)

  /** The fields of a container definition that the client reads. */
  datatype ContainerDefinition = ContainerDefinition(
    image: string,
    environment: seq<KeyValuePair>)

  datatype TaskDefinition = TaskDefinition(
    containerDefinitions: seq<ContainerDefinition>,
    taskRoleArn: string)

  /** The reconstructed task (its creation time is not modelled). */
  datatype Task = Task(
    cpu: string,
    deploymentId: string,
    desiredStatus: string,
    eniId: string,
    envVars: seq<EnvVar>,
    image: string,
    lastStatus: string,
    memory: string,
    securityGroupIds: seq<string>,
    startedBy: string,
    subnetId: string,
    command: seq<string>,
    taskId: string,
    taskRole: string)

  datatype TaskGroup = TaskGroup(taskGroupName: string, instances: int)

  datatype RunTaskInput = RunTaskInput(
    clusterName: string,
    count: int,
    command: seq<string>,
    envVars: seq<EnvVar>,
    securityGroupIds: seq<string>,
    subnetIds: seq<string>,
    taskDefinitionArn: string,
    taskName: string)

  /** The `awsecs.RunTaskInput` request that `RunTask` sends. */
  datatype RunTaskRequest = RunTaskRequest(
    cluster: string,
    count: int,
    taskDefinition: string,
    launchType: string,
    startedBy: string,
    assignPublicIp: string,
    subnets: seq<string>,
    securityGroups: seq<string>,
    containerOverrides: seq<ContainerOverride>)

  /** `awsecs.ListTasksInput`; an absent optional field is `None`. */
  datatype ListTasksInput = ListTasksInput(
    cluster: string,
    launchType: Option<string>,
    serviceName: Option<string>,
    startedBy: Option<string>)

  datatype DescribeTasksInput = DescribeTasksInput(cluster: string, tasks: seq<string>)

  datatype StopTaskInput = StopTaskInput(cluster: string, task: string)

  /** One call issued to the ECS API, in the order it was issued. */
  datatype Call =
    | RunTaskCall(runInput: RunTaskRequest)
    | ListTasksPagesCall(listInput: ListTasksInput)
    | DescribeTasksCall(describeInput: DescribeTasksInput)
    | StopTaskCall(stopInput: StopTaskInput)

  /**
   * The ECS API as seen by the client: each call is a total function of its
   * request. `listTasksPages` yields every page of task ARNs in page order, or
   * the error that ended the paging. An error is the cause as a string.
   */
  datatype Service = Service(
    runTask: RunTaskRequest -> Option<string>,
    listTasksPages: ListTasksInput -> Result<seq<seq<string>>, string>,
    describeTasks: DescribeTasksInput -> Result<seq<RawTask>, string>,
    stopTask: StopTaskInput -> Option<string>)

  /**
   * The `ECS` receiver: the cluster it works on, the API, and the two lookups
   * defined outside this file (`DescribeTaskDefinition`, `getDeploymentId`),
   * taken as functions of the task-definition ARN.
   */
  datatype Ecs = Ecs(
    clusterName: string,
    svc: Service,
    describeTaskDefinition: string -> TaskDefinition,
    deploymentIdOf: string -> string)
}
