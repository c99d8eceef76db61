/**
 * `listTasks` and the two listings built on it: page through the task ARNs
 * matching a filter, keep each non-empty page as a batch, then describe the
 * batches in page order and concatenate the tasks.
 */
module Listing {
  import opened EcsTypes
  import opened TaskAssembly
  import StartedBy

  /** The `taskArnBatches` the paging callback collects: the non-empty pages, in page order. */
  function NonEmptyPages(pages: seq<seq<string>>): seq<seq<string>>
  {
    if pages == [] then []
    else
      NonEmptyPages(pages[..|pages| - 1])
      + (if |pages[|pages| - 1]| > 0 then [pages[|pages| - 1]] else [])
  }

  /** All ARNs of a sequence of pages, in order. */
  function Flatten(pages: seq<seq<string>>): seq<string>
  {
    if pages == [] then [] else Flatten(pages[..|pages| - 1]) + pages[|pages| - 1]
  }

  /** The batches are non-empty pages taken from the listing. */
  lemma {:induction false} BatchesAreNonEmptyPages(pages: seq<seq<string>>)
    ensures forall k :: 0 <= k < |NonEmptyPages(pages)| ==>
      |NonEmptyPages(pages)[k]| > 0 && NonEmptyPages(pages)[k] in pages
  {
    if pages != [] {
      var init := pages[..|pages| - 1];
      BatchesAreNonEmptyPages(init);
      assert forall b :: b in init ==> b in pages;
    }
  }

  /** Together the batches hold every listed ARN, in listing order. */
  lemma {:induction false} BatchesKeepEveryArn(pages: seq<seq<string>>)
    ensures Flatten(NonEmptyPages(pages)) == Flatten(pages)
  {
    if pages != [] {
      var init := pages[..|pages| - 1];
      var last := pages[|pages| - 1];
      BatchesKeepEveryArn(init);
      var batches := NonEmptyPages(init);
      if |last| > 0 {
        assert (batches + [last])[..|batches|] == batches;
      } else {
        assert NonEmptyPages(pages) == batches;
        assert Flatten(pages) == Flatten(init) + last;
      }
    }
  }

  /**
   * The raw records of describing each batch in turn, concatenated; the first
   * batch whose describe fails ends the walk with its error.
   */
  function BatchRecords(ecs: Ecs, batches: seq<seq<string>>): Result<seq<RawTask>, string>
  {
    if batches == [] then Ok([])
    else
      match BatchRecords(ecs, batches[..|batches| - 1])
      case Err(e) => Err(e)
      case Ok(raws) =>
        match DescribeResponse(ecs, batches[|batches| - 1])
        case Err(e) => Err(e)
        case Ok(more) => Ok(raws + more)
  }

  /** The describe calls of that walk, up to and including a failing one. */
  function BatchCalls(ecs: Ecs, batches: seq<seq<string>>): seq<Call>
  {
    if batches == [] then []
    else if BatchRecords(ecs, batches[..|batches| - 1]).Err? then BatchCalls(ecs, batches[..|batches| - 1])
    else BatchCalls(ecs, batches[..|batches| - 1]) + DescribeCalls(ecs, batches[|batches| - 1])
  }

  /** What `listTasks` yields for `input`: the records of every batch, or the fatal error. */
  function ListedRecords(ecs: Ecs, input: ListTasksInput): Result<seq<RawTask>, Fatal>
  {
    match ecs.svc.listTasksPages(input)
    case Err(e) => Err(Fatal(e, ListTasksFailed))
    case Ok(pages) =>
      match BatchRecords(ecs, NonEmptyPages(pages))
      case Err(e) => Err(Fatal(e, DescribeTasksFailed))
      case Ok(raws) => Ok(raws)
  }

  /** The calls `listTasks` issues for `input`, in order. */
  function ListCalls(ecs: Ecs, input: ListTasksInput): seq<Call>
  {
    [ListTasksPagesCall(input)]
    + match ecs.svc.listTasksPages(input)
      case Err(_) => []
      case Ok(pages) => BatchCalls(ecs, NonEmptyPages(pages))
  }

  /** Every page the listing returns describes to records that can be assembled. */
  predicate ListsWell(ecs: Ecs, input: ListTasksInput)
  {
    ecs.svc.listTasksPages(input).Ok? ==>
      forall b :: b in ecs.svc.listTasksPages(input).value ==> DescribesWell(ecs, b)
  }

  /** Once a describe has failed, later batches change neither the result nor the calls. */
  lemma {:induction false} FailureIsFinal(ecs: Ecs, batches: seq<seq<string>>, n: nat)
    requires n <= |batches|
    requires BatchRecords(ecs, batches[..n]).Err?
    ensures BatchRecords(ecs, batches) == BatchRecords(ecs, batches[..n])
    ensures BatchCalls(ecs, batches) == BatchCalls(ecs, batches[..n])
    decreases |batches|
  {
    if n < |batches| {
      var init := batches[..|batches| - 1];
      assert init[..n] == batches[..n];
      FailureIsFinal(ecs, init, n);
    } else {
      assert batches[..n] == batches;
    }
  }

  /** Taking one more element of `b` after `a` appends that element. */
  lemma ExtendSlice<T>(a: seq<T>, b: seq<T>, k: nat)
    requires k < |b|
    ensures a + b[..k + 1] == (a + b[..k]) + [b[k]]
  {
    TakeOneMore(b, k);
  }

  /** The paging callback, run on each page in turn: it keeps the non-empty pages. */
  method CollectBatches(pages: seq<seq<string>>) returns (taskArnBatches: seq<seq<string>>)
    ensures taskArnBatches == NonEmptyPages(pages)
  {
    taskArnBatches := [];
    for p := 0 to |pages|
      invariant taskArnBatches == NonEmptyPages(pages[..p])
    {
      assert pages[..p + 1][..p] == pages[..p];
      if |pages[p]| > 0 {
        taskArnBatches := taskArnBatches + [pages[p]];
      }
    }
    assert pages[..|pages|] == pages;
  }

  /**
   * The nested loop of `listTasks`: describe each batch in turn and append its
   * tasks; the first failing describe is fatal and drops the tasks so far.
   */
  method DescribeBatches(ecs: Ecs, taskArnBatches: seq<seq<string>>)
    returns (r: Result<seq<Task>, Fatal>, calls: seq<Call>)
    requires forall k :: 0 <= k < |taskArnBatches| ==> DescribesWell(ecs, taskArnBatches[k])
    ensures calls == BatchCalls(ecs, taskArnBatches)
    ensures r.Err? <==> BatchRecords(ecs, taskArnBatches).Err?
    ensures r.Err? ==> r.error == Fatal(BatchRecords(ecs, taskArnBatches).error, DescribeTasksFailed)
    ensures r.Ok? ==> AssembledAll(ecs, BatchRecords(ecs, taskArnBatches).value, r.value)
  {
    var tasks: seq<Task> := [];
    calls := [];
    for i := 0 to |taskArnBatches|
      invariant BatchRecords(ecs, taskArnBatches[..i]).Ok?
      invariant AssembledAll(ecs, BatchRecords(ecs, taskArnBatches[..i]).value, tasks)
      invariant calls == BatchCalls(ecs, taskArnBatches[..i])
    {
      var batch := taskArnBatches[i];
      assert taskArnBatches[..i + 1][..i] == taskArnBatches[..i];
      ghost var raws := BatchRecords(ecs, taskArnBatches[..i]).value;
      var described, describeCalls := DescribeTasks(ecs, batch);
      calls := calls + describeCalls;
      if described.Err? {
        FailureIsFinal(ecs, taskArnBatches, i + 1);
        return Err(described.error), calls;
      }
      var more := described.value;
      ghost var moreRaws := DescribeResponse(ecs, batch).value;
      assert BatchRecords(ecs, taskArnBatches[..i + 1]) == Ok(raws + moreRaws);
      for k := 0 to |more|
        invariant AssembledAll(ecs, raws + moreRaws[..k], tasks)
      {
        ExtendSlice(raws, moreRaws, k);
        AssembledSnoc(ecs, raws + moreRaws[..k], tasks, moreRaws[k], more[k]);
        tasks := tasks + [more[k]];
      }
      assert moreRaws[..|more|] == moreRaws;
    }
    assert taskArnBatches[..|taskArnBatches|] == taskArnBatches;
    r := Ok(tasks);
  }

  /**
   * `listTasks`: one paging call, then one describe call per non-empty page
   * in page order. Any failure is fatal and no tasks are returned with it;
   * otherwise every record of every batch becomes one task, in order.
   */
  method ListTasks(ecs: Ecs, input: ListTasksInput) returns (r: Result<seq<Task>, Fatal>, calls: seq<Call>)
    requires ListsWell(ecs, input)
    ensures calls == ListCalls(ecs, input)
    ensures r.Err? <==> ListedRecords(ecs, input).Err?
    ensures r.Err? ==> r.error == ListedRecords(ecs, input).error
    ensures r.Ok? ==> AssembledAll(ecs, ListedRecords(ecs, input).value, r.value)
  {
    calls := [ListTasksPagesCall(input)];
    var resp := ecs.svc.listTasksPages(input);
    if resp.Err? {
      return Err(Fatal(resp.error, ListTasksFailed)), calls;
    }
    var taskArnBatches := CollectBatches(resp.value);
    BatchesAreNonEmptyPages(resp.value);

    r := Ok([]);
    if |taskArnBatches| > 0 {
      var describeCalls;
      r, describeCalls := DescribeBatches(ecs, taskArnBatches);
      calls := calls + describeCalls;
    }
  }

  /** A listing whose pages hold no ARN gives no task and issues only the paging call. */
  lemma {:induction false} EmptyListing(ecs: Ecs, input: ListTasksInput)
    requires ecs.svc.listTasksPages(input).Ok?
    requires Flatten(ecs.svc.listTasksPages(input).value) == []
    ensures ListedRecords(ecs, input) == Ok([])
    ensures ListCalls(ecs, input) == [ListTasksPagesCall(input)]
  {
    var pages := ecs.svc.listTasksPages(input).value;
    BatchesKeepEveryArn(pages);
    BatchesAreNonEmptyPages(pages);
    assert NonEmptyPages(pages) == [];
  }

  /** Every batch contributes its task ARNs to the flattened listing. */
  lemma {:induction false} FlattenOfNonEmpty(batches: seq<seq<string>>, k: nat)
    requires k < |batches|
    ensures |Flatten(batches)| >= |batches[k]|
    ensures forall a :: a in batches[k] ==> a in Flatten(batches)
    ensures |batches[k]| > 0 ==> Flatten(batches) != []
    decreases |batches|
  {
    var init := batches[..|batches| - 1];
    if k < |batches| - 1 {
      FlattenOfNonEmpty(init, k);
      assert init[k] == batches[k];
    }
  }

  /** When every describe succeeds, each batch is described exactly once, in page order. */
  lemma {:induction false} BatchCallsInOrder(ecs: Ecs, batches: seq<seq<string>>)
    requires forall k :: 0 <= k < |batches| ==> |batches[k]| > 0
    requires BatchRecords(ecs, batches).Ok?
    ensures |BatchCalls(ecs, batches)| == |batches|
    ensures forall k :: 0 <= k < |batches| ==>
      BatchCalls(ecs, batches)[k] == DescribeTasksCall(DescribeTasksInput(ecs.clusterName, batches[k]))
  {
    if batches != [] {
      var init := batches[..|batches| - 1];
      BatchCallsInOrder(ecs, init);
    }
  }

  /** The index of the batch whose describe failed. */
  function FailingBatch(ecs: Ecs, batches: seq<seq<string>>): (k: nat)
    requires BatchRecords(ecs, batches).Err?
    ensures k < |batches|
  {
    if BatchRecords(ecs, batches[..|batches| - 1]).Err? then FailingBatch(ecs, batches[..|batches| - 1])
    else |batches| - 1
  }

  /**
   * A failing describe aborts the walk: the failing batch comes after batches
   * that all succeeded, its error is the result, and it is the last call issued.
   */
  lemma {:induction false} FirstFailureAborts(ecs: Ecs, batches: seq<seq<string>>)
    requires BatchRecords(ecs, batches).Err?
    ensures BatchRecords(ecs, batches[..FailingBatch(ecs, batches)]).Ok?
    ensures DescribeResponse(ecs, batches[FailingBatch(ecs, batches)]) == Err(BatchRecords(ecs, batches).error)
    ensures BatchCalls(ecs, batches)
         == BatchCalls(ecs, batches[..FailingBatch(ecs, batches)]) + DescribeCalls(ecs, batches[FailingBatch(ecs, batches)])
  {
    var init := batches[..|batches| - 1];
    if BatchRecords(ecs, init).Err? {
      FirstFailureAborts(ecs, init);
      var k := FailingBatch(ecs, init);
      assert init[..k] == batches[..k];
      assert init[k] == batches[k];
    } else {
      assert batches[..|batches| - 1] == init;
    }
  }

  /** `DescribeTasksForService`: the Fargate tasks of one service. */
  method DescribeTasksForService(ecs: Ecs, serviceName: string)
    returns (r: Result<seq<Task>, Fatal>, calls: seq<Call>)
    requires ListsWell(ecs, ServiceListing(ecs, serviceName))
    ensures r.Err? <==> ListedRecords(ecs, ServiceListing(ecs, serviceName)).Err?
    ensures r.Err? ==> r.error == ListedRecords(ecs, ServiceListing(ecs, serviceName)).error
    ensures calls == ListCalls(ecs, ServiceListing(ecs, serviceName))
    ensures r.Ok? ==> AssembledAll(ecs, ListedRecords(ecs, ServiceListing(ecs, serviceName)).value, r.value)
  {
    r, calls := ListTasks(ecs, ServiceListing(ecs, serviceName));
  }

  /** The listing request of `DescribeTasksForService`: cluster, Fargate launch type, service name. */
  function ServiceListing(ecs: Ecs, serviceName: string): ListTasksInput
  {
    ListTasksInput(ecs.clusterName, Some(LaunchTypeFargate), Some(serviceName), None)
  }

  /** `DescribeTasksForTaskGroup`: the tasks started with the group's encoded marker. */
  method DescribeTasksForTaskGroup(ecs: Ecs, taskGroupName: string)
    returns (r: Result<seq<Task>, Fatal>, calls: seq<Call>)
    requires ListsWell(ecs, GroupListing(ecs, taskGroupName))
    ensures r.Err? <==> ListedRecords(ecs, GroupListing(ecs, taskGroupName)).Err?
    ensures r.Err? ==> r.error == ListedRecords(ecs, GroupListing(ecs, taskGroupName)).error
    ensures calls == ListCalls(ecs, GroupListing(ecs, taskGroupName))
    ensures r.Ok? ==> AssembledAll(ecs, ListedRecords(ecs, GroupListing(ecs, taskGroupName)).value, r.value)
  {
    r, calls := ListTasks(ecs, GroupListing(ecs, taskGroupName));
  }

  /** The listing request of `DescribeTasksForTaskGroup`: cluster and the encoded started-by marker. */
  function GroupListing(ecs: Ecs, taskGroupName: string): ListTasksInput
  {
    ListTasksInput(ecs.clusterName, None, None, Some(StartedBy.Encode(taskGroupName)))
  }
}
