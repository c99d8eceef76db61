/**
 * `ListTaskGroups`: list every task of the cluster, decode each started-by
 * marker, and count the tasks of each decoded group name, groups kept in the
 * order their name is first seen.
 */
module TaskGroups {
  import opened EcsTypes
  import StartedBy
  import TaskAssembly
  import Listing

  /** The decoded group names of the markers that match, in marker order. */
  function MarkedNames(startedBys: seq<string>): seq<string>
  {
    if startedBys == [] then []
    else
      MarkedNames(startedBys[..|startedBys| - 1])
      + match StartedBy.Decode(startedBys[|startedBys| - 1])
        case None => []
        case Some(name) => [name]
  }

  /** The names in order of first sight, each once. */
  function Distinct(names: seq<string>): seq<string>
  {
    if names == [] then []
    else
      var seen := Distinct(names[..|names| - 1]);
      if names[|names| - 1] in seen then seen else seen + [names[|names| - 1]]
  }

  /** How many times `name` occurs in `names`. */
  function Count(names: seq<string>, name: string): nat
  {
    if names == [] then 0
    else Count(names[..|names| - 1], name) + (if names[|names| - 1] == name then 1 else 0)
  }

  /** The index at which `name` first occurs in `names`. */
  function FirstIndex(names: seq<string>, name: string): (k: nat)
    requires name in names
    ensures k < |names| && names[k] == name
    ensures forall j :: 0 <= j < k ==> names[j] != name
  {
    if name in names[..|names| - 1] then FirstIndex(names[..|names| - 1], name) else |names| - 1
  }

  /** The groups of a listing: one per distinct decoded name, counting its tasks. */
  function TaskGroupsOf(startedBys: seq<string>): seq<TaskGroup>
  {
    var names := MarkedNames(startedBys);
    var distinct := Distinct(names);
    seq(|distinct|, i requires 0 <= i < |distinct| => TaskGroup(distinct[i], Count(names, distinct[i])))
  }

  function StartedBys(tasks: seq<Task>): seq<string>
  {
    seq(|tasks|, k requires 0 <= k < |tasks| => tasks[k].startedBy)
  }

  function RawStartedBys(raws: seq<RawTask>): seq<string>
  {
    seq(|raws|, k requires 0 <= k < |raws| => raws[k].startedBy)
  }

  /** Sum of the instance counts. */
  function TotalInstances(groups: seq<TaskGroup>): int
  {
    if groups == [] then 0
    else TotalInstances(groups[..|groups| - 1]) + groups[|groups| - 1].instances
  }

  /** A name is kept exactly when it occurs, and it is kept once. */
  lemma {:induction false} DistinctProperties(names: seq<string>)
    ensures forall x :: x in Distinct(names) <==> x in names
    ensures forall i, j :: 0 <= i < j < |Distinct(names)| ==> Distinct(names)[i] != Distinct(names)[j]
  {
    if names != [] {
      DistinctProperties(names[..|names| - 1]);
      assert names == names[..|names| - 1] + [names[|names| - 1]];
    }
  }

  /** A name that occurs is counted at least once. */
  lemma {:induction false} CountPositive(names: seq<string>, name: string)
    ensures Count(names, name) > 0 <==> name in names
  {
    if names != [] {
      CountPositive(names[..|names| - 1], name);
      assert names == names[..|names| - 1] + [names[|names| - 1]];
    }
  }

  /** Kept names appear in the order in which they are first seen. */
  lemma {:induction false} DistinctInFirstSightOrder(names: seq<string>)
    ensures forall x :: x in Distinct(names) ==> x in names
    ensures forall i, j :: 0 <= i < j < |Distinct(names)| ==>
      FirstIndex(names, Distinct(names)[i]) < FirstIndex(names, Distinct(names)[j])
  {
    DistinctProperties(names);
    if names != [] {
      var init := names[..|names| - 1];
      var seen := Distinct(init);
      DistinctInFirstSightOrder(init);
      DistinctProperties(init);
      forall x | x in seen ensures FirstIndex(names, x) == FirstIndex(init, x) {
        assert x in init;
      }
    }
  }

  lemma MarkedNamesStep(startedBys: seq<string>, s: string)
    ensures MarkedNames(startedBys + [s]) == MarkedNames(startedBys)
      + match StartedBy.Decode(s) case None => [] case Some(name) => [name]
  {
    assert (startedBys + [s])[..|startedBys|] == startedBys;
  }

  lemma CountStep(names: seq<string>, name: string)
    ensures forall x :: Count(names + [name], x) == Count(names, x) + (if x == name then 1 else 0)
  {
    assert (names + [name])[..|names|] == names;
  }

  lemma DistinctStep(names: seq<string>, name: string)
    ensures Distinct(names + [name])
         == if name in Distinct(names) then Distinct(names) else Distinct(names) + [name]
  {
    assert (names + [name])[..|names|] == names;
  }

  /** A marker that does not match leaves the groups as they are. */
  lemma TaskGroupsSkip(startedBys: seq<string>, s: string)
    requires StartedBy.Decode(s).None?
    ensures TaskGroupsOf(startedBys + [s]) == TaskGroupsOf(startedBys)
  {
    MarkedNamesStep(startedBys, s);
    assert MarkedNames(startedBys + [s]) == MarkedNames(startedBys);
  }

  /** A marker naming a known group adds one to that group's count and changes nothing else. */
  lemma {:induction false} TaskGroupsBump(startedBys: seq<string>, s: string, j: nat)
    requires StartedBy.Decode(s).Some?
    requires j < |TaskGroupsOf(startedBys)|
    requires TaskGroupsOf(startedBys)[j].taskGroupName == StartedBy.Decode(s).value
    ensures TaskGroupsOf(startedBys + [s])
         == TaskGroupsOf(startedBys)[j := TaskGroup(StartedBy.Decode(s).value, TaskGroupsOf(startedBys)[j].instances + 1)]
  {
    var name := StartedBy.Decode(s).value;
    var names := MarkedNames(startedBys);
    var seen := Distinct(names);
    MarkedNamesStep(startedBys, s);
    DistinctStep(names, name);
    CountStep(names, name);
    DistinctProperties(names);
    assert seen[j] == name;
    var before := TaskGroupsOf(startedBys);
    var after := TaskGroupsOf(startedBys + [s]);
    assert |after| == |seen|;
    forall i | 0 <= i < |seen|
      ensures after[i] == before[j := TaskGroup(name, before[j].instances + 1)][i]
    {
      assert after[i] == TaskGroup(seen[i], Count(names + [name], seen[i]));
      assert seen[i] == name <==> i == j;
    }
  }

  /** A marker with a new name appends a group of one. */
  lemma {:induction false} TaskGroupsAdd(startedBys: seq<string>, s: string)
    requires StartedBy.Decode(s).Some?
    requires forall j :: 0 <= j < |TaskGroupsOf(startedBys)| ==>
      TaskGroupsOf(startedBys)[j].taskGroupName != StartedBy.Decode(s).value
    ensures TaskGroupsOf(startedBys + [s]) == TaskGroupsOf(startedBys) + [TaskGroup(StartedBy.Decode(s).value, 1)]
  {
    var name := StartedBy.Decode(s).value;
    var names := MarkedNames(startedBys);
    var seen := Distinct(names);
    var before := TaskGroupsOf(startedBys);
    assert MarkedNames(startedBys + [s]) == names + [name] by {
      MarkedNamesStep(startedBys, s);
    }
    forall j | 0 <= j < |seen| ensures seen[j] != name {
      assert before[j].taskGroupName == seen[j];
    }
    assert name !in seen;
    assert Count(names, name) == 0 by {
      DistinctProperties(names);
      CountPositive(names, name);
    }
    var seen' := seen + [name];
    assert Distinct(names + [name]) == seen' by {
      DistinctStep(names, name);
    }
    assert forall x :: Count(names + [name], x) == Count(names, x) + (if x == name then 1 else 0) by {
      CountStep(names, name);
    }
    var after := TaskGroupsOf(startedBys + [s]);
    assert |after| == |seen| + 1;
    forall i | 0 <= i < |after|
      ensures after[i] == (before + [TaskGroup(name, 1)])[i]
    {
      assert after[i] == TaskGroup(seen'[i], Count(names + [name], seen'[i]));
      if i < |seen| {
        assert seen'[i] == seen[i] != name;
      }
    }
  }

  /** Updating one count changes the total by the same amount. */
  lemma {:induction false} TotalUpdate(groups: seq<TaskGroup>, j: nat, g: TaskGroup)
    requires j < |groups|
    ensures TotalInstances(groups[j := g]) == TotalInstances(groups) - groups[j].instances + g.instances
    decreases |groups|
  {
    var init := groups[..|groups| - 1];
    if j < |groups| - 1 {
      assert groups[j := g][..|groups| - 1] == init[j := g];
      TotalUpdate(init, j, g);
    } else {
      assert groups[j := g][..|groups| - 1] == init;
    }
  }

  /** One more marker adds one to the total exactly when it decodes to a group. */
  lemma {:induction false} TotalStep(startedBys: seq<string>, s: string)
    ensures TotalInstances(TaskGroupsOf(startedBys + [s]))
         == TotalInstances(TaskGroupsOf(startedBys)) + (if StartedBy.Decode(s).Some? then 1 else 0)
  {
    var groups := TaskGroupsOf(startedBys);
    match StartedBy.Decode(s)
    case None =>
      TaskGroupsSkip(startedBys, s);
    case Some(name) =>
      if j :| 0 <= j < |groups| && groups[j].taskGroupName == name {
        var bumped := groups[j := TaskGroup(name, groups[j].instances + 1)];
        assert TaskGroupsOf(startedBys + [s]) == bumped by {
          TaskGroupsBump(startedBys, s, j);
        }
        TotalUpdate(groups, j, TaskGroup(name, groups[j].instances + 1));
      } else {
        var added := groups + [TaskGroup(name, 1)];
        assert TaskGroupsOf(startedBys + [s]) == added by {
          TaskGroupsAdd(startedBys, s);
        }
        assert added[..|groups|] == groups;
      }
  }

  /**
   * The counts add up to the number of markers that contain `fargate:`;
   * markers without it contribute nothing.
   */
  lemma {:induction false} InstancesSumToMarkedTasks(startedBys: seq<string>)
    ensures TotalInstances(TaskGroupsOf(startedBys)) == |MarkedNames(startedBys)|
    ensures |MarkedNames(startedBys)| == CountWithMarker(startedBys)
  {
    if startedBys != [] {
      var init := startedBys[..|startedBys| - 1];
      var s := startedBys[|startedBys| - 1];
      assert startedBys == init + [s];
      InstancesSumToMarkedTasks(init);
      var step := if StartedBy.Decode(s).Some? then 1 else 0;
      assert |MarkedNames(startedBys)| == |MarkedNames(init)| + step by {
        MarkedNamesStep(init, s);
      }
      assert TotalInstances(TaskGroupsOf(startedBys)) == TotalInstances(TaskGroupsOf(init)) + step by {
        TotalStep(init, s);
      }
      assert StartedBy.Decode(s).Some? <==> HasMarker(s) by {
        StartedBy.DecodeMatchesLeftmostMarker(s);
      }
    }
  }

  /** The marker contains `fargate:`. */
  ghost predicate HasMarker(s: string)
  {
    exists i :: StartedBy.MarkerAt(s, i)
  }

  /** The number of markers that contain `fargate:`. */
  ghost function CountWithMarker(startedBys: seq<string>): nat
  {
    if startedBys == [] then 0
    else CountWithMarker(startedBys[..|startedBys| - 1]) + (if HasMarker(startedBys[|startedBys| - 1]) then 1 else 0)
  }

  /**
   * The groups have pairwise distinct names in first-sight order, and every
   * group counts exactly the markers that decode to its name, at least one.
   */
  lemma {:induction false} TaskGroupsWellFormed(startedBys: seq<string>)
    ensures forall i, j :: 0 <= i < j < |TaskGroupsOf(startedBys)| ==>
      TaskGroupsOf(startedBys)[i].taskGroupName != TaskGroupsOf(startedBys)[j].taskGroupName
    ensures forall i, j :: 0 <= i < j < |TaskGroupsOf(startedBys)| ==>
      TaskGroupsOf(startedBys)[i].taskGroupName in MarkedNames(startedBys)
      && TaskGroupsOf(startedBys)[j].taskGroupName in MarkedNames(startedBys)
      && FirstIndex(MarkedNames(startedBys), TaskGroupsOf(startedBys)[i].taskGroupName)
      < FirstIndex(MarkedNames(startedBys), TaskGroupsOf(startedBys)[j].taskGroupName)
    ensures forall name :: name in MarkedNames(startedBys) <==>
      exists i :: 0 <= i < |TaskGroupsOf(startedBys)| && TaskGroupsOf(startedBys)[i].taskGroupName == name
    ensures forall i :: 0 <= i < |TaskGroupsOf(startedBys)| ==>
      TaskGroupsOf(startedBys)[i].instances == Count(MarkedNames(startedBys), TaskGroupsOf(startedBys)[i].taskGroupName) >= 1
  {
    var names := MarkedNames(startedBys);
    var seen := Distinct(names);
    DistinctProperties(names);
    DistinctInFirstSightOrder(names);
    var groups := TaskGroupsOf(startedBys);
    assert forall i :: 0 <= i < |seen| ==> groups[i].taskGroupName == seen[i];
    forall i, j | 0 <= i < j < |groups|
      ensures groups[i].taskGroupName in names && groups[j].taskGroupName in names
      ensures FirstIndex(names, groups[i].taskGroupName) < FirstIndex(names, groups[j].taskGroupName)
    {
      assert groups[i].taskGroupName == seen[i] && groups[j].taskGroupName == seen[j];
    }
    forall i | 0 <= i < |seen| ensures Count(names, seen[i]) >= 1 {
      CountPositive(names, seen[i]);
    }
    forall name | name in names
      ensures exists i :: 0 <= i < |TaskGroupsOf(startedBys)| && TaskGroupsOf(startedBys)[i].taskGroupName == name
    {
      var i :| 0 <= i < |seen| && seen[i] == name;
      assert TaskGroupsOf(startedBys)[i].taskGroupName == name;
    }
  }

  /** Scenario: two `fargate:web` tasks and one `sidecar-xyz` task form one group `web` of 2. */
  lemma GroupingExample()
    ensures TaskGroupsOf(["fargate:web", "fargate:web", "sidecar-xyz"]) == [TaskGroup("web", 2)]
  {
    ExampleMarkedNames();
    assert Distinct(["web", "web"]) == ["web"] by {
      assert ["web", "web"][..1] == ["web"];
      assert ["web"][..0] == [];
    }
    assert Count(["web", "web"], "web") == 2 by {
      assert ["web", "web"][..1] == ["web"];
      assert ["web"][..0] == [];
    }
  }

  /** The decoded names of the scenario's three markers. */
  lemma ExampleMarkedNames()
    ensures MarkedNames(["fargate:web", "fargate:web", "sidecar-xyz"]) == ["web", "web"]
  {
    StartedBy.NoMarkerNoGroup();
    TwoOfAGroupAndAStranger("fargate:web", "sidecar-xyz", "web");
  }

  /** Two markers of one group and one marker of none decode to that group's name twice. */
  lemma TwoOfAGroupAndAStranger(marked: string, other: string, name: string)
    requires StartedBy.Decode(marked) == Some(name) && StartedBy.Decode(other) == None
    ensures MarkedNames([marked, marked, other]) == [name, name]
  {
    MarkedNamesStep([], marked);
    assert [] + [marked] == [marked];
    MarkedNamesStep([marked], marked);
    assert [marked] + [marked] == [marked, marked];
    MarkedNamesStep([marked, marked], other);
    assert [marked, marked] + [other] == [marked, marked, other];
  }

  lemma StartedBysStep(tasks: seq<Task>, t: nat)
    requires t < |tasks|
    ensures StartedBys(tasks[..t + 1]) == StartedBys(tasks[..t]) + [tasks[t].startedBy]
  {
  }

  /**
   * The inner loop of `OUTER`: the position of the group named
   * `taskGroupName`, if there is one.
   */
  method FindGroup(taskGroups: seq<TaskGroup>, taskGroupName: string) returns (found: bool, j: nat)
    ensures found ==> j < |taskGroups| && taskGroups[j].taskGroupName == taskGroupName
    ensures !found ==> forall k :: 0 <= k < |taskGroups| ==> taskGroups[k].taskGroupName != taskGroupName
  {
    found := false;
    j := 0;
    while j < |taskGroups|
      invariant 0 <= j <= |taskGroups|
      invariant forall k :: 0 <= k < j ==> taskGroups[k].taskGroupName != taskGroupName
    {
      if taskGroups[j].taskGroupName == taskGroupName {
        found := true;
        return;
      }
      j := j + 1;
    }
  }

  /**
   * The `OUTER` loop: for each task whose marker matches, add one to the
   * group with the decoded name if there is one, otherwise append a new
   * group with one instance.
   */
  method GroupTasks(tasks: seq<Task>) returns (taskGroups: seq<TaskGroup>)
    ensures taskGroups == TaskGroupsOf(StartedBys(tasks))
  {
    taskGroups := [];
    for t := 0 to |tasks|
      invariant taskGroups == TaskGroupsOf(StartedBys(tasks[..t]))
    {
      var task := tasks[t];
      ghost var seenMarkers := StartedBys(tasks[..t]);
      assert StartedBys(tasks[..t + 1]) == seenMarkers + [task.startedBy] by {
        StartedBysStep(tasks, t);
      }
      var matches := StartedBy.Decode(task.startedBy);
      if matches.Some? {
        var taskGroupName := matches.value;
        var found, j := FindGroup(taskGroups, taskGroupName);
        if found {
          assert TaskGroupsOf(seenMarkers + [task.startedBy])
              == taskGroups[j := TaskGroup(taskGroupName, taskGroups[j].instances + 1)] by {
            TaskGroupsBump(seenMarkers, task.startedBy, j);
          }
          taskGroups := taskGroups[j := TaskGroup(taskGroupName, taskGroups[j].instances + 1)];
        } else {
          assert TaskGroupsOf(seenMarkers + [task.startedBy]) == taskGroups + [TaskGroup(taskGroupName, 1)] by {
            TaskGroupsAdd(seenMarkers, task.startedBy);
          }
          taskGroups := taskGroups + [TaskGroup(taskGroupName, 1)];
        }
      } else {
        assert TaskGroupsOf(seenMarkers + [task.startedBy]) == taskGroups by {
          TaskGroupsSkip(seenMarkers, task.startedBy);
        }
      }
    }
    assert tasks[..|tasks|] == tasks;
  }

  function ClusterListing(ecs: Ecs): ListTasksInput
  {
    ListTasksInput(ecs.clusterName, None, None, None)
  }

  /**
   * `ListTaskGroups`: the groups of every task the cluster listing yields,
   * or the listing's fatal error.
   */
  method ListTaskGroups(ecs: Ecs) returns (r: Result<seq<TaskGroup>, Fatal>, calls: seq<Call>)
    requires Listing.ListsWell(ecs, ClusterListing(ecs))
    ensures calls == Listing.ListCalls(ecs, ClusterListing(ecs))
    ensures r.Err? <==> Listing.ListedRecords(ecs, ClusterListing(ecs)).Err?
    ensures r.Err? ==> r.error == Listing.ListedRecords(ecs, ClusterListing(ecs)).error
    ensures r.Ok? ==> r.value == TaskGroupsOf(RawStartedBys(Listing.ListedRecords(ecs, ClusterListing(ecs)).value))
  {
    var listed;
    listed, calls := Listing.ListTasks(ecs, ClusterListing(ecs));
    if listed.Err? {
      return Err(listed.error), calls;
    }
    ghost var raws := Listing.ListedRecords(ecs, ClusterListing(ecs)).value;
    assert StartedBys(listed.value) == RawStartedBys(raws) by {
      forall k | 0 <= k < |raws| ensures listed.value[k].startedBy == raws[k].startedBy {
        assert TaskAssembly.AssembledFrom(ecs, raws[k], listed.value[k]);
      }
    }
    var taskGroups := GroupTasks(listed.value);
    r := Ok(taskGroups);
  }
}
