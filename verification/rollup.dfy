/** The project status aggregator (backend/controllers/updateProjectStatus.js):
    a project's status derived from the statuses of its live tasks. */
module StatusRollup {
  import opened Base
  import Schema
  import opened Tasks

  /** The four values the aggregator writes. */
  datatype Rollup = NotStarted | Pending | InProgress | Completed
  {
    function Label(): string
    {
      match this
      case NotStarted => "Not Started"
      case Pending => "Pending"
      case InProgress => "In Progress"
      case Completed => "Completed"
    }
  }

  /** The decision on the statuses of the live tasks: none, every one
      `"Completed"`, some `"In Progress"`, anything else. */
  function Aggregate(statuses: seq<string>): Rollup
  {
    if |statuses| == 0 then NotStarted
    else if forall k :: 0 <= k < |statuses| ==> statuses[k] == "Completed" then Completed
    else if exists k :: 0 <= k < |statuses| && statuses[k] == "In Progress" then InProgress
    else Pending
  }

  function Statuses(tasks: seq<Task>): (r: seq<string>)
    ensures |r| == |tasks|
    ensures forall k :: 0 <= k < |tasks| ==> r[k] == tasks[k].status
  {
    seq(|tasks|, k requires 0 <= k < |tasks| => tasks[k].status)
  }

  /** The status `updateProjectStatus(pid)` computes from the task collection. */
  function ProjectRollup(tasks: seq<Task>, pid: ProjectId): Rollup
  {
    Aggregate(Statuses(Live(tasks, pid)))
  }

  /** The live statuses are the statuses of the live tasks. */
  lemma LiveStatuses(tasks: seq<Task>, pid: ProjectId, x: string)
    ensures x in Statuses(Live(tasks, pid)) <==> exists t :: t in tasks && IsLive(t, pid) && t.status == x
  {
    var live := Live(tasks, pid);
    var st := Statuses(live);
    if x in st {
      var k :| 0 <= k < |st| && st[k] == x;
      assert live[k] in live;
    }
    if exists t :: t in tasks && IsLive(t, pid) && t.status == x {
      var t :| t in tasks && IsLive(t, pid) && t.status == x;
      var k :| 0 <= k < |live| && live[k] == t;
      assert st[k] == x;
    }
  }

  /** Some live task exists exactly when there is a live status. */
  lemma AnyLive(tasks: seq<Task>, pid: ProjectId)
    ensures (exists t :: t in tasks && IsLive(t, pid)) <==> |Statuses(Live(tasks, pid))| > 0
  {
    var live := Live(tasks, pid);
    if |live| > 0 { assert live[0] in live; }
  }

  /** Every live task is completed exactly when every live status is. */
  lemma AllCompleted(tasks: seq<Task>, pid: ProjectId)
    ensures (forall t :: t in tasks && IsLive(t, pid) ==> t.status == "Completed")
            <==> forall k :: 0 <= k < |Statuses(Live(tasks, pid))| ==> Statuses(Live(tasks, pid))[k] == "Completed"
  {
    var st := Statuses(Live(tasks, pid));
    if exists t :: t in tasks && IsLive(t, pid) && t.status != "Completed" {
      var t :| t in tasks && IsLive(t, pid) && t.status != "Completed";
      LiveStatuses(tasks, pid, t.status);
    }
    if exists k :: 0 <= k < |st| && st[k] != "Completed" {
      var k :| 0 <= k < |st| && st[k] != "Completed";
      LiveStatuses(tasks, pid, st[k]);
    }
  }

  /** Some live task is in progress exactly when some live status is. */
  lemma AnyRunning(tasks: seq<Task>, pid: ProjectId)
    ensures (exists t :: t in tasks && IsLive(t, pid) && t.status == "In Progress")
            <==> exists k :: 0 <= k < |Statuses(Live(tasks, pid))| && Statuses(Live(tasks, pid))[k] == "In Progress"
  {
    LiveStatuses(tasks, pid, "In Progress");
  }

  /** The aggregator's four cases, each stated both ways over the whole task
      collection: no live task; every live task completed; some live task in
      progress while not all are completed; the remaining case. */
  lemma RollupCases(tasks: seq<Task>, pid: ProjectId)
    ensures ProjectRollup(tasks, pid) == NotStarted
            <==> forall t :: t in tasks ==> !IsLive(t, pid)
    ensures ProjectRollup(tasks, pid) == Completed
            <==> && (exists t :: t in tasks && IsLive(t, pid))
                 && (forall t :: t in tasks && IsLive(t, pid) ==> t.status == "Completed")
    ensures ProjectRollup(tasks, pid) == InProgress
            <==> && (exists t :: t in tasks && IsLive(t, pid) && t.status == "In Progress")
                 && (exists t :: t in tasks && IsLive(t, pid) && t.status != "Completed")
    ensures ProjectRollup(tasks, pid) == Pending
            <==> && (exists t :: t in tasks && IsLive(t, pid) && t.status != "Completed")
                 && (forall t :: t in tasks && IsLive(t, pid) ==> t.status != "In Progress")
  {
    AnyLive(tasks, pid);
    AllCompleted(tasks, pid);
    AnyRunning(tasks, pid);
  }

  /** The result depends only on the set of live statuses: reordering the task
      collection, or any change that keeps the same live tasks, keeps the result. */
  lemma RollupPermutation(a: seq<Task>, b: seq<Task>, pid: ProjectId)
    requires multiset(a) == multiset(b)
    ensures ProjectRollup(a, pid) == ProjectRollup(b, pid)
  {
    assert forall t :: t in a <==> t in b by {
      forall t ensures t in a <==> t in b {
        assert t in a <==> multiset(a)[t] > 0;
        assert t in b <==> multiset(b)[t] > 0;
      }
    }
    RollupCases(a, pid);
    RollupCases(b, pid);
  }

  /** An archived task, or a task of another project, inserted anywhere in the
      collection never changes the result. */
  lemma {:induction false} IrrelevantTaskIgnored(tasks: seq<Task>, i: nat, t: Task, pid: ProjectId)
    requires i <= |tasks|
    requires !IsLive(t, pid)
    ensures ProjectRollup(tasks[..i] + [t] + tasks[i..], pid) == ProjectRollup(tasks, pid)
  {
    var pre, post := tasks[..i], tasks[i..];
    assert pre + post == tasks;
    LiveSkip(pre, post, t, pid);
  }

  /** Of the four values, only `"In Progress"` and `"Completed"` belong to the
      project status enumeration; `"Not Started"` and `"Pending"` do not. */
  lemma RollupOutsideEnum(r: Rollup)
    ensures r.Label() in Schema.StatusLabels <==> r == InProgress || r == Completed
  {
  }

  /** `updateProjectStatus(pid)`: writes the recomputed label into the project's
      status with an unvalidated update. `fails` stands for a database error in
      the query or the update: it is logged and swallowed, and nothing is
      written. A missing project makes the update a no-op. */
  function UpdateProjectStatus(projects: seq<Schema.Project>, tasks: seq<Task>, pid: ProjectId, fails: bool)
    : (r: seq<Schema.Project>)
    ensures |r| == |projects|
    ensures forall q :: 0 <= q < |projects| && q != pid ==> r[q] == projects[q]
    ensures fails ==> r == projects
    ensures !fails && pid < |projects| ==>
      && r[pid].status == ProjectRollup(tasks, pid).Label()
      && r[pid] == projects[pid].(status := r[pid].status)
  {
    if fails || pid >= |projects| then projects
    else projects[pid := projects[pid].(status := ProjectRollup(tasks, pid).Label())]
  }

  /** Recomputing with no intervening task change gives the same state. */
  lemma UpdateIdempotent(projects: seq<Schema.Project>, tasks: seq<Task>, pid: ProjectId, fails: bool)
    ensures UpdateProjectStatus(UpdateProjectStatus(projects, tasks, pid, false), tasks, pid, fails)
            == UpdateProjectStatus(projects, tasks, pid, false)
  {
  }

  /** A project with no live task is left with a status the schema rejects: the
      next validated save of that document fails. */
  lemma EmptyProjectLeavesEnum(projects: seq<Schema.Project>, tasks: seq<Task>, pid: ProjectId)
    requires pid < |projects|
    requires forall t :: t in tasks ==> !IsLive(t, pid)
    ensures !Schema.Validates(UpdateProjectStatus(projects, tasks, pid, false)[pid])
    ensures !Schema.Conforms(UpdateProjectStatus(projects, tasks, pid, false)[pid])
  {
    RollupCases(tasks, pid);
  }
}
