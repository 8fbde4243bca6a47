/** Tasks as the project handlers and the status aggregator see them, and the one
    task query both issue: `Task.find({ project, isArchived: false })`, optionally
    sorted newest first. */
module Tasks {
  import opened Base

  /** A task: its project, its status string, its archived flag and its creation
      time in milliseconds. The task schema is not part of this model, so the status
      is kept as the raw string the handlers compare against. */
  datatype Task = Task(project: ProjectId, status: string, isArchived: bool, createdAt: nat)

  /** The query filter `{ project: pid, isArchived: false }`. */
  predicate IsLive(t: Task, pid: ProjectId)
  {
    t.project == pid && !t.isArchived
  }

  /** The tasks the query returns, in collection order. */
  function Live(tasks: seq<Task>, pid: ProjectId): (r: seq<Task>)
    ensures forall t :: t in r <==> t in tasks && IsLive(t, pid)
  {
    if |tasks| == 0 then []
    else
      assert forall t :: t in tasks <==> t == tasks[0] || t in tasks[1..];
      (if IsLive(tasks[0], pid) then [tasks[0]] else []) + Live(tasks[1..], pid)
  }

  /** The query returns every matching task exactly as often as it is stored, and
      nothing else. */
  lemma {:induction false} LiveMultiset(tasks: seq<Task>, pid: ProjectId)
    ensures forall t :: multiset(Live(tasks, pid))[t]
                        == if IsLive(t, pid) then multiset(tasks)[t] else 0
  {
    if |tasks| > 0 {
      LiveMultiset(tasks[1..], pid);
      assert tasks == [tasks[0]] + tasks[1..];
    }
  }

  /** Filtering distributes over concatenation of the collection. */
  lemma {:induction false} LiveAppend(a: seq<Task>, b: seq<Task>, pid: ProjectId)
    ensures Live(a + b, pid) == Live(a, pid) + Live(b, pid)
    decreases |a|
  {
    if |a| == 0 {
      assert a + b == b;
    } else {
      assert (a + b)[1..] == a[1..] + b;
      assert (a + b)[0] == a[0];
      LiveAppend(a[1..], b, pid);
    }
  }

  /** A task the query does not match leaves the result unchanged wherever it
      is inserted. */
  lemma {:induction false} LiveSkip(pre: seq<Task>, post: seq<Task>, t: Task, pid: ProjectId)
    requires !IsLive(t, pid)
    ensures Live(pre + [t] + post, pid) == Live(pre + post, pid)
  {
    LiveAppend(pre + [t], post, pid);
    LiveAppend(pre, [t], pid);
    LiveAppend(pre, post, pid);
    assert Live([t], pid) == [] by {
      assert [t][1..] == [];
    }
  }

  /** `.sort({ createdAt: -1 })`: non-increasing creation time. */
  predicate NewestFirst(s: seq<Task>)
  {
    forall i, j :: 0 <= i < j < |s| ==> s[i].createdAt >= s[j].createdAt
  }

  /** Putting a task no older than the head in front keeps a list newest first. */
  lemma ConsNewest(x: Task, rest: seq<Task>)
    requires NewestFirst(rest)
    requires |rest| > 0 ==> x.createdAt >= rest[0].createdAt
    ensures NewestFirst([x] + rest)
  {
    forall i, j | 0 <= i < j < |rest| + 1
      ensures ([x] + rest)[i].createdAt >= ([x] + rest)[j].createdAt
    {
      if i == 0 && j > 1 {
        assert rest[0].createdAt >= rest[j - 1].createdAt;
      }
    }
  }

  function Insert(t: Task, s: seq<Task>): (r: seq<Task>)
    requires NewestFirst(s)
    ensures NewestFirst(r)
    ensures multiset(r) == multiset(s) + multiset{t}
    ensures |r| > 0 && (r[0] == t || (|s| > 0 && r[0] == s[0]))
  {
    if |s| == 0 || t.createdAt >= s[0].createdAt then
      ConsNewest(t, s);
      [t] + s
    else
      assert s == [s[0]] + s[1..];
      var rest := Insert(t, s[1..]);
      ConsNewest(s[0], rest);
      [s[0]] + rest
  }

  /** A newest-first ordering of `s`. The database leaves the order of tasks with
      equal creation times unspecified, so the contract fixes only sortedness and
      the multiset of tasks. */
  function SortNewestFirst(s: seq<Task>): (r: seq<Task>)
    ensures NewestFirst(r)
    ensures multiset(r) == multiset(s)
  {
    if |s| == 0 then []
    else
      assert s == [s[0]] + s[1..];
      Insert(s[0], SortNewestFirst(s[1..]))
  }
}
