/** The membership repair script (backend/fixprojectmembers.js): for each
    workspace in turn, every project whose `workspace` field names it gets the
    workspace's member list copied over its own, one save per project. The first
    failure ends the whole run.

    The run performs its database operations in a fixed order: loading the
    workspaces (operation 0), then for each workspace one project query followed
    by one save per project of that workspace. `failAt` is the number of the
    operation that throws, if any. Independently, a save throws when the saved
    document fails the schema's validators.

    The run visits (workspace, project) pairs in order: workspace `i` outer,
    project position `j` inner. A cursor `(i, j)` splits the projects into those
    already visited and those not yet visited. */
module Migration {
  import opened Base
  import opened Schema
  import opened Projects
  import Tasks
  import StatusRollup

  /** A project as the repair leaves it: its workspace's members when that
      workspace exists, unchanged otherwise. */
  function Repaired(ws: seq<Workspace>, p: Project): Project
  {
    if p.workspace < |ws| then p.(members := ws[p.workspace].members) else p
  }

  /** The state a complete run is meant to produce. */
  function RepairAll(ws: seq<Workspace>, ps: seq<Project>): (r: seq<Project>)
    ensures |r| == |ps|
    ensures forall k :: 0 <= k < |ps| ==> r[k] == Repaired(ws, ps[k])
  {
    seq(|ps|, k requires 0 <= k < |ps| => Repaired(ws, ps[k]))
  }

  /** Project `k` has been saved once the run reaches cursor `(i, j)`. */
  predicate Visited(ps: seq<Project>, i: nat, j: nat, k: nat)
    requires k < |ps|
  {
    ps[k].workspace < i || (ps[k].workspace == i && k < j)
  }

  /** The projects saved before cursor `(i, j)`. */
  function SavedBefore(ps: seq<Project>, i: nat, j: nat): set<nat>
  {
    set k | 0 <= k < |ps| && Visited(ps, i, j, k)
  }

  /** The projects as they stand at cursor `(i, j)`. */
  function StateAt(ws: seq<Workspace>, ps: seq<Project>, i: nat, j: nat): (r: seq<Project>)
    ensures |r| == |ps|
    ensures forall k :: 0 <= k < |ps| ==> r[k] == if Visited(ps, i, j, k) then Repaired(ws, ps[k]) else ps[k]
  {
    seq(|ps|, k requires 0 <= k < |ps| => if Visited(ps, i, j, k) then Repaired(ws, ps[k]) else ps[k])
  }

  /** The positions of the projects that belong to an existing workspace: one
      save each in a complete run. */
  function Owned(ws: seq<Workspace>, ps: seq<Project>): set<nat>
  {
    set k | 0 <= k < |ps| && ps[k].workspace < |ws|
  }

  /** Visiting project `j` under workspace `i` saves it exactly when its
      `workspace` is `i`. */
  lemma StepSaved(ps: seq<Project>, i: nat, j: nat)
    requires j < |ps|
    ensures ps[j].workspace == i ==>
              j !in SavedBefore(ps, i, j) && SavedBefore(ps, i, j + 1) == SavedBefore(ps, i, j) + {j}
    ensures ps[j].workspace != i ==> SavedBefore(ps, i, j + 1) == SavedBefore(ps, i, j)
  {
  }

  /** The end of workspace `i` is the start of workspace `i + 1`. */
  lemma NextWorkspace(ws: seq<Workspace>, ps: seq<Project>, i: nat)
    ensures SavedBefore(ps, i, |ps|) == SavedBefore(ps, i + 1, 0)
    ensures StateAt(ws, ps, i, |ps|) == StateAt(ws, ps, i + 1, 0)
  {
  }

  /** The projects saved before a cursor inside the run belong to existing
      workspaces; a cursor at a project of workspace `i` has saved fewer than a
      complete run. */
  lemma SavedBeforeBound(ws: seq<Workspace>, ps: seq<Project>, i: nat, j: nat)
    requires i < |ws|
    ensures |SavedBefore(ps, i, j)| <= |Owned(ws, ps)|
    ensures j < |ps| && ps[j].workspace == i ==> |SavedBefore(ps, i, j)| < |Owned(ws, ps)|
  {
    var a := SavedBefore(ps, i, j);
    var b := Owned(ws, ps);
    assert a <= b;
    assert b == a + (b - a);
    assert |b| == |a| + |b - a|;
    if j < |ps| && ps[j].workspace == i {
      assert j in b - a;
    }
  }

  /** One save in the inner loop: the state at the next cursor. */
  lemma SaveStep(ws: seq<Workspace>, ps: seq<Project>, out: seq<Project>, i: nat, j: nat)
    requires i < |ws| && j < |ps| && ps[j].workspace == i
    requires out == StateAt(ws, ps, i, j)
    ensures out[j := out[j].(members := ws[i].members)] == StateAt(ws, ps, i, j + 1)
  {
  }

  /** Passing over a project of another workspace changes nothing. */
  lemma SkipStep(ws: seq<Workspace>, ps: seq<Project>, i: nat, j: nat)
    requires j < |ps| && ps[j].workspace != i
    ensures StateAt(ws, ps, i, j + 1) == StateAt(ws, ps, i, j)
  {
  }

  /** At any cursor, only `members` has changed, and projects of missing
      workspaces are as they were. */
  lemma StateAtShape(ws: seq<Workspace>, ps: seq<Project>, i: nat, j: nat)
    ensures var out := StateAt(ws, ps, i, j);
            && (forall k :: 0 <= k < |ps| ==> out[k] == ps[k].(members := out[k].members))
            && (forall k :: 0 <= k < |ps| && ps[k].workspace >= |ws| ==> out[k] == ps[k])
  {
  }

  /** Every project saved before cursor `(i, j)` passed validation. */
  predicate SavedValid(ps: seq<Project>, i: nat, j: nat)
  {
    forall k :: 0 <= k < |ps| && Visited(ps, i, j, k) ==> Validates(ps[k])
  }

  /** Passing project `j` keeps every saved project valid when a project of
      workspace `i` is valid. */
  lemma ValidStep(ps: seq<Project>, i: nat, j: nat)
    requires j < |ps| && SavedValid(ps, i, j)
    requires ps[j].workspace == i ==> Validates(ps[j])
    ensures SavedValid(ps, i, j + 1)
  {
    forall k | 0 <= k < |ps| && Visited(ps, i, j + 1, k)
      ensures Validates(ps[k])
    {
      if k != j {
        assert Visited(ps, i, j, k);
      }
    }
  }

  /** The number of database operations a complete run performs. */
  function TotalOps(ws: seq<Workspace>, ps: seq<Project>): nat
  {
    1 + |ws| + |Owned(ws, ps)|
  }

  /** The run ends with "Migration complete!" (exit status 0): no operation up to
      the last one is the failing one, and every project of an existing workspace
      passes validation when saved. */
  predicate RunSucceeds(ws: seq<Workspace>, ps: seq<Project>, failAt: Option<nat>)
  {
    && (failAt.None? || failAt.value >= TotalOps(ws, ps))
    && forall k :: 0 <= k < |ps| && ps[k].workspace < |ws| ==> Validates(ps[k])
  }

  /** One iteration of the inner loop: project `j` gets workspace `i`'s members
      and is saved when its `workspace` is `i`. After workspace `i`'s project
      query, the operations completed are `2 + i + saves`; the save is operation
      number `2 + i + saves`, and it throws when that is `failAt` or when the
      document fails validation. */
  method VisitProject(ws: seq<Workspace>, ps: seq<Project>, i: nat, j: nat, failAt: Option<nat>,
                      out0: seq<Project>, saves0: nat)
    returns (out: seq<Project>, saves: nat, ok: bool)
    requires i < |ws| && j < |ps|
    requires out0 == StateAt(ws, ps, i, j) && saves0 == |SavedBefore(ps, i, j)|
    requires failAt.None? || failAt.value >= 2 + i + saves0
    requires SavedValid(ps, i, j)
    ensures ok ==> out == StateAt(ws, ps, i, j + 1) && saves == |SavedBefore(ps, i, j + 1)|
    ensures ok ==> (failAt.None? || failAt.value >= 2 + i + saves) && SavedValid(ps, i, j + 1)
    ensures !ok ==> && ps[j].workspace == i && out == out0 && saves == saves0
                    && (failAt == Some(2 + i + saves) || !Validates(ps[j]))
  {
    out, saves, ok := out0, saves0, true;
    StepSaved(ps, i, j);
    assert out[j].workspace == ps[j].workspace;
    if out[j].workspace == i {
      assert out[j] == ps[j];
      var doc := out[j].(members := ws[i].members);
      if failAt == Some(2 + i + saves) || !Validates(doc) {
        ok := false;
        return;
      }
      assert failAt.None? || failAt.value > 2 + i + saves;
      ValidStep(ps, i, j);
      SaveStep(ws, ps, out, i, j);
      out := out[j := doc];
      saves := saves + 1;
    } else {
      SkipStep(ws, ps, i, j);
      ValidStep(ps, i, j);
    }
  }

  /** One iteration of the outer loop: the project query of workspace `i`
      (operation `1 + i + saves`), then the inner loop. On a failure, `stop` is
      the cursor the run stopped at: 0 when the query threw, otherwise the
      project whose save threw. */
  method RepairWorkspace(ws: seq<Workspace>, ps: seq<Project>, i: nat, failAt: Option<nat>,
                         out0: seq<Project>, saves0: nat)
    returns (out: seq<Project>, saves: nat, ok: bool, ghost stop: nat)
    requires i < |ws|
    requires out0 == StateAt(ws, ps, i, 0) && saves0 == |SavedBefore(ps, i, 0)|
    requires failAt.None? || failAt.value >= 1 + i + saves0
    requires SavedValid(ps, i, 0)
    ensures ok ==> out == StateAt(ws, ps, i + 1, 0) && saves == |SavedBefore(ps, i + 1, 0)|
    ensures ok ==> (failAt.None? || failAt.value >= 1 + (i + 1) + saves) && SavedValid(ps, i + 1, 0)
    ensures !ok ==> && stop <= |ps|
                    && out == StateAt(ws, ps, i, stop)
                    && saves == |SavedBefore(ps, i, stop)|
                    && ((stop == 0 && failAt == Some(1 + i + saves))
                        || (stop < |ps| && ps[stop].workspace == i
                            && (failAt.None? || failAt.value >= 2 + i + saves)
                            && (failAt == Some(2 + i + saves) || !Validates(ps[stop]))))
    ensures !ok ==> SavedValid(ps, i, stop)
  {
    out, saves, ok, stop := out0, saves0, true, 0;
    if failAt == Some(1 + i + saves) {
      ok := false;
      return;
    }
    var j := 0;
    while j < |out|
      invariant 0 <= j <= |ps| == |out|
      invariant out == StateAt(ws, ps, i, j)
      invariant saves == |SavedBefore(ps, i, j)|
      invariant failAt.None? || failAt.value >= 2 + i + saves
      invariant SavedValid(ps, i, j)
    {
      out, saves, ok := VisitProject(ws, ps, i, j, failAt, out, saves);
      if !ok {
        stop := j;
        return;
      }
      j := j + 1;
    }
    NextWorkspace(ws, ps, i);
    forall k | 0 <= k < |ps| && Visited(ps, i + 1, 0, k)
      ensures Validates(ps[k])
    {
      assert Visited(ps, i, |ps|, k);
    }
  }

  /** The run stops at cursor `(i, j)` after `saves` saves because the operation
      there is the first that throws: connecting or `Workspace.find` (operation
      0), the project query of workspace `i`, or the save of project `j`, which
      throws when it is the failing operation or the document fails validation.
      Every earlier operation succeeded, since `failAt` lies at or after it. */
  predicate FirstFailure(ws: seq<Workspace>, ps: seq<Project>, failAt: Option<nat>, i: nat, j: nat, saves: nat)
  {
    || (i == 0 && j == 0 && failAt == Some(0))
    || (i < |ws| && j == 0 && failAt == Some(1 + i + saves))
    || (i < |ws| && j < |ps| && ps[j].workspace == i
        && (failAt.None? || failAt.value >= 2 + i + saves)
        && (failAt == Some(2 + i + saves) || !Validates(ps[j])))
  }

  /** `runMigration`. `ok` is the exit status 0 of "Migration complete!"; `saves`
      counts the saves that completed. */
  method Migrate(ws: seq<Workspace>, ps: seq<Project>, failAt: Option<nat>)
    returns (out: seq<Project>, saves: nat, ok: bool)
    ensures ok <==> RunSucceeds(ws, ps, failAt)
    ensures ok ==> saves == |Owned(ws, ps)| && out == RepairAll(ws, ps)
    ensures !ok ==> exists i, j :: 0 <= i <= |ws| && 0 <= j <= |ps|
                                   && out == StateAt(ws, ps, i, j)
                                   && saves == |SavedBefore(ps, i, j)|
                                   && SavedValid(ps, i, j)
                                   && FirstFailure(ws, ps, failAt, i, j, saves)
    ensures |out| == |ps|
    ensures forall k :: 0 <= k < |ps| ==> out[k] == ps[k].(members := out[k].members)
    ensures forall k :: 0 <= k < |ps| && ps[k].workspace >= |ws| ==> out[k] == ps[k]
  {
    out, saves, ok := ps, 0, true;
    assert SavedBefore(ps, 0, 0) == {};
    assert ps == StateAt(ws, ps, 0, 0);
    StateAtShape(ws, ps, 0, 0);
    if failAt == Some(0) {
      ok := false;
      assert SavedValid(ps, 0, 0);
      assert FirstFailure(ws, ps, failAt, 0, 0, saves);
      return;
    }
    var i := 0;
    while i < |ws|
      invariant 0 <= i <= |ws|
      invariant out == StateAt(ws, ps, i, 0)
      invariant saves == |SavedBefore(ps, i, 0)|
      invariant failAt.None? || failAt.value >= 1 + i + saves
      invariant SavedValid(ps, i, 0)
    {
      ghost var stop;
      out, saves, ok, stop := RepairWorkspace(ws, ps, i, failAt, out, saves);
      if !ok {
        SavedBeforeBound(ws, ps, i, stop);
        StateAtShape(ws, ps, i, stop);
        assert FirstFailure(ws, ps, failAt, i, stop, saves);
        return;
      }
      i := i + 1;
    }
    assert SavedBefore(ps, |ws|, 0) == Owned(ws, ps);
    assert StateAt(ws, ps, |ws|, 0) == RepairAll(ws, ps);
    forall k | 0 <= k < |ps| && ps[k].workspace < |ws|
      ensures Validates(ps[k])
    {
      assert Visited(ps, |ws|, 0, k);
    }
    StateAtShape(ws, ps, |ws|, 0);
  }

  /** A project that the status aggregator left at "Not Started", because it has
      no live task, makes every later run of the repair fail when it reaches that
      project's save. */
  lemma StaleStatusFailsRun(ws: seq<Workspace>, ps: seq<Project>, tasks: seq<Tasks.Task>,
                            pid: ProjectId, failAt: Option<nat>)
    requires pid < |ps| && ps[pid].workspace < |ws|
    requires forall t :: t in tasks ==> !Tasks.IsLive(t, pid)
    ensures !RunSucceeds(ws, StatusRollup.UpdateProjectStatus(ps, tasks, pid, false), failAt)
  {
    StatusRollup.EmptyProjectLeavesEnum(ps, tasks, pid);
  }

  /** After a complete run every project of an existing workspace carries that
      workspace's members. */
  lemma RepairAllSynchronises(ws: seq<Workspace>, ps: seq<Project>)
    ensures forall k :: 0 <= k < |ps| && ps[k].workspace < |ws| ==>
              RepairAll(ws, ps)[k].members == ws[ps[k].workspace].members
  {
  }

  /** Running the repair twice gives the same projects as running it once. */
  lemma RepairAllIdempotent(ws: seq<Workspace>, ps: seq<Project>)
    ensures RepairAll(ws, RepairAll(ws, ps)) == RepairAll(ws, ps)
  {
  }
}
