/** What holds in every reachable state of the control plane, proved step by step. */
module Invariant {
  import opened Text
  import opened Configuration
  import opened Diff
  import opened Preview
  import opened Protocol

  // Deployment rows.

  predicate Untouched(status: TaskStatus) {
    status == Pending || status == Skipped
  }

  ghost predicate ShapeAt(tasks: seq<Task>, m: nat) {
    && (forall j :: 0 <= j < m && j < |tasks| ==> tasks[j].status == TaskSucceeded)
    && (forall j :: m < j < |tasks| ==> Untouched(tasks[j].status))
  }

  /** Succeeded tasks, then at most one task in any other state, then only pending or skipped tasks. */
  ghost predicate TaskShape(tasks: seq<Task>) {
    exists m: nat :: m <= |tasks| && ShapeAt(tasks, m)
  }

  ghost predicate RowInv(d: Deployment) {
    && |d.tasks| > 0
    && TaskShape(d.tasks)
    && (d.status == Queued ==> !d.started && !d.cancelRequested)
    && (d.status == Queued ==> forall i :: 0 <= i < |d.tasks| ==> d.tasks[i].status == Pending)
    && (d.status == Cancelling ==> d.cancelRequested)
    && (d.status == Validating || d.status == Cancelling ==>
          forall i :: 0 <= i < |d.tasks| ==> Untouched(d.tasks[i].status))
    && (Terminal(d.status) ==> forall i :: 0 <= i < |d.tasks| ==> !Unfinished(d.tasks[i].status))
    && (d.status == Succeeded ==> forall i :: 0 <= i < |d.tasks| ==> d.tasks[i].status == TaskSucceeded)
  }

  ghost predicate RowsInv(db: Db) {
    forall id :: id in db.deployments ==> RowInv(db.deployments[id])
  }

  // The held row is exactly as far as the program counter says.

  ghost predicate Range(tasks: seq<Task>, from: nat, to: nat, status: TaskStatus) {
    forall j :: from <= j < to && j < |tasks| ==> tasks[j].status == status
  }

  /** Targets before i carry the deployment's revision. */
  ghost predicate AppliedUpTo(db: Db, d: Deployment, i: nat) {
    forall j :: 0 <= j < i && j < |d.tasks| ==>
      d.tasks[j].nodeId in db.nodes && db.nodes[d.tasks[j].nodeId].applied == Some(d.revisionId)
  }

  ghost predicate AtTarget(db: Db, d: Deployment, i: nat) {
    && d.status == Running && i < |d.tasks|
    && Range(d.tasks, 0, i, TaskSucceeded) && Range(d.tasks, i + 1, |d.tasks|, Pending)
    && AppliedUpTo(db, d, i)
  }

  /** Working through the targets. */
  ghost predicate TargetRow(db: Db, pc: Pc, d: Deployment) {
    match pc
    case Boundary(_, i) =>
      && d.status == Running && i <= |d.tasks|
      && Range(d.tasks, 0, i, TaskSucceeded) && Range(d.tasks, i, |d.tasks|, Pending) && AppliedUpTo(db, d, i)
    case Entering(_, i) => AtTarget(db, d, i) && d.tasks[i].status == Pending
    case Configuring(_, i) => AtTarget(db, d, i) && d.tasks[i].status == Applying
    case Applied(_, i) => AtTarget(db, d, i) && d.tasks[i].status == Applying
    case Reading(_, i) => AtTarget(db, d, i) && d.tasks[i].status == Verifying
    case Verified(_, i, observed) =>
      && AtTarget(db, d, i) && d.tasks[i].status == Verifying
      && d.revisionId in db.revisions
      && ReadBackClean(db.revisions[d.revisionId].document, d.tasks[i].nodeId, observed)
    case Marking(_, i) => AtTarget(db, d, i) && d.tasks[i].status == TaskSucceeded
    case FailingNode(_, i) => AtTarget(db, d, i) && (d.tasks[i].status == Applying || d.tasks[i].status == Verifying)
    case _ => true
  }

  /** Skipping what is left. */
  ghost predicate UnwindRow(pc: Pc, d: Deployment) {
    match pc
    case FailingBefore(_, k) =>
      && d.status == Validating && k <= |d.tasks|
      && Range(d.tasks, 0, k, Skipped) && Range(d.tasks, k, |d.tasks|, Pending)
    case FailSkipping(_, i, k) =>
      && d.status == Running && i < k <= |d.tasks| && Range(d.tasks, 0, i, TaskSucceeded)
      && d.tasks[i].status == TaskFailed && Range(d.tasks, i + 1, k, Skipped) && Range(d.tasks, k, |d.tasks|, Pending)
    case CancelSkipping(_, i, k) =>
      && Open(d.status) && (d.status == Running || i == 0) && i <= k <= |d.tasks|
      && d.cancelRequested
      && Range(d.tasks, 0, i, TaskSucceeded) && Range(d.tasks, i, k, Skipped)
      && (forall j :: k <= j < |d.tasks| ==> Untouched(d.tasks[j].status))
    case _ => true
  }

  ghost predicate PrepareRow(pc: Pc, d: Deployment) {
    match pc
    case Claimed(_) => d.status == Cancelling || (d.status == Validating && Range(d.tasks, 0, |d.tasks|, Pending))
    case Preparing(_) => d.status == Validating && Range(d.tasks, 0, |d.tasks|, Pending)
    case _ => true
  }

  ghost predicate PcInv(s: Sys) {
    Holds(s.pc) ==>
      && s.pc.id in s.db.deployments
      && PrepareRow(s.pc, Held(s)) && TargetRow(s.db, s.pc, Held(s)) && UnwindRow(s.pc, Held(s))
  }

  /** Deployments refer to clusters, revisions and nodes that exist. */
  ghost predicate RowRefs(db: Db, d: Deployment) {
    && d.clusterId in db.active
    && d.revisionId in db.revisions && db.revisions[d.revisionId].clusterId == d.clusterId
    && (d.rollbackOf.Some? ==> d.rollbackOf.value in db.revisions)
    && (forall i :: 0 <= i < |d.tasks| ==>
          d.tasks[i].nodeId in db.nodes && db.nodes[d.tasks[i].nodeId].clusterId == d.clusterId)
  }

  ghost predicate RefsInv(db: Db) {
    && (forall id :: id in db.deployments ==> RowRefs(db, db.deployments[id]))
    && (forall r :: r in db.revisions ==> db.revisions[r].clusterId in db.active)
  }

  /** A claim or a start changes the status of a row and nothing else the invariants look at. */
  lemma RestatedRow(d: Deployment, status: DeploymentStatus, started: bool)
    requires RowInv(d) && (status == Running || status == Validating || (status == Cancelling && d.cancelRequested))
    requires status != Running ==> forall i :: 0 <= i < |d.tasks| ==> Untouched(d.tasks[i].status)
    ensures RowInv(d.(status := status, started := started))
  {
  }

  lemma RowsClaim(s: Sys, a: Action, s': Sys)
    requires RowsInv(s.db) && PcInv(s) && PrepareStep(s, a, s') && a.Claim?
    ensures RowsInv(s'.db) && PcInv(s')
  {
    var d := s.db.deployments[a.claimed];
    assert RowInv(d);
    RestatedRow(d, if d.cancelRequested then Cancelling else Validating, true);
  }

  lemma RowsStart(s: Sys, a: Action, s': Sys)
    requires RowsInv(s.db) && PcInv(s) && PrepareStep(s, a, s') && a.PrepareSucceeds?
    ensures RowsInv(s'.db) && PcInv(s')
  {
    hide Effective, RowInv;
    assert RowInv(Held(s));
    RestatedRow(Held(s), Running, Held(s).started);
  }

  lemma RowsPrepare(s: Sys, a: Action, s': Sys)
    requires RowsInv(s.db) && PcInv(s) && PrepareStep(s, a, s')
    ensures RowsInv(s'.db) && PcInv(s')
  {
    if a.Claim? {
      hide PrepareStep, RowsInv, PcInv;
      RowsClaim(s, a, s');
    } else if a.PrepareSucceeds? {
      hide PrepareStep, RowsInv, PcInv;
      RowsStart(s, a, s');
    } else {
      hide Effective, Intent, RowInv;
      if a.Load? {
        assert RowInv(Held(s));
        LoadedRow(Held(s));
      }
    }
  }

  lemma LoadedRow(d: Deployment)
    requires RowInv(d)
    ensures d.status == Cancelling ==> d.cancelRequested && forall i :: 0 <= i < |d.tasks| ==> Untouched(d.tasks[i].status)
  {
  }

  /** Rewriting task i of a row that is at target i. */
  lemma ShapeAfterWrite(tasks: seq<Task>, i: nat, task: Task)
    requires i < |tasks| && ShapeAt(tasks, i)
    ensures ShapeAt(tasks[i := task], i) && TaskShape(tasks[i := task])
  {
  }

  lemma RunningRow(d: Deployment, tasks: seq<Task>)
    requires RowInv(d) && d.status == Running && |tasks| == |d.tasks| && TaskShape(tasks)
    ensures RowInv(d.(tasks := tasks))
  {
  }

  lemma AtTargetWrite(db: Db, db': Db, d: Deployment, i: nat, task: Task)
    requires AtTarget(db, d, i) && task.nodeId == d.tasks[i].nodeId && db'.nodes == db.nodes
    ensures AtTarget(db', d.(tasks := d.tasks[i := task]), i)
  {
    assert forall j :: 0 <= j < |d.tasks| && j != i ==> d.tasks[i := task][j] == d.tasks[j];
  }

  lemma RowsTaskWrite(s: Sys, a: Action, s': Sys)
    requires RowsInv(s.db) && PcInv(s) && TaskStep(s, a, s')
    requires a.EnterTask? || a.StartVerifying? || a.RecordSuccess? || a.FailTask?
    ensures RowsInv(s'.db) && PcInv(s')
  {
    hide ReadBackClean, WantsDhcp, RowInv, TaskShape;
    var d, i, d' := Held(s), s.pc.i, Held(s');
    ShapeAfterWrite(d.tasks, i, d'.tasks[i]);
    assert d' == d.(tasks := d.tasks[i := d'.tasks[i]]);
    RunningRow(d, d'.tasks);
    AtTargetWrite(s.db, s'.db, d, i, d'.tasks[i]);
  }

  lemma RowsTask(s: Sys, a: Action, s': Sys)
    requires RowsInv(s.db) && PcInv(s) && RefsInv(s.db) && TaskStep(s, a, s')
    ensures RowsInv(s'.db) && PcInv(s')
  {
    hide ReadBackClean, WantsDhcp, RowInv;
    assert RowRefs(s.db, Held(s));
    if a.EnterTask? || a.StartVerifying? || a.RecordSuccess? || a.FailTask? {
      RowsTaskWrite(s, a, s');
    }
  }

  /** The tasks after one more skip, and what the row then looks like. */
  lemma SkippedTasks(d: Deployment, m: nat, k: nat, task: Task)
    requires RowInv(d) && Open(d.status) && k < |d.tasks| && task.status == Skipped
    requires ShapeAt(d.tasks, m) && m <= |d.tasks| && (m < k || (m == k && Untouched(d.tasks[k].status)))
    ensures RowInv(d.(tasks := d.tasks[k := task]))
  {
    assert ShapeAt(d.tasks[k := task], m);
  }

  lemma UnwindSkip(pc: Pc, d: Deployment, task: Task)
    requires Unwinding(pc) && UnwindRow(pc, d) && RowInv(d) && pc.next < |d.tasks| && task.status == Skipped
    ensures var d' := d.(tasks := d.tasks[pc.next := task]);
            UnwindRow(Advance(pc), d') && RowInv(d')
    ensures d.tasks[pc.next].status != Pending && pc.CancelSkipping? ==> UnwindRow(Advance(pc), d)
  {
    var tasks := d.tasks[pc.next := task];
    assert forall j :: 0 <= j < |d.tasks| && j != pc.next ==> tasks[j] == d.tasks[j];
    SkippedTasks(d, if pc.FailingBefore? then 0 else pc.i, pc.next, task);
  }

  lemma RowsSkip(s: Sys, s': Sys)
    requires RowsInv(s.db) && PcInv(s) && UnwindStep(s, SkipTask, s')
    ensures RowsInv(s'.db) && PcInv(s')
  {
    hide RowInv, UnwindRow;
    UnwindSkip(s.pc, Held(s), Held(s).tasks[s.pc.next].(status := Skipped));
  }

  lemma FinishedRow(d: Deployment, status: DeploymentStatus)
    requires RowInv(d) && Terminal(status)
    requires forall i :: 0 <= i < |d.tasks| ==> !Unfinished(d.tasks[i].status)
    requires status == Succeeded ==> Range(d.tasks, 0, |d.tasks|, TaskSucceeded)
    ensures RowInv(d.(status := status))
  {
  }

  lemma AllFinished(pc: Pc, d: Deployment, db: Db)
    requires TargetRow(db, pc, d) && UnwindRow(pc, d)
    requires if pc.Boundary? then pc.i == |d.tasks| else Unwinding(pc) && pc.next == |d.tasks|
    ensures forall i :: 0 <= i < |d.tasks| ==> !Unfinished(d.tasks[i].status)
    ensures FinishStatus(pc) == Succeeded ==> Range(d.tasks, 0, |d.tasks|, TaskSucceeded)
  {
    hide ReadBackClean;
  }

  lemma RowsFinish(s: Sys, s': Sys)
    requires RowsInv(s.db) && PcInv(s) && UnwindStep(s, Finish, s')
    ensures RowsInv(s'.db) && PcInv(s')
  {
    hide RowInv, UnwindRow, TargetRow, PrepareRow, Range;
    AllFinished(s.pc, Held(s), s.db);
    FinishedRow(Held(s), FinishStatus(s.pc));
  }

  lemma InterruptedRow(d: Deployment)
    requires RowInv(d)
    ensures RowInv(InterruptDeployment(d))
  {
    var d' := InterruptDeployment(d);
    var m: nat :| m <= |d.tasks| && ShapeAt(d.tasks, m);
    assert ShapeAt(d'.tasks, m);
    if d.status == Queued {
      assert d'.tasks == d.tasks;
    }
  }

  lemma RowsStop(s: Sys, a: Action, s': Sys)
    requires RowsInv(s.db) && PcInv(s) && StopStep(s, a, s')
    ensures RowsInv(s'.db) && PcInv(s')
  {
    if a.Recover? {
      forall id | id in s'.db.deployments
        ensures RowInv(s'.db.deployments[id])
      {
        InterruptedRow(s.db.deployments[id]);
      }
    }
  }

  lemma NewRow(db: Db, id: Id, request: Request)
    requires CanCreate(db, id, request)
    ensures RowInv(NewDeployment(db, request))
  {
    hide Plan, PlannedHash, DistinctListing, OverridesValid, ClusterBusy;
    var d := NewDeployment(db, request);
    assert ShapeAt(d.tasks, 0);
  }

  /** Steps that touch the held row only to raise its cancel flag leave the executor's view intact. */
  lemma PcFrame(s: Sys, s': Sys)
    requires PcInv(s) && s'.pc == s.pc
    requires Holds(s.pc) ==>
               && s.pc.id in s'.db.deployments
               && (Held(s') == Held(s) || Held(s') == Held(s).(cancelRequested := true))
               && (Held(s).revisionId in s.db.revisions ==>
                     Held(s).revisionId in s'.db.revisions
                     && s'.db.revisions[Held(s).revisionId] == s.db.revisions[Held(s).revisionId])
    requires forall n :: n in s.db.nodes ==> n in s'.db.nodes && s'.db.nodes[n].applied == s.db.nodes[n].applied
    ensures PcInv(s')
  {
    hide ReadBackClean;
    if Holds(s.pc) {
      assert Held(s').tasks == Held(s).tasks;
    }
  }

  lemma RowsOtherDeployments(s: Sys, a: Action, s': Sys)
    requires RowsInv(s.db) && PcInv(s) && OtherStep(s, a, s')
    requires a.Create? || a.DeleteDeployment? || a.Cancel?
    ensures RowsInv(s'.db) && PcInv(s')
  {
    hide PcInv, RowInv, CanCreate, NewDeployment;
    HeldNotQueued(s);
    if a.Create? {
      NewRow(s.db, a.deployment, a.request);
      assert CanCreate(s.db, a.deployment, a.request) ==> a.deployment !in s.db.deployments by {
        Fresh(s.db, a.deployment, a.request);
      }
    } else if a.Cancel? {
      CancelledRow(s.db.deployments[a.deployment]);
    }
    PcFrame(s, s');
  }

  lemma Fresh(db: Db, id: Id, request: Request)
    requires CanCreate(db, id, request)
    ensures id !in db.deployments
  {
  }

  /** Requests about anything but deployments leave what the executor sees alone. */
  ghost predicate Aside(s: Sys, s': Sys) {
    && s'.pc == s.pc && s'.db.deployments == s.db.deployments
    && (forall n :: n in s.db.nodes ==> n in s'.db.nodes && s'.db.nodes[n].applied == s.db.nodes[n].applied)
    && (forall r :: r in s.db.revisions ==>
          || (r in s'.db.revisions && s'.db.revisions[r] == s.db.revisions[r])
          || forall id :: id in s.db.deployments ==> s.db.deployments[id].revisionId != r)
  }

  lemma OtherAside(s: Sys, a: Action, s': Sys)
    requires OtherStep(s, a, s') && !a.Create? && !a.DeleteDeployment? && !a.Cancel?
    ensures Aside(s, s')
  {
    hide IsMaxNumber, ResolveDrifts;
  }

  lemma RowsOther(s: Sys, a: Action, s': Sys)
    requires RowsInv(s.db) && PcInv(s) && OtherStep(s, a, s')
    ensures RowsInv(s'.db) && PcInv(s')
  {
    hide PcInv, RowInv, OtherStep;
    if a.Create? || a.DeleteDeployment? || a.Cancel? {
      RowsOtherDeployments(s, a, s');
    } else {
      OtherAside(s, a, s');
      HeldNotQueued(s);
      PcFrame(s, s');
    }
  }

  lemma HeldNotQueued(s: Sys)
    requires PcInv(s)
    ensures Holds(s.pc) ==> s.pc.id in s.db.deployments && Open(Held(s).status)
  {
    hide ReadBackClean;
  }

  lemma CancelledRow(d: Deployment)
    requires RowInv(d) && (d.status == Queued || d.status == Validating || d.status == Running)
    ensures RowInv(d.(cancelRequested := true, status := if d.status == Queued then Cancelling else d.status))
  {
  }
}
