/** What rows go back to, and what every request leaves: the tables as a record of the requests. */
module History {
  import opened Text
  import opened Configuration
  import opened Diff
  import opened Preview
  import opened Protocol
  import opened Invariant
  import opened Retention
  import opened Runs

  // Deployments go back to requests.

  /** The row still says what was asked for: one task for each node that was eligible. */
  ghost predicate AsRequested(d: Deployment, request: Request) {
    && d.clusterId == request.clusterId && d.revisionId == request.revisionId && d.origin == request.origin
    && d.rollbackOf == request.rollbackOf && d.requestedAt == request.requestedAt
    && |d.tasks| > 0
    && (forall i, j :: 0 <= i < j < |d.tasks| ==> d.tasks[i].nodeId != d.tasks[j].nodeId)
    && (forall n :: HasTask(d, n) <==> EligibleNode(request, n))
  }

  ghost predicate HasTask(d: Deployment, n: Id) {
    exists i :: 0 <= i < |d.tasks| && d.tasks[i].nodeId == n
  }

  /** Listed as enabled and out of maintenance, and named in the request if it names any. */
  ghost predicate EligibleNode(request: Request, n: Id) {
    exists r :: r in request.listing && r.id == n && r.enabled && !r.maintenance && (request.selected == {} || n in request.selected)
  }

  ghost predicate CreatedAt(run: Run, m: nat, id: Id, d: Deployment) {
    m < |run.actions| && run.actions[m].Create? && run.actions[m].deployment == id && AsRequested(d, run.actions[m].request)
  }

  lemma NewAsRequested(db: Db, id: Id, request: Request)
    requires CanCreate(db, id, request)
    ensures AsRequested(NewDeployment(db, request), request)
  {
    hide Plan, TargetsFit, OverridesValid, PlannedHash, EligibleNode;
    var document := db.revisions[request.revisionId].document;
    var plan, d := Plan(document, request.listing, request.selected), NewDeployment(db, request);
    PlanFacts(document, request.listing, request.selected);
    forall n
      ensures HasTask(d, n) <==> EligibleNode(request, n)
    {
      PlannedEligible(document, request, n);
      if n in plan {
        var i :| 0 <= i < |plan| && plan[i] == n;
        assert d.tasks[i].nodeId == n;
      }
    }
  }

  lemma PlannedEligible(document: DesiredDocument, request: Request, n: Id)
    requires DistinctListing(request.listing) && OverridesValid(document, EnabledIds(request.listing))
    ensures n in Plan(document, request.listing, request.selected) <==> EligibleNode(request, n)
  {
    hide OverridesValid, Plan, Targets, EnabledIds;
    PlanFacts(document, request.listing, request.selected);
  }

  lemma SameAsRequested(d: Deployment, d': Deployment, request: Request)
    requires AsRequested(d, request) && RowEvolves(d, d') && d'.requestedAt == d.requestedAt
    ensures AsRequested(d', request)
  {
    hide EligibleNode;
    forall n
      ensures HasTask(d', n) <==> HasTask(d, n)
    {
      SameTasks(d, d', n);
    }
    hide HasTask;
  }

  lemma SameTasks(d: Deployment, d': Deployment, n: Id)
    requires RowEvolves(d, d')
    ensures HasTask(d', n) <==> HasTask(d, n)
  {
    if HasTask(d, n) {
      var i :| 0 <= i < |d.tasks| && d.tasks[i].nodeId == n;
      assert d'.tasks[i].nodeId == n;
    }
    if HasTask(d', n) {
      var i :| 0 <= i < |d'.tasks| && d'.tasks[i].nodeId == n;
      assert d.tasks[i].nodeId == n;
    }
  }

  /** Rows keep what was asked for, whatever step is taken. */
  lemma RowsKeep(s: Sys, a: Action, s': Sys, id: Id)
    requires Step(s, a, s') && id in s'.db.deployments
    ensures id in s.db.deployments ==>
              RowEvolves(s.db.deployments[id], s'.db.deployments[id])
              && s'.db.deployments[id].requestedAt == s.db.deployments[id].requestedAt
    ensures id !in s.db.deployments ==>
              a.Create? && a.deployment == id && CanCreate(s.db, id, a.request)
              && s'.db.deployments[id] == NewDeployment(s.db, a.request)
  {
    hide ExecutorStep, OtherStep, CanCreate, NewDeployment;
    if ExecutorStep(s, a, s') {
      ExecutorEvolves(s, a, s');
      RequestTimesKept(s, a, s', id);
    } else {
      OtherRows(s, a, s', id);
    }
  }

  lemma RequestTimesKept(s: Sys, a: Action, s': Sys, id: Id)
    requires ExecutorStep(s, a, s') && id in s.db.deployments && id in s'.db.deployments
    ensures s'.db.deployments[id].requestedAt == s.db.deployments[id].requestedAt
  {
    hide PrepareStep, TaskStep, UnwindStep, StopStep;
    if TaskStep(s, a, s') {
      TaskTimes(s, a, s', id);
    } else if UnwindStep(s, a, s') {
      UnwindTimes(s, a, s', id);
    } else if PrepareStep(s, a, s') {
      PrepareTimes(s, a, s', id);
    } else {
      StopTimes(s, a, s', id);
    }
  }

  lemma TaskTimes(s: Sys, a: Action, s': Sys, id: Id)
    requires TaskStep(s, a, s') && id in s.db.deployments && id in s'.db.deployments
    ensures s'.db.deployments[id].requestedAt == s.db.deployments[id].requestedAt
  {
    hide ReadBackClean, WantsDhcp, Intent;
  }

  lemma UnwindTimes(s: Sys, a: Action, s': Sys, id: Id)
    requires UnwindStep(s, a, s') && id in s.db.deployments && id in s'.db.deployments
    ensures s'.db.deployments[id].requestedAt == s.db.deployments[id].requestedAt
  {
    hide ConcludeDrifts;
  }

  lemma PrepareTimes(s: Sys, a: Action, s': Sys, id: Id)
    requires PrepareStep(s, a, s') && id in s.db.deployments && id in s'.db.deployments
    ensures s'.db.deployments[id].requestedAt == s.db.deployments[id].requestedAt
  {
    hide Effective, Intent;
  }

  lemma StopTimes(s: Sys, a: Action, s': Sys, id: Id)
    requires StopStep(s, a, s') && id in s.db.deployments && id in s'.db.deployments
    ensures s'.db.deployments[id].requestedAt == s.db.deployments[id].requestedAt
  {
  }

  lemma OtherRows(s: Sys, a: Action, s': Sys, id: Id)
    requires OtherStep(s, a, s') && id in s'.db.deployments
    ensures id in s.db.deployments ==>
              RowEvolves(s.db.deployments[id], s'.db.deployments[id])
              && s'.db.deployments[id].requestedAt == s.db.deployments[id].requestedAt
    ensures id !in s.db.deployments ==>
              a.Create? && a.deployment == id && CanCreate(s.db, id, a.request)
              && s'.db.deployments[id] == NewDeployment(s.db, a.request)
  {
    hide CanCreate, NewDeployment, IsMaxNumber, ResolveDrifts;
    if a.Create? {
      NewDeploymentRevision(s.db, a.request, a.deployment);
    }
  }

  /** Every deployment goes back to a request of the run, and is for that cluster, revision, origin and time, with one
      task for each node that was eligible. */
  lemma {:induction false} CreatedByRequest(run: Run, k: nat, id: Id) returns (m: nat)
    requires IsRun(run) && k < |run.states| && id in run.states[k].db.deployments
    ensures m < k && CreatedAt(run, m, id, run.states[k].db.deployments[id])
  {
    hide Step, AsRequested, CanCreate, NewDeployment;
    assert k > 0;
    assert StepAt(run, k - 1);
    var s, s' := run.states[k - 1], run.states[k];
    RowsKeep(s, run.actions[k - 1], s', id);
    if id in s.db.deployments {
      m := CreatedByRequest(run, k - 1, id);
      SameAsRequested(s.db.deployments[id], s'.db.deployments[id], run.actions[m].request);
    } else {
      m := k - 1;
      NewAsRequested(s.db, id, run.actions[m].request);
    }
  }

  /** An activation goes back to a manual or rollback request for that cluster and revision. */
  lemma ActivationWasRequested(run: Run, k: nat, c: Id) returns (m: nat)
    requires IsRun(run) && k < |run.actions|
    requires c in run.states[k].db.active && c in run.states[k + 1].db.active
    requires run.states[k + 1].db.active[c] != run.states[k].db.active[c]
    ensures m <= k && run.actions[m].Create?
    ensures run.actions[m].request.clusterId == c && run.actions[m].request.origin != Reconciliation
    ensures run.states[k + 1].db.active[c] == Some(run.actions[m].request.revisionId)
  {
    hide Step, Init, FullyVerified, WasRead;
    ActivationOnlyVerified(run, k, c);
    m := CreatedByRequest(run, k + 1, run.states[k].pc.id);
  }

  // Revisions go back to publications.

  ghost predicate PublishedAt(run: Run, m: nat, r: Id, row: Revision) {
    && m < |run.actions| && run.actions[m].Publish? && run.actions[m].revision == r
    && row == Revision(run.actions[m].cluster, run.actions[m].number, run.actions[m].document)
  }

  lemma RevisionsKeep(s: Sys, a: Action, s': Sys, r: Id)
    requires Step(s, a, s') && r in s'.db.revisions
    ensures r in s.db.revisions ==> s'.db.revisions[r] == s.db.revisions[r]
    ensures r !in s.db.revisions ==>
              a.Publish? && a.revision == r && s'.db.revisions[r] == Revision(a.cluster, a.number, a.document)
  {
    hide ExecutorStep, OtherStep;
    if ExecutorStep(s, a, s') {
      ExecutorEvolves(s, a, s');
    } else {
      OtherRevisions(s, a, s', r);
    }
  }

  lemma OtherRevisions(s: Sys, a: Action, s': Sys, r: Id)
    requires OtherStep(s, a, s') && r in s'.db.revisions
    ensures r in s.db.revisions ==> s'.db.revisions[r] == s.db.revisions[r]
    ensures r !in s.db.revisions ==>
              a.Publish? && a.revision == r && s'.db.revisions[r] == Revision(a.cluster, a.number, a.document)
  {
    hide CanCreate, NewDeployment, IsMaxNumber, ResolveDrifts;
  }

  /** Every revision is, for as long as it exists, exactly what was published under its id. */
  lemma {:induction false} PublishedAsIs(run: Run, k: nat, r: Id) returns (m: nat)
    requires IsRun(run) && k < |run.states| && r in run.states[k].db.revisions
    ensures m < k && PublishedAt(run, m, r, run.states[k].db.revisions[r])
  {
    hide Step;
    assert k > 0;
    assert StepAt(run, k - 1);
    RevisionsKeep(run.states[k - 1], run.actions[k - 1], run.states[k], r);
    if r in run.states[k - 1].db.revisions {
      m := PublishedAsIs(run, k - 1, r);
    } else {
      m := k - 1;
    }
  }

  // One deployment at a time.

  ghost predicate Active(db: Db, id: Id, c: Id) {
    id in db.deployments && db.deployments[id].clusterId == c && !Terminal(db.deployments[id].status)
  }

  lemma ActiveStep(s: Sys, a: Action, s': Sys, id: Id, c: Id)
    requires Inv(s) && Step(s, a, s') && Active(s'.db, id, c)
    ensures Active(s.db, id, c) || (a.Create? && a.deployment == id && id !in s.db.deployments && !ClusterBusy(s.db, c))
  {
    hide Step, Inv, CanCreate, NewDeployment, ClusterBusy;
    RowsKeep(s, a, s', id);
    if id in s.db.deployments {
      if Terminal(s.db.deployments[id].status) {
        TerminalStep(s, a, s', id);
      }
    } else {
      NotBusy(s.db, id, a.request);
    }
  }

  lemma NotBusy(db: Db, id: Id, request: Request)
    requires CanCreate(db, id, request)
    ensures !ClusterBusy(db, request.clusterId) && NewDeployment(db, request).clusterId == request.clusterId
  {
    hide PlanValid, ListingRead, ClusterBusy;
  }

  /** In every reachable state a cluster has at most one deployment that has not ended. */
  lemma {:induction false} OneActivePerCluster(run: Run, k: nat, c: Id, id: Id, id': Id)
    requires IsRun(run) && k < |run.states| && Active(run.states[k].db, id, c) && Active(run.states[k].db, id', c)
    ensures id == id'
  {
    hide Step, Inv;
    assert k > 0;
    assert StepAt(run, k - 1);
    var s, a, s' := run.states[k - 1], run.actions[k - 1], run.states[k];
    Reachable(run, k - 1);
    ActiveStep(s, a, s', id, c);
    ActiveStep(s, a, s', id', c);
    if Active(s.db, id, c) && Active(s.db, id', c) {
      OneActivePerCluster(run, k - 1, c, id, id');
    }
  }

  /** A deployment that has not ended and is not being cancelled can be cancelled. */
  lemma CancelPossible(s: Sys, id: Id)
    requires id in s.db.deployments && !Terminal(s.db.deployments[id].status) && s.db.deployments[id].status != Cancelling
    ensures Step(s, Cancel(id), s.(db := RequestDeploymentCancel(s.db, id)))
  {
    hide ExecutorStep;
    assert OtherStep(s, Cancel(id), s.(db := RequestDeploymentCancel(s.db, id)));
  }

  // Recovery.

  /** After a restart: running tasks are interrupted, pending tasks of open deployments skipped, open deployments
      interrupted, and nothing else is different. */
  lemma RecoveryExact(run: Run, k: nat, id: Id, i: nat)
    requires IsRun(run) && k < |run.actions| && run.actions[k] == Recover
    requires id in run.states[k].db.deployments && i < |run.states[k].db.deployments[id].tasks|
    ensures run.states[k + 1].db == run.states[k].db.(deployments := run.states[k + 1].db.deployments)
    ensures run.states[k + 1].db.deployments.Keys == run.states[k].db.deployments.Keys
    ensures var d, d' := run.states[k].db.deployments[id], run.states[k + 1].db.deployments[id];
            && d' == d.(status := d'.status, tasks := d'.tasks) && |d'.tasks| == |d.tasks|
            && d'.status == (if Terminal(d.status) || d.status == Queued then d.status else Interrupted)
            && d'.tasks[i] == d.tasks[i].(status := d'.tasks[i].status)
            && d'.tasks[i].status ==
               match d.tasks[i].status
               case Applying => TaskInterrupted
               case Verifying => TaskInterrupted
               case Pending => if Terminal(d.status) || d.status == Queued then Pending else Skipped
               case other => other
  {
    hide PrepareStep, TaskStep, UnwindStep, OtherStep, Init, Intent, Effective;
    assert StepAt(run, k);
    RecoverIsStop(run.states[k], run.actions[k], run.states[k + 1]);
  }

  lemma RecoverIsStop(s: Sys, a: Action, s': Sys)
    requires Step(s, a, s') && a == Recover
    ensures StopStep(s, a, s')
  {
    hide StopStep, Intent, Effective, ReadBackClean;
  }

  // Drift.

  /** Drift refers to revisions and deployments that exist. */
  ghost predicate DriftRefers(db: Db, e: Id)
    requires e in db.drifts
  {
    && db.drifts[e].desiredRevision in db.revisions
    && (db.drifts[e].relatedDeployment.Some? ==> db.drifts[e].relatedDeployment.value in db.deployments)
  }

  lemma DriftOther(s: Sys, a: Action, s': Sys, e: Id)
    requires OtherStep(s, a, s') && e in s'.db.drifts && (e in s.db.drifts ==> DriftRefers(s.db, e))
    ensures DriftRefers(s'.db, e)
  {
    hide CanCreate, NewDeployment, IsMaxNumber;
  }

  lemma DriftExecutor(s: Sys, a: Action, s': Sys, e: Id)
    requires ExecutorStep(s, a, s')
    ensures s'.db.drifts == s.db.drifts || (a == Finish && Holds(s.pc) && s'.db.drifts == ConcludeDrifts(s.db.drifts, s.pc.id, FinishStatus(s.pc)))
  {
    hide PrepareStep, TaskStep, UnwindStep, StopStep, ConcludeDrifts;
    if TaskStep(s, a, s') {
      TaskDrifts(s, a, s');
    } else if UnwindStep(s, a, s') {
      UnwindDrifts(s, a, s');
    } else if PrepareStep(s, a, s') {
      PrepareDrifts(s, a, s');
    } else {
      StopDrifts(s, a, s');
    }
  }

  lemma TaskDrifts(s: Sys, a: Action, s': Sys)
    requires TaskStep(s, a, s')
    ensures s'.db.drifts == s.db.drifts
  {
    hide ReadBackClean, WantsDhcp, Intent;
  }

  lemma UnwindDrifts(s: Sys, a: Action, s': Sys)
    requires UnwindStep(s, a, s')
    ensures s'.db.drifts == s.db.drifts || (a == Finish && Holds(s.pc) && s'.db.drifts == ConcludeDrifts(s.db.drifts, s.pc.id, FinishStatus(s.pc)))
  {
    hide ConcludeDrifts;
  }

  lemma PrepareDrifts(s: Sys, a: Action, s': Sys)
    requires PrepareStep(s, a, s')
    ensures s'.db.drifts == s.db.drifts
  {
    hide Effective, Intent;
  }

  lemma StopDrifts(s: Sys, a: Action, s': Sys)
    requires StopStep(s, a, s')
    ensures s'.db.drifts == s.db.drifts
  {
  }

  /** In every reachable state drift refers to an existing revision and an existing deployment: neither can be deleted
      under it. */
  lemma {:induction false} DriftAlwaysRefers(run: Run, k: nat, e: Id)
    requires IsRun(run) && k < |run.states| && e in run.states[k].db.drifts
    ensures DriftRefers(run.states[k].db, e)
  {
    hide Step;
    assert k > 0;
    assert StepAt(run, k - 1);
    var s, a, s' := run.states[k - 1], run.actions[k - 1], run.states[k];
    if e in s.db.drifts {
      DriftAlwaysRefers(run, k - 1, e);
    }
    DriftStep(s, a, s', e);
  }

  lemma DriftStep(s: Sys, a: Action, s': Sys, e: Id)
    requires Step(s, a, s') && e in s'.db.drifts && (e in s.db.drifts ==> DriftRefers(s.db, e))
    ensures DriftRefers(s'.db, e)
  {
    hide ExecutorStep, OtherStep;
    if OtherStep(s, a, s') {
      DriftOther(s, a, s', e);
    } else {
      DriftExecutor(s, a, s', e);
      ExecutorEvolves(s, a, s');
    }
  }

  /** When a deployment finishes, open drift it was to enforce is enforcing exactly if it succeeded and failed otherwise;
      all other drift is as before. */
  lemma FinishConcludesDrift(s: Sys, s': Sys, e: Id)
    requires UnwindStep(s, Finish, s') && e in s.db.drifts
    ensures e in s'.db.drifts && s.pc.id in s'.db.deployments
    ensures var before, after, d := s.db.drifts[e], s'.db.drifts[e], s'.db.deployments[s.pc.id];
            if before.open && before.relatedDeployment == Some(s.pc.id)
            then after == before.(reconciling := if d.status == Succeeded then Enforcing else FailedToEnforce)
            else after == before
  {
  }

  lemma RemovalIs(s: Sys, s': Sys, n: Id, version: int)
    requires OtherStep(s, RemoveNode(n, version), s')
    ensures n in s.db.nodes && s' == s.(db := SoftDeleteNode(s.db, n))
  {
    hide SoftDeleteNode;
  }

  /** Removing a node keeps its row as deleted and closes its open drift as resolved. */
  lemma RemovalOfNode(db: Db, n: Id, e: Id, other: Id)
    requires n in db.nodes
    ensures var db' := SoftDeleteNode(db, n);
            && db'.nodes.Keys == db.nodes.Keys && db'.nodes[n].deleted && !db'.nodes[n].enabled
            && db'.nodes[n].applied == db.nodes[n].applied && db'.nodes[n].clusterId == db.nodes[n].clusterId
            && (other in db.nodes && other != n ==> db'.nodes[other] == db.nodes[other])
            && db'.drifts.Keys == db.drifts.Keys
            && (e in db.drifts ==>
                  if db.drifts[e].nodeId == n && db.drifts[e].open
                  then db'.drifts[e] == db.drifts[e].(open := false, reconciling := Resolved)
                  else db'.drifts[e] == db.drifts[e])
            && db'.active == db.active && db'.revisions == db.revisions && db'.deployments == db.deployments
  {
  }

  /** Removing a node takes its override, and only that, out of its cluster's draft. */
  lemma RemovalFromDraft(db: Db, n: Id, c: Id)
    requires n in db.nodes && c in db.drafts
    ensures var db' := SoftDeleteNode(db, n);
            && db'.drafts.Keys == db.drafts.Keys
            && db'.drafts[c].base == db.drafts[c].base
            && db'.drafts[c].document == db.drafts[c].document.(
                 nodeOverrides := if c == db.nodes[n].clusterId then db.drafts[c].document.nodeOverrides - {n}
                                  else db.drafts[c].document.nodeOverrides)
            && (db'.drafts[c] != db.drafts[c] ==> db'.drafts[c].version == db.drafts[c].version + 1)
            && (db'.drafts[c].document == db.drafts[c].document ==> db'.drafts[c] == db.drafts[c])
  {
    hide ResolveDrifts;
    if n !in db.drafts[c].document.nodeOverrides {
      assert db.drafts[c].document.nodeOverrides - {n} == db.drafts[c].document.nodeOverrides;
    } else {
      assert n !in db.drafts[c].document.nodeOverrides - {n};
    }
  }

  // Drafts.

  /** What every step does to a cluster's draft: an update or an import writes the document it brings, a publication
      rebases, a removed node loses its override, and nothing else touches it. */
  lemma DraftExact(s: Sys, a: Action, s': Sys, c: Id)
    requires Step(s, a, s') && c in s'.db.drafts
    ensures (a.UpdateDraft? && a.cluster == c) || (a.FinishImport? && a.read.clusterId == c) ==>
              s'.db.drafts[c].document == a.document
              && (c in s.db.drafts ==> s'.db.drafts[c].version == s.db.drafts[c].version + 1)
    ensures a.UpdateDraft? && a.cluster == c ==> c in s.db.drafts && s'.db.drafts[c].base == s.db.drafts[c].base
    ensures a.FinishImport? && a.read.clusterId == c ==> s'.db.drafts[c].base == a.read.base
    ensures a.Publish? && a.cluster == c ==>
              && c in s.db.drafts && s'.db.drafts[c].document == s.db.drafts[c].document
              && s'.db.drafts[c].base == Some(a.revision) && s'.db.drafts[c].version == s.db.drafts[c].version + 1
    ensures !(a.UpdateDraft? && a.cluster == c) && !(a.FinishImport? && a.read.clusterId == c)
            && !(a.Publish? && a.cluster == c) && !a.RemoveNode? ==>
              c in s.db.drafts && s'.db.drafts[c] == s.db.drafts[c]
  {
    hide ExecutorStep, OtherStep;
    if OtherStep(s, a, s') {
      DraftOther(s, a, s', c);
    } else {
      ExecutorEvolves(s, a, s');
      ExecutorKinds(s, a, s');
    }
  }

  lemma DraftOther(s: Sys, a: Action, s': Sys, c: Id)
    requires OtherStep(s, a, s') && c in s'.db.drafts
    ensures (a.UpdateDraft? && a.cluster == c) || (a.FinishImport? && a.read.clusterId == c) ==>
              s'.db.drafts[c].document == a.document
              && (c in s.db.drafts ==> s'.db.drafts[c].version == s.db.drafts[c].version + 1)
    ensures a.UpdateDraft? && a.cluster == c ==> c in s.db.drafts && s'.db.drafts[c].base == s.db.drafts[c].base
    ensures a.FinishImport? && a.read.clusterId == c ==> s'.db.drafts[c].base == a.read.base
    ensures a.Publish? && a.cluster == c ==>
              && c in s.db.drafts && s'.db.drafts[c].document == s.db.drafts[c].document
              && s'.db.drafts[c].base == Some(a.revision) && s'.db.drafts[c].version == s.db.drafts[c].version + 1
    ensures !(a.UpdateDraft? && a.cluster == c) && !(a.FinishImport? && a.read.clusterId == c)
            && !(a.Publish? && a.cluster == c) && !a.RemoveNode? ==>
              c in s.db.drafts && s'.db.drafts[c] == s.db.drafts[c]
  {
    hide CanCreate, NewDeployment, IsMaxNumber, ResolveDrifts, SoftDeleteNode;
  }

  lemma ExecutorKinds(s: Sys, a: Action, s': Sys)
    requires ExecutorStep(s, a, s')
    ensures !a.UpdateDraft? && !a.FinishImport? && !a.Publish?
  {
    hide ReadBackClean, WantsDhcp, Effective, Intent, ConcludeDrifts;
  }

  // Deletion.

  /** Some row of some table names the revision. */
  ghost predicate Named(db: Db, r: Id) {
    || (exists c :: c in db.active && db.active[c] == Some(r))
    || (exists n :: n in db.nodes && db.nodes[n].applied == Some(r))
    || (exists c :: c in db.drafts && db.drafts[c].base == Some(r))
    || (exists p :: p in db.deployments && (db.deployments[p].revisionId == r || db.deployments[p].rollbackOf == Some(r)))
    || (exists e :: e in db.drifts && db.drifts[e].desiredRevision == r)
  }

  /** In every reachable state a revision can be deleted if and only if no row of any table names it and its cluster has
      an active revision. */
  lemma DeletableExactly(run: Run, k: nat, r: Id)
    requires IsRun(run) && k < |run.states| && r in run.states[k].db.revisions
    ensures run.states[k].db.revisions[r].clusterId in run.states[k].db.active
    ensures CanDeleteRevision(run.states[k].db, r) <==>
            !Named(run.states[k].db, r) && run.states[k].db.active[run.states[k].db.revisions[r].clusterId].Some?
  {
    hide Step, Init, RowsInv, PcInv, IntentInv, DraftsInv, HashFor;
    Reachable(run, k);
    var db := run.states[k].db;
    if c :| c in db.active && db.active[c] == Some(r) {
      assert ClusterPin(db, c);
    }
  }
}
