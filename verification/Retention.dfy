/** References, retained history and revision numbers: the invariants that tie the tables together. */
module Retention {
  import opened Text
  import opened Configuration
  import opened Diff
  import opened Preview
  import opened Protocol
  import opened Invariant

  /** What a step of the executor can do to a deployment row. */
  ghost predicate RowEvolves(d: Deployment, d': Deployment) {
    && d'.clusterId == d.clusterId && d'.revisionId == d.revisionId && d'.rollbackOf == d.rollbackOf
    && d'.origin == d.origin
    && (d.status != Queued ==> d'.status != Queued)
    && |d'.tasks| == |d.tasks|
    && forall i :: 0 <= i < |d.tasks| ==>
         d'.tasks[i].nodeId == d.tasks[i].nodeId && d'.tasks[i].effectiveHash == d.tasks[i].effectiveHash
  }

  /** What a step of the executor can do to the database, node rows and the active revision aside. */
  ghost predicate Evolves(db: Db, db': Db) {
    && db'.revisions == db.revisions && db'.drafts == db.drafts
    && db'.active.Keys == db.active.Keys && db'.nodes.Keys == db.nodes.Keys
    && db'.deployments.Keys == db.deployments.Keys
    && (forall n :: n in db.nodes ==> db'.nodes[n].clusterId == db.nodes[n].clusterId)
    && forall id :: id in db.deployments ==> RowEvolves(db.deployments[id], db'.deployments[id])
  }

  /** No task becomes succeeded. */
  ghost predicate SuccessFrame(d: Deployment, d': Deployment) {
    forall i :: 0 <= i < |d.tasks| && i < |d'.tasks| && d'.tasks[i].status == TaskSucceeded ==>
      d.tasks[i].status == TaskSucceeded && d'.tasks[i].snapshot == d.tasks[i].snapshot
  }

  ghost predicate NoNewSuccess(db: Db, db': Db) {
    forall id :: id in db.deployments && id in db'.deployments ==>
      SuccessFrame(db.deployments[id], db'.deployments[id])
  }

  lemma PrepareEvolves(s: Sys, a: Action, s': Sys)
    requires PrepareStep(s, a, s')
    ensures Evolves(s.db, s'.db) && s'.inFlight == s.inFlight && NoNewSuccess(s.db, s'.db)
  {
    hide Evolves, NoNewSuccess, HeldExists, Effective;
    if a.Claim? {
      RowWriteEvolves(s.db, a.claimed, s'.db.deployments[a.claimed]);
    } else if a.PrepareSucceeds? && s'.db != s.db {
      RowWriteEvolves(s.db, s.pc.id, s'.db.deployments[s.pc.id]);
    } else {
      NothingEvolves(s.db);
    }
  }

  lemma NothingEvolves(db: Db)
    ensures Evolves(db, db) && NoNewSuccess(db, db)
  {
  }

  lemma RowWriteEvolves(db: Db, id: Id, d: Deployment)
    requires id in db.deployments && RowEvolves(db.deployments[id], d)
    ensures Evolves(db, db.(deployments := db.deployments[id := d]))
    ensures SuccessFrame(db.deployments[id], d) ==> NoNewSuccess(db, db.(deployments := db.deployments[id := d]))
  {
  }

  lemma TaskEvolves(s: Sys, a: Action, s': Sys)
    requires TaskStep(s, a, s')
    ensures Evolves(s.db, s'.db) && s'.inFlight == s.inFlight
    ensures !a.RecordSuccess? ==> NoNewSuccess(s.db, s'.db)
  {
    if a.EnterTask? || a.StartVerifying? || a.RecordSuccess? || a.FailTask? {
      hide TaskStep, Evolves, NoNewSuccess;
      TaskWriteEvolves(s, a, s');
    } else {
      hide ReadBackClean, WantsDhcp, Intent, Evolves, NoNewSuccess;
      NodesEvolve(s.db, s'.db);
    }
  }

  lemma TaskWriteEvolves(s: Sys, a: Action, s': Sys)
    requires TaskStep(s, a, s') && (a.EnterTask? || a.StartVerifying? || a.RecordSuccess? || a.FailTask?)
    ensures Evolves(s.db, s'.db) && s'.inFlight == s.inFlight
    ensures !a.RecordSuccess? ==> NoNewSuccess(s.db, s'.db)
  {
    hide ReadBackClean, WantsDhcp, Intent, Evolves, NoNewSuccess;
    RowWriteEvolves(s.db, s.pc.id, s'.db.deployments[s.pc.id]);
  }

  lemma NodesEvolve(db: Db, db': Db)
    requires db'.nodes.Keys == db.nodes.Keys && db' == db.(nodes := db'.nodes)
    requires forall n :: n in db.nodes ==> db'.nodes[n].clusterId == db.nodes[n].clusterId
    ensures Evolves(db, db') && NoNewSuccess(db, db')
  {
  }

  lemma UnwindEvolves(s: Sys, a: Action, s': Sys)
    requires UnwindStep(s, a, s')
    ensures Evolves(s.db, s'.db) && s'.inFlight == s.inFlight && NoNewSuccess(s.db, s'.db)
  {
    hide Evolves, NoNewSuccess;
    if a.Finish? {
      FinishEvolves(s.db, s.pc.id, FinishStatus(s.pc), s.pc.Boundary? && Held(s).origin != Reconciliation);
    } else if s'.db == s.db {
      NothingEvolves(s.db);
    } else {
      RowWriteEvolves(s.db, s.pc.id, s'.db.deployments[s.pc.id]);
    }
  }

  lemma FinishEvolves(db: Db, id: Id, status: DeploymentStatus, activate: bool)
    requires id in db.deployments && status != Queued
    ensures Evolves(db, FinishDeployment(db, id, status, activate)) && NoNewSuccess(db, FinishDeployment(db, id, status, activate))
  {
  }

  lemma StopEvolves(s: Sys, a: Action, s': Sys)
    requires StopStep(s, a, s')
    ensures Evolves(s.db, s'.db) && s'.inFlight == s.inFlight && NoNewSuccess(s.db, s'.db)
  {
    if a.Recover? {
      InterruptEvolves(s.db);
    } else {
      NothingEvolves(s.db);
    }
  }

  lemma InterruptEvolves(db: Db)
    ensures Evolves(db, InterruptDeployments(db)) && NoNewSuccess(db, InterruptDeployments(db))
  {
    forall id | id in db.deployments
      ensures RowEvolves(db.deployments[id], InterruptDeployment(db.deployments[id]))
      ensures SuccessFrame(db.deployments[id], InterruptDeployment(db.deployments[id]))
    {
    }
  }

  /** Only a recorded read-back makes a task succeeded. */
  lemma ExecutorEvolves(s: Sys, a: Action, s': Sys)
    requires ExecutorStep(s, a, s')
    ensures Evolves(s.db, s'.db) && s'.inFlight == s.inFlight
    ensures !a.RecordSuccess? ==> NoNewSuccess(s.db, s'.db)
  {
    hide PrepareStep, TaskStep, UnwindStep, StopStep, Evolves, NoNewSuccess;
    if PrepareStep(s, a, s') {
      PrepareEvolves(s, a, s');
    } else if TaskStep(s, a, s') {
      TaskEvolves(s, a, s');
    } else if UnwindStep(s, a, s') {
      UnwindEvolves(s, a, s');
    } else {
      StopEvolves(s, a, s');
    }
  }

  // References.

  lemma RefsExecutor(db: Db, db': Db)
    requires RefsInv(db) && Evolves(db, db')
    ensures RefsInv(db')
  {
    forall id | id in db'.deployments
      ensures RowRefs(db', db'.deployments[id])
    {
      assert RowRefs(db, db.deployments[id]);
    }
  }

  lemma RefsCreate(db: Db, id: Id, request: Request)
    requires RefsInv(db) && CanCreate(db, id, request)
    ensures RefsInv(CreateDeployment(db, id, request))
    ensures NewDeployment(db, request).clusterId in db.active
  {
    var document := db.revisions[request.revisionId].document;
    var plan := Plan(document, request.listing, request.selected);
    var db' := CreateDeployment(db, id, request);
    PlanFacts(document, request.listing, request.selected);
    TargetsFacts(request.listing, request.selected);
    forall i | 0 <= i < |plan|
      ensures plan[i] in db.nodes && db.nodes[plan[i]].clusterId == request.clusterId
    {
      assert plan[i] in plan;
    }
    forall p | p in db'.deployments
      ensures RowRefs(db', db'.deployments[p])
    {
      if p != id {
        assert RowRefs(db, db.deployments[p]);
      }
    }
  }

  /** Rows may go, revisions nobody deploys may go, and everything else may grow. */
  lemma RefsFrame(db: Db, db': Db)
    requires RefsInv(db)
    requires forall id :: id in db'.deployments ==>
               id in db.deployments && RowEvolves(db.deployments[id], db'.deployments[id])
    requires db.active.Keys <= db'.active.Keys && db.nodes.Keys <= db'.nodes.Keys
    requires forall n :: n in db.nodes ==> db'.nodes[n].clusterId == db.nodes[n].clusterId
    requires forall r :: r in db.revisions ==>
               || (r in db'.revisions && db'.revisions[r] == db.revisions[r])
               || forall id :: id in db.deployments ==>
                    db.deployments[id].revisionId != r && db.deployments[id].rollbackOf != Some(r)
    requires forall r :: r in db'.revisions ==> r in db.revisions || db'.revisions[r].clusterId in db'.active
    requires forall r :: r in db'.revisions && r in db.revisions ==> db'.revisions[r] == db.revisions[r]
    ensures RefsInv(db')
  {
    forall id | id in db'.deployments
      ensures RowRefs(db', db'.deployments[id])
    {
      assert RowRefs(db, db.deployments[id]);
    }
  }

  lemma RefsOther(s: Sys, a: Action, s': Sys)
    requires RefsInv(s.db) && OtherStep(s, a, s')
    requires forall c :: c in s.db.drafts ==> c in s.db.active
    ensures RefsInv(s'.db)
  {
    hide CanCreate, NewDeployment, IsMaxNumber, RefsInv;
    if a.Create? {
      RefsCreate(s.db, a.deployment, a.request);
    } else if a.DeleteDeployment? || a.Cancel? {
      RefsFrame(s.db, s'.db);
    } else {
      hide OtherStep;
      OtherAside(s, a, s');
      OtherGrows(s, a, s');
      RefsFrame(s.db, s'.db);
    }
  }

  /** Requests about anything but deployments drop no cluster or node, and no revision that is rolled back to. */
  lemma OtherGrows(s: Sys, a: Action, s': Sys)
    requires OtherStep(s, a, s') && !a.Create? && !a.DeleteDeployment? && !a.Cancel?
    requires forall c :: c in s.db.drafts ==> c in s.db.active
    ensures s.db.active.Keys <= s'.db.active.Keys && s.db.nodes.Keys <= s'.db.nodes.Keys
    ensures forall n :: n in s.db.nodes ==> s'.db.nodes[n].clusterId == s.db.nodes[n].clusterId
    ensures forall r :: r in s.db.revisions ==>
              r in s'.db.revisions || forall id :: id in s.db.deployments ==> s.db.deployments[id].rollbackOf != Some(r)
    ensures forall r :: r in s'.db.revisions ==> r in s.db.revisions || s'.db.revisions[r].clusterId in s'.db.active
    ensures forall r :: r in s'.db.revisions && r in s.db.revisions ==> s'.db.revisions[r] == s.db.revisions[r]
  {
    hide IsMaxNumber, ResolveDrifts;
  }

  // Tasks agree with the intent they roll out.

  ghost predicate RowIntent(document: DesiredDocument, d: Deployment) {
    && (forall i :: 0 <= i < |d.tasks| ==> HashFor(document, d.tasks[i].nodeId, d.tasks[i].effectiveHash))
    && (forall i :: 0 <= i < |d.tasks| - 1 ==> !WantsDhcp(document, d.tasks[i].nodeId))
    && (forall i :: 0 <= i < |d.tasks| && d.tasks[i].status == TaskSucceeded ==>
          d.tasks[i].snapshot.Some? && ReadBackClean(document, d.tasks[i].nodeId, d.tasks[i].snapshot.value))
  }

  ghost predicate IntentInv(db: Db) {
    forall id :: id in db.deployments ==>
      && db.deployments[id].revisionId in db.revisions
      && RowIntent(db.revisions[db.deployments[id].revisionId].document, db.deployments[id])
  }

  lemma IntentFrame(document: DesiredDocument, d: Deployment, d': Deployment)
    requires RowIntent(document, d) && RowEvolves(d, d') && SuccessFrame(d, d')
    ensures RowIntent(document, d')
  {
    hide HashFor, WantsDhcp, ReadBackClean;
  }

  lemma IntentRecorded(s: Sys, s': Sys)
    requires IntentInv(s.db) && PcInv(s) && TaskStep(s, RecordSuccess, s')
    ensures IntentInv(s'.db)
  {
    hide HashFor, WantsDhcp, ReadBackClean;
    var d, d' := Held(s), Held(s');
    assert forall i :: 0 <= i < |d.tasks| && i != s.pc.i ==> d'.tasks[i] == d.tasks[i];
    assert RowIntent(Intent(s), d);
    assert RowIntent(Intent(s), d');
  }

  lemma RecordIsTaskStep(s: Sys, a: Action, s': Sys)
    requires ExecutorStep(s, a, s') && a.RecordSuccess?
    ensures TaskStep(s, a, s')
  {
    hide TaskStep;
  }

  lemma IntentExecutor(s: Sys, a: Action, s': Sys)
    requires IntentInv(s.db) && PcInv(s) && ExecutorStep(s, a, s')
    ensures IntentInv(s'.db)
  {
    hide RowIntent, PcInv, SuccessFrame, ExecutorStep;
    ExecutorEvolves(s, a, s');
    if a.RecordSuccess? {
      RecordIsTaskStep(s, a, s');
      IntentRecorded(s, s');
    } else {
      forall id | id in s'.db.deployments
        ensures RowIntent(s'.db.revisions[s'.db.deployments[id].revisionId].document, s'.db.deployments[id])
      {
        IntentFrame(s.db.revisions[s.db.deployments[id].revisionId].document, s.db.deployments[id],
                    s'.db.deployments[id]);
      }
    }
  }

  lemma PlannedHashes(document: DesiredDocument, nodeId: Id)
    requires nodeId in document.nodeOverrides
    ensures HashFor(document, nodeId, PlannedHash(document, nodeId))
  {
  }

  lemma IntentCreate(db: Db, id: Id, request: Request)
    requires CanCreate(db, id, request)
    ensures RowIntent(db.revisions[request.revisionId].document, NewDeployment(db, request))
  {
    hide HashFor, PlannedHash, WantsDhcp, ReadBackClean;
    var document := db.revisions[request.revisionId].document;
    var plan := Plan(document, request.listing, request.selected);
    PlanFacts(document, request.listing, request.selected);
    forall i | 0 <= i < |plan|
      ensures HashFor(document, plan[i], PlannedHash(document, plan[i]))
    {
      PlannedHashes(document, plan[i]);
    }
  }

  lemma IntentOther(s: Sys, a: Action, s': Sys)
    requires IntentInv(s.db) && OtherStep(s, a, s')
    ensures IntentInv(s'.db)
  {
    hide HashFor, WantsDhcp, ReadBackClean, IsMaxNumber, NewDeployment, CanCreate;
    if a.Create? {
      IntentCreate(s.db, a.deployment, a.request);
      NewDeploymentRevision(s.db, a.request, a.deployment);
    } else if a.Cancel? {
      var d, d' := s.db.deployments[a.deployment], s'.db.deployments[a.deployment];
      assert d'.tasks == d.tasks;
    }
  }

  lemma NewDeploymentRevision(db: Db, request: Request, id: Id)
    requires CanCreate(db, id, request)
    ensures id !in db.deployments
    ensures request.revisionId in db.revisions
    ensures NewDeployment(db, request).revisionId == request.revisionId
    ensures NewDeployment(db, request).status == Queued
  {
  }

  // Revisions that were put somewhere stay.

  /** A revision that exists and that some started deployment rolls out; neither of the two can be deleted. */
  ghost predicate Pinned(db: Db, r: Id) {
    && r in db.revisions
    && exists id :: id in db.deployments && db.deployments[id].revisionId == r && db.deployments[id].status != Queued
  }

  ghost predicate NodePin(db: Db, n: Id)
    requires n in db.nodes
  {
    db.nodes[n].applied.Some? ==>
      && Pinned(db, db.nodes[n].applied.value)
      && HashFor(db.revisions[db.nodes[n].applied.value].document, n, db.nodes[n].appliedHash)
  }

  ghost predicate ClusterPin(db: Db, c: Id)
    requires c in db.active
  {
    db.active[c].Some? ==> Pinned(db, db.active[c].value) && db.revisions[db.active[c].value].clusterId == c
  }

  ghost predicate PinsInv(db: Db) {
    && (forall n :: n in db.nodes ==> NodePin(db, n))
    && (forall c :: c in db.active ==> ClusterPin(db, c))
  }

  lemma PinnedEvolves(db: Db, db': Db, r: Id)
    requires Pinned(db, r) && Evolves(db, db')
    ensures Pinned(db', r)
  {
    var id :| id in db.deployments && db.deployments[id].revisionId == r && db.deployments[id].status != Queued;
    assert RowEvolves(db.deployments[id], db'.deployments[id]);
  }

  /** No step unpins a revision or changes its content. */
  lemma PinnedForever(s: Sys, a: Action, s': Sys, r: Id)
    requires Pinned(s.db, r) && Step(s, a, s')
    ensures Pinned(s'.db, r) && s'.db.revisions[r] == s.db.revisions[r]
  {
    hide ExecutorStep, OtherStep, Evolves;
    if ExecutorStep(s, a, s') {
      ExecutorEvolves(s, a, s');
      PinnedEvolves(s.db, s'.db, r);
      SameRevisions(s.db, s'.db);
    } else {
      PinnedOther(s, a, s', r);
    }
  }

  lemma PinnedOther(s: Sys, a: Action, s': Sys, r: Id)
    requires Pinned(s.db, r) && OtherStep(s, a, s')
    ensures Pinned(s'.db, r) && s'.db.revisions[r] == s.db.revisions[r]
  {
    hide CanCreate, NewDeployment, IsMaxNumber;
    var id :| id in s.db.deployments && s.db.deployments[id].revisionId == r && s.db.deployments[id].status != Queued;
    if a.Create? {
      NewDeploymentRevision(s.db, a.request, a.deployment);
    }
    assert s'.db.deployments[id].revisionId == r && s'.db.deployments[id].status != Queued;
  }

  lemma SameRevisions(db: Db, db': Db)
    requires Evolves(db, db')
    ensures db'.revisions == db.revisions
  {
  }

  /** Node rows and clusters keep the revisions they have, or have none. */
  ghost predicate PinsKept(db: Db, db': Db) {
    && (forall n :: n in db'.nodes ==>
          || db'.nodes[n].applied.None?
          || (n in db.nodes && db'.nodes[n].applied == db.nodes[n].applied
              && db'.nodes[n].appliedHash == db.nodes[n].appliedHash))
    && (forall c :: c in db'.active ==> db'.active[c].None? || (c in db.active && db'.active[c] == db.active[c]))
  }

  lemma OtherKeepsPins(s: Sys, a: Action, s': Sys)
    requires OtherStep(s, a, s')
    ensures PinsKept(s.db, s'.db)
  {
    hide CanCreate, NewDeployment, IsMaxNumber;
  }

  lemma TaskKeepsPins(s: Sys, a: Action, s': Sys)
    requires TaskStep(s, a, s') && !a.MarkApplied?
    ensures PinsKept(s.db, s'.db)
  {
    hide ReadBackClean, WantsDhcp, Intent;
  }

  lemma UnwindKeepsPins(s: Sys, a: Action, s': Sys)
    requires UnwindStep(s, a, s') && !a.Finish?
    ensures PinsKept(s.db, s'.db)
  {
  }

  lemma PrepareKeepsPins(s: Sys, a: Action, s': Sys)
    requires PrepareStep(s, a, s')
    ensures PinsKept(s.db, s'.db)
  {
    hide Effective, Intent;
  }

  lemma StopKeepsPins(s: Sys, a: Action, s': Sys)
    requires StopStep(s, a, s')
    ensures PinsKept(s.db, s'.db)
  {
  }

  /** Apart from marking a node applied and finishing, steps leave node rows' and clusters' revisions alone. */
  lemma PinsFrame(s: Sys, a: Action, s': Sys)
    requires PinsInv(s.db) && Step(s, a, s') && PinsKept(s.db, s'.db)
    ensures PinsInv(s'.db)
  {
    hide Step, Pinned, HashFor;
    forall n | n in s'.db.nodes
      ensures NodePin(s'.db, n)
    {
      if s'.db.nodes[n].applied.Some? {
        assert NodePin(s.db, n);
        PinnedForever(s, a, s', s.db.nodes[n].applied.value);
      }
    }
    forall c | c in s'.db.active
      ensures ClusterPin(s'.db, c)
    {
      if s'.db.active[c].Some? {
        assert ClusterPin(s.db, c);
        PinnedForever(s, a, s', s.db.active[c].value);
      }
    }
  }

  lemma HeldPins(s: Sys)
    requires PcInv(s) && RefsInv(s.db) && Holds(s.pc)
    ensures Pinned(s.db, Held(s).revisionId)
    ensures s.db.revisions[Held(s).revisionId].clusterId == Held(s).clusterId
  {
    HeldNotQueued(s);
    assert RowRefs(s.db, Held(s));
  }

  lemma PinsMarkApplied(s: Sys, s': Sys)
    requires PinsInv(s.db) && PcInv(s) && RefsInv(s.db) && IntentInv(s.db) && TaskStep(s, MarkApplied, s')
    ensures PinsInv(s'.db)
  {
    hide HashFor, PcInv, Pinned, RefsInv, RowIntent;
    HeldPins(s);
    MarkedHash(s);
    var r := Held(s).revisionId;
    PinnedIgnoresNodes(s.db, s'.db);
    forall n | n in s'.db.nodes
      ensures NodePin(s'.db, n)
    {
      assert NodePin(s.db, n);
    }
    forall c | c in s'.db.active
      ensures ClusterPin(s'.db, c)
    {
      assert ClusterPin(s.db, c);
    }
  }

  lemma MarkedHash(s: Sys)
    requires IntentInv(s.db) && AtTask(s)
    ensures HashFor(Intent(s), CurrentTask(s).nodeId, CurrentTask(s).effectiveHash)
  {
    hide HashFor, WantsDhcp, ReadBackClean;
    assert RowIntent(Intent(s), Held(s));
  }

  lemma PinnedIgnoresNodes(db: Db, db': Db)
    requires db'.revisions == db.revisions && db'.deployments == db.deployments
    ensures forall r :: Pinned(db, r) ==> Pinned(db', r)
  {
  }

  lemma PinsFinish(s: Sys, s': Sys)
    requires PinsInv(s.db) && PcInv(s) && RefsInv(s.db) && UnwindStep(s, Finish, s')
    ensures PinsInv(s'.db)
  {
    hide HashFor, Pinned, PcInv, RefsInv;
    HeldPins(s);
    UnwindEvolves(s, Finish, s');
    forall r | Pinned(s.db, r)
      ensures Pinned(s'.db, r)
    {
      PinnedEvolves(s.db, s'.db, r);
    }
    forall n | n in s'.db.nodes
      ensures NodePin(s'.db, n)
    {
      assert NodePin(s.db, n);
    }
    forall c | c in s'.db.active
      ensures ClusterPin(s'.db, c)
    {
      assert ClusterPin(s.db, c);
    }
  }

  // The draft's base is the highest revision.

  ghost predicate BaseIsHighest(db: Db, r: Id)
    requires r in db.revisions
  {
    var c := db.revisions[r].clusterId;
    && c in db.drafts && db.drafts[c].base.Some? && db.drafts[c].base.value in db.revisions
    && db.revisions[db.drafts[c].base.value].clusterId == c
    && db.revisions[r].number <= db.revisions[db.drafts[c].base.value].number
  }

  /** A read that is still current has the current base: every write of a draft raises its version. */
  ghost predicate ReadInv(db: Db, read: DraftRead) {
    if read.version == 0 then read.base.None?
    else
      && read.version > 0 && read.clusterId in db.drafts && read.version <= db.drafts[read.clusterId].version
      && (read.version == db.drafts[read.clusterId].version ==> read.base == db.drafts[read.clusterId].base)
  }

  ghost predicate DraftsInv(s: Sys) {
    && (forall r :: r in s.db.revisions ==> BaseIsHighest(s.db, r))
    && (forall c :: c in s.db.drafts ==> c in s.db.active && s.db.drafts[c].version >= 1)
    && (forall read :: read in s.inFlight ==> ReadInv(s.db, read))
  }

  lemma DraftsExecutor(s: Sys, a: Action, s': Sys)
    requires DraftsInv(s) && ExecutorStep(s, a, s')
    ensures DraftsInv(s')
  {
    hide ExecutorStep;
    ExecutorEvolves(s, a, s');
    forall r | r in s'.db.revisions
      ensures BaseIsHighest(s'.db, r)
    {
      assert BaseIsHighest(s.db, r);
    }
    forall read | read in s'.inFlight
      ensures ReadInv(s'.db, read)
    {
      assert ReadInv(s.db, read);
    }
  }

  lemma DraftsPublish(s: Sys, a: Action, s': Sys)
    requires DraftsInv(s) && a.Publish? && OtherStep(s, a, s')
    ensures DraftsInv(s')
  {
    forall r | r in s'.db.revisions
      ensures BaseIsHighest(s'.db, r)
    {
      assert r in s.db.revisions ==> BaseIsHighest(s.db, r);
    }
    forall read | read in s'.inFlight
      ensures ReadInv(s'.db, read)
    {
      assert ReadInv(s.db, read);
    }
  }

  lemma DraftsImport(s: Sys, a: Action, s': Sys)
    requires DraftsInv(s) && (a.FinishImport? || a.StartImport?) && OtherStep(s, a, s')
    ensures DraftsInv(s')
  {
    forall r | r in s'.db.revisions
      ensures BaseIsHighest(s'.db, r)
    {
      assert BaseIsHighest(s.db, r);
      assert a.FinishImport? ==> ReadInv(s.db, a.read);
    }
    forall read | read in s'.inFlight
      ensures ReadInv(s'.db, read)
    {
      assert read in s.inFlight ==> ReadInv(s.db, read);
    }
  }

  /** Writes that keep every base, delete no base, and only raise versions. */
  lemma DraftsFrame(s: Sys, s': Sys)
    requires DraftsInv(s) && s'.inFlight == s.inFlight && s.db.active.Keys <= s'.db.active.Keys
    requires s'.db.drafts.Keys == s.db.drafts.Keys
    requires forall c :: c in s.db.drafts ==>
               s'.db.drafts[c].base == s.db.drafts[c].base && s'.db.drafts[c].version >= s.db.drafts[c].version
    requires forall r :: r in s'.db.revisions ==> r in s.db.revisions && s'.db.revisions[r] == s.db.revisions[r]
    requires forall r :: r in s.db.revisions && (exists c :: c in s.db.drafts && s.db.drafts[c].base == Some(r)) ==>
               r in s'.db.revisions
    ensures DraftsInv(s')
  {
    forall r | r in s'.db.revisions
      ensures BaseIsHighest(s'.db, r)
    {
      assert BaseIsHighest(s.db, r);
    }
    forall read | read in s'.inFlight
      ensures ReadInv(s'.db, read)
    {
      assert ReadInv(s.db, read);
    }
  }

  lemma DraftsOther(s: Sys, a: Action, s': Sys)
    requires DraftsInv(s) && OtherStep(s, a, s')
    ensures DraftsInv(s')
  {
    hide CanCreate, NewDeployment, DraftsInv, IsMaxNumber;
    if a.Publish? {
      DraftsPublish(s, a, s');
    } else if a.FinishImport? || a.StartImport? {
      DraftsImport(s, a, s');
    } else {
      DraftsFrame(s, s');
    }
  }
}
