/** The deployment executor as a program over the tables. Between any two of its repository calls other
    requests are served, and every call may fail before or after it commits. The executor keeps a record of
    what happened, and the record is always a run of the protocol. */
module Executors {
  import opened Text
  import opened Configuration
  import opened Diff
  import opened Preview
  import opened Protocol
  import opened Invariant
  import opened Retention
  import opened Runs
  import opened Stores
  import Agreement

  /** What happens to a repository call. */
  datatype Fate = Commits | FailsBefore | FailsAfter

  /** How far one apply gets on its node; the DHCP state is the last thing it writes. */
  datatype Apply = FailsEarly | FailsAfterDhcp | Applies

  /** What the outside answers, call by call: requests served meanwhile, fates of repository calls, applies, and
      observations of nodes. */
  datatype World = World(
    requests: seq<seq<Action>>, fates: seq<Fate>, applies: seq<Apply>, observations: seq<Option<Document>>)

  lemma SelfUndisturbed(s: Sys)
    ensures Undisturbed(s, s)
  {
  }

  // Steps of other requests, from what the transactions promise.

  lemma Created(s: Sys, id: Id, request: Request)
    requires CanCreate(s.db, id, request)
    ensures OtherStep(s, Create(id, request), s.(db := CreateDeployment(s.db, id, request)))
  {
  }

  lemma DeploymentDeleted(s: Sys, id: Id)
    requires CanDeleteDeployment(s.db, id)
    ensures OtherStep(s, DeleteDeployment(id), s.(db := DeleteUnstartedDeployment(s.db, id)))
  {
  }

  lemma CancelRequested(s: Sys, id: Id)
    requires CanCancel(s.db, id)
    ensures OtherStep(s, Cancel(id), s.(db := RequestDeploymentCancel(s.db, id)))
  {
  }

  lemma RevisionDeleted(s: Sys, id: Id)
    requires CanDeleteRevision(s.db, id)
    ensures OtherStep(s, DeleteRevision(id), s.(db := DeleteUnusedRevision(s.db, id)))
  {
  }

  lemma DraftUpdated(s: Sys, c: Id, version: int, document: DesiredDocument)
    requires CanWriteDraft(s.db, c, version)
    ensures OtherStep(s, UpdateDraft(c, version, document), s.(db := UpdateConfigurationDraft(s.db, c, document)))
  {
  }

  lemma ImportStarted(s: Sys, c: Id, found: bool)
    ensures var read := if found then ReadDraft(s.db, c) else DraftRead(c, 0, None);
            OtherStep(s, StartImport(c, found), s.(inFlight := s.inFlight + {read}))
  {
  }

  lemma ImportFinished(s: Sys, read: DraftRead, document: DesiredDocument)
    requires read in s.inFlight && CanImport(s.db, read)
    ensures OtherStep(s, FinishImport(read, document), s.(db := ImportDraft(s.db, read, document)))
  {
  }

  lemma Published(s: Sys, c: Id, version: int, r: Id, document: DesiredDocument, number: int)
    requires CanWriteDraft(s.db, c, version) && r !in s.db.revisions && IsMaxNumber(s.db, c, number - 1)
    ensures var db' := PublishRevision(s.db, c, r, document, number);
            OtherStep(s, Publish(c, version, r, document, number), s.(db := db'))
  {
  }

  lemma ClusterAdded(s: Sys, c: Id)
    requires c !in s.db.active
    ensures OtherStep(s, AddCluster(c), s.(db := s.db.(active := s.db.active[c := None])))
  {
  }

  lemma NodeAdded(s: Sys, n: Id, c: Id)
    requires n !in s.db.nodes && c in s.db.active
    ensures var row := NodeRow(c, true, false, false, false, None, Unhashed, 1);
            OtherStep(s, AddNode(n, c), s.(db := s.db.(nodes := s.db.nodes[n := row])))
  {
  }

  lemma NodeEdited(s: Sys, n: Id, enabled: bool, maintenance: bool, supported: bool, version: int)
    requires n in s.db.nodes && !s.db.nodes[n].deleted && s.db.nodes[n].recordVersion <= version
    ensures var row := s.db.nodes[n].(
              enabled := enabled, maintenance := maintenance, supported := supported, recordVersion := version);
            OtherStep(s, EditNode(n, enabled, maintenance, supported, version), s.(db := s.db.(nodes := s.db.nodes[n := row])))
  {
  }

  lemma NodeRemoved(s: Sys, n: Id, version: int)
    requires CanWriteNode(s.db, n, version)
    ensures OtherStep(s, RemoveNode(n, version), s.(db := SoftDeleteNode(s.db, n)))
  {
  }

  lemma DriftRecorded(s: Sys, e: Id, row: Drift)
    requires e !in s.db.drifts && row.desiredRevision in s.db.revisions
    requires row.relatedDeployment.Some? ==> row.relatedDeployment.value in s.db.deployments
    ensures OtherStep(s, RecordDrift(e, row), s.(db := s.db.(drifts := s.db.drifts[e := row])))
  {
  }

  lemma DriftRelated(s: Sys, e: Id, related: Option<Id>)
    requires e in s.db.drifts && (related.Some? ==> related.value in s.db.deployments)
    ensures var row := s.db.drifts[e].(relatedDeployment := related);
            OtherStep(s, RelateDrift(e, related), s.(db := s.db.(drifts := s.db.drifts[e := row])))
  {
  }

  lemma NodesChanged(s: Sys, running: set<Id>)
    ensures OtherStep(s, NodesChange(running), s.(dhcp := running))
  {
  }

  /** The executor is at `pc` and its copies of tasks and intent agree with the tables. */
  ghost predicate Holding(s: Sys, pc: Pc, copy: Deployment, document: DesiredDocument) {
    && s.pc == pc && HeldExists(s) && Intent(s) == document
    && Held(s).tasks == copy.tasks && Held(s).clusterId == copy.clusterId
    && Held(s).revisionId == copy.revisionId && Held(s).origin == copy.origin
  }

  lemma HoldingUndisturbed(s: Sys, s': Sys, pc: Pc, copy: Deployment, document: DesiredDocument)
    requires Holding(s, pc, copy, document) && Undisturbed(s, s')
    ensures Holding(s', pc, copy, document)
  {
  }

  lemma NothingOpen(db: Db)
    ensures forall id :: id in InterruptDeployments(db).deployments ==>
              var d := InterruptDeployments(db).deployments[id];
              !Open(d.status) && forall t :: t in d.tasks ==> t.status != Applying && t.status != Verifying
  {
  }

  lemma HoldingIntent(s: Sys, copy: Deployment, document: DesiredDocument)
    requires Holding(s, s.pc, copy, document)
    ensures copy.revisionId in s.db.revisions && s.db.revisions[copy.revisionId].document == document
  {
  }

  /** Targets before i succeeded, i failed, and those after it were skipped. */
  ghost predicate FailedAt(tasks: seq<Task>, i: nat, n: nat) {
    && |tasks| == n && i < n && tasks[i].status == TaskFailed
    && Range(tasks, 0, i, TaskSucceeded) && Range(tasks, i + 1, n, Skipped)
  }

  lemma HeldUnwound(s: Sys, copy: Deployment, document: DesiredDocument)
    requires Inv(s) && Holding(s, s.pc, copy, document) && Unwinding(s.pc)
    ensures s.pc.FailingBefore? ==>
              s.pc.next <= |copy.tasks| && Range(copy.tasks, 0, s.pc.next, Skipped)
    ensures s.pc.CancelSkipping? ==>
              s.pc.i <= s.pc.next <= |copy.tasks| && Range(copy.tasks, 0, s.pc.i, TaskSucceeded)
              && Range(copy.tasks, s.pc.i, s.pc.next, Skipped)
    ensures s.pc.FailSkipping? ==>
              s.pc.i < s.pc.next <= |copy.tasks| && copy.tasks[s.pc.i].status == TaskFailed
              && Range(copy.tasks, 0, s.pc.i, TaskSucceeded) && Range(copy.tasks, s.pc.i + 1, s.pc.next, Skipped)
  {
    hide IntentInv, PinsInv, DraftsInv, RowsInv, RefsInv, Range;
  }

  lemma HeldCluster(s: Sys, copy: Deployment, document: DesiredDocument)
    requires Inv(s) && Holding(s, s.pc, copy, document)
    ensures copy.clusterId in s.db.active
  {
    hide IntentInv, PinsInv, DraftsInv, RowsInv;
    assert RowRefs(s.db, Held(s));
  }

  lemma SameCounter(s: Sys, s': Sys)
    requires Undisturbed(s, s')
    ensures s'.pc == s.pc
  {
  }

  lemma ClaimStep(s: Sys, id: Id)
    requires s.pc.Idle? && Claimable(s.db, id)
    ensures ExecutorStep(s, Action.Claim(id), s.(db := ClaimDeployment(s.db, id), pc := Claimed(id)))
  {
  }

  /** A claimed deployment can be loaded. */
  lemma ClaimedHolds(s: Sys) returns (document: DesiredDocument)
    requires Inv(s) && s.pc.Claimed?
    ensures s.pc.id in s.db.deployments && Holding(s, s.pc, Held(s), document)
    ensures var next := if Held(s).cancelRequested || Held(s).status == Cancelling then CancelSkipping(s.pc.id, 0, 0)
                        else Preparing(s.pc.id);
            ExecutorStep(s, Load, s.(pc := next))
  {
    hide IntentInv, PinsInv, DraftsInv, RowsInv;
    assert RowRefs(s.db, Held(s));
    document := Intent(s);
  }

  /** The row itself serves as a copy. */
  lemma HoldingRow(s: Sys, copy: Deployment, document: DesiredDocument)
    requires Holding(s, s.pc, copy, document)
    ensures s.pc.id in s.db.deployments && Holding(s, s.pc, Held(s), document) && Held(s).tasks == copy.tasks
  {
  }

  // Steps of the executor, from what its copies say.

  /** Writing one task keeps the copies in agreement. */
  lemma HoldingAfterWrite(s: Sys, copy: Deployment, document: DesiredDocument, i: nat, task: Task, next: Pc)
    requires Holding(s, s.pc, copy, document) && i < |copy.tasks| && Holds(next) && next.id == s.pc.id
    ensures Holding(WriteTask(s, i, task, next), next, copy.(tasks := copy.tasks[i := task]), document)
  {
  }

  lemma HoldingMoved(s: Sys, copy: Deployment, document: DesiredDocument, next: Pc)
    requires Holding(s, s.pc, copy, document) && Holds(next) && next.id == s.pc.id
    ensures Holding(s.(pc := next), next, copy, document)
  {
  }

  /** Entering, verifying and failing write the task at hand. */
  lemma TaskWrites(s: Sys, copy: Deployment, document: DesiredDocument, i: nat)
    requires Holding(s, s.pc, copy, document) && i < |copy.tasks|
    ensures var id, t := s.pc.id, copy.tasks[i];
            && (s.pc == Entering(id, i) ==>
                  ExecutorStep(s, EnterTask,
                    WriteTask(s, i, t.(status := Applying, attempts := t.attempts + 1, started := true), Configuring(id, i))))
            && (s.pc == Applied(id, i) ==>
                  ExecutorStep(s, StartVerifying, WriteTask(s, i, t.(status := Verifying), Reading(id, i))))
            && (s.pc == FailingNode(id, i) ==>
                  ExecutorStep(s, FailTask, WriteTask(s, i, t.(status := TaskFailed), FailSkipping(id, i, i + 1))))
  {
    hide ReadBackClean, WantsDhcp;
  }

  lemma SuccessRecorded(s: Sys, copy: Deployment, document: DesiredDocument, i: nat, observed: Document)
    requires Holding(s, s.pc, copy, document) && i < |copy.tasks| && s.pc == Verified(s.pc.id, i, observed)
    ensures var task := copy.tasks[i].(status := TaskSucceeded, snapshot := Some(observed));
            ExecutorStep(s, RecordSuccess, WriteTask(s, i, task, Marking(s.pc.id, i)))
  {
    hide ReadBackClean, WantsDhcp;
  }

  /** The steps that only move the executor on. */
  lemma TaskMoves(s: Sys, copy: Deployment, document: DesiredDocument, i: nat, result: Option<Document>)
    requires Holding(s, s.pc, copy, document) && i < |copy.tasks|
    ensures var id := s.pc.id;
            && (s.pc == Boundary(id, i) ==>
                  ExecutorStep(s, CheckBoundary,
                    s.(pc := if Held(s).cancelRequested then CancelSkipping(id, i, i) else Entering(id, i))))
            && (s.pc == Configuring(id, i) ==>
                  ExecutorStep(s, ApplyFails, s.(pc := FailingNode(id, i))) && ExecutorStep(s, ApplySucceeds, s.(pc := Applied(id, i))))
            && (s.pc == Reading(id, i) ==>
                  ExecutorStep(s, ReadBack(result),
                    s.(pc := if result.Some? && ReadBackClean(document, copy.tasks[i].nodeId, result.value)
                             then Verified(id, i, result.value) else FailingNode(id, i))))
  {
    hide ReadBackClean, WantsDhcp;
  }

  /** Writing the node's DHCP state as its effective configuration says. */
  lemma DhcpWritten(s: Sys, copy: Deployment, document: DesiredDocument, i: nat, effective: Document)
    requires i < |copy.tasks| && Holding(s, s.pc, copy, document) && s.pc == Configuring(s.pc.id, i)
    requires Effective(document, copy.tasks[i].nodeId) == Some(effective) && effective.nodeSpecific.dhcp.Some?
    ensures var n := copy.tasks[i].nodeId;
            ExecutorStep(s, WriteDhcp,
              s.(dhcp := if effective.nodeSpecific.dhcp.value.enabled then s.dhcp + {n} else s.dhcp - {n}))
  {
    EffectiveDhcpConfigured(document, copy.tasks[i].nodeId);
  }

  lemma EffectiveDhcpConfigured(document: DesiredDocument, nodeId: Id)
    requires Effective(document, nodeId).Some?
    ensures nodeId in document.nodeOverrides
    ensures Effective(document, nodeId).value.nodeSpecific.dhcp.Some? <==> document.nodeOverrides[nodeId].dhcp.Some?
    ensures Effective(document, nodeId).value.nodeSpecific.RunsDhcp() <==> document.nodeOverrides[nodeId].RunsDhcp()
  {
  }

  lemma NodeMarked(s: Sys, copy: Deployment, document: DesiredDocument, i: nat)
    requires i < |copy.tasks| && Holding(s, s.pc, copy, document) && s.pc == Marking(s.pc.id, i)
    ensures var t := copy.tasks[i];
            var s' := s.(db := MarkNodeApplied(s.db, t.nodeId, copy.revisionId, t.effectiveHash), pc := Boundary(s.pc.id, i + 1));
            ExecutorStep(s, MarkApplied, s') && Holding(s', s'.pc, copy, document)
  {
    hide ReadBackClean, WantsDhcp;
  }

  lemma StartedRunning(s: Sys, copy: Deployment, document: DesiredDocument)
    requires Holding(s, s.pc, copy, document) && s.pc == Preparing(s.pc.id)
    requires forall i :: 0 <= i < |copy.tasks| ==> Effective(document, copy.tasks[i].nodeId).Some?
    ensures var s' := s.(db := SetDeploymentRunning(s.db, s.pc.id), pc := Boundary(s.pc.id, 0));
            ExecutorStep(s, PrepareSucceeds, s') && Holding(s', s'.pc, copy, document)
  {
    hide Effective;
  }

  /** A row that differs from `held` in its tasks only, and not from position k on. */
  ghost predicate Agrees(held: Deployment, after: Deployment, tasks: seq<Task>, k: nat) {
    && after == held.(tasks := after.tasks) && |after.tasks| == |tasks|
    && forall j :: k <= j < |tasks| ==> after.tasks[j] == tasks[j]
  }

  lemma Agreed(held: Deployment, after: Deployment, tasks: seq<Task>, k: nat, task: Task)
    requires Agrees(held, after, tasks, k) && k < |tasks|
    ensures |after.tasks| == |tasks| && after.tasks[k] == tasks[k] && Agrees(held, after, tasks, k + 1)
    ensures Agrees(held, after.(tasks := after.tasks[k := task]), tasks, k + 1)
  {
  }

  lemma AgreesSelf(copy: Deployment)
    ensures Agrees(copy, copy, copy.tasks, 0)
  {
  }

  lemma AgreesAt(copy: Deployment, current: Deployment, i: nat)
    requires Agrees(copy, current, copy.tasks, i)
    ensures |current.tasks| == |copy.tasks| && current.clusterId == copy.clusterId
    ensures current.revisionId == copy.revisionId && current.origin == copy.origin
    ensures i < |copy.tasks| ==> current.tasks[i] == copy.tasks[i]
  {
  }

  lemma AgreesFrom(copy: Deployment, held: Deployment, after: Deployment, k: nat)
    requires Agrees(copy, held, copy.tasks, k) && Agrees(held, after, copy.tasks, |copy.tasks|)
    ensures Agrees(copy, after, copy.tasks, |copy.tasks|)
  {
  }

  lemma AgreesWritten(copy: Deployment, i: nat, task: Task)
    requires i < |copy.tasks|
    ensures Agrees(copy, copy.(tasks := copy.tasks[i := task]), copy.tasks, i + 1)
  {
  }

  lemma AgreesAlong(copy: Deployment, current: Deployment, after: Deployment, i: nat)
    requires Agrees(copy, current, copy.tasks, i + 1) && Agrees(current, after, current.tasks, i + 1)
    ensures Agrees(copy, after, copy.tasks, i + 1)
  {
  }

  lemma AgreesOn(copy: Deployment, current: Deployment, after: Deployment, i: nat)
    requires Agrees(copy, current, copy.tasks, i) && Agrees(current, after, current.tasks, i + 1)
    ensures Agrees(copy, after, copy.tasks, i + 1)
  {
  }

  lemma FailsBeforeMutation(s: Sys, copy: Deployment, document: DesiredDocument)
    requires Holding(s, s.pc, copy, document) && s.pc == Preparing(s.pc.id)
    ensures ExecutorStep(s, PrepareFails, s.(pc := FailingBefore(s.pc.id, 0)))
  {
    hide Effective;
  }

  lemma Skips(s: Sys, copy: Deployment, document: DesiredDocument)
    requires Holding(s, s.pc, copy, document) && Unwinding(s.pc) && s.pc.next < |copy.tasks|
    ensures var t := copy.tasks[s.pc.next];
            if s.pc.CancelSkipping? && t.status != Pending then ExecutorStep(s, SkipTask, s.(pc := Advance(s.pc)))
            else ExecutorStep(s, SkipTask, WriteTask(s, s.pc.next, t.(status := Skipped), Advance(s.pc)))
  {
  }

  lemma Finished(s: Sys, copy: Deployment, document: DesiredDocument)
    requires Holding(s, s.pc, copy, document) && (s.pc.Boundary? || Unwinding(s.pc))
    requires (if s.pc.Boundary? then s.pc.i else s.pc.next) == |copy.tasks|
    ensures var activate := s.pc.Boundary? && copy.origin != Reconciliation;
            ExecutorStep(s, Action.Finish, s.(db := FinishDeployment(s.db, s.pc.id, FinishStatus(s.pc), activate), pc := Idle))
  {
  }

  /** The row of a finished deployment, and what its cluster has active. */
  lemma FinishedHeld(s: Sys, copy: Deployment, document: DesiredDocument, status: DeploymentStatus, activate: bool)
    requires Holding(s, s.pc, copy, document)
    ensures s.pc.id in s.db.deployments && Held(s).clusterId == copy.clusterId && Held(s).revisionId == copy.revisionId
    ensures var db := FinishDeployment(s.db, s.pc.id, status, activate);
            && s.pc.id in db.deployments && db.deployments[s.pc.id].status == status
            && db.deployments[s.pc.id].tasks == copy.tasks && db.deployments[s.pc.id].origin == copy.origin
            && db.deployments[s.pc.id].clusterId == copy.clusterId && db.deployments[s.pc.id].revisionId == copy.revisionId
            && (activate && copy.clusterId in s.db.active ==>
                  copy.clusterId in db.active && db.active[copy.clusterId] == Some(copy.revisionId))
  {
    hide ConcludeDrifts;
  }

  /** Enabled, out of maintenance and of a supported version. */
  predicate Mutable(db: Db, n: Id) {
    n in db.nodes && !db.nodes[n].deleted && db.nodes[n].enabled && !db.nodes[n].maintenance && db.nodes[n].supported
  }

  /** The node could be observed, and its listener is the one the configuration was planned for. */
  predicate ListenerKept(effective: Document, observed: Option<Document>) {
    observed.Some? && ImmutableNodeDifferences(effective, ProjectDocument(observed.value)) == []
  }

  // The world's answers, call by call.

  function ObservationAt(world: World, i: nat): Option<Document> {
    if i < |world.observations| then world.observations[i] else None
  }

  function ApplyAt(world: World, i: nat): Apply {
    if i < |world.applies| then world.applies[i] else Applies
  }

  function Rest<T>(s: seq<T>, n: nat): seq<T> {
    if n <= |s| then s[n..] else []
  }

  /** The world after it answered so many applies and observations. */
  function Later(world: World, applies: nat, observations: nat): (later: World)
    ensures later.requests == world.requests && later.fates == world.fates
  {
    world.(applies := Rest(world.applies, applies), observations := Rest(world.observations, observations))
  }

  lemma LaterAnswers(world: World, a: nat, o: nat, i: nat)
    ensures ApplyAt(Later(world, a, o), i) == ApplyAt(world, a + i)
    ensures ObservationAt(Later(world, a, o), i) == ObservationAt(world, o + i)
  {
  }

  lemma LaterTwice(world: World, a: nat, o: nat, b: nat, p: nat)
    ensures Later(Later(world, a, o), b, p) == Later(world, a + b, o + p)
  {
    assert Rest(Rest(world.applies, a), b) == Rest(world.applies, a + b);
    assert Rest(Rest(world.observations, o), p) == Rest(world.observations, o + p);
  }

  lemma LaterNone(world: World)
    ensures Later(world, 0, 0) == world
  {
  }

  // What a target needs, and how a deployment ends when nobody interferes.

  /** A target that may be changed: an enabled node out of maintenance and of a supported version, an intent that is
      not of the old schema and has an override for it, and a node that answers with the listener of that override. */
  ghost predicate Ready(db: Db, document: DesiredDocument, n: Id, observed: Option<Document>) {
    && n in db.nodes && !db.nodes[n].deleted && db.nodes[n].enabled && !db.nodes[n].maintenance && db.nodes[n].supported
    && (forall u :: u in Configuration.Areas(document.unsupported) ==> u.section != LEGACY_MIGRATION_SECTION)
    && n in document.nodeOverrides && observed.Some?
    && Agreement.SameListener(document.nodeOverrides[n], observed.value.nodeSpecific)
  }

  /** A target that carries the intent: the apply went through, and the node answers with the intended settings. */
  ghost predicate Delivered(document: DesiredDocument, n: Id, apply: Apply, observed: Option<Document>) {
    && apply == Applies && observed.Some? && n in document.nodeOverrides
    && Agreement.SameShared(document.shared, observed.value.shared)
    && Agreement.SameNode(document.nodeOverrides[n], observed.value.nodeSpecific)
  }

  ghost predicate AllReady(db: Db, document: DesiredDocument, tasks: seq<Task>, world: World) {
    forall i :: 0 <= i < |tasks| ==> Ready(db, document, tasks[i].nodeId, ObservationAt(world, i))
  }

  /** Target i is applied by the i-th apply; its read-back follows `seen` earlier observations and those of the targets
      before it. */
  ghost predicate DeliveredAt(document: DesiredDocument, tasks: seq<Task>, world: World, seen: nat, i: nat)
    requires i < |tasks|
  {
    Delivered(document, tasks[i].nodeId, ApplyAt(world, i), ObservationAt(world, seen + i))
  }

  ghost predicate DeliveredTo(document: DesiredDocument, tasks: seq<Task>, world: World, seen: nat, k: nat) {
    forall i :: 0 <= i < k && i < |tasks| ==> DeliveredAt(document, tasks, world, seen, i)
  }

  /** How a deployment of these targets ends. */
  ghost function Ending(document: DesiredDocument, tasks: seq<Task>, world: World, seen: nat): DeploymentStatus {
    if DeliveredTo(document, tasks, world, seen, |tasks|) then Succeeded
    else if DeliveredAt(document, tasks, world, seen, 0) then PartiallySucceeded
    else Failed
  }

  /** How a claimed deployment ends: cancelled if a cancellation is stored, failed if some target is not ready, and
      otherwise as the targets answer. */
  ghost function Outcome(db: Db, d: Deployment, document: DesiredDocument, world: World): DeploymentStatus {
    if d.cancelRequested || d.status == Cancelling then Cancelled
    else if !AllReady(db, document, d.tasks, world) then Failed
    else Ending(document, d.tasks, world, |d.tasks|)
  }

  lemma NoneDelivered(document: DesiredDocument, tasks: seq<Task>, world: World)
    ensures DeliveredTo(document, tasks, world, 0, 0)
  {
  }

  /** The first target that is not delivered decides the ending; without one it is success. */
  lemma EndsAt(document: DesiredDocument, tasks: seq<Task>, world: World, k: nat)
    requires k <= |tasks| && DeliveredTo(document, tasks, world, 0, k)
    ensures k < |tasks| && !DeliveredAt(document, tasks, world, 0, k) ==>
              Ending(document, tasks, world, 0) == if k > 0 then PartiallySucceeded else Failed
    ensures k < |tasks| && DeliveredAt(document, tasks, world, 0, k) ==> DeliveredTo(document, tasks, world, 0, k + 1)
    ensures k == |tasks| ==> Ending(document, tasks, world, 0) == Succeeded
  {
    hide DeliveredAt;
  }

  /** Target k is applied and read by the answers that come after those for k targets. */
  lemma TargetAnswers(document: DesiredDocument, tasks: seq<Task>, world: World, k: nat)
    requires k < |tasks|
    ensures var later := Later(world, k, k);
            && Later(later, 1, 1) == Later(world, k + 1, k + 1)
            && (DeliveredAt(document, tasks, world, 0, k)
                <==> Delivered(document, tasks[k].nodeId, ApplyAt(later, 0), ObservationAt(later, 0)))
  {
    hide Later, ApplyAt, ObservationAt, Delivered;
    LaterAnswers(world, k, k, 0);
    LaterTwice(world, k, k, 1, 1);
  }

  lemma EndingLater(document: DesiredDocument, tasks: seq<Task>, world: World, seen: nat)
    ensures Ending(document, tasks, Later(world, 0, seen), 0) == Ending(document, tasks, world, seen)
  {
    hide Later, ApplyAt, ObservationAt, Delivered;
    forall i: nat | i < |tasks|
      ensures DeliveredAt(document, tasks, Later(world, 0, seen), 0, i) <==> DeliveredAt(document, tasks, world, seen, i)
    {
      LaterAnswers(world, 0, seen, i);
    }
  }

  /** Being claimed does not change how a deployment ends. */
  lemma ClaimedOutcome(s: Sys, id: Id, world: World)
    requires Inv(s) && Claimable(s.db, id)
    ensures s.db.deployments[id].revisionId in s.db.revisions
    ensures var db, d := ClaimDeployment(s.db, id), s.db.deployments[id];
            var document := s.db.revisions[d.revisionId].document;
            && db.revisions == s.db.revisions && db.deployments[id].revisionId == d.revisionId
            && Outcome(db, db.deployments[id], document, world) == Outcome(s.db, d, document, world)
  {
    hide IntentInv, PinsInv, DraftsInv, PcInv, Ending, Agreement.SameListener, ObservationAt;
    assert RowRefs(s.db, s.db.deployments[id]) && RowInv(s.db.deployments[id]);
  }

  lemma FitIsReady(db: Db, n: Id, document: DesiredDocument, observed: Option<Document>)
    ensures Fit(db, n, document, observed) <==> Ready(db, document, n, observed)
  {
    hide Effective, ImmutableNodeDifferences, ProjectDocument, Agreement.SameListener, Agreement.SameShared, Agreement.SameNode;
    Agreement.EffectiveSays(document, n);
    if n in document.nodeOverrides && observed.Some? {
      Agreement.ListenerReadDecides(document, n, observed.value);
    }
  }

  /** Reading a target back without managed differences means that it carries the intent. */
  lemma CleanIsDelivered(document: DesiredDocument, n: Id, effective: Document, apply: Apply, observed: Option<Document>)
    requires Effective(document, n) == Some(effective)
    ensures Delivered(document, n, apply, observed) <==>
            apply == Applies && observed.Some? && ManagedDifferences(effective, ProjectDocument(observed.value)) == []
  {
    hide Effective, ManagedDifferences, ProjectDocument, Agreement.SameShared, Agreement.SameNode;
    if observed.Some? {
      Agreement.ReadBackDecides(document, n, observed.value);
    }
  }

  /** The next observation after i of them is the i-th. */
  lemma NextAnswer(world: World, later: World, i: nat)
    requires later.observations == Later(world, 0, i).observations
    ensures ObservationAt(later, 0) == ObservationAt(world, i)
    ensures Rest(later.observations, 1) == Later(world, 0, i + 1).observations
    ensures later == Later(world, 0, i) ==> Later(later, 0, 1) == Later(world, 0, i + 1)
  {
    LaterTwice(world, 0, i, 0, 1);
  }

  /** Fit to be changed: a mutable node, a deployable intent that covers it, and an unchanged listener. */
  predicate Fit(db: Db, nodeId: Id, document: DesiredDocument, observed: Option<Document>) {
    && Mutable(db, nodeId) && !IsLegacyConverted(document.unsupported)
    && Effective(document, nodeId).Some? && ListenerKept(Effective(document, nodeId).value, observed)
  }

  /** At some moment of the run, not before the last of its first `from` states, the node was enabled, out of
      maintenance and of a supported version. */
  ghost predicate SeenMutable(run: Run, from: nat, n: Id) {
    exists k: nat :: from - 1 <= k < |run.states|
      && n in run.states[k].db.nodes && !run.states[k].db.nodes[n].deleted && run.states[k].db.nodes[n].enabled
      && !run.states[k].db.nodes[n].maintenance && run.states[k].db.nodes[n].supported
  }

  /** At some moment of the run, not before the last of its first `from` states, some target was not ready to be
      changed, with the observation taken for it. */
  ghost predicate SeenUnready(run: Run, from: nat, document: DesiredDocument, tasks: seq<Task>, world: World) {
    exists k: nat, i: nat :: from - 1 <= k < |run.states| && i < |tasks|
      && !Ready(run.states[k].db, document, tasks[i].nodeId, ObservationAt(world, i))
  }

  lemma StillSeen(run: Run, longer: Run, from: nat, earlier: nat, n: Id)
    requires SeenMutable(run, from, n) && earlier <= from && Extends(run, longer)
    ensures SeenMutable(longer, earlier, n)
  {
    var k: nat :| from - 1 <= k < |run.states|
      && n in run.states[k].db.nodes && !run.states[k].db.nodes[n].deleted && run.states[k].db.nodes[n].enabled
      && !run.states[k].db.nodes[n].maintenance && run.states[k].db.nodes[n].supported;
    assert longer.states[k] == run.states[k];
  }

  class Executor {
    const store: Store
    var inFlight: set<DraftRead>
    var dhcp: set<Id>
    var world: World
    ghost var pc: Pc
    ghost var run: Run
    ghost var origin: Run

    ghost function View(): Sys
      reads this`pc, this`inFlight, this`dhcp, store
    {
      Sys(store.Value(), pc, inFlight, dhcp)
    }

    /** What happened so far is a run of the protocol that continues `origin` and ends in the present state. */
    ghost predicate Traced()
      reads this`run, this`origin, this`pc, this`inFlight, this`dhcp, store
    {
      IsRun(run) && Extends(origin, run) && run.states != [] && run.states[|run.states| - 1] == View()
    }

    /** The deployment has ended; a successful one that is no reconciliation has its revision active. */
    ghost predicate Ended(id: Id)
      reads store`deployments, store`active
    {
      && id in store.deployments
      && var d := store.deployments[id];
      && Terminal(d.status)
      && (d.status == Succeeded && d.origin != Reconciliation ==>
            d.clusterId in store.active && store.active[d.clusterId] == Some(d.revisionId))
    }

    /** Nobody else is served, no repository call fails, and no cancellation of the deployment is stored. */
    ghost predicate Free(id: Id)
      reads this`world, store`deployments
    {
      world.requests == [] && world.fates == [] && id in store.deployments && !store.deployments[id].cancelRequested
    }

    constructor (store: Store, running: set<Id>, world: World)
      requires Init(Sys(store.Value(), Down, {}, running))
      ensures Traced() && this.store == store && pc == Down
    {
      this.store, this.inFlight, this.dhcp, this.world := store, {}, running, world;
      pc := Down;
      run := Run([Sys(store.Value(), Down, {}, running)], []);
      origin := run;
    }

    ghost method LastState()
      requires Traced()
      ensures run.states != [] && run.states[|run.states| - 1].db == store.Value()
    {
    }

    ghost method Record(a: Action)
      requires IsRun(run) && Extends(origin, run) && Step(run.states[|run.states| - 1], a, View())
      modifies this`run
      ensures Traced() && run == Extended(old(run), a, View())
    {
      hide Step, Init;
      ExtendedIsRun(run, a, View());
      run := Extended(run, a, View());
    }

    // Everybody else.

    /** Records a step of somebody else. */
    ghost method RecordOther(a: Action)
      requires IsRun(run) && Extends(origin, run) && OtherStep(run.states[|run.states| - 1], a, View())
      modifies this`run
      ensures Traced() && run == Extended(old(run), a, View())
      ensures Undisturbed(old(run.states[|run.states| - 1]), View())
    {
      hide OtherStep, Init, Inv, Undisturbed;
      Reachable(run, |run.states| - 1);
      OthersUndisturbed(run.states[|run.states| - 1], a, View());
      Record(a);
    }

    /** Deployment and revision requests. */
    method ServeDeployments(a: Action)
      requires Traced()
      modifies this`run, store
      ensures Traced() && Extends(old(run), run) && Undisturbed(old(View()), View())
    {
      hide IsRun, Undisturbed, OtherStep, CanCreate, CanDeleteDeployment, CanCancel, CanDeleteRevision, CreateDeployment,
           DeleteUnstartedDeployment, RequestDeploymentCancel, DeleteUnusedRevision;
      SelfUndisturbed(View());
      ghost var was := View();
      match a {
        case Create(id, request) =>
          var ok := store.CreateDeployment(id, request);
          if ok {
            Created(was, id, request);
            RecordOther(a);
          }
        case DeleteDeployment(id) =>
          var ok := store.DeleteUnstartedDeployment(id);
          if ok {
            DeploymentDeleted(was, id);
            RecordOther(a);
          }
        case Cancel(id) =>
          var ok := store.RequestDeploymentCancel(id);
          if ok {
            CancelRequested(was, id);
            RecordOther(a);
          }
        case DeleteRevision(id) =>
          var ok := store.DeleteUnusedRevision(id);
          if ok {
            RevisionDeleted(was, id);
            RecordOther(a);
          }
        case _ =>
      }
    }

    /** Draft requests. A publication learns its number from the table. */
    method ServeDrafts(a: Action)
      requires Traced()
      modifies this`run, this`inFlight, store
      ensures Traced() && Extends(old(run), run) && Undisturbed(old(View()), View())
    {
      hide IsRun, Undisturbed, OtherStep, IsMaxNumber, CanWriteDraft, CanImport, UpdateConfigurationDraft, ReadDraft,
           ImportDraft, PublishRevision;
      SelfUndisturbed(View());
      ghost var was := View();
      match a {
        case UpdateDraft(c, version, document) =>
          var ok := store.UpdateConfigurationDraft(c, version, document);
          if ok {
            DraftUpdated(was, c, version, document);
            RecordOther(a);
          }
        case StartImport(c, found) =>
          inFlight := inFlight + {if found then ReadDraft(store.Value(), c) else DraftRead(c, 0, None)};
          ImportStarted(was, c, found);
          RecordOther(a);
        case FinishImport(read, document) =>
          if read in inFlight {
            var ok := store.ImportDraft(read, document);
            if ok {
              ImportFinished(was, read, document);
              RecordOther(a);
            }
          }
        case Publish(c, version, r, document, _) =>
          var ok, number := store.PublishRevision(c, version, r, document);
          if ok {
            Published(was, c, version, r, document, number);
            RecordOther(Publish(c, version, r, document, number));
          }
        case _ =>
      }
    }

    /** Node requests. */
    method ServeNodes(a: Action)
      requires Traced()
      modifies this`run, store
      ensures Traced() && Extends(old(run), run) && Undisturbed(old(View()), View())
    {
      hide IsRun, Undisturbed, OtherStep, SoftDeleteNode;
      SelfUndisturbed(View());
      ghost var was := View();
      match a {
        case AddNode(n, c) =>
          if n !in store.nodes && c in store.active {
            store.nodes := store.nodes[n := NodeRow(c, true, false, false, false, None, Unhashed, 1)];
            NodeAdded(was, n, c);
            RecordOther(a);
          }
        case EditNode(n, enabled, maintenance, supported, version) =>
          if n in store.nodes && !store.nodes[n].deleted && store.nodes[n].recordVersion <= version {
            store.nodes := store.nodes[n := store.nodes[n].(
              enabled := enabled, maintenance := maintenance, supported := supported, recordVersion := version)];
            NodeEdited(was, n, enabled, maintenance, supported, version);
            RecordOther(a);
          }
        case RemoveNode(n, version) =>
          var ok := store.SoftDeleteNode(n, version);
          if ok {
            NodeRemoved(was, n, version);
            RecordOther(a);
          }
        case _ =>
      }
    }

    /** Clusters, drift, and changes made to nodes behind the controller's back. */
    method ServeRest(a: Action)
      requires Traced()
      modifies this`run, this`dhcp, store
      ensures Traced() && Extends(old(run), run) && Undisturbed(old(View()), View())
    {
      hide IsRun, Undisturbed, OtherStep;
      SelfUndisturbed(View());
      ghost var was := View();
      match a {
        case RecordDrift(e, row) =>
          if e !in store.drifts && row.desiredRevision in store.revisions
             && (row.relatedDeployment.None? || row.relatedDeployment.value in store.deployments) {
            store.drifts := store.drifts[e := row];
            DriftRecorded(was, e, row);
            RecordOther(a);
          }
        case RelateDrift(e, related) =>
          if e in store.drifts && (related.None? || related.value in store.deployments) {
            store.drifts := store.drifts[e := store.drifts[e].(relatedDeployment := related)];
            DriftRelated(was, e, related);
            RecordOther(a);
          }
        case AddCluster(c) =>
          if c !in store.active {
            store.active := store.active[c := None];
            ClusterAdded(was, c);
            RecordOther(a);
          }
        case NodesChange(running) =>
          dhcp := running;
          NodesChanged(was, running);
          RecordOther(a);
        case _ =>
      }
    }

    method Serve(a: Action)
      requires Traced()
      modifies this`run, this`inFlight, this`dhcp, store
      ensures Traced() && Extends(old(run), run) && Undisturbed(old(View()), View())
    {
      hide IsRun, HeldExists, Held;
      match a {
        case Create(_, _) | DeleteDeployment(_) | Cancel(_) | DeleteRevision(_) => ServeDeployments(a);
        case UpdateDraft(_, _, _) | StartImport(_, _) | FinishImport(_, _) | Publish(_, _, _, _, _) =>
          ServeDrafts(a);
        case AddNode(_, _) | EditNode(_, _, _, _, _) | RemoveNode(_, _) => ServeNodes(a);
        case _ => ServeRest(a);
      }
    }

    /** Whatever is served between two calls of the executor. */
    method ServeOthers()
      requires Traced()
      modifies this`run, this`inFlight, this`dhcp, this`world, store
      ensures Traced() && Extends(old(run), run) && Undisturbed(old(View()), View())
      ensures old(world.fates) == [] ==> world.fates == []
      ensures world.observations == old(world.observations) && world.applies == old(world.applies)
      ensures old(world.requests) == [] ==> View() == old(View()) && world == old(world)
    {
      hide IsRun, HeldExists, Held;
      if world.requests == [] {
        return;
      }
      var batch := world.requests[0];
      world := world.(requests := world.requests[1..]);
      for i := 0 to |batch|
        invariant Traced() && Extends(old(run), run) && Undisturbed(old(View()), View())
        invariant world.observations == old(world.observations) && world.applies == old(world.applies)
        invariant old(world.fates) == [] ==> world.fates == []
      {
        Serve(batch[i]);
      }
    }

    // Repository calls of the executor.

    /** Traced, at `p`, with copies that agree with the tables. */
    ghost predicate At(p: Pc, copy: Deployment, document: DesiredDocument)
      reads this`run, this`origin, this`pc, this`inFlight, this`dhcp, store
    {
      Traced() && pc == p && Holding(View(), p, copy, document)
    }

    /** Other requests are served while the executor waits. */
    method Pause(ghost p: Pc, ghost copy: Deployment, ghost document: DesiredDocument)
      requires At(p, copy, document)
      modifies this`run, this`inFlight, this`dhcp, this`world, store
      ensures At(p, copy, document)
      ensures old(world.fates) == [] ==> world.fates == []
      ensures world.observations == old(world.observations) && world.applies == old(world.applies)
      ensures old(world.requests) == [] ==> View() == old(View()) && world == old(world)
    {
      hide IsRun, Holding, Undisturbed;
      ServeOthers();
      HoldingUndisturbed(old(View()), View(), p, copy, document);
    }

    method NextFate() returns (fate: Fate)
      modifies this`world
      ensures old(world.fates) == [] ==> world == old(world) && fate == Commits
      ensures world.observations == old(world.observations) && world.applies == old(world.applies)
    {
      fate := Commits;
      if world.fates != [] {
        fate := world.fates[0];
        world := world.(fates := world.fates[1..]);
      }
    }

    /** A call failed, and the run of the executor ends. */
    ghost method Stop()
      requires Traced() && Holds(pc)
      modifies this`pc, this`run
      ensures Traced() && pc == Idle
    {
      hide IsRun, PrepareStep, TaskStep, UnwindStep, OtherStep;
      pc := Idle;
      Record(StopWithError);
    }

    ghost method Move(a: Action, next: Pc, copy: Deployment, document: DesiredDocument)
      requires At(pc, copy, document) && Holds(next) && next.id == pc.id
      requires ExecutorStep(View(), a, View().(pc := next))
      modifies this`pc, this`run
      ensures At(next, copy, document)
    {
      hide IsRun, ExecutorStep, OtherStep, Holding;
      assert Step(View(), a, View().(pc := next));
      HoldingMoved(View(), copy, document, next);
      pc := next;
      Record(a);
    }

    /** UpdateDeploymentNode for task i of the held deployment. */
    method Save(id: Id, i: nat, task: Task, ghost a: Action, ghost next: Pc, ghost copy: Deployment, ghost document: DesiredDocument)
      returns (ok: bool)
      requires At(pc, copy, document) && Holds(pc) && pc.id == id && i < |copy.tasks| && Holds(next) && next.id == id
      requires ExecutorStep(View(), a, WriteTask(View(), i, task, next))
      modifies this`pc, this`run, this`world, store`deployments
      ensures Traced()
      ensures if ok then At(next, copy.(tasks := copy.tasks[i := task]), document) else pc == Idle
      ensures old(world.fates) == [] ==> world == old(world) && ok
      ensures world.observations == old(world.observations) && (old(Free(id)) ==> Free(id))
    {
      hide IsRun, ExecutorStep, OtherStep, Init;
      ghost var was := View();
      var fate := NextFate();
      ok := fate == Commits;
      if fate == FailsBefore {
        Stop();
        return;
      }
      store.UpdateDeploymentNode(id, i, task);
      pc := next;
      assert View() == WriteTask(was, i, task, next);
      HoldingAfterWrite(was, copy, document, i, task, next);
      Record(a);
      if fate == FailsAfter {
        Stop();
      }
    }

    ghost method ClusterExists(held: Deployment, document: DesiredDocument)
      requires At(pc, held, document)
      ensures held.clusterId in store.active
    {
      hide IsRun, Inv, Holding;
      Reachable(run, |run.states| - 1);
      HeldCluster(View(), held, document);
    }

    /** FinishDeployment; the copy's status is what is written. */
    method Finish(id: Id, copy: Deployment, activate: bool, ghost held: Deployment, ghost document: DesiredDocument)
      returns (ok: bool)
      requires At(pc, held, document) && (pc.Boundary? || Unwinding(pc)) && pc.id == id
      requires (if pc.Boundary? then pc.i else pc.next) == |held.tasks|
      requires copy.clusterId == held.clusterId && copy.revisionId == held.revisionId
      requires copy.status == FinishStatus(pc) && activate == (pc.Boundary? && held.origin != Reconciliation)
      modifies this`pc, this`run, this`world, store`deployments, store`active, store`drifts
      ensures Traced() && pc == Idle
      ensures ok ==> id in store.deployments && store.deployments[id].status == copy.status
      ensures ok ==> store.deployments[id].tasks == held.tasks
      ensures ok && (activate || copy.status != Succeeded || held.origin == Reconciliation) ==> Ended(id)
      ensures old(world.fates) == [] ==> world.fates == [] && ok
    {
      hide IsRun, ExecutorStep, OtherStep, Init, Holding, FinishStatus, Ended, Traced;
      var fate := NextFate();
      ok := fate == Commits;
      if fate == FailsBefore {
        Stop();
        return;
      }
      CommitFinish(id, copy, activate, held, document);
    }

    method CommitFinish(id: Id, copy: Deployment, activate: bool, ghost held: Deployment, ghost document: DesiredDocument)
      requires At(pc, held, document) && (pc.Boundary? || Unwinding(pc)) && pc.id == id
      requires (if pc.Boundary? then pc.i else pc.next) == |held.tasks|
      requires copy.clusterId == held.clusterId && copy.revisionId == held.revisionId
      requires copy.status == FinishStatus(pc) && activate == (pc.Boundary? && held.origin != Reconciliation)
      modifies this`pc, this`run, store`deployments, store`active, store`drifts
      ensures Traced() && pc == Idle
      ensures id in store.deployments && store.deployments[id].status == copy.status
      ensures store.deployments[id].tasks == held.tasks
      ensures activate || copy.status != Succeeded || held.origin == Reconciliation ==> Ended(id)
    {
      hide IsRun, ExecutorStep, OtherStep, Init, Holding, FinishDeployment;
      ghost var was := View();
      Finished(was, held, document);
      ClusterExists(held, document);
      FinishedHeld(was, held, document, copy.status, activate);
      store.FinishDeployment(id, copy, activate);
      pc := Idle;
      assert View() == was.(db := FinishDeployment(was.db, id, copy.status, activate), pc := Idle);
      Record(Action.Finish);
    }

    /** Writes one task as skipped while unwinding; a cancellation passes over a task that is not pending. */
    method Skip(id: Id, i: nat, task: Task, onlyPending: bool, ghost held: Deployment, ghost document: DesiredDocument)
      returns (ok: bool, ghost after: Deployment)
      requires At(pc, held, document) && Unwinding(pc) && pc.id == id && pc.next == i < |held.tasks|
      requires task == held.tasks[i] && onlyPending == pc.CancelSkipping?
      modifies this`pc, this`run, this`inFlight, this`dhcp, this`world, store
      ensures Traced()
      ensures if ok then At(SkippingFrom(old(pc), i + 1), after, document) else pc == Idle
      ensures after == held || after == held.(tasks := held.tasks[i := task.(status := Skipped)])
      ensures old(world.fates) == [] ==> world.fates == [] && ok
    {
      hide IsRun, Holding, ExecutorStep, UpdateDeploymentNode, Traced;
      if onlyPending && task.status != Pending {
        after, ok := held, true;
        Skips(View(), held, document);
        Move(SkipTask, Advance(pc), held, document);
        return;
      }
      after := held.(tasks := held.tasks[i := task.(status := Skipped)]);
      Pause(pc, held, document);
      Skips(View(), held, document);
      ok := Save(id, i, task.(status := Skipped), SkipTask, Advance(pc), held, document);
    }

    /** The skipping loop of the three ways to unwind. */
    method SkipRest(id: Id, start: nat, tasks: seq<Task>, onlyPending: bool, ghost held: Deployment, ghost document: DesiredDocument)
      returns (ok: bool, ghost after: Deployment)
      requires At(pc, held, document) && Unwinding(pc) && pc.id == id && pc.next == start <= |tasks|
      requires Agrees(held, held, tasks, start) && onlyPending == pc.CancelSkipping?
      modifies this`pc, this`run, this`inFlight, this`dhcp, this`world, store
      ensures Traced()
      ensures if ok then At(SkippingFrom(old(pc), |tasks|), after, document) && Agrees(held, after, tasks, |tasks|)
              else pc == Idle
      ensures old(world.fates) == [] ==> world.fates == [] && ok
    {
      hide IsRun, Holding, ExecutorStep, Traced, Agrees;
      after := held;
      ok := true;
      for i := start to |tasks|
        invariant ok && At(SkippingFrom(old(pc), i), after, document)
        invariant Agrees(held, after, tasks, i)
        invariant old(world.fates) == [] ==> world.fates == []
      {
        Agreed(held, after, tasks, i, tasks[i].(status := Skipped));
        ok, after := Skip(id, i, tasks[i], onlyPending, after, document);
        if !ok {
          return;
        }
      }
    }

    /** The tasks of the held deployment are as far as unwinding has come. */
    ghost method Unwound(held: Deployment, document: DesiredDocument)
      requires At(pc, held, document) && Unwinding(pc)
      ensures pc.FailingBefore? ==> pc.next <= |held.tasks| && Range(held.tasks, 0, pc.next, Skipped)
      ensures pc.CancelSkipping? ==>
                pc.i <= pc.next <= |held.tasks| && Range(held.tasks, 0, pc.i, TaskSucceeded)
                && Range(held.tasks, pc.i, pc.next, Skipped)
      ensures pc.FailSkipping? ==>
                pc.i < pc.next <= |held.tasks| && held.tasks[pc.i].status == TaskFailed
                && Range(held.tasks, 0, pc.i, TaskSucceeded) && Range(held.tasks, pc.i + 1, pc.next, Skipped)
    {
      hide IsRun, Inv, Holding;
      Reachable(run, |run.states| - 1);
      HeldUnwound(View(), held, document);
    }

    /** Skips every task, and fails the deployment. */
    method FailBeforeMutation(id: Id, copy: Deployment, ghost document: DesiredDocument) returns (ok: bool)
      requires At(Preparing(id), copy, document)
      modifies this`pc, this`run, this`inFlight, this`dhcp, this`world, store
      ensures Traced() && pc == Idle
      ensures ok ==> Ended(id) && store.deployments[id].status == Failed
      ensures ok ==> Range(store.deployments[id].tasks, 0, |copy.tasks|, Skipped)
      ensures old(world.fates) == [] ==> world.fates == [] && ok
    {
      hide IsRun, Holding, ExecutorStep, Traced;
      FailsBeforeMutation(View(), copy, document);
      Move(PrepareFails, FailingBefore(id, 0), copy, document);
      ghost var held;
      ok, held := SkipRest(id, 0, copy.tasks, false, copy, document);
      if ok {
        Pause(FailingBefore(id, |copy.tasks|), held, document);
        Unwound(held, document);
        ok := Finish(id, copy.(status := Failed), false, held, document);
      }
    }

    /** Skips the pending tasks from `start` on, and cancels the deployment. */
    method CancelFrom(id: Id, start: nat, copy: Deployment, ghost document: DesiredDocument) returns (ok: bool)
      requires At(CancelSkipping(id, start, start), copy, document) && start <= |copy.tasks|
      modifies this`pc, this`run, this`inFlight, this`dhcp, this`world, store
      ensures Traced() && pc == Idle
      ensures ok ==> Ended(id) && store.deployments[id].status == Cancelled
      ensures ok ==> Range(store.deployments[id].tasks, 0, start, TaskSucceeded)
                     && Range(store.deployments[id].tasks, start, |copy.tasks|, Skipped)
      ensures old(world.fates) == [] ==> world.fates == [] && ok
    {
      hide IsRun, Holding, ExecutorStep, Traced;
      ghost var held;
      ok, held := SkipRest(id, start, copy.tasks, true, copy, document);
      if ok {
        Pause(CancelSkipping(id, start, |copy.tasks|), held, document);
        Unwound(held, document);
        ok := Finish(id, copy.(status := Cancelled), false, held, document);
      }
    }

    /** A repository call that writes nothing this model keeps: convergence status. */
    method UpdateNodeConvergence() returns (ok: bool)
      requires Traced() && Holds(pc)
      modifies this`pc, this`run, this`world
      ensures Traced()
      ensures if ok then View() == old(View()) else pc == Idle
      ensures old(world.fates) == [] ==> world == old(world) && ok
      ensures world.observations == old(world.observations)
    {
      hide IsRun;
      var fate := NextFate();
      ok := fate == Commits;
      if !ok {
        Stop();
      }
    }

    /** Fails task i, skips the tasks after it, and ends the deployment. */
    method FailNode(id: Id, i: nat, copy: Deployment, succeeded: nat, ghost document: DesiredDocument) returns (ok: bool)
      requires At(FailingNode(id, i), copy, document) && i < |copy.tasks| && succeeded == i
      modifies this`pc, this`run, this`inFlight, this`dhcp, this`world, store
      ensures Traced() && pc == Idle
      ensures ok ==> id in store.deployments
                     && store.deployments[id].status == if i > 0 then PartiallySucceeded else Failed
      ensures ok ==> FailedAt(store.deployments[id].tasks, i, |copy.tasks|)
      ensures old(world.fates) == [] ==> world.fates == [] && ok
    {
      hide IsRun, Holding, ExecutorStep, Traced, UpdateDeploymentNode, FailedAt;
      Pause(FailingNode(id, i), copy, document);
      var failed := copy.tasks[i].(status := TaskFailed);
      ghost var held := copy.(tasks := copy.tasks[i := failed]);
      TaskWrites(View(), copy, document, i);
      ok := Save(id, i, failed, FailTask, FailSkipping(id, i, i + 1), copy, document);
      if ok {
        ok := FailRest(id, i, copy, succeeded, held, document);
      }
    }

    method FailRest(id: Id, i: nat, copy: Deployment, succeeded: nat, ghost held: Deployment, ghost document: DesiredDocument)
      returns (ok: bool)
      requires At(FailSkipping(id, i, i + 1), held, document) && Agrees(copy, held, copy.tasks, i + 1)
      requires i < |copy.tasks| && succeeded == i
      modifies this`pc, this`run, this`inFlight, this`dhcp, this`world, store
      ensures Traced() && pc == Idle
      ensures ok ==> id in store.deployments
                     && store.deployments[id].status == if i > 0 then PartiallySucceeded else Failed
      ensures ok ==> FailedAt(store.deployments[id].tasks, i, |copy.tasks|)
      ensures old(world.fates) == [] ==> world.fates == [] && ok
    {
      hide IsRun, Holding, ExecutorStep, Traced, Range, FailedAt;
      ok := UpdateNodeConvergence();
      if ok {
        ghost var after;
        ok, after := SkipRest(id, i + 1, copy.tasks, false, held, document);
        if ok {
          AgreesFrom(copy, held, after, i + 1);
          ok := FinishFailed(id, i, copy, succeeded, after, document);
        }
      }
    }

    method FinishFailed(id: Id, i: nat, copy: Deployment, succeeded: nat, ghost held: Deployment, ghost document: DesiredDocument)
      returns (ok: bool)
      requires At(FailSkipping(id, i, |copy.tasks|), held, document) && Agrees(copy, held, copy.tasks, |copy.tasks|)
      requires i < |copy.tasks| && succeeded == i
      modifies this`pc, this`run, this`inFlight, this`dhcp, this`world, store
      ensures Traced() && pc == Idle
      ensures ok ==> id in store.deployments
                     && store.deployments[id].status == if i > 0 then PartiallySucceeded else Failed
      ensures ok ==> FailedAt(store.deployments[id].tasks, i, |copy.tasks|)
      ensures old(world.fates) == [] ==> world.fates == [] && ok
    {
      hide IsRun, Holding, ExecutorStep, Traced, Range;
      Pause(FailSkipping(id, i, |copy.tasks|), held, document);
      Unwound(held, document);
      var status := if succeeded > 0 then PartiallySucceeded else Failed;
      ok := Finish(id, copy.(status := status), false, held, document);
    }

    /** Enters task i and applies its configuration: at Applied if that succeeded, at FailingNode if not. */
    method ApplyNode(id: Id, i: nat, copy: Deployment, effective: Document, ghost document: DesiredDocument)
      returns (ok: bool, applied: bool, after: Deployment)
      requires At(Entering(id, i), copy, document) && i < |copy.tasks|
      requires Effective(document, copy.tasks[i].nodeId) == Some(effective)
      modifies this`pc, this`run, this`inFlight, this`dhcp, this`world, store
      ensures Traced()
      ensures if ok then At(if applied then Applied(id, i) else FailingNode(id, i), after, document) else pc == Idle
      ensures ok ==> Agrees(copy, after, copy.tasks, i + 1) && after.tasks[i].nodeId == copy.tasks[i].nodeId
      ensures old(world.fates) == [] ==> world.fates == [] && ok
      ensures old(Free(id)) ==> Free(id) && world == Later(old(world), 1, 0) && (applied <==> ApplyAt(old(world), 0) == Applies)
    {
      hide IsRun, Holding, ExecutorStep, Traced, UpdateDeploymentNode, Effective, Later, ApplyAt, Agrees;
      applied := false;
      Pause(Entering(id, i), copy, document);
      var t := copy.tasks[i];
      var task := t.(status := Applying, attempts := t.attempts + 1, started := true);
      AgreesWritten(copy, i, task);
      after := copy.(tasks := copy.tasks[i := task]);
      TaskWrites(View(), copy, document, i);
      ok := Save(id, i, task, EnterTask, Configuring(id, i), copy, document);
      if ok {
        ok := UpdateNodeConvergence();
      }
      if ok {
        applied := ApplyConfiguration(id, i, after, effective, document);
      }
    }

    /** Decrypts credentials and writes the node; how far that gets is up to the node. */
    method ApplyConfiguration(id: Id, i: nat, copy: Deployment, effective: Document, ghost document: DesiredDocument)
      returns (applied: bool)
      requires At(Configuring(id, i), copy, document) && i < |copy.tasks|
      requires Effective(document, copy.tasks[i].nodeId) == Some(effective)
      modifies this`pc, this`run, this`inFlight, this`dhcp, this`world, store
      ensures At(if applied then Applied(id, i) else FailingNode(id, i), copy, document)
      ensures old(world.fates) == [] ==> world.fates == []
      ensures applied <==> ApplyAt(old(world), 0) == Applies
      ensures old(world.requests) == [] ==>
                dhcp == if ApplyAt(old(world), 0) == FailsEarly || effective.nodeSpecific.dhcp.None? then old(dhcp)
                        else if effective.nodeSpecific.dhcp.value.enabled then old(dhcp) + {copy.tasks[i].nodeId}
                        else old(dhcp) - {copy.tasks[i].nodeId}
      ensures old(Free(id)) ==> Free(id) && world == Later(old(world), 1, 0)
    {
      hide IsRun, Holding, ExecutorStep, Traced, Effective, Later;
      Pause(Configuring(id, i), copy, document);
      var outcome := NextApply();
      if outcome != FailsEarly && effective.nodeSpecific.dhcp.Some? {
        SetDhcp(id, i, copy, effective.nodeSpecific.dhcp.value.enabled, effective, document);
      }
      applied := outcome == Applies;
      TaskMoves(View(), copy, document, i, None);
      if applied {
        Move(ApplySucceeds, Applied(id, i), copy, document);
      } else {
        Move(ApplyFails, FailingNode(id, i), copy, document);
      }
    }

    method NextApply() returns (outcome: Apply)
      modifies this`world
      ensures old(world.fates) == [] ==> world.fates == []
      ensures outcome == ApplyAt(old(world), 0) && world == Later(old(world), 1, 0)
    {
      outcome := Applies;
      if world.applies != [] {
        outcome := world.applies[0];
        world := world.(applies := world.applies[1..]);
      }
    }

    /** Observes a node; None when that fails. */
    method Observe() returns (observed: Option<Document>)
      modifies this`world
      ensures old(world.fates) == [] ==> world.fates == []
      ensures observed == ObservationAt(old(world), 0) && world == Later(old(world), 0, 1)
    {
      observed := None;
      if world.observations != [] {
        observed := world.observations[0];
        world := world.(observations := world.observations[1..]);
      }
    }

    method SetDhcp(id: Id, i: nat, copy: Deployment, enabled: bool, ghost effective: Document, ghost document: DesiredDocument)
      requires At(Configuring(id, i), copy, document) && i < |copy.tasks|
      requires Effective(document, copy.tasks[i].nodeId) == Some(effective)
      requires effective.nodeSpecific.dhcp.Some? && effective.nodeSpecific.dhcp.value.enabled == enabled
      modifies this`dhcp, this`run
      ensures At(Configuring(id, i), copy, document)
      ensures dhcp == if enabled then old(dhcp) + {copy.tasks[i].nodeId} else old(dhcp) - {copy.tasks[i].nodeId}
    {
      hide IsRun, ExecutorStep, OtherStep, Effective;
      ghost var was := View();
      DhcpWritten(was, copy, document, i, effective);
      dhcp := if enabled then dhcp + {copy.tasks[i].nodeId} else dhcp - {copy.tasks[i].nodeId};
      assert Held(View()) == Held(was) && Intent(View()) == Intent(was);
      Record(WriteDhcp);
    }

    /** Reads task i's node back: at Verified if nothing managed differs, at FailingNode if not. */
    method VerifyNode(id: Id, i: nat, copy: Deployment, effective: Document, ghost document: DesiredDocument)
      returns (ok: bool, verified: bool, observed: Option<Document>, after: Deployment)
      requires At(Applied(id, i), copy, document) && i < |copy.tasks|
      requires Effective(document, copy.tasks[i].nodeId) == Some(effective)
      modifies this`pc, this`run, this`inFlight, this`dhcp, this`world, store
      ensures Traced()
      ensures ok && verified ==> observed.Some? && At(Verified(id, i, observed.value), after, document)
      ensures ok && !verified ==> At(FailingNode(id, i), after, document)
      ensures !ok ==> pc == Idle
      ensures ok ==> Agrees(copy, after, copy.tasks, i + 1) && after.tasks[i].nodeId == copy.tasks[i].nodeId
      ensures old(world.fates) == [] ==> world.fates == [] && ok
      ensures ok ==> observed == ObservationAt(old(world), 0)
      ensures ok ==> (verified <==> observed.Some? && ManagedDifferences(effective, ProjectDocument(observed.value)) == [])
      ensures old(Free(id)) ==> Free(id) && world == Later(old(world), 0, 1)
    {
      hide IsRun, Holding, ExecutorStep, Traced, UpdateDeploymentNode, Effective, ManagedDifferences, ProjectDocument, Later, Agrees;
      verified, observed := false, None;
      Pause(Applied(id, i), copy, document);
      var task := copy.tasks[i].(status := Verifying);
      AgreesWritten(copy, i, task);
      after := copy.(tasks := copy.tasks[i := task]);
      TaskWrites(View(), copy, document, i);
      ok := Save(id, i, task, StartVerifying, Reading(id, i), copy, document);
      if ok {
        ok := UpdateNodeConvergence();
      }
      if ok {
        verified, observed := ReadNodeBack(id, i, after, effective, document);
      }
    }

    method ReadNodeBack(id: Id, i: nat, copy: Deployment, effective: Document, ghost document: DesiredDocument)
      returns (verified: bool, observed: Option<Document>)
      requires At(Reading(id, i), copy, document) && i < |copy.tasks|
      requires Effective(document, copy.tasks[i].nodeId) == Some(effective)
      modifies this`pc, this`run, this`inFlight, this`dhcp, this`world, store
      ensures Traced() && (verified ==> observed.Some?)
      ensures At(if verified then Verified(id, i, observed.value) else FailingNode(id, i), copy, document)
      ensures old(world.fates) == [] ==> world.fates == []
      ensures observed == ObservationAt(old(world), 0)
      ensures old(Free(id)) ==> Free(id) && world == Later(old(world), 0, 1)
      ensures verified <==> observed.Some? && ManagedDifferences(effective, ProjectDocument(observed.value)) == []
    {
      hide IsRun, Holding, ExecutorStep, Traced, Effective, ManagedDifferences, ProjectDocument, Later;
      Pause(Reading(id, i), copy, document);
      observed := Observe();
      verified := observed.Some? && ManagedDifferences(effective, ProjectDocument(observed.value)) == [];
      TaskMoves(View(), copy, document, i, observed);
      Move(ReadBack(observed), if verified then Verified(id, i, observed.value) else FailingNode(id, i), copy, document);
    }

    /** Records the verified task and marks its node. */
    method RecordNode(id: Id, i: nat, copy: Deployment, observed: Document, ghost document: DesiredDocument)
      returns (ok: bool, after: Deployment)
      requires At(Verified(id, i, observed), copy, document) && i < |copy.tasks|
      modifies this`pc, this`run, this`inFlight, this`dhcp, this`world, store
      ensures Traced()
      ensures if ok then At(Boundary(id, i + 1), after, document) else pc == Idle
      ensures ok ==> Agrees(copy, after, copy.tasks, i + 1) && after.tasks[i].nodeId == copy.tasks[i].nodeId
      ensures old(world.fates) == [] ==> world.fates == [] && ok
      ensures old(Free(id)) ==> Free(id) && world == old(world)
    {
      hide IsRun, Holding, ExecutorStep, Traced, UpdateDeploymentNode, Agrees;
      Pause(Verified(id, i, observed), copy, document);
      var task := copy.tasks[i].(status := TaskSucceeded, snapshot := Some(observed));
      AgreesWritten(copy, i, task);
      after := copy.(tasks := copy.tasks[i := task]);
      SuccessRecorded(View(), copy, document, i, observed);
      ok := Save(id, i, task, RecordSuccess, Marking(id, i), copy, document);
      if ok {
        Pause(Marking(id, i), after, document);
        ok := Mark(id, i, after, document);
      }
    }

    /** MarkNodeApplied for the node of task i. */
    method Mark(id: Id, i: nat, copy: Deployment, ghost document: DesiredDocument) returns (ok: bool)
      requires At(Marking(id, i), copy, document) && i < |copy.tasks|
      modifies this`pc, this`run, this`world, store`nodes
      ensures Traced()
      ensures if ok then At(Boundary(id, i + 1), copy, document) else pc == Idle
      ensures old(world.fates) == [] ==> world == old(world) && ok
    {
      hide IsRun, ExecutorStep, OtherStep, Init;
      ghost var was := View();
      var fate := NextFate();
      ok := fate == Commits;
      if fate == FailsBefore {
        Stop();
        return;
      }
      store.MarkNodeApplied(copy.tasks[i].nodeId, copy.revisionId, copy.tasks[i].effectiveHash);
      pc := Boundary(id, i + 1);
      NodeMarked(was, copy, document, i);
      Record(MarkApplied);
      if fate == FailsAfter {
        Stop();
      }
    }

    // The executor itself.

    /** Checks every target before the first mutation; None when one is not fit to be changed. */
    method Prepare(id: Id, copy: Deployment, document: DesiredDocument) returns (effective: Option<seq<Document>>)
      requires At(Preparing(id), copy, document)
      modifies this`run, this`inFlight, this`dhcp, this`world, store
      ensures At(Preparing(id), copy, document) && Extends(old(run), run)
      ensures effective.Some? ==> |effective.value| == |copy.tasks| && forall i :: 0 <= i < |copy.tasks| ==>
                && Effective(document, copy.tasks[i].nodeId) == Some(effective.value[i])
                && SeenMutable(run, |old(run.states)|, copy.tasks[i].nodeId)
      ensures old(world.fates) == [] ==> world.fates == []
      ensures old(world.fates) == [] && effective.None? ==> SeenUnready(run, |old(run.states)|, document, copy.tasks, old(world))
      ensures old(Free(id)) ==>
                && View() == old(View()) && (effective.Some? <==> AllReady(store.Value(), document, copy.tasks, old(world)))
                && (effective.Some? ==> world == Later(old(world), 0, |copy.tasks|))
    {
      hide IsRun, Holding, Effective, Traced, SeenMutable, Ready, Later, ObservationAt;
      LaterNone(world);
      var prepared: seq<Document> := [];
      for i := 0 to |copy.tasks|
        invariant At(Preparing(id), copy, document) && Extends(old(run), run) && |prepared| == i
        invariant old(world.fates) == [] ==> world.fates == []
        invariant forall j :: 0 <= j < i ==> Effective(document, copy.tasks[j].nodeId) == Some(prepared[j])
        invariant forall j :: 0 <= j < i ==> SeenMutable(run, |old(run.states)|, copy.tasks[j].nodeId)
        invariant world.observations == Later(old(world), 0, i).observations
        invariant old(Free(id)) ==> View() == old(View()) && world == Later(old(world), 0, i)
        invariant old(Free(id)) ==>
                    forall j :: 0 <= j < i ==> Ready(store.Value(), document, copy.tasks[j].nodeId, ObservationAt(old(world), j))
      {
        ghost var before := run;
        ghost var w := world;
        var target := PrepareNode(id, copy.tasks[i].nodeId, copy, document);
        NextAnswer(old(world), w, i);
        if target.None? {
          LastState();
          return None;
        }
        prepared := prepared + [target.value];
        forall j | 0 <= j < i
          ensures SeenMutable(run, |old(run.states)|, copy.tasks[j].nodeId)
        {
          StillSeen(before, run, |old(run.states)|, |old(run.states)|, copy.tasks[j].nodeId);
        }
        StillSeen(run, run, |before.states|, |old(run.states)|, copy.tasks[i].nodeId);
      }
      effective := Some(prepared);
    }

    /** One target: its record, its effective configuration, and its listener as observed. */
    method PrepareNode(id: Id, nodeId: Id, ghost copy: Deployment, document: DesiredDocument) returns (effective: Option<Document>)
      requires At(Preparing(id), copy, document)
      modifies this`run, this`inFlight, this`dhcp, this`world, store
      ensures At(Preparing(id), copy, document) && Extends(old(run), run)
      ensures effective.Some? ==> Effective(document, nodeId) == effective && !IsLegacyConverted(document.unsupported)
      ensures effective.Some? ==> SeenMutable(run, |old(run.states)|, nodeId)
      ensures effective.Some? ==> world.observations == Rest(old(world.observations), 1)
      ensures old(world.fates) == [] ==> world.fates == []
      ensures old(world.fates) == [] ==>
                (effective.Some? <==> Ready(store.Value(), document, nodeId, ObservationAt(old(world), 0)))
      ensures old(Free(id)) ==> View() == old(View()) && (effective.Some? ==> world == Later(old(world), 0, 1))
    {
      hide IsRun, Holding, Effective, ListenerKept, Ready, Rest;
      effective := None;
      ServeOthers();
      HoldingUndisturbed(old(View()), View(), Preparing(id), copy, document);
      var fate := NextFate();
      FitIsReady(store.Value(), nodeId, document, ObservationAt(old(world), 0));
      if fate != Commits || !Mutable(store.Value(), nodeId) || IsLegacyConverted(document.unsupported) {
        return;
      }
      assert Mutable(run.states[|run.states| - 1].db, nodeId);
      var projected := Effective(document, nodeId);
      if projected.None? {
        return;
      }
      var observed := Observe();
      if ListenerKept(projected.value, observed) {
        effective := projected;
      }
    }

    /** Takes the targets through apply, read-back and recording, one after the other. */
    method DeployNodes(id: Id, copy: Deployment, effective: seq<Document>, ghost document: DesiredDocument) returns (ok: bool)
      requires At(Boundary(id, 0), copy, document) && |effective| == |copy.tasks|
      requires forall i :: 0 <= i < |copy.tasks| ==> Effective(document, copy.tasks[i].nodeId) == Some(effective[i])
      modifies this`pc, this`run, this`inFlight, this`dhcp, this`world, store
      ensures Traced() && pc == Idle
      ensures ok ==> Ended(id)
      ensures old(world.fates) == [] ==> world.fates == [] && ok
      ensures old(Free(id)) ==> id in store.deployments && store.deployments[id].status == Ending(document, copy.tasks, old(world), 0)
    {
      hide IsRun, Holding, Effective, Traced, ExecutorStep, Agrees, Delivered, Later, ApplyAt, ObservationAt, Ended,
           DeliveredAt, DeliveredTo, Ending;
      var current, succeeded := copy, 0;
      AgreesSelf(copy);
      LaterNone(world);
      NoneDelivered(document, copy.tasks, world);
      for i := 0 to |copy.tasks|
        invariant At(Boundary(id, i), current, document)
        invariant Agrees(copy, current, copy.tasks, i) && succeeded == i
        invariant old(world.fates) == [] ==> world.fates == []
        invariant old(Free(id)) ==> Free(id) && world == Later(old(world), i, i)
        invariant old(Free(id)) ==> DeliveredTo(document, copy.tasks, old(world), 0, i)
      {
        AgreesAt(copy, current, i);
        TargetAnswers(document, copy.tasks, old(world), i);
        var going;
        ghost var before := current;
        going, ok, current := DeployTarget(id, i, current, effective[i], succeeded, document);
        if old(Free(id)) {
          EndsAt(document, copy.tasks, old(world), i);
        }
        if !going {
          return;
        }
        AgreesOn(copy, before, current, i);
        succeeded := succeeded + 1;
      }
      AgreesAt(copy, current, |copy.tasks|);
      if old(Free(id)) {
        EndsAt(document, copy.tasks, old(world), |copy.tasks|);
      }
      Pause(Boundary(id, |copy.tasks|), current, document);
      ok := Finish(id, copy.(status := Succeeded), copy.origin != Reconciliation, current, document);
    }

    /** One round of the loop: the boundary, then the target. */
    method DeployTarget(id: Id, i: nat, copy: Deployment, effective: Document, succeeded: nat, ghost document: DesiredDocument)
      returns (going: bool, ok: bool, after: Deployment)
      requires At(Boundary(id, i), copy, document) && i < |copy.tasks| && succeeded == i
      requires Effective(document, copy.tasks[i].nodeId) == Some(effective)
      modifies this`pc, this`run, this`inFlight, this`dhcp, this`world, store
      ensures Traced()
      ensures if going then At(Boundary(id, i + 1), after, document) && Agrees(copy, after, copy.tasks, i + 1) else pc == Idle
      ensures !going && ok ==> Ended(id)
      ensures old(world.fates) == [] ==> world.fates == [] && ok
      ensures old(Free(id)) ==>
                && (going <==> Delivered(document, copy.tasks[i].nodeId, ApplyAt(old(world), 0), ObservationAt(old(world), 0)))
                && (going ==> Free(id) && world == Later(old(world), 1, 1))
                && (!going ==> id in store.deployments && store.deployments[id].status == if i > 0 then PartiallySucceeded else Failed)
    {
      hide IsRun, Holding, Effective, Traced, ExecutorStep, Agrees, Delivered, Later, ApplyAt, ObservationAt;
      after := copy;
      var boundary := CheckCancelled(id, i, copy, document);
      if boundary.Some? {
        return false, boundary.value, copy;
      }
      going, ok, after := DeployNode(id, i, copy, effective, succeeded, document);
    }

    /** The node boundary: None to go on to target i, otherwise the outcome of stopping there. */
    method CheckCancelled(id: Id, i: nat, copy: Deployment, ghost document: DesiredDocument) returns (outcome: Option<bool>)
      requires At(Boundary(id, i), copy, document) && i < |copy.tasks|
      modifies this`pc, this`run, this`inFlight, this`dhcp, this`world, store
      ensures Traced()
      ensures if outcome.None? then At(Entering(id, i), copy, document) else pc == Idle
      ensures outcome == Some(true) ==> id in store.deployments && store.deployments[id].status == Cancelled
      ensures old(world.fates) == [] ==> world.fates == [] && outcome != Some(false)
      ensures old(Free(id)) ==> outcome.None? && Free(id) && world == old(world)
    {
      hide IsRun, ExecutorStep, Traced, Holding;
      Pause(Boundary(id, i), copy, document);
      var fate := NextFate();
      if fate != Commits {
        Stop();
        return Some(false);
      }
      PassBoundary(id, i, copy, document);
      if store.deployments[id].cancelRequested {
        var ok := CancelFrom(id, i, store.deployments[id], document);
        return Some(ok);
      }
      outcome := None;
    }

    ghost method PassBoundary(id: Id, i: nat, copy: Deployment, document: DesiredDocument)
      requires At(Boundary(id, i), copy, document) && i < |copy.tasks|
      modifies this`pc, this`run
      ensures id in store.deployments && |store.deployments[id].tasks| == |copy.tasks|
      ensures if store.deployments[id].cancelRequested then At(CancelSkipping(id, i, i), store.deployments[id], document)
              else At(Entering(id, i), copy, document)
    {
      hide IsRun, ExecutorStep, Traced, Holding;
      HoldingRow(View(), copy, document);
      TaskMoves(View(), copy, document, i, None);
      if store.deployments[id].cancelRequested {
        Move(CheckBoundary, CancelSkipping(id, i, i), store.deployments[id], document);
      } else {
        Move(CheckBoundary, Entering(id, i), copy, document);
      }
    }

    /** One target, from entering it to the next boundary. */
    method DeployNode(id: Id, i: nat, copy: Deployment, effective: Document, succeeded: nat, ghost document: DesiredDocument)
      returns (going: bool, ok: bool, after: Deployment)
      requires At(Entering(id, i), copy, document) && i < |copy.tasks| && succeeded == i
      requires Effective(document, copy.tasks[i].nodeId) == Some(effective)
      modifies this`pc, this`run, this`inFlight, this`dhcp, this`world, store
      ensures Traced()
      ensures if going then At(Boundary(id, i + 1), after, document) && Agrees(copy, after, copy.tasks, i + 1) else pc == Idle
      ensures !going && ok ==> id in store.deployments && store.deployments[id].status == if i > 0 then PartiallySucceeded else Failed
      ensures old(world.fates) == [] ==> world.fates == [] && ok
      ensures old(Free(id)) ==>
                && (going <==> Delivered(document, copy.tasks[i].nodeId, ApplyAt(old(world), 0), ObservationAt(old(world), 0)))
                && (going ==> Free(id) && world == Later(old(world), 1, 1))
    {
      hide IsRun, Holding, Effective, Traced, ExecutorStep, Later, ApplyAt, ObservationAt, Delivered, ManagedDifferences,
           ProjectDocument;
      LaterAnswers(world, 1, 0, 0);
      LaterTwice(world, 1, 0, 0, 1);
      CleanIsDelivered(document, copy.tasks[i].nodeId, effective, ApplyAt(world, 0), ObservationAt(world, 0));
      going := false;
      var applied;
      ok, applied, after := ApplyNode(id, i, copy, effective, document);
      if !ok {
        return;
      }
      if !applied {
        ok := FailNode(id, i, after, succeeded, document);
        return;
      }
      ghost var entered := after;
      going, ok, after := ConfirmNode(id, i, after, effective, succeeded, document);
      if going {
        AgreesAlong(copy, entered, after, i);
      }
    }

    /** The second half of a target: reading it back and recording it. */
    method ConfirmNode(id: Id, i: nat, copy: Deployment, effective: Document, succeeded: nat, ghost document: DesiredDocument)
      returns (going: bool, ok: bool, after: Deployment)
      requires At(Applied(id, i), copy, document) && i < |copy.tasks| && succeeded == i
      requires Effective(document, copy.tasks[i].nodeId) == Some(effective)
      modifies this`pc, this`run, this`inFlight, this`dhcp, this`world, store
      ensures Traced()
      ensures if going then At(Boundary(id, i + 1), after, document) && Agrees(copy, after, copy.tasks, i + 1) else pc == Idle
      ensures !going && ok ==> id in store.deployments && store.deployments[id].status == if i > 0 then PartiallySucceeded else Failed
      ensures old(world.fates) == [] ==> world.fates == [] && ok
      ensures old(Free(id)) ==>
                var observed := ObservationAt(old(world), 0);
                && (going <==> observed.Some? && ManagedDifferences(effective, ProjectDocument(observed.value)) == [])
                && (going ==> Free(id) && world == Later(old(world), 0, 1))
    {
      hide IsRun, Holding, Effective, Traced, ExecutorStep, Later, ObservationAt, ManagedDifferences, ProjectDocument;
      going := false;
      var verified, observed;
      ok, verified, observed, after := VerifyNode(id, i, copy, effective, document);
      if !ok {
        return;
      }
      if !verified {
        ok := FailNode(id, i, after, succeeded, document);
        return;
      }
      going, after := RecordNode(id, i, after, observed.value, document);
      ok := going;
    }

    /** Executes a claimed deployment. Whatever fails, everything that happened is a run of the protocol. Without an
        error the deployment has ended, and there is no error unless a repository call fails. If nobody else is served
        either, what the tables, the intent and the nodes say decides how it ends. */
    method Execute(id: Id) returns (ok: bool)
      requires Traced() && pc == Claimed(id)
      modifies this`pc, this`run, this`inFlight, this`dhcp, this`world, store
      ensures Traced() && pc == Idle
      ensures ok ==> Ended(id)
      ensures ok && store.deployments[id].status == Succeeded ==>
                forall t :: t in store.deployments[id].tasks ==> t.status == TaskSucceeded
      ensures old(world.fates) == [] ==> world.fates == [] && ok
      ensures old(world.fates) == [] && old(world.requests) == [] ==>
                && id in old(store.deployments) && old(store.deployments)[id].revisionId in old(store.revisions)
                && var d := old(store.deployments)[id];
                   store.deployments[id].status
                   == Outcome(old(store.Value()), d, old(store.revisions)[d.revisionId].document, old(world))
    {
      hide IsRun, Holding, Effective, ExecutorStep, Undisturbed, Traced, Inv, AllReady, Ending, Range;
      ServeOthers();
      SameCounter(old(View()), View());
      var fate := NextFate();
      if fate != Commits {
        Stop();
        return false;
      }
      ghost var document := LoadCopy(id);
      var copy := store.deployments[id];
      HoldingIntent(View(), copy, document);
      if copy.cancelRequested || copy.status == Cancelling {
        ok := CancelFrom(id, 0, copy, document);
      } else {
        ok := ExecutePrepared(id, copy, document);
      }
      if ok {
        AllSucceeded(id);
      }
    }

    /** The deployment as loaded decides between cancelling and preparing. */
    ghost method LoadCopy(id: Id) returns (document: DesiredDocument)
      requires Traced() && pc == Claimed(id)
      modifies this`pc, this`run
      ensures id in store.deployments
      ensures var copy := store.deployments[id];
              At(if copy.cancelRequested || copy.status == Cancelling then CancelSkipping(id, 0, 0) else Preparing(id),
                 copy, document)
    {
      hide IsRun, Holding, ExecutorStep, Inv;
      Reachable(run, |run.states| - 1);
      document := ClaimedHolds(View());
      var copy := store.deployments[id];
      Move(Load, if copy.cancelRequested || copy.status == Cancelling then CancelSkipping(id, 0, 0) else Preparing(id),
           copy, document);
    }

    /** A deployment that has ended successfully has only succeeded tasks. */
    ghost method AllSucceeded(id: Id)
      requires Traced() && Ended(id)
      ensures store.deployments[id].status == Succeeded ==>
                forall t :: t in store.deployments[id].tasks ==> t.status == TaskSucceeded
    {
      hide IsRun, TaskShape;
      TasksAlwaysInShape(run, |run.states| - 1, id);
    }

    method ExecutePrepared(id: Id, copy: Deployment, ghost document: DesiredDocument) returns (ok: bool)
      requires At(Preparing(id), copy, document)
      modifies this`pc, this`run, this`inFlight, this`dhcp, this`world, store
      ensures Traced() && pc == Idle
      ensures ok ==> Ended(id)
      ensures old(world.fates) == [] ==> world.fates == [] && ok
      ensures old(Free(id)) ==>
                && id in store.deployments
                && store.deployments[id].status
                   == if AllReady(old(store.Value()), document, copy.tasks, old(world))
                      then Ending(document, copy.tasks, old(world), |copy.tasks|) else Failed
    {
      hide IsRun, Holding, Effective, ExecutorStep, Traced, SeenMutable, SeenUnready, AllReady, Ending, Later;
      EndingLater(document, copy.tasks, world, |copy.tasks|);
      Pause(Preparing(id), copy, document);
      var fate := NextFate();
      if fate != Commits {
        ok := FailBeforeMutation(id, copy, document);
        return;
      }
      HoldingIntent(View(), copy, document);
      var intent := store.revisions[copy.revisionId].document;
      var effective := Prepare(id, copy, intent);
      if effective.None? {
        ok := FailBeforeMutation(id, copy, document);
        return;
      }
      Pause(Preparing(id), copy, document);
      ok := StartRunning(id, copy, document);
      if ok {
        ok := DeployNodes(id, copy, effective.value, document);
      }
    }

    /** SetDeploymentRunning, once every target is prepared. */
    method StartRunning(id: Id, ghost copy: Deployment, ghost document: DesiredDocument) returns (ok: bool)
      requires At(Preparing(id), copy, document)
      requires forall i :: 0 <= i < |copy.tasks| ==> Effective(document, copy.tasks[i].nodeId).Some?
      modifies this`pc, this`run, this`world, store`deployments
      ensures Traced()
      ensures if ok then At(Boundary(id, 0), copy, document) else pc == Idle
      ensures old(world.fates) == [] ==> world == old(world) && ok
      ensures old(Free(id)) ==> Free(id)
    {
      hide IsRun, ExecutorStep, OtherStep, Init, Effective;
      ghost var was := View();
      var fate := NextFate();
      ok := fate == Commits;
      if fate == FailsBefore {
        Stop();
        return;
      }
      store.SetDeploymentRunning(id);
      pc := Boundary(id, 0);
      StartedRunning(was, copy, document);
      Record(PrepareSucceeds);
      if fate == FailsAfter {
        Stop();
      }
    }

    /** Claims a deployment, if one is waiting. */
    method Claim() returns (claimed: Option<Id>, ok: bool)
      requires Traced() && pc == Idle
      modifies this`pc, this`run, this`inFlight, this`dhcp, this`world, store
      ensures Traced()
      ensures if claimed.Some? then ok && pc == Claimed(claimed.value) else pc == Idle
      ensures claimed.None? && ok ==> forall id :: id in store.deployments ==> !Claimable(store.Value(), id)
      ensures old(world.fates) == [] ==> world.fates == [] && ok
      ensures old(world.fates) == [] && old(world.requests) == [] ==> world == old(world) && (claimed.Some? ==>
                Claimable(old(store.Value()), claimed.value) && store.Value() == ClaimDeployment(old(store.Value()), claimed.value))
      ensures old(world.fates) == [] && old(world.requests) == [] && claimed.Some? ==>
                forall id :: Claimable(old(store.Value()), id) ==>
                  old(store.deployments)[claimed.value].requestedAt <= old(store.deployments)[id].requestedAt
    {
      hide IsRun, ExecutorStep, OtherStep, Undisturbed, ClaimDeployment;
      ServeOthers();
      SameCounter(old(View()), View());
      claimed, ok := None, true;
      var fate := NextFate();
      if fate == FailsBefore {
        ok := false;
        return;
      }
      ghost var was := View();
      claimed := store.ClaimDeployment();
      if claimed.Some? {
        ClaimStep(was, claimed.value);
        pc := Claimed(claimed.value);
        Record(Action.Claim(claimed.value));
        if fate == FailsAfter {
          Stop();
          return None, false;
        }
      }
    }

    /** Claims a deployment, if one is waiting, and executes it. */
    method RunOnce() returns (claimed: Option<Id>, ok: bool)
      requires Traced() && pc == Idle
      modifies this`pc, this`run, this`origin, this`inFlight, this`dhcp, this`world, store
      ensures Traced() && Extends(old(run), run) && pc == Idle
      ensures claimed.None? && ok ==> forall id :: id in store.deployments ==> !Claimable(store.Value(), id)
      ensures claimed.Some? && ok ==> Ended(claimed.value)
      ensures old(world.fates) == [] ==> world.fates == [] && ok
      ensures old(world.fates) == [] && old(world.requests) == [] && claimed.Some? ==>
                && Claimable(old(store.Value()), claimed.value)
                && (forall id :: Claimable(old(store.Value()), id) ==>
                      old(store.deployments)[claimed.value].requestedAt <= old(store.deployments)[id].requestedAt)
                && var d := old(store.deployments)[claimed.value];
                && d.revisionId in old(store.revisions)
                && store.deployments[claimed.value].status
                   == Outcome(old(store.Value()), d, old(store.revisions)[d.revisionId].document, old(world))
    {
      hide IsRun, ExecutorStep, OtherStep, Outcome, Inv, ClaimDeployment;
      Reachable(run, |run.states| - 1);
      origin := run;
      ghost var was := View();
      claimed, ok := Claim();
      if claimed.Some? && old(world.fates) == [] && old(world.requests) == [] {
        ClaimedOutcome(was, claimed.value, world);
      }
      if claimed.Some? {
        ok := Execute(claimed.value);
      }
    }

    /** The process stops wherever it is. */
    ghost method CrashNow()
      requires Traced()
      modifies this`pc, this`run, this`origin
      ensures Traced() && Extends(old(run), run) && pc == Down
    {
      hide IsRun, PrepareStep, TaskStep, UnwindStep, OtherStep;
      origin := run;
      pc := Down;
      Record(Crash);
    }

    /** Runs once at start, before the first claim: nothing stays open and nothing stays in progress. */
    method RecoverInterrupted()
      requires Traced() && pc == Down
      modifies this`pc, this`run, this`origin, store`deployments
      ensures Traced() && Extends(old(run), run) && pc == Idle
      ensures forall id :: id in store.deployments ==>
                && !Open(store.deployments[id].status)
                && forall t :: t in store.deployments[id].tasks ==> t.status != Applying && t.status != Verifying
    {
      hide IsRun, PrepareStep, TaskStep, UnwindStep, OtherStep, InterruptDeployments;
      origin := run;
      NothingOpen(store.Value());
      store.InterruptDeployments();
      pc := Idle;
      Record(Recover);
    }

    /** The process stops wherever it is and starts again. */
    method Restart()
      requires Traced()
      modifies this`pc, this`run, this`origin, store`deployments
      ensures Traced() && Extends(old(run), run) && pc == Idle
      ensures forall id :: id in store.deployments ==>
                && !Open(store.deployments[id].status)
                && forall t :: t in store.deployments[id].tasks ==> t.status != Applying && t.status != Verifying
    {
      hide IsRun, Traced;
      CrashNow();
      RecoverInterrupted();
    }
  }
}
