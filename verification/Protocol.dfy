/** The control plane as a step system. The database is a value, every transaction is one step, and
    the deployment executor is a program counter that may stop after any repository call. */
module Protocol {
  import opened Text
  import opened Configuration
  import opened Diff
  import opened Preview

  datatype DeploymentStatus =
    | Queued | Validating | Running | Cancelling
    | Succeeded | PartiallySucceeded | Failed | Cancelled | Interrupted

  predicate Terminal(status: DeploymentStatus) {
    status.Succeeded? || status.PartiallySucceeded? || status.Failed? || status.Cancelled? || status.Interrupted?
  }

  /** In the executor's hands, or left there by a run that stopped. */
  predicate Open(status: DeploymentStatus) {
    status.Validating? || status.Running? || status.Cancelling?
  }

  datatype TaskStatus = Pending | Applying | Verifying | TaskSucceeded | TaskFailed | Skipped | TaskInterrupted

  predicate Unfinished(status: TaskStatus) {
    status.Pending? || status.Applying? || status.Verifying?
  }

  datatype Origin = Manual | Rollback | Reconciliation

  /** One target of a deployment; tasks are kept in position order. The verification snapshot is held by value. */
  datatype Task = Task(
    nodeId: Id, effectiveHash: Hash, status: TaskStatus, attempts: nat, started: bool, snapshot: Option<Document>)

  datatype Deployment = Deployment(
    clusterId: Id, revisionId: Id, status: DeploymentStatus, origin: Origin, rollbackOf: Option<Id>,
    requestedAt: int, cancelRequested: bool, started: bool, tasks: seq<Task>)

  datatype Revision = Revision(clusterId: Id, number: int, document: DesiredDocument)
  datatype Draft = Draft(base: Option<Id>, version: int, document: DesiredDocument)
  datatype Reconciling = Awaiting | Enforcing | FailedToEnforce | InMaintenance | Resolved
  datatype Drift = Drift(
    nodeId: Id, desiredRevision: Id, relatedDeployment: Option<Id>, open: bool, reconciling: Reconciling)

  datatype NodeRow = NodeRow(
    clusterId: Id, enabled: bool, maintenance: bool, supported: bool, deleted: bool, applied: Option<Id>,
    appliedHash: Hash, recordVersion: int)

  datatype Db = Db(
    active: map<Id, Option<Id>>,
    revisions: map<Id, Revision>,
    drafts: map<Id, Draft>,
    nodes: map<Id, NodeRow>,
    deployments: map<Id, Deployment>,
    drifts: map<Id, Drift>)

  // What a task's hash and read-back are measured against.

  predicate HashFor(document: DesiredDocument, nodeId: Id, hash: Hash) {
    Effective(document, nodeId).Some? && hash == HashOf(Effective(document, nodeId).value)
  }

  predicate ReadBackClean(document: DesiredDocument, nodeId: Id, observed: Document) {
    && Effective(document, nodeId).Some?
    && ManagedDifferences(Effective(document, nodeId).value, ProjectDocument(observed)) == []
  }

  // Executor transactions.

  predicate Claimable(db: Db, id: Id) {
    id in db.deployments && (db.deployments[id].status == Queued || db.deployments[id].status == Cancelling)
  }

  function ClaimDeployment(db: Db, id: Id): Db
    requires Claimable(db, id)
  {
    var d := db.deployments[id];
    db.(deployments := db.deployments[id :=
      d.(status := if d.cancelRequested then Cancelling else Validating, started := true)])
  }

  function UpdateDeploymentNode(db: Db, id: Id, i: nat, task: Task): Db
    requires id in db.deployments && i < |db.deployments[id].tasks|
  {
    var d := db.deployments[id];
    db.(deployments := db.deployments[id := d.(tasks := d.tasks[i := task])])
  }

  function SetDeploymentRunning(db: Db, id: Id): Db {
    if id in db.deployments && db.deployments[id].status == Validating
    then db.(deployments := db.deployments[id := db.deployments[id].(status := Running)])
    else db
  }

  function MarkNodeApplied(db: Db, nodeId: Id, revisionId: Id, hash: Hash): Db {
    if nodeId in db.nodes
    then db.(nodes := db.nodes[nodeId := db.nodes[nodeId].(applied := Some(revisionId), appliedHash := hash)])
    else db
  }

  /** Open drift a deployment was to enforce learns how it ended. */
  function ConcludeDrifts(drifts: map<Id, Drift>, id: Id, status: DeploymentStatus): map<Id, Drift> {
    map e | e in drifts ::
      if drifts[e].open && drifts[e].relatedDeployment == Some(id)
      then drifts[e].(reconciling := if status == Succeeded then Enforcing else FailedToEnforce) else drifts[e]
  }

  function FinishDeployment(db: Db, id: Id, status: DeploymentStatus, activate: bool): Db
    requires id in db.deployments
  {
    var d := db.deployments[id];
    db.(deployments := db.deployments[id := d.(status := status)],
        active := if activate && d.clusterId in db.active then db.active[d.clusterId := Some(d.revisionId)]
                  else db.active,
        drifts := ConcludeDrifts(db.drifts, id, status))
  }

  function InterruptTask(task: Task, open: bool): Task {
    if task.status == Applying || task.status == Verifying then task.(status := TaskInterrupted)
    else if task.status == Pending && open then task.(status := Skipped)
    else task
  }

  function InterruptTasks(tasks: seq<Task>, open: bool): seq<Task> {
    seq(|tasks|, i requires 0 <= i < |tasks| => InterruptTask(tasks[i], open))
  }

  function InterruptDeployment(d: Deployment): Deployment {
    d.(tasks := InterruptTasks(d.tasks, Open(d.status)), status := if Open(d.status) then Interrupted else d.status)
  }

  function InterruptDeployments(db: Db): Db {
    db.(deployments := map id | id in db.deployments :: InterruptDeployment(db.deployments[id]))
  }

  // Service transactions, each with the guard that lets it commit.

  predicate CanCancel(db: Db, id: Id) {
    && id in db.deployments
    && var status := db.deployments[id].status;
       status == Queued || status == Validating || status == Running
  }

  function RequestDeploymentCancel(db: Db, id: Id): Db
    requires CanCancel(db, id)
  {
    var d := db.deployments[id];
    db.(deployments := db.deployments[id :=
      d.(cancelRequested := true, status := if d.status == Queued then Cancelling else d.status)])
  }

  datatype Request = Request(
    clusterId: Id, revisionId: Id, origin: Origin, rollbackOf: Option<Id>, listing: seq<NodeInfo>, selected: set<Id>,
    requestedAt: int)

  predicate ClusterBusy(db: Db, clusterId: Id) {
    exists id :: id in db.deployments && db.deployments[id].clusterId == clusterId
              && !Terminal(db.deployments[id].status)
  }

  /** The listing names nodes of the cluster, each once. */
  predicate ListingRead(db: Db, request: Request) {
    && DistinctListing(request.listing)
    && forall i :: 0 <= i < |request.listing| ==>
         request.listing[i].id in db.nodes && db.nodes[request.listing[i].id].clusterId == request.clusterId
  }

  /** The checks of startDeployment, the one-active-deployment index and the foreign keys. The listing is
      whatever an earlier read of the cluster's nodes returned. */
  predicate CanCreate(db: Db, id: Id, request: Request) {
    && id !in db.deployments
    && request.clusterId in db.active
    && request.revisionId in db.revisions
    && db.revisions[request.revisionId].clusterId == request.clusterId
    && (request.rollbackOf.Some? ==> request.rollbackOf.value in db.revisions)
    && (request.origin != Reconciliation ==> request.selected == {})
    && !ClusterBusy(db, request.clusterId)
    && ListingRead(db, request)
    && PlanValid(db.revisions[request.revisionId].document, request.listing, request.selected)
  }

  function PlannedHash(document: DesiredDocument, nodeId: Id): Hash {
    var effective := Effective(document, nodeId);
    if effective.None? then Unhashed else HashOf(effective.value)
  }

  function PlannedTasks(document: DesiredDocument, plan: seq<Id>): seq<Task> {
    seq(|plan|, i requires 0 <= i < |plan| => Task(plan[i], PlannedHash(document, plan[i]), Pending, 0, false, None))
  }

  function NewDeployment(db: Db, request: Request): Deployment
    requires request.revisionId in db.revisions
  {
    var document := db.revisions[request.revisionId].document;
    Deployment(request.clusterId, request.revisionId, Queued, request.origin, request.rollbackOf, request.requestedAt, false, false,
               PlannedTasks(document, Plan(document, request.listing, request.selected)))
  }

  function CreateDeployment(db: Db, id: Id, request: Request): Db
    requires request.revisionId in db.revisions
  {
    db.(deployments := db.deployments[id := NewDeployment(db, request)])
  }

  predicate CanDeleteDeployment(db: Db, id: Id) {
    && id in db.deployments
    && db.deployments[id].status == Queued && !db.deployments[id].started
    && (forall t :: t in db.deployments[id].tasks ==> t.status == Pending && t.attempts == 0 && !t.started)
    && (forall e :: e in db.drifts ==> db.drifts[e].relatedDeployment != Some(id))
  }

  function DeleteUnstartedDeployment(db: Db, id: Id): Db {
    db.(deployments := db.deployments - {id})
  }

  /** While no revision is active the guard's first comparison is NULL, and the delete is refused. */
  predicate CanDeleteRevision(db: Db, id: Id) {
    && id in db.revisions
    && db.revisions[id].clusterId in db.active
    && db.active[db.revisions[id].clusterId].Some?
    && db.active[db.revisions[id].clusterId] != Some(id)
    && (forall n :: n in db.nodes ==> db.nodes[n].applied != Some(id))
    && (forall c :: c in db.drafts ==> db.drafts[c].base != Some(id))
    && (forall p :: p in db.deployments ==>
          db.deployments[p].revisionId != id && db.deployments[p].rollbackOf != Some(id))
    && (forall e :: e in db.drifts ==> db.drifts[e].desiredRevision != id)
  }

  function DeleteUnusedRevision(db: Db, id: Id): Db {
    db.(revisions := db.revisions - {id})
  }

  predicate CanWriteDraft(db: Db, clusterId: Id, version: int) {
    clusterId in db.drafts && db.drafts[clusterId].version == version
  }

  function UpdateConfigurationDraft(db: Db, clusterId: Id, document: DesiredDocument): Db
    requires clusterId in db.drafts
  {
    var draft := db.drafts[clusterId];
    db.(drafts := db.drafts[clusterId := draft.(document := document, version := draft.version + 1)])
  }

  /** COALESCE(MAX(revision_number), 0) over a cluster. */
  ghost predicate IsMaxNumber(db: Db, clusterId: Id, max: int) {
    && (forall r :: r in db.revisions && db.revisions[r].clusterId == clusterId ==> db.revisions[r].number <= max)
    && ((exists r :: r in db.revisions && db.revisions[r].clusterId == clusterId && db.revisions[r].number == max)
        || (max == 0 && forall r :: r in db.revisions ==> db.revisions[r].clusterId != clusterId))
  }

  function PublishRevision(db: Db, clusterId: Id, id: Id, document: DesiredDocument, number: int): Db
    requires clusterId in db.drafts
  {
    var draft := db.drafts[clusterId];
    db.(revisions := db.revisions[id := Revision(clusterId, number, document)],
        drafts := db.drafts[clusterId := draft.(base := Some(id), version := draft.version + 1)])
  }

  /** What an import read of the draft it is about to overwrite; version 0 when it saw none. */
  datatype DraftRead = DraftRead(clusterId: Id, version: int, base: Option<Id>)

  function ReadDraft(db: Db, clusterId: Id): DraftRead {
    if clusterId in db.drafts then DraftRead(clusterId, db.drafts[clusterId].version, db.drafts[clusterId].base)
    else DraftRead(clusterId, 0, None)
  }

  predicate CanImport(db: Db, read: DraftRead) {
    if read.version == 0 then read.clusterId in db.active && read.clusterId !in db.drafts
    else CanWriteDraft(db, read.clusterId, read.version)
  }

  function ImportDraft(db: Db, read: DraftRead, document: DesiredDocument): Db {
    db.(drafts := db.drafts[read.clusterId := Draft(read.base, read.version + 1, document)])
  }

  /** The guard of every versioned write of a node row. */
  predicate CanWriteNode(db: Db, id: Id, version: int) {
    id in db.nodes && !db.nodes[id].deleted && db.nodes[id].recordVersion == version
  }

  /** Open drift of a removed node is resolved. */
  function ResolveDrifts(drifts: map<Id, Drift>, nodeId: Id): map<Id, Drift> {
    map e | e in drifts ::
      if drifts[e].open && drifts[e].nodeId == nodeId then drifts[e].(open := false, reconciling := Resolved) else drifts[e]
  }

  /** A soft delete drops the node's override from its cluster's draft and resolves its drift; the row itself stays. */
  function SoftDeleteNode(db: Db, id: Id): Db
    requires id in db.nodes
  {
    var c := db.nodes[id].clusterId;
    var row := db.nodes[id];
    var removed := db.(
      nodes := db.nodes[id := row.(enabled := false, deleted := true, recordVersion := row.recordVersion + 1)],
      drifts := ResolveDrifts(db.drifts, id));
    if c in db.drafts && id in db.drafts[c].document.nodeOverrides then
      var document := db.drafts[c].document;
      UpdateConfigurationDraft(removed, c, document.(nodeOverrides := document.nodeOverrides - {id}))
    else removed
  }

  // The executor's program counter.

  datatype Pc =
    | Down
    | Idle
    | Claimed(id: Id)
    | Preparing(id: Id)
    | FailingBefore(id: Id, next: nat)
    | Boundary(id: Id, i: nat)
    | Entering(id: Id, i: nat)
    | Configuring(id: Id, i: nat)
    | Applied(id: Id, i: nat)
    | Reading(id: Id, i: nat)
    | Verified(id: Id, i: nat, observed: Document)
    | Marking(id: Id, i: nat)
    | FailingNode(id: Id, i: nat)
    | FailSkipping(id: Id, i: nat, next: nat)
    | CancelSkipping(id: Id, i: nat, next: nat)

  predicate Holds(pc: Pc) {
    !pc.Down? && !pc.Idle?
  }

  /** The whole system: database, executor, draft reads still in flight, and the nodes whose DHCP server runs. */
  datatype Sys = Sys(db: Db, pc: Pc, inFlight: set<DraftRead>, dhcp: set<Id>)

  datatype Action =
    | Claim(claimed: Id)
    | Load
    | PrepareFails
    | PrepareSucceeds
    | SkipTask
    | CheckBoundary
    | EnterTask
    | WriteDhcp
    | ApplyFails
    | ApplySucceeds
    | StartVerifying
    | ReadBack(result: Option<Document>)
    | RecordSuccess
    | MarkApplied
    | FailTask
    | Finish
    | StopWithError
    | Crash
    | Recover
    | AddCluster(cluster: Id)
    | AddNode(node: Id, cluster: Id)
    | EditNode(node: Id, enabled: bool, maintenance: bool, supported: bool, recordVersion: int)
    | RemoveNode(node: Id, version: int)
    | UpdateDraft(cluster: Id, version: int, document: DesiredDocument)
    | StartImport(cluster: Id, found: bool)
    | FinishImport(read: DraftRead, document: DesiredDocument)
    | Publish(cluster: Id, version: int, revision: Id, document: DesiredDocument, number: int)
    | DeleteRevision(revision: Id)
    | Create(deployment: Id, request: Request)
    | DeleteDeployment(deployment: Id)
    | Cancel(deployment: Id)
    | RecordDrift(drift: Id, row: Drift)
    | RelateDrift(drift: Id, related: Option<Id>)
    | NodesChange(running: set<Id>)

  function Held(s: Sys): Deployment
    requires Holds(s.pc) && s.pc.id in s.db.deployments
  {
    s.db.deployments[s.pc.id]
  }

  ghost predicate HeldExists(s: Sys) {
    && Holds(s.pc) && s.pc.id in s.db.deployments
    && Held(s).revisionId in s.db.revisions
  }

  /** The intent the held deployment rolls out. */
  function Intent(s: Sys): DesiredDocument
    requires Holds(s.pc) && s.pc.id in s.db.deployments && Held(s).revisionId in s.db.revisions
  {
    s.db.revisions[Held(s).revisionId].document
  }

  function WriteTask(s: Sys, i: nat, task: Task, pc: Pc): Sys
    requires Holds(s.pc) && s.pc.id in s.db.deployments && i < |Held(s).tasks|
  {
    s.(db := UpdateDeploymentNode(s.db, s.pc.id, i, task), pc := pc)
  }

  function FinishStatus(pc: Pc): DeploymentStatus {
    match pc
    case FailingBefore(_, _) => Failed
    case FailSkipping(_, i, _) => if i > 0 then PartiallySucceeded else Failed
    case CancelSkipping(_, _, _) => Cancelled
    case _ => Succeeded
  }

  /** Taking a deployment on: claim, load, and check every target before the first mutation. */
  ghost predicate PrepareStep(s: Sys, a: Action, s': Sys) {
    match a
    case Claim(id) => s.pc.Idle? && Claimable(s.db, id) && s' == s.(db := ClaimDeployment(s.db, id), pc := Claimed(id))
    case Load =>
      && s.pc.Claimed? && HeldExists(s)
      && s' == s.(pc := if Held(s).cancelRequested || Held(s).status == Cancelling then CancelSkipping(s.pc.id, 0, 0)
                        else Preparing(s.pc.id))
    case PrepareFails => s.pc.Preparing? && HeldExists(s) && s' == s.(pc := FailingBefore(s.pc.id, 0))
    case PrepareSucceeds =>
      && s.pc.Preparing? && HeldExists(s)
      && (forall i :: 0 <= i < |Held(s).tasks| ==> Effective(Intent(s), Held(s).tasks[i].nodeId).Some?)
      && s' == s.(db := SetDeploymentRunning(s.db, s.pc.id), pc := Boundary(s.pc.id, 0))
    case _ => false
  }

  /** The executor is at target i of an existing deployment. */
  ghost predicate AtTask(s: Sys) {
    HeldExists(s) && !s.pc.Claimed? && !s.pc.Preparing? && !s.pc.FailingBefore? && s.pc.i < |Held(s).tasks|
  }

  function CurrentTask(s: Sys): Task
    requires Holds(s.pc) && s.pc.id in s.db.deployments
    requires !s.pc.Claimed? && !s.pc.Preparing? && !s.pc.FailingBefore? && s.pc.i < |Held(s).tasks|
  {
    Held(s).tasks[s.pc.i]
  }

  /** Taking one target through boundary check, apply, read-back and recording. */
  ghost predicate TaskStep(s: Sys, a: Action, s': Sys) {
    && AtTask(s)
    && var id, i, t := s.pc.id, s.pc.i, CurrentTask(s);
       match a
       case CheckBoundary =>
         s.pc.Boundary? && s' == s.(pc := if Held(s).cancelRequested then CancelSkipping(id, i, i) else Entering(id, i))
       case EnterTask =>
         && s.pc.Entering?
         && s' == WriteTask(s, i, t.(status := Applying, attempts := t.attempts + 1, started := true), Configuring(id, i))
       case WriteDhcp =>
         && s.pc.Configuring?
         && t.nodeId in Intent(s).nodeOverrides && Intent(s).nodeOverrides[t.nodeId].dhcp.Some?
         && s' == s.(dhcp := if WantsDhcp(Intent(s), t.nodeId) then s.dhcp + {t.nodeId} else s.dhcp - {t.nodeId})
       case ApplyFails => s.pc.Configuring? && s' == s.(pc := FailingNode(id, i))
       case ApplySucceeds => s.pc.Configuring? && s' == s.(pc := Applied(id, i))
       case StartVerifying => s.pc.Applied? && s' == WriteTask(s, i, t.(status := Verifying), Reading(id, i))
       case ReadBack(result) =>
         && s.pc.Reading?
         && s' == s.(pc := if result.Some? && ReadBackClean(Intent(s), t.nodeId, result.value)
                           then Verified(id, i, result.value) else FailingNode(id, i))
       case RecordSuccess =>
         && s.pc.Verified?
         && s' == WriteTask(s, i, t.(status := TaskSucceeded, snapshot := Some(s.pc.observed)), Marking(id, i))
       case MarkApplied =>
         && s.pc.Marking?
         && s' == s.(db := MarkNodeApplied(s.db, t.nodeId, Held(s).revisionId, t.effectiveHash), pc := Boundary(id, i + 1))
       case FailTask => s.pc.FailingNode? && s' == WriteTask(s, i, t.(status := TaskFailed), FailSkipping(id, i, i + 1))
       case _ => false
  }

  predicate Unwinding(pc: Pc) {
    pc.FailingBefore? || pc.FailSkipping? || pc.CancelSkipping?
  }

  /** The same way of unwinding, with task `next` coming next. */
  function SkippingFrom(pc: Pc, next: nat): Pc
    requires Unwinding(pc)
  {
    match pc
    case FailingBefore(id, _) => FailingBefore(id, next)
    case FailSkipping(id, i, _) => FailSkipping(id, i, next)
    case CancelSkipping(id, i, _) => CancelSkipping(id, i, next)
  }

  function Advance(pc: Pc): Pc
    requires Unwinding(pc)
  {
    SkippingFrom(pc, pc.next + 1)
  }

  /** Skipping what is left, and finishing. A cancellation skips only pending tasks. */
  ghost predicate UnwindStep(s: Sys, a: Action, s': Sys) {
    match a
    case SkipTask =>
      && HeldExists(s) && Unwinding(s.pc) && s.pc.next < |Held(s).tasks|
      && var t := Held(s).tasks[s.pc.next];
         s' == if s.pc.CancelSkipping? && t.status != Pending then s.(pc := Advance(s.pc))
               else WriteTask(s, s.pc.next, t.(status := Skipped), Advance(s.pc))
    case Finish =>
      && HeldExists(s) && (s.pc.Boundary? || Unwinding(s.pc))
      && (if s.pc.Boundary? then s.pc.i else s.pc.next) == |Held(s).tasks|
      && s' == s.(db := FinishDeployment(s.db, s.pc.id, FinishStatus(s.pc), s.pc.Boundary? && Held(s).origin != Reconciliation),
                  pc := Idle)
    case _ => false
  }

  /** A failed repository call ends the run; a crash ends the process, and recovery runs before the next claim. */
  ghost predicate StopStep(s: Sys, a: Action, s': Sys) {
    match a
    case StopWithError => Holds(s.pc) && s' == s.(pc := Idle)
    case Crash => s' == s.(pc := Down)
    case Recover => s.pc.Down? && s' == s.(db := InterruptDeployments(s.db), pc := Idle)
    case _ => false
  }

  ghost predicate ExecutorStep(s: Sys, a: Action, s': Sys) {
    PrepareStep(s, a, s') || TaskStep(s, a, s') || UnwindStep(s, a, s') || StopStep(s, a, s')
  }

  /** One step of everything else. */
  ghost predicate OtherStep(s: Sys, a: Action, s': Sys) {
    var db := s.db;
    match a
    case AddCluster(c) => c !in db.active && s' == s.(db := db.(active := db.active[c := None]))
    case AddNode(n, c) =>
      && n !in db.nodes && c in db.active
      && s' == s.(db := db.(nodes := db.nodes[n := NodeRow(c, true, false, false, false, None, Unhashed, 1)]))
    case EditNode(n, enabled, maintenance, supported, recordVersion) =>
      && n in db.nodes && !db.nodes[n].deleted && db.nodes[n].recordVersion <= recordVersion
      && s' == s.(db := db.(nodes := db.nodes[n := db.nodes[n].(
                   enabled := enabled, maintenance := maintenance, supported := supported, recordVersion := recordVersion)]))
    case RemoveNode(n, version) => CanWriteNode(db, n, version) && s' == s.(db := SoftDeleteNode(db, n))
    case UpdateDraft(c, version, document) =>
      CanWriteDraft(db, c, version) && s' == s.(db := UpdateConfigurationDraft(db, c, document))
    case StartImport(c, found) =>
      s' == s.(inFlight := s.inFlight + {if found then ReadDraft(db, c) else DraftRead(c, 0, None)})
    case FinishImport(read, document) =>
      read in s.inFlight && CanImport(db, read) && s' == s.(db := ImportDraft(db, read, document))
    case Publish(c, version, r, document, number) =>
      && CanWriteDraft(db, c, version) && r !in db.revisions && IsMaxNumber(db, c, number - 1)
      && s' == s.(db := PublishRevision(db, c, r, document, number))
    case DeleteRevision(r) => CanDeleteRevision(db, r) && s' == s.(db := DeleteUnusedRevision(db, r))
    case Create(id, request) => CanCreate(db, id, request) && s' == s.(db := CreateDeployment(db, id, request))
    case DeleteDeployment(id) => CanDeleteDeployment(db, id) && s' == s.(db := DeleteUnstartedDeployment(db, id))
    case Cancel(id) => CanCancel(db, id) && s' == s.(db := RequestDeploymentCancel(db, id))
    case RecordDrift(e, row) =>
      && e !in db.drifts && row.desiredRevision in db.revisions
      && (row.relatedDeployment.Some? ==> row.relatedDeployment.value in db.deployments)
      && s' == s.(db := db.(drifts := db.drifts[e := row]))
    case RelateDrift(e, related) =>
      && e in db.drifts && (related.Some? ==> related.value in db.deployments)
      && s' == s.(db := db.(drifts := db.drifts[e := db.drifts[e].(relatedDeployment := related)]))
    case NodesChange(running) => s' == s.(dhcp := running)
    case _ => false
  }

  ghost predicate Step(s: Sys, a: Action, s': Sys) {
    ExecutorStep(s, a, s') || OtherStep(s, a, s')
  }

  /** A new installation: no revisions, drafts, deployments or drift, nothing active or applied, executor not started. */
  ghost predicate Init(s: Sys) {
    && s.db.revisions == map[] && s.db.drafts == map[] && s.db.deployments == map[] && s.db.drifts == map[]
    && (forall c :: c in s.db.active ==> s.db.active[c].None?)
    && (forall n :: n in s.db.nodes ==> s.db.nodes[n].applied.None?)
    && s.pc.Down? && s.inFlight == {}
  }
}
