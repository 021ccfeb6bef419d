/** The control-plane tables as mutable state. Every method is one committed transaction; its contract is the
    transaction's function on the value of the tables. */
module Stores {
  import opened Text
  import opened Configuration
  import opened Diff
  import opened Preview
  import opened Protocol

  class Store {
    var active: map<Id, Option<Id>>
    var revisions: map<Id, Revision>
    var drafts: map<Id, Draft>
    var nodes: map<Id, NodeRow>
    var deployments: map<Id, Deployment>
    var drifts: map<Id, Drift>

    function Value(): Db
      reads this
    {
      Db(active, revisions, drafts, nodes, deployments, drifts)
    }

    constructor (db: Db)
      ensures Value() == db
    {
      active, revisions, drafts := db.active, db.revisions, db.drafts;
      nodes, deployments, drifts := db.nodes, db.deployments, db.drifts;
    }

    // Executor transactions.

    /** Claims the claimable deployment that was requested first, if there is any. */
    method ClaimDeployment() returns (claimed: Option<Id>)
      modifies this`deployments
      ensures claimed.None? ==> Value() == old(Value()) && forall id :: id in deployments ==> !Claimable(Value(), id)
      ensures claimed.Some? ==>
                Claimable(old(Value()), claimed.value)
                && Value() == Protocol.ClaimDeployment(old(Value()), claimed.value)
      ensures claimed.Some? ==> forall id :: Claimable(old(Value()), id) ==>
                old(deployments)[claimed.value].requestedAt <= old(deployments)[id].requestedAt
    {
      claimed := None;
      var left := deployments.Keys;
      while left != {}
        invariant left <= deployments.Keys
        invariant claimed.Some? ==> Claimable(Value(), claimed.value)
        invariant forall id :: id in deployments.Keys - left && Claimable(Value(), id) ==>
                    claimed.Some? && deployments[claimed.value].requestedAt <= deployments[id].requestedAt
      {
        var id :| id in left;
        left := left - {id};
        if (deployments[id].status == Queued || deployments[id].status == Cancelling)
           && (claimed.None? || deployments[id].requestedAt < deployments[claimed.value].requestedAt) {
          claimed := Some(id);
        }
      }
      if claimed.Some? {
        var d := deployments[claimed.value];
        deployments := deployments[claimed.value :=
          d.(status := if d.cancelRequested then Cancelling else Validating, started := true)];
      }
    }

    /** A task row that does not exist is left alone. */
    method UpdateDeploymentNode(id: Id, i: nat, task: Task)
      modifies this`deployments
      ensures Value() == if id in old(deployments) && i < |old(deployments)[id].tasks|
                         then Protocol.UpdateDeploymentNode(old(Value()), id, i, task) else old(Value())
    {
      if id in deployments && i < |deployments[id].tasks| {
        var d := deployments[id];
        deployments := deployments[id := d.(tasks := d.tasks[i := task])];
      }
    }

    method SetDeploymentRunning(id: Id)
      modifies this`deployments
      ensures Value() == Protocol.SetDeploymentRunning(old(Value()), id)
    {
      if id in deployments && deployments[id].status == Validating {
        deployments := deployments[id := deployments[id].(status := Running)];
      }
    }

    method MarkNodeApplied(nodeId: Id, revisionId: Id, hash: Hash)
      modifies this`nodes
      ensures Value() == Protocol.MarkNodeApplied(old(Value()), nodeId, revisionId, hash)
    {
      if nodeId in nodes {
        nodes := nodes[nodeId := nodes[nodeId].(applied := Some(revisionId), appliedHash := hash)];
      }
    }

    /** Status, cluster and revision are those of the caller's copy. */
    method FinishDeployment(id: Id, copy: Deployment, activate: bool)
      modifies this`deployments, this`active, this`drifts
      ensures id in old(deployments) && copy.clusterId == old(deployments)[id].clusterId
              && copy.revisionId == old(deployments)[id].revisionId ==>
                Value() == Protocol.FinishDeployment(old(Value()), id, copy.status, activate)
      ensures id !in old(deployments) ==> deployments == old(deployments)
      ensures active == if activate && copy.clusterId in old(active) then old(active)[copy.clusterId := Some(copy.revisionId)]
                        else old(active)
      ensures drifts == ConcludeDrifts(old(drifts), id, copy.status)
    {
      if id in deployments {
        deployments := deployments[id := deployments[id].(status := copy.status)];
      }
      if activate && copy.clusterId in active {
        active := active[copy.clusterId := Some(copy.revisionId)];
      }
      drifts := ConcludeDrifts(drifts, id, copy.status);
    }

    /** Recovery in the order of its statements: running tasks, then the pending tasks of open deployments, then
        the deployments themselves. */
    method InterruptDeployments()
      modifies this`deployments
      ensures Value() == Protocol.InterruptDeployments(old(Value()))
    {
      hide StopRunning, SkipPending, InterruptDeployment;
      deployments := map id | id in deployments :: deployments[id].(tasks := StopRunning(deployments[id].tasks));
      deployments := map id | id in deployments :: SkipIfOpen(deployments[id]);
      deployments := map id | id in deployments :: CloseIfOpen(deployments[id]);
      assert deployments.Keys == old(deployments).Keys;
      forall id | id in deployments
        ensures deployments[id] == InterruptDeployment(old(deployments[id]))
      {
        StatementsInterrupt(old(deployments[id]));
      }
    }

    // Service transactions; `ok` is false for the conflicts and missing rows the source reports.

    method RequestDeploymentCancel(id: Id) returns (ok: bool)
      modifies this`deployments
      ensures ok <==> CanCancel(old(Value()), id)
      ensures Value() == if ok then Protocol.RequestDeploymentCancel(old(Value()), id) else old(Value())
    {
      ok := id in deployments
            && (deployments[id].status == Queued || deployments[id].status == Validating
                || deployments[id].status == Running);
      if ok {
        var d := deployments[id];
        deployments := deployments[id :=
          d.(cancelRequested := true, status := if d.status == Queued then Cancelling else d.status)];
      }
    }

    /** startDeployment and the insert it ends with. */
    method CreateDeployment(id: Id, request: Request) returns (ok: bool)
      modifies this`deployments
      ensures ok <==> CanCreate(old(Value()), id, request)
      ensures Value() == if ok then Protocol.CreateDeployment(old(Value()), id, request) else old(Value())
    {
      hide Plan, PlannedTasks, DistinctListing, EnabledIds, DhcpCount, IsLegacyConverted, TargetsFit;
      if request.origin != Reconciliation && request.selected != {} {
        return false;
      }
      if request.revisionId !in revisions || revisions[request.revisionId].clusterId != request.clusterId
         || !ListingRead(Value(), request) {
        return false;
      }
      var document := revisions[request.revisionId].document;
      var plan := Plan(document, request.listing, request.selected);
      var missing, enabledDhcp := CountOverrides(document, EnabledIds(request.listing));
      var unfit := CheckTargets(document, request.listing, request.selected);
      if document.schemaVersion != SCHEMA_VERSION || IsLegacyConverted(document.unsupported) || missing > 0 || enabledDhcp > 1
         || unfit > 0 || plan == [] {
        return false;
      }
      var tasks := TasksOf(document, plan);
      ok := id !in deployments && request.clusterId in active
            && (request.rollbackOf.Some? ==> request.rollbackOf.value in revisions)
            && !exists p :: p in deployments && deployments[p].clusterId == request.clusterId && !Terminal(deployments[p].status);
      if !ok {
        return;
      }
      deployments := deployments[id :=
        Deployment(request.clusterId, request.revisionId, Queued, request.origin, request.rollbackOf, request.requestedAt, false, false,
                   tasks)];
    }

    /** One pending task per target, in order. */
    method TasksOf(document: DesiredDocument, plan: seq<Id>) returns (tasks: seq<Task>)
      ensures tasks == PlannedTasks(document, plan)
    {
      hide PlannedHash;
      tasks := [];
      for i := 0 to |plan|
        invariant |tasks| == i
        invariant forall j :: 0 <= j < i ==> tasks[j] == Task(plan[j], PlannedHash(document, plan[j]), Pending, 0, false, None)
      {
        tasks := tasks + [Task(plan[i], PlannedHash(document, plan[i]), Pending, 0, false, None)];
      }
    }

    method DeleteUnstartedDeployment(id: Id) returns (ok: bool)
      modifies this`deployments
      ensures ok <==> CanDeleteDeployment(old(Value()), id)
      ensures Value() == if ok then Protocol.DeleteUnstartedDeployment(old(Value()), id) else old(Value())
    {
      if id !in deployments {
        return false;
      }
      var d := deployments[id];
      var touched := exists t :: t in d.tasks && (t.status != Pending || t.attempts != 0 || t.started);
      var related := exists e :: e in drifts && drifts[e].relatedDeployment == Some(id);
      ok := d.status == Queued && !d.started && !touched && !related;
      if ok {
        deployments := deployments - {id};
      }
    }

    method DeleteUnusedRevision(id: Id) returns (ok: bool)
      modifies this`revisions
      ensures ok <==> CanDeleteRevision(old(Value()), id)
      ensures Value() == if ok then Protocol.DeleteUnusedRevision(old(Value()), id) else old(Value())
    {
      if id !in revisions || revisions[id].clusterId !in active || active[revisions[id].clusterId].None? {
        return false;
      }
      var referenced := active[revisions[id].clusterId] == Some(id)
                        || (exists n :: n in nodes && nodes[n].applied == Some(id))
                        || (exists c :: c in drafts && drafts[c].base == Some(id))
                        || (exists p :: p in deployments
                                     && (deployments[p].revisionId == id || deployments[p].rollbackOf == Some(id)))
                        || (exists e :: e in drifts && drifts[e].desiredRevision == id);
      ok := !referenced;
      if ok {
        revisions := revisions - {id};
      }
    }

    method UpdateConfigurationDraft(clusterId: Id, version: int, document: DesiredDocument) returns (ok: bool)
      modifies this`drafts
      ensures ok <==> CanWriteDraft(old(Value()), clusterId, version)
      ensures Value() == if ok then Protocol.UpdateConfigurationDraft(old(Value()), clusterId, document) else old(Value())
    {
      ok := clusterId in drafts && drafts[clusterId].version == version;
      if ok {
        drafts := drafts[clusterId := drafts[clusterId].(document := document, version := version + 1)];
      }
    }

    /** COALESCE(MAX(revision_number), 0) of a cluster. */
    method HighestNumber(clusterId: Id) returns (max: int)
      ensures IsMaxNumber(Value(), clusterId, max)
    {
      max := 0;
      var found, left := false, revisions.Keys;
      while left != {}
        invariant left <= revisions.Keys
        invariant forall r :: r in revisions.Keys - left && revisions[r].clusterId == clusterId ==>
                    found && revisions[r].number <= max
        invariant if found then exists r :: r in revisions && revisions[r].clusterId == clusterId && revisions[r].number == max
                  else max == 0
      {
        var r :| r in left;
        left := left - {r};
        if revisions[r].clusterId == clusterId && (!found || revisions[r].number > max) {
          found, max := true, revisions[r].number;
        }
      }
    }

    method PublishRevision(clusterId: Id, version: int, id: Id, document: DesiredDocument) returns (ok: bool, number: int)
      modifies this`revisions, this`drafts
      ensures ok <==> CanWriteDraft(old(Value()), clusterId, version) && id !in old(revisions)
      ensures IsMaxNumber(old(Value()), clusterId, number - 1)
      ensures Value() ==
              if ok then Protocol.PublishRevision(old(Value()), clusterId, id, document, number) else old(Value())
    {
      var max := HighestNumber(clusterId);
      number := max + 1;
      ok := id !in revisions && clusterId in drafts && drafts[clusterId].version == version;
      if ok {
        revisions := revisions[id := Revision(clusterId, number, document)];
        drafts := drafts[clusterId := drafts[clusterId].(base := Some(id), version := version + 1)];
      }
    }

    method ImportDraft(read: DraftRead, document: DesiredDocument) returns (ok: bool)
      modifies this`drafts
      ensures ok <==> CanImport(old(Value()), read)
      ensures Value() == if ok then Protocol.ImportDraft(old(Value()), read, document) else old(Value())
    {
      if read.version == 0 {
        ok := read.clusterId in active && read.clusterId !in drafts;
      } else {
        ok := read.clusterId in drafts && drafts[read.clusterId].version == read.version;
      }
      if ok {
        drafts := drafts[read.clusterId := Draft(read.base, read.version + 1, document)];
      }
    }

    method SoftDeleteNode(id: Id, version: int) returns (ok: bool)
      modifies this`nodes, this`drafts, this`drifts
      ensures ok <==> CanWriteNode(old(Value()), id, version)
      ensures Value() == if ok then Protocol.SoftDeleteNode(old(Value()), id) else old(Value())
    {
      ok := id in nodes && !nodes[id].deleted && nodes[id].recordVersion == version;
      if ok {
        var c := nodes[id].clusterId;
        nodes := nodes[id := nodes[id].(enabled := false, deleted := true, recordVersion := version + 1)];
        if c in drafts && id in drafts[c].document.nodeOverrides {
          var draft := drafts[c];
          drafts := drafts[c := draft.(
            document := draft.document.(nodeOverrides := draft.document.nodeOverrides - {id}),
            version := draft.version + 1)];
        }
        drifts := ResolveDrifts(drifts, id);
      }
    }
  }

  // The two task statements of recovery.

  function StopRunning(tasks: seq<Task>): seq<Task> {
    seq(|tasks|, i requires 0 <= i < |tasks| =>
      if tasks[i].status == Applying || tasks[i].status == Verifying then tasks[i].(status := TaskInterrupted) else tasks[i])
  }

  function SkipPending(tasks: seq<Task>): seq<Task> {
    seq(|tasks|, i requires 0 <= i < |tasks| =>
      if tasks[i].status == Pending then tasks[i].(status := Skipped) else tasks[i])
  }

  function SkipIfOpen(d: Deployment): Deployment {
    if Open(d.status) then d.(tasks := SkipPending(d.tasks)) else d
  }

  function CloseIfOpen(d: Deployment): Deployment {
    if Open(d.status) then d.(status := Interrupted) else d
  }

  /** The statements, one after the other, interrupt the row. */
  lemma StatementsInterrupt(d: Deployment)
    ensures InterruptDeployment(d) == CloseIfOpen(SkipIfOpen(d.(tasks := StopRunning(d.tasks))))
  {
    if Open(d.status) {
      assert InterruptTasks(d.tasks, true) == SkipPending(StopRunning(d.tasks));
    } else {
      assert InterruptTasks(d.tasks, false) == StopRunning(d.tasks);
    }
  }
}
