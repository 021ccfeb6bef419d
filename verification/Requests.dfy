/** Which requests the tables accept, and what two requests for the same thing cannot both do. */
module Requests {
  import opened Text
  import opened Configuration
  import opened Diff
  import opened Preview
  import opened Protocol
  import opened Invariant
  import opened Retention
  import opened Runs
  import opened History
  import Attempts
  import Agreement

  // Deployments.

  /** No two enabled rows of the listing are to run DHCP. */
  ghost predicate OneDhcp(document: DesiredDocument, listing: seq<NodeInfo>) {
    forall i, j :: 0 <= i < j < |listing| && listing[i].enabled && listing[j].enabled ==>
      !(WantsDhcp(document, listing[i].id) && WantsDhcp(document, listing[j].id))
  }

  predicate Eligible(r: NodeInfo, selected: set<Id>) {
    r.enabled && !r.maintenance && (selected == {} || r.id in selected)
  }

  /** A current document with an override for every enabled node, at most one of them to run DHCP, and at least one
      eligible node, all of them capable and last observed with the listener of their override. */
  ghost predicate Deployable(document: DesiredDocument, listing: seq<NodeInfo>, selected: set<Id>) {
    && document.schemaVersion == SCHEMA_VERSION
    && (forall u :: u in Configuration.Areas(document.unsupported) ==> u.section != LEGACY_MIGRATION_SECTION)
    && (forall r :: r in listing && r.enabled ==> r.id in document.nodeOverrides)
    && OneDhcp(document, listing)
    && (forall r :: r in listing && Eligible(r, selected) ==>
          && r.id in document.nodeOverrides && r.capable && r.snapshot.Some?
          && Agreement.SameListener(document.nodeOverrides[r.id], r.snapshot.value.nodeSpecific))
    && (exists r :: r in listing && Eligible(r, selected))
  }

  lemma {:induction false} EnabledRows(listing: seq<NodeInfo>, id: Id)
    ensures id in EnabledIds(listing) <==> exists r :: r in listing && r.enabled && r.id == id
  {
    if listing != [] {
      EnabledRows(listing[1..], id);
      assert forall r :: r in listing <==> r == listing[0] || r in listing[1..];
    }
  }

  lemma CountRow(document: DesiredDocument, listing: seq<NodeInfo>)
    requires listing != []
    ensures DhcpCount(document, EnabledIds(listing))
            == (if listing[0].enabled && WantsDhcp(document, listing[0].id) then 1 else 0) + DhcpCount(document, EnabledIds(listing[1..]))
  {
    var rest := EnabledIds(listing[1..]);
    assert [] + rest == rest && ([listing[0].id] + rest)[1..] == rest;
  }

  lemma {:induction false} NoDhcpRows(document: DesiredDocument, listing: seq<NodeInfo>)
    ensures DhcpCount(document, EnabledIds(listing)) == 0 <==>
            forall r :: r in listing && r.enabled ==> !WantsDhcp(document, r.id)
  {
    if listing != [] {
      NoDhcpRows(document, listing[1..]);
      assert forall r :: r in listing <==> r == listing[0] || r in listing[1..];
      CountRow(document, listing);
    }
  }

  /** Counting to at most one means that no two rows are to run DHCP. */
  lemma {:induction false} OneDhcpRow(document: DesiredDocument, listing: seq<NodeInfo>)
    ensures DhcpCount(document, EnabledIds(listing)) <= 1 <==> OneDhcp(document, listing)
  {
    if listing != [] {
      var first, rest := listing[0], listing[1..];
      OneDhcpRow(document, rest);
      NoDhcpRows(document, rest);
      OneDhcpSplit(document, listing);
      CountRow(document, listing);
    }
  }

  lemma OneDhcpSplit(document: DesiredDocument, listing: seq<NodeInfo>)
    requires listing != []
    ensures OneDhcp(document, listing) <==>
            && OneDhcp(document, listing[1..])
            && (listing[0].enabled && WantsDhcp(document, listing[0].id) ==>
                  forall r :: r in listing[1..] && r.enabled ==> !WantsDhcp(document, r.id))
  {
    hide WantsDhcp;
    var rest := listing[1..];
    assert forall i :: 0 <= i < |rest| ==> rest[i] == listing[i + 1];
    if OneDhcp(document, listing) {
      forall r | r in rest && r.enabled && listing[0].enabled && WantsDhcp(document, listing[0].id)
        ensures !WantsDhcp(document, r.id)
      {
        var i :| 0 <= i < |rest| && rest[i] == r;
        assert listing[i + 1] == r;
      }
    } else {
      var i, j :| 0 <= i < j < |listing| && listing[i].enabled && listing[j].enabled
                  && WantsDhcp(document, listing[i].id) && WantsDhcp(document, listing[j].id);
      assert listing[j] == rest[j - 1];
      assert i > 0 ==> listing[i] == rest[i - 1];
    }
  }

  lemma FitExactly(document: DesiredDocument, r: NodeInfo)
    requires r.id in document.nodeOverrides
    ensures FitTarget(document, r) <==>
            r.capable && r.snapshot.Some? && Agreement.SameListener(document.nodeOverrides[r.id], r.snapshot.value.nodeSpecific)
  {
    hide Effective, ImmutableNodeDifferences, ProjectDocument, Agreement.SameListener;
    Agreement.EffectiveSays(document, r.id);
    if r.snapshot.Some? {
      Agreement.ListenerReadDecides(document, r.id, r.snapshot.value);
    }
  }

  lemma SomeTarget(document: DesiredDocument, listing: seq<NodeInfo>, selected: set<Id>)
    ensures Plan(document, listing, selected) != [] <==> exists r :: r in listing && Eligible(r, selected)
  {
    hide Targets, Sort;
    var targets, plan := Targets(listing, selected), Plan(document, listing, selected);
    SortSorts(targets, DhcpKey(document));
    assert |plan| == |multiset(plan)| == |multiset(targets)| == |targets|;
    if plan != [] {
      TargetsAreChosen(listing, selected, targets[0]);
    }
    if r :| r in listing && Eligible(r, selected) {
      TargetsAreChosen(listing, selected, r.id);
    }
  }

  lemma TargetsFitRows(document: DesiredDocument, listing: seq<NodeInfo>, selected: set<Id>)
    requires forall r :: r in listing && r.enabled ==> r.id in document.nodeOverrides
    ensures TargetsFit(document, listing, selected) <==>
            forall r :: r in listing && Eligible(r, selected) ==>
              && r.id in document.nodeOverrides && r.capable && r.snapshot.Some?
              && Agreement.SameListener(document.nodeOverrides[r.id], r.snapshot.value.nodeSpecific)
  {
    hide FitTarget, Agreement.SameListener;
    forall i | 0 <= i < |listing| && Chosen(listing[i], selected)
      ensures listing[i] in listing && Eligible(listing[i], selected)
      ensures FitTarget(document, listing[i]) <==>
              && listing[i].capable && listing[i].snapshot.Some?
              && Agreement.SameListener(document.nodeOverrides[listing[i].id], listing[i].snapshot.value.nodeSpecific)
    {
      FitExactly(document, listing[i]);
    }
  }

  /** A preview finds no issue exactly if the document is deployable to the listed nodes. */
  lemma PreviewExactly(document: DesiredDocument, listing: seq<NodeInfo>, selected: set<Id>)
    ensures PlanValid(document, listing, selected) <==> Deployable(document, listing, selected)
  {
    hide Plan, TargetsFit, OneDhcp, DhcpCount, EnabledIds, WantsDhcp, Agreement.SameListener, Eligible;
    forall id
      ensures id in EnabledIds(listing) <==> exists r :: r in listing && r.enabled && r.id == id
    {
      EnabledRows(listing, id);
    }
    OneDhcpRow(document, listing);
    SomeTarget(document, listing, selected);
    if forall r :: r in listing && r.enabled ==> r.id in document.nodeOverrides {
      TargetsFitRows(document, listing, selected);
    }
  }

  /** A request creates a deployment exactly if its id is new, cluster and revision exist and belong together, only a
      reconciliation names nodes, every earlier deployment of the cluster has ended, and the document is deployable. */
  lemma CreatedExactly(db: Db, id: Id, request: Request)
    ensures CanCreate(db, id, request) <==>
            && id !in db.deployments && request.clusterId in db.active && request.revisionId in db.revisions
            && db.revisions[request.revisionId].clusterId == request.clusterId
            && (request.rollbackOf.Some? ==> request.rollbackOf.value in db.revisions)
            && (request.selected != {} ==> request.origin == Reconciliation)
            && (forall p :: p in db.deployments && db.deployments[p].clusterId == request.clusterId ==>
                  db.deployments[p].status in {Succeeded, PartiallySucceeded, Failed, Cancelled, Interrupted})
            && ListingRead(db, request)
            && Deployable(db.revisions[request.revisionId].document, request.listing, request.selected)
  {
    hide ListingRead, PlanValid, Deployable;
    if request.revisionId in db.revisions {
      PreviewExactly(db.revisions[request.revisionId].document, request.listing, request.selected);
    }
  }

  /** In every reachable state a deployment can be deleted exactly if it is still queued and no drift names it. */
  lemma QueuedDeletable(run: Run, k: nat, id: Id)
    requires IsRun(run) && k < |run.states| && id in run.states[k].db.deployments
    ensures CanDeleteDeployment(run.states[k].db, id) <==>
            && run.states[k].db.deployments[id].status == Queued
            && forall e :: e in run.states[k].db.drifts ==> run.states[k].db.drifts[e].relatedDeployment != Some(id)
  {
    hide Step, Init, PcInv, RefsInv, IntentInv, PinsInv, DraftsInv, TaskShape;
    Reachable(run, k);
    Attempts.BooksReachable(run, k);
    var d := run.states[k].db.deployments[id];
    assert RowInv(d) && Attempts.Booked(d);
  }

  /** Deleting a deployment right after creating it leaves the tables as they were. */
  lemma CreateThenDelete(run: Run, k: nat, id: Id, request: Request)
    requires IsRun(run) && k < |run.states| && CanCreate(run.states[k].db, id, request)
    ensures var created := CreateDeployment(run.states[k].db, id, request);
            CanDeleteDeployment(created, id) && DeleteUnstartedDeployment(created, id) == run.states[k].db
  {
    hide Step, Init, IsRun, PlanValid, ListingRead, ClusterBusy, Plan, PlannedHash;
    var db := run.states[k].db;
    forall e | e in db.drifts
      ensures db.drifts[e].relatedDeployment != Some(id)
    {
      DriftAlwaysRefers(run, k, e);
    }
    assert DeleteUnstartedDeployment(CreateDeployment(db, id, request), id).deployments == db.deployments;
  }

  // Drafts.

  /** A draft can be written by whoever knows its version, and a new revision published from it. */
  lemma DraftWritable(s: Sys, c: Id, r: Id, document: DesiredDocument, number: int)
    requires c in s.db.drafts
    ensures Step(s, UpdateDraft(c, s.db.drafts[c].version, document), s.(db := UpdateConfigurationDraft(s.db, c, document)))
    ensures r !in s.db.revisions && IsMaxNumber(s.db, c, number - 1) ==>
              Step(s, Publish(c, s.db.drafts[c].version, r, document, number),
                   s.(db := PublishRevision(s.db, c, r, document, number)))
  {
    hide ExecutorStep, IsMaxNumber;
    assert OtherStep(s, UpdateDraft(c, s.db.drafts[c].version, document), s.(db := UpdateConfigurationDraft(s.db, c, document)));
    if r !in s.db.revisions && IsMaxNumber(s.db, c, number - 1) {
      assert OtherStep(s, Publish(c, s.db.drafts[c].version, r, document, number),
                       s.(db := PublishRevision(s.db, c, r, document, number)));
    }
  }

  /** The version a draft write was made against. */
  function WrittenVersion(a: Action): int {
    match a
    case UpdateDraft(_, version, _) => version
    case Publish(_, version, _, _, _) => version
    case FinishImport(read, _) => read.version
    case _ => 0
  }

  predicate WritesDraft(a: Action, c: Id) {
    || (a.UpdateDraft? && a.cluster == c) || (a.Publish? && a.cluster == c) || (a.FinishImport? && a.read.clusterId == c)
  }

  /** A draft is never removed and its version never falls; a write finds the version it was made against, or no draft
      at all, and moves past it. */
  lemma VersionStep(s: Sys, a: Action, s': Sys, c: Id)
    requires Step(s, a, s')
    ensures c in s.db.drafts ==> c in s'.db.drafts && s.db.drafts[c].version <= s'.db.drafts[c].version
    ensures WritesDraft(a, c) ==>
              && (c in s.db.drafts ==> s.db.drafts[c].version == WrittenVersion(a))
              && c in s'.db.drafts && s'.db.drafts[c].version == WrittenVersion(a) + 1
  {
    hide ExecutorStep, OtherStep;
    if OtherStep(s, a, s') {
      VersionOther(s, a, s', c);
    } else {
      ExecutorEvolves(s, a, s');
      ExecutorKinds(s, a, s');
    }
  }

  lemma VersionOther(s: Sys, a: Action, s': Sys, c: Id)
    requires OtherStep(s, a, s')
    ensures c in s.db.drafts ==> c in s'.db.drafts && s.db.drafts[c].version <= s'.db.drafts[c].version
    ensures WritesDraft(a, c) ==>
              && (c in s.db.drafts ==> s.db.drafts[c].version == WrittenVersion(a))
              && c in s'.db.drafts && s'.db.drafts[c].version == WrittenVersion(a) + 1
  {
    hide CanCreate, NewDeployment, IsMaxNumber, ResolveDrifts;
  }

  lemma {:induction false} VersionsNeverFall(run: Run, j: nat, k: nat, c: Id)
    requires IsRun(run) && j <= k < |run.states| && c in run.states[j].db.drafts
    ensures c in run.states[k].db.drafts && run.states[j].db.drafts[c].version <= run.states[k].db.drafts[c].version
  {
    hide Step, Init;
    if j < k {
      VersionsNeverFall(run, j, k - 1, c);
      assert StepAt(run, k - 1);
      VersionStep(run.states[k - 1], run.actions[k - 1], run.states[k], c);
    }
  }

  /** No lost update: of two writes of one draft in a run, the later one was made against a version that already
      contained the earlier one. */
  lemma NoLostUpdate(run: Run, j: nat, k: nat, c: Id)
    requires IsRun(run) && j < k < |run.actions| && WritesDraft(run.actions[j], c) && WritesDraft(run.actions[k], c)
    ensures WrittenVersion(run.actions[j]) < WrittenVersion(run.actions[k])
  {
    hide Step, Init, WrittenVersion, WritesDraft;
    assert StepAt(run, j) && StepAt(run, k);
    VersionStep(run.states[j], run.actions[j], run.states[j + 1], c);
    VersionsNeverFall(run, j + 1, k, c);
    VersionStep(run.states[k], run.actions[k], run.states[k + 1], c);
  }

  // Nodes.

  /** A node that is not removed can be removed by whoever knows its version. */
  lemma NodeRemovable(s: Sys, n: Id)
    requires n in s.db.nodes && !s.db.nodes[n].deleted
    ensures Step(s, RemoveNode(n, s.db.nodes[n].recordVersion), s.(db := SoftDeleteNode(s.db, n)))
  {
    hide ExecutorStep, SoftDeleteNode;
    assert OtherStep(s, RemoveNode(n, s.db.nodes[n].recordVersion), s.(db := SoftDeleteNode(s.db, n)));
  }
}
