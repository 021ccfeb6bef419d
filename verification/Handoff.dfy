/** The DHCP role moves from node to node without two servers ever running at once. */
module Handoff {
  import opened Text
  import opened Configuration
  import opened Diff
  import opened Preview
  import opened Protocol
  import opened Invariant
  import opened Retention
  import opened Runs

  /** The node belongs to the cluster and its DHCP server runs. */
  predicate RunsIn(s: Sys, c: Id, n: Id) {
    n in s.dhcp && n in s.db.nodes && s.db.nodes[n].clusterId == c
  }

  ghost predicate AtMostOne(s: Sys, c: Id) {
    forall a, b :: RunsIn(s, c, a) && RunsIn(s, c, b) ==> a == b
  }

  /** Every running node of the cluster is a target of the deployment. */
  ghost predicate Covered(s: Sys, c: Id, d: Deployment) {
    forall n :: RunsIn(s, c, n) ==> exists i :: 0 <= i < |d.tasks| && d.tasks[i].nodeId == n
  }

  /** The executor is between the first boundary and the last mark of a deployment. */
  predicate Mutating(pc: Pc) {
    pc.Boundary? || pc.Entering? || pc.Configuring? || pc.Applied? || pc.Reading? || pc.Verified? || pc.Marking?
  }

  /** Targets before `upTo` that are not to run DHCP do not. */
  ghost predicate Quiesced(s: Sys, document: DesiredDocument, d: Deployment, upTo: nat) {
    forall j :: 0 <= j < upTo && j < |d.tasks| && d.tasks[j].nodeId in s.dhcp ==> WantsDhcp(document, d.tasks[j].nodeId)
  }

  ghost predicate HandoffInv(s: Sys, c: Id) {
    && AtMostOne(s, c)
    && (Mutating(s.pc) && HeldExists(s) && Held(s).clusterId == c ==>
          && Covered(s, c, Held(s))
          && Quiesced(s, Intent(s), Held(s), if s.pc.Verified? || s.pc.Marking? then s.pc.i + 1 else s.pc.i))
  }

  /** Only the executor changes nodes, read-backs tell the truth about DHCP, and mutation of a deployment of the
      cluster starts only when its targets include every running node of the cluster. */
  ghost predicate Disciplined(s: Sys, a: Action, c: Id) {
    && !a.NodesChange?
    && (a.AddNode? ==> a.node !in s.dhcp)
    && (a.ReadBack? && a.result.Some? && AtTask(s) ==>
          (a.result.value.nodeSpecific.RunsDhcp() <==> CurrentTask(s).nodeId in s.dhcp))
    && (a.PrepareSucceeds? && HeldExists(s) && Held(s).clusterId == c ==> Covered(s, c, Held(s)))
  }

  /** A clean read-back that tells the truth shows the wanted DHCP state. */
  lemma CleanMeansWanted(document: DesiredDocument, nodeId: Id, observed: Document)
    requires ReadBackClean(document, nodeId, observed)
    ensures WantsDhcp(document, nodeId) <==> observed.nodeSpecific.RunsDhcp()
  {
    hide ManagedDifferences;
    EffectiveDhcp(document, nodeId);
    VerifiedDhcp(Effective(document, nodeId).value, observed);
  }

  /** Setting the DHCP state of the current target: only the last target is ever switched on, and by then
      nobody else runs. */
  lemma WriteKeeps(s: Sys, s': Sys, c: Id)
    requires HandoffInv(s, c) && PcInv(s) && RefsInv(s.db) && IntentInv(s.db) && TaskStep(s, WriteDhcp, s')
    ensures HandoffInv(s', c)
  {
    hide ReadBackClean, HashFor, WantsDhcp;
    var d, i := Held(s), s.pc.i;
    var node := d.tasks[i].nodeId;
    assert RowRefs(s.db, d);
    assert RowIntent(Intent(s), d);
    forall a, b | RunsIn(s', c, a) && RunsIn(s', c, b)
      ensures a == b
    {
      if WantsDhcp(Intent(s), node) && d.clusterId == c {
        assert i == |d.tasks| - 1;
        if a != node {
          assert RunsIn(s, c, a);
          OnlyLastRuns(s, c, a);
        }
        if b != node {
          assert RunsIn(s, c, b);
          OnlyLastRuns(s, c, b);
        }
      } else {
        assert RunsIn(s, c, a) && RunsIn(s, c, b);
      }
    }
    assert forall n :: RunsIn(s', c, n) ==> n == node || RunsIn(s, c, n);
  }

  /** When the last target is reached, a running node of the cluster can only be that target. */
  lemma OnlyLastRuns(s: Sys, c: Id, n: Id)
    requires HandoffInv(s, c) && IntentInv(s.db) && AtTask(s) && s.pc.Configuring? && Held(s).clusterId == c
    requires s.pc.i == |Held(s).tasks| - 1 && RunsIn(s, c, n)
    ensures n == CurrentTask(s).nodeId
  {
    hide ReadBackClean, HashFor, WantsDhcp;
    assert RowIntent(Intent(s), Held(s));
    var j :| 0 <= j < |Held(s).tasks| && Held(s).tasks[j].nodeId == n;
  }

  lemma ReadBackKeeps(s: Sys, a: Action, s': Sys, c: Id)
    requires HandoffInv(s, c) && a.ReadBack? && TaskStep(s, a, s') && Disciplined(s, a, c)
    ensures HandoffInv(s', c)
  {
    hide ReadBackClean, WantsDhcp;
    var d, i := Held(s), s.pc.i;
    assert s'.dhcp == s.dhcp && s'.db == s.db;
    assert forall n :: RunsIn(s', c, n) <==> RunsIn(s, c, n);
    if s'.pc.Verified? {
      CleanMeansWanted(Intent(s), CurrentTask(s).nodeId, a.result.value);
      assert Held(s') == d && Intent(s') == Intent(s);
      if d.clusterId == c {
        assert Quiesced(s, Intent(s), d, i);
        assert d.tasks[i].nodeId in s.dhcp ==> WantsDhcp(Intent(s), d.tasks[i].nodeId);
        assert Quiesced(s', Intent(s), d, i + 1);
      }
    }
  }

  /** Steps that change neither running nodes nor who belongs to the cluster, and do not move past a target. */
  lemma HandoffFrame(s: Sys, s': Sys, c: Id)
    requires HandoffInv(s, c) && s'.dhcp == s.dhcp
    requires forall n :: n in s.dhcp && n in s'.db.nodes ==>
               n in s.db.nodes && s'.db.nodes[n].clusterId == s.db.nodes[n].clusterId
    requires Mutating(s'.pc) && HeldExists(s') && Held(s').clusterId == c ==>
               && Mutating(s.pc) && HeldExists(s) && s'.pc.id == s.pc.id && Held(s).clusterId == c
               && Intent(s') == Intent(s) && |Held(s').tasks| == |Held(s).tasks|
               && (forall i :: 0 <= i < |Held(s).tasks| ==> Held(s').tasks[i].nodeId == Held(s).tasks[i].nodeId)
               && (if s'.pc.Verified? || s'.pc.Marking? then s'.pc.i + 1 else s'.pc.i)
                  <= (if s.pc.Verified? || s.pc.Marking? then s.pc.i + 1 else s.pc.i)
    ensures HandoffInv(s', c)
  {
    hide WantsDhcp;
    assert forall n :: RunsIn(s', c, n) ==> RunsIn(s, c, n);
    if Mutating(s'.pc) && HeldExists(s') && Held(s').clusterId == c {
      forall n | RunsIn(s', c, n)
        ensures exists i :: 0 <= i < |Held(s').tasks| && Held(s').tasks[i].nodeId == n
      {
        assert RunsIn(s, c, n);
        var i :| 0 <= i < |Held(s).tasks| && Held(s).tasks[i].nodeId == n;
        assert Held(s').tasks[i].nodeId == n;
      }
    }
  }

  lemma TaskKeeps(s: Sys, a: Action, s': Sys, c: Id)
    requires HandoffInv(s, c) && PcInv(s) && RefsInv(s.db) && IntentInv(s.db)
    requires TaskStep(s, a, s') && Disciplined(s, a, c)
    ensures HandoffInv(s', c)
  {
    hide ReadBackClean, WantsDhcp, HandoffInv, PcInv, IntentInv, Disciplined;
    if a.WriteDhcp? {
      WriteKeeps(s, s', c);
    } else if a.ReadBack? {
      ReadBackKeeps(s, a, s', c);
    } else {
      TaskEvolves(s, a, s');
      HandoffFrame(s, s', c);
    }
  }

  lemma PrepareKeeps(s: Sys, a: Action, s': Sys, c: Id)
    requires HandoffInv(s, c) && PrepareStep(s, a, s') && Disciplined(s, a, c)
    ensures HandoffInv(s', c)
  {
    hide Effective, WantsDhcp, Evolves;
    PrepareEvolves(s, a, s');
    assert s'.dhcp == s.dhcp && s'.db.nodes == s.db.nodes;
    assert forall n :: RunsIn(s', c, n) ==> RunsIn(s, c, n);
    if a.PrepareSucceeds? {
      assert Held(s').tasks == Held(s).tasks;
    }
  }

  lemma OtherKeeps(s: Sys, a: Action, s': Sys, c: Id)
    requires HandoffInv(s, c) && PcInv(s) && RefsInv(s.db) && OtherStep(s, a, s') && Disciplined(s, a, c)
    ensures HandoffInv(s', c)
  {
    hide WantsDhcp, OtherStep, PcInv, Disciplined;
    HeldNotQueued(s);
    OtherRunning(s, a, s', c);
    if HeldExists(s) {
      HeldUndisturbed(s, a, s');
    }
    if Holds(s.pc) {
      assert RowRefs(s.db, Held(s));
    }
    hide HandoffInv;
    HandoffFrame(s, s', c);
  }

  lemma OtherRunning(s: Sys, a: Action, s': Sys, c: Id)
    requires OtherStep(s, a, s') && Disciplined(s, a, c)
    ensures s'.dhcp == s.dhcp && s'.pc == s.pc
    ensures forall n :: n in s.dhcp && n in s'.db.nodes ==>
              n in s.db.nodes && s'.db.nodes[n].clusterId == s.db.nodes[n].clusterId
  {
    hide CanCreate, NewDeployment, IsMaxNumber, ResolveDrifts;
  }

  lemma HandoffStep(s: Sys, a: Action, s': Sys, c: Id)
    requires Inv(s) && Step(s, a, s') && HandoffInv(s, c) && Disciplined(s, a, c)
    ensures HandoffInv(s', c)
  {
    hide RowsInv, PcInv, RefsInv, IntentInv, PinsInv, DraftsInv, HandoffInv, Disciplined, PrepareStep, TaskStep,
         OtherStep, UnwindStep, StopStep;
    if OtherStep(s, a, s') {
      OtherKeeps(s, a, s', c);
    } else if TaskStep(s, a, s') {
      TaskKeeps(s, a, s', c);
    } else if PrepareStep(s, a, s') {
      PrepareKeeps(s, a, s', c);
    } else if UnwindStep(s, a, s') {
      UnwindKeeps(s, a, s', c);
    } else {
      StopKeeps(s, a, s', c);
    }
  }

  lemma UnwindKeeps(s: Sys, a: Action, s': Sys, c: Id)
    requires HandoffInv(s, c) && UnwindStep(s, a, s')
    ensures HandoffInv(s', c)
  {
    hide HandoffInv;
    HandoffFrame(s, s', c);
  }

  lemma StopKeeps(s: Sys, a: Action, s': Sys, c: Id)
    requires HandoffInv(s, c) && StopStep(s, a, s')
    ensures HandoffInv(s', c)
  {
    hide HandoffInv;
    HandoffFrame(s, s', c);
  }

  /** At most one node of a cluster runs DHCP after every step of every disciplined run, whatever fails half way:
      applies that stop between two writes, read-backs that differ, repository errors, crashes and restarts. */
  lemma {:induction false} NeverTwoServers(run: Run, j: nat, k: nat, c: Id)
    requires IsRun(run) && j <= k < |run.states|
    requires AtMostOne(run.states[j], c) && !Mutating(run.states[j].pc)
    requires forall m :: j <= m < k ==> Disciplined(run.states[m], run.actions[m], c)
    ensures AtMostOne(run.states[k], c)
  {
    hide Inv, Step, Init, Disciplined;
    HandoffInRun(run, j, k, c);
  }

  lemma {:induction false} HandoffInRun(run: Run, j: nat, k: nat, c: Id)
    requires IsRun(run) && j <= k < |run.states|
    requires AtMostOne(run.states[j], c) && !Mutating(run.states[j].pc)
    requires forall m :: j <= m < k ==> Disciplined(run.states[m], run.actions[m], c)
    ensures HandoffInv(run.states[k], c)
  {
    hide Inv, Step, Init, Disciplined, AtMostOne;
    if j < k {
      HandoffInRun(run, j, k - 1, c);
      Reachable(run, k - 1);
      assert StepAt(run, k - 1);
      HandoffStep(run.states[k - 1], run.actions[k - 1], run.states[k], c);
    }
  }
}
