/** The guarantees of the deployment and revision protocol over whole runs. */
module Runs {
  import opened Text
  import opened Configuration
  import opened Diff
  import opened Preview
  import opened Protocol
  import opened Invariant
  import opened Retention

  ghost predicate Inv(s: Sys) {
    RowsInv(s.db) && PcInv(s) && RefsInv(s.db) && IntentInv(s.db) && PinsInv(s.db) && DraftsInv(s)
  }

  lemma InvInit(s: Sys)
    requires Init(s)
    ensures Inv(s)
  {
  }

  lemma InvExecutorDb(s: Sys, a: Action, s': Sys)
    requires Inv(s) && ExecutorStep(s, a, s')
    ensures RowsInv(s'.db) && PcInv(s')
  {
    hide PrepareStep, TaskStep, StopStep, RowsInv, PcInv, RefsInv, IntentInv, PinsInv, DraftsInv;
    if PrepareStep(s, a, s') {
      RowsPrepare(s, a, s');
    } else if TaskStep(s, a, s') {
      RowsTask(s, a, s');
    } else if UnwindStep(s, a, s') {
      if a.SkipTask? {
        RowsSkip(s, s');
      } else {
        RowsFinish(s, s');
      }
    } else {
      RowsStop(s, a, s');
    }
  }

  lemma PinsExecutor(s: Sys, a: Action, s': Sys)
    requires Inv(s) && ExecutorStep(s, a, s')
    ensures PinsInv(s'.db)
  {
    hide TaskStep, UnwindStep, PrepareStep, StopStep, OtherStep, PinsKept, PinsInv, RowsInv, PcInv, RefsInv, IntentInv, DraftsInv;
    if TaskStep(s, a, s') && a.MarkApplied? {
      PinsMarkApplied(s, s');
    } else if UnwindStep(s, a, s') && a.Finish? {
      PinsFinish(s, s');
    } else {
      if TaskStep(s, a, s') {
        TaskKeepsPins(s, a, s');
      } else if UnwindStep(s, a, s') {
        UnwindKeepsPins(s, a, s');
      } else if PrepareStep(s, a, s') {
        PrepareKeepsPins(s, a, s');
      } else {
        StopKeepsPins(s, a, s');
      }
      PinsFrame(s, a, s');
    }
  }

  lemma InvStep(s: Sys, a: Action, s': Sys)
    requires Inv(s) && Step(s, a, s')
    ensures Inv(s')
  {
    hide ExecutorStep, RowsInv, PcInv, RefsInv, IntentInv, PinsInv;
    if ExecutorStep(s, a, s') {
      hide DraftsInv;
      InvExecutorDb(s, a, s');
      ExecutorEvolves(s, a, s');
      RefsExecutor(s.db, s'.db);
      IntentExecutor(s, a, s');
      PinsExecutor(s, a, s');
      DraftsExecutor(s, a, s');
    } else {
      InvOther(s, a, s');
    }
  }

  lemma InvOther(s: Sys, a: Action, s': Sys)
    requires Inv(s) && OtherStep(s, a, s')
    ensures Inv(s')
  {
    hide RowsInv, PcInv, RefsInv, IntentInv, PinsInv, OtherStep, ExecutorStep, PinsKept;
    DraftsOther(s, a, s');
    hide DraftsInv;
    RowsOther(s, a, s');
    RefsOther(s, a, s');
    IntentOther(s, a, s');
    OtherKeepsPins(s, a, s');
    PinsFrame(s, a, s');
  }

  // Runs.

  datatype Run = Run(states: seq<Sys>, actions: seq<Action>)

  ghost predicate StepAt(run: Run, k: nat)
    requires k < |run.actions| && |run.states| == |run.actions| + 1
  {
    Step(run.states[k], run.actions[k], run.states[k + 1])
  }

  ghost predicate IsRun(run: Run) {
    && |run.states| == |run.actions| + 1
    && Init(run.states[0])
    && forall k: nat :: k < |run.actions| ==> StepAt(run, k)
  }

  /** The state a run ends in. */
  ghost function Last(run: Run): Sys
    requires |run.states| > 0
  {
    run.states[|run.states| - 1]
  }

  ghost function Extended(run: Run, a: Action, s: Sys): Run {
    Run(run.states + [s], run.actions + [a])
  }

  lemma ExtendedIsRun(run: Run, a: Action, s: Sys)
    requires IsRun(run) && Step(run.states[|run.states| - 1], a, s)
    ensures IsRun(Extended(run, a, s))
  {
    hide Step, Init;
    var longer := Extended(run, a, s);
    forall k: nat | k < |longer.actions|
      ensures StepAt(longer, k)
    {
      if k < |run.actions| {
        assert StepAt(run, k);
        assert longer.states[k] == run.states[k] && longer.states[k + 1] == run.states[k + 1];
      }
    }
  }

  ghost predicate Extends(run: Run, longer: Run) {
    run.states <= longer.states && run.actions <= longer.actions
  }

  lemma {:induction false} Reachable(run: Run, k: nat)
    requires IsRun(run) && k < |run.states|
    ensures Inv(run.states[k])
  {
    hide Inv, Init, Step;
    if k == 0 {
      InvInit(run.states[0]);
    } else {
      Reachable(run, k - 1);
      assert StepAt(run, k - 1);
      InvStep(run.states[k - 1], run.actions[k - 1], run.states[k]);
    }
  }

  /** In every reachable state the tasks of every deployment are in shape, and a terminal deployment has
      no unfinished task. */
  lemma TasksAlwaysInShape(run: Run, k: nat, id: Id)
    requires IsRun(run) && k < |run.states| && id in run.states[k].db.deployments
    ensures var d := run.states[k].db.deployments[id];
            && TaskShape(d.tasks)
            && (Terminal(d.status) ==> forall i :: 0 <= i < |d.tasks| ==> !Unfinished(d.tasks[i].status))
            && (d.status == Succeeded ==> forall i :: 0 <= i < |d.tasks| ==> d.tasks[i].status == TaskSucceeded)
  {
    Reachable(run, k);
    assert RowInv(run.states[k].db.deployments[id]);
  }

  // What others cannot change.

  /** What serving other requests cannot change about the deployment the executor holds. */
  ghost predicate Undisturbed(s: Sys, s': Sys) {
    && s'.pc == s.pc
    && (HeldExists(s) ==>
          && HeldExists(s') && Intent(s') == Intent(s)
          && (Held(s') == Held(s) || Held(s') == Held(s).(cancelRequested := true)))
  }

  lemma OthersUndisturbed(s: Sys, a: Action, s': Sys)
    requires Inv(s) && OtherStep(s, a, s')
    ensures Undisturbed(s, s')
  {
    if HeldExists(s) {
      HeldNotQueued(s) by {
        hide RowsInv, RefsInv, IntentInv, PinsInv, DraftsInv;
      }
      assert RowRefs(s.db, Held(s));
      HeldUndisturbed(s, a, s');
    }
  }

  lemma HeldUndisturbed(s: Sys, a: Action, s': Sys)
    requires OtherStep(s, a, s') && HeldExists(s) && Open(Held(s).status)
    ensures Undisturbed(s, s')
  {
    hide CanCreate, NewDeployment, IsMaxNumber;
    if a.Create? {
      NewDeploymentRevision(s.db, a.request, a.deployment);
    }
  }

  // Progress.

  /** The executor goes on: neither a failed call nor a crash. */
  ghost predicate GoesOn(s: Sys, a: Action, s': Sys) {
    ExecutorStep(s, a, s') && !a.StopWithError? && !a.Crash?
  }

  /** A deployment in the executor's hands exists, and so does the revision it rolls out. */
  lemma HeldFound(s: Sys)
    requires PcInv(s) && RefsInv(s.db) && Holds(s.pc)
    ensures HeldExists(s)
  {
    hide PrepareRow, TargetRow, UnwindRow;
    assert RowRefs(s.db, Held(s));
  }

  lemma PreparingGoesOn(s: Sys)
    requires HeldExists(s) && (s.pc.Claimed? || s.pc.Preparing?)
    ensures exists a, s' :: GoesOn(s, a, s')
  {
    hide Effective, Intent;
    if s.pc.Claimed? {
      var next := if Held(s).cancelRequested || Held(s).status == Cancelling then CancelSkipping(s.pc.id, 0, 0) else Preparing(s.pc.id);
      assert PrepareStep(s, Load, s.(pc := next));
      assert GoesOn(s, Load, s.(pc := next));
    } else {
      assert PrepareStep(s, PrepareFails, s.(pc := FailingBefore(s.pc.id, 0)));
      assert GoesOn(s, PrepareFails, s.(pc := FailingBefore(s.pc.id, 0)));
    }
  }

  lemma UnwindingGoesOn(s: Sys)
    requires HeldExists(s) && PcInv(s) && (Unwinding(s.pc) || (s.pc.Boundary? && s.pc.i == |Held(s).tasks|))
    ensures exists a, s' :: GoesOn(s, a, s')
  {
    hide PrepareRow, TargetRow, Effective, Intent;
    if Unwinding(s.pc) && s.pc.next < |Held(s).tasks| {
      var t := Held(s).tasks[s.pc.next];
      var s' := if s.pc.CancelSkipping? && t.status != Pending then s.(pc := Advance(s.pc))
                else WriteTask(s, s.pc.next, t.(status := Skipped), Advance(s.pc));
      assert UnwindStep(s, SkipTask, s');
      assert GoesOn(s, SkipTask, s');
    } else {
      var activate := s.pc.Boundary? && Held(s).origin != Reconciliation;
      var s' := s.(db := FinishDeployment(s.db, s.pc.id, FinishStatus(s.pc), activate), pc := Idle);
      assert UnwindStep(s, Finish, s');
      assert GoesOn(s, Finish, s');
    }
  }

  /** The next step at a target, by where the executor is. */
  ghost function NextAt(s: Sys): (Action, Sys)
    requires AtTask(s)
  {
    var id, i, t := s.pc.id, s.pc.i, CurrentTask(s);
    match s.pc
    case Boundary(_, _) => (CheckBoundary, s.(pc := if Held(s).cancelRequested then CancelSkipping(id, i, i) else Entering(id, i)))
    case Entering(_, _) =>
      (EnterTask, WriteTask(s, i, t.(status := Applying, attempts := t.attempts + 1, started := true), Configuring(id, i)))
    case Configuring(_, _) => (ApplySucceeds, s.(pc := Protocol.Applied(id, i)))
    case Applied(_, _) => (StartVerifying, WriteTask(s, i, t.(status := Verifying), Reading(id, i)))
    case Reading(_, _) => (ReadBack(None), s.(pc := FailingNode(id, i)))
    case Verified(_, _, observed) =>
      (RecordSuccess, WriteTask(s, i, t.(status := TaskSucceeded, snapshot := Some(observed)), Marking(id, i)))
    case Marking(_, _) =>
      (MarkApplied, s.(db := MarkNodeApplied(s.db, t.nodeId, Held(s).revisionId, t.effectiveHash), pc := Boundary(id, i + 1)))
    case FailingNode(_, _) => (FailTask, WriteTask(s, i, t.(status := TaskFailed), FailSkipping(id, i, i + 1)))
    case _ => (CheckBoundary, s)
  }

  lemma NextIsStep(s: Sys)
    requires AtTask(s) && !Unwinding(s.pc)
    ensures TaskStep(s, NextAt(s).0, NextAt(s).1)
  {
    hide ReadBackClean, WantsDhcp, Intent;
  }

  lemma TargetGoesOn(s: Sys)
    requires AtTask(s) && !Unwinding(s.pc)
    ensures exists a, s' :: GoesOn(s, a, s')
  {
    hide TaskStep;
    NextIsStep(s);
    assert GoesOn(s, NextAt(s).0, NextAt(s).1);
  }

  /** In every reachable state the executor that holds a deployment has a next step: the rows and positions its
      step relies on are always there. */
  lemma ExecutorNeverStuck(run: Run, k: nat)
    requires IsRun(run) && k < |run.states| && Holds(run.states[k].pc)
    ensures exists a, s' :: GoesOn(run.states[k], a, s')
  {
    hide Step, Init, GoesOn, RowsInv, IntentInv, PinsInv, DraftsInv, RefsInv;
    var s := run.states[k];
    Reachable(run, k);
    HeldFound(s);
    if s.pc.Claimed? || s.pc.Preparing? {
      PreparingGoesOn(s);
    } else if Unwinding(s.pc) || (s.pc.Boundary? && s.pc.i == |Held(s).tasks|) {
      UnwindingGoesOn(s);
    } else {
      TargetGoesOn(s);
    }
  }

  lemma TerminalInterrupt(d: Deployment)
    requires RowInv(d) && Terminal(d.status)
    ensures InterruptDeployment(d) == d
  {
    assert InterruptTasks(d.tasks, false) == d.tasks;
  }

  lemma TerminalOther(s: Sys, a: Action, s': Sys, id: Id)
    requires OtherStep(s, a, s') && id in s.db.deployments && Terminal(s.db.deployments[id].status)
    ensures id in s'.db.deployments && s'.db.deployments[id] == s.db.deployments[id]
  {
    hide CanCreate, NewDeployment, IsMaxNumber;
    if a.Create? {
      NewDeploymentRevision(s.db, a.request, a.deployment);
    }
  }

  lemma TaskWritesHeld(s: Sys, a: Action, s': Sys, id: Id)
    requires TaskStep(s, a, s') && id in s.db.deployments && s.pc.id != id
    ensures id in s'.db.deployments && s'.db.deployments[id] == s.db.deployments[id]
  {
    hide ReadBackClean, WantsDhcp, Intent;
  }

  lemma UnwindWritesHeld(s: Sys, a: Action, s': Sys, id: Id)
    requires UnwindStep(s, a, s') && id in s.db.deployments && s.pc.id != id
    ensures id in s'.db.deployments && s'.db.deployments[id] == s.db.deployments[id]
  {
  }

  lemma PrepareWritesHeld(s: Sys, a: Action, s': Sys, id: Id)
    requires PrepareStep(s, a, s') && id in s.db.deployments && (Holds(s.pc) ==> s.pc.id != id)
    requires a.Claim? ==> a.claimed != id
    ensures id in s'.db.deployments && s'.db.deployments[id] == s.db.deployments[id]
  {
    hide Effective, Intent;
  }

  lemma TerminalExecutor(s: Sys, a: Action, s': Sys, id: Id)
    requires RowsInv(s.db) && PcInv(s) && ExecutorStep(s, a, s')
    requires id in s.db.deployments && Terminal(s.db.deployments[id].status)
    ensures id in s'.db.deployments && s'.db.deployments[id] == s.db.deployments[id]
  {
    hide PcInv, TaskStep, UnwindStep, RowInv;
    HeldNotQueued(s);
    if TaskStep(s, a, s') {
      TaskStepHolds(s, a, s');
      TaskWritesHeld(s, a, s', id);
    } else if UnwindStep(s, a, s') {
      UnwindStepHolds(s, a, s');
      UnwindWritesHeld(s, a, s', id);
    } else if PrepareStep(s, a, s') {
      PrepareWritesHeld(s, a, s', id);
    } else if a.Recover? {
      TerminalInterrupt(s.db.deployments[id]);
    }
  }

  lemma TaskStepHolds(s: Sys, a: Action, s': Sys)
    requires TaskStep(s, a, s')
    ensures Holds(s.pc)
  {
    hide ReadBackClean, WantsDhcp, Intent;
  }

  lemma UnwindStepHolds(s: Sys, a: Action, s': Sys)
    requires UnwindStep(s, a, s')
    ensures Holds(s.pc)
  {
  }

  lemma TerminalStep(s: Sys, a: Action, s': Sys, id: Id)
    requires Inv(s) && Step(s, a, s') && id in s.db.deployments && Terminal(s.db.deployments[id].status)
    ensures id in s'.db.deployments && s'.db.deployments[id] == s.db.deployments[id]
  {
    hide RowsInv, PcInv, RefsInv, IntentInv, PinsInv, DraftsInv, ExecutorStep, OtherStep;
    if OtherStep(s, a, s') {
      TerminalOther(s, a, s', id);
    } else {
      TerminalExecutor(s, a, s', id);
    }
  }

  /** A deployment that reached a terminal status never changes again, in any run. */
  lemma {:induction false} TerminalForever(run: Run, j: nat, k: nat, id: Id)
    requires IsRun(run) && j <= k < |run.states|
    requires id in run.states[j].db.deployments && Terminal(run.states[j].db.deployments[id].status)
    ensures id in run.states[k].db.deployments
    ensures run.states[k].db.deployments[id] == run.states[j].db.deployments[id]
  {
    hide Inv, Init, Step;
    if j < k {
      TerminalForever(run, j, k - 1, id);
      Reachable(run, k - 1);
      assert StepAt(run, k - 1);
      TerminalStep(run.states[k - 1], run.actions[k - 1], run.states[k], id);
    }
  }

  // Activation.

  /** The deployment that was just finished rolled its revision out to every target, with a clean read-back of each. */
  ghost predicate FullyVerified(db: Db, d: Deployment) {
    && d.revisionId in db.revisions
    && forall i :: 0 <= i < |d.tasks| ==>
         && d.tasks[i].status == TaskSucceeded && d.tasks[i].snapshot.Some?
         && ReadBackClean(db.revisions[d.revisionId].document, d.tasks[i].nodeId, d.tasks[i].snapshot.value)
         && d.tasks[i].nodeId in db.nodes && db.nodes[d.tasks[i].nodeId].applied == Some(d.revisionId)
  }

  /** Only finishing a fully applied deployment writes the active revision. */
  lemma ActiveFrame(s: Sys, a: Action, s': Sys)
    requires Step(s, a, s') && !UnwindStep(s, a, s')
    ensures forall c :: c in s.db.active ==> c in s'.db.active && s'.db.active[c] == s.db.active[c]
  {
    hide UnwindStep, OtherStep, TaskStep, PrepareStep, StopStep;
    if OtherStep(s, a, s') {
      OtherActive(s, a, s');
    } else if TaskStep(s, a, s') {
      TaskActive(s, a, s');
    } else if PrepareStep(s, a, s') {
      PrepareActive(s, a, s');
    } else {
      StopActive(s, a, s');
    }
  }

  lemma PrepareActive(s: Sys, a: Action, s': Sys)
    requires PrepareStep(s, a, s')
    ensures s'.db.active == s.db.active
  {
    hide Effective, Intent;
  }

  lemma StopActive(s: Sys, a: Action, s': Sys)
    requires StopStep(s, a, s')
    ensures s'.db.active == s.db.active
  {
  }

  lemma TaskActive(s: Sys, a: Action, s': Sys)
    requires TaskStep(s, a, s')
    ensures s'.db.active == s.db.active
  {
    hide ReadBackClean, WantsDhcp, Intent;
  }

  lemma OtherActive(s: Sys, a: Action, s': Sys)
    requires OtherStep(s, a, s')
    ensures forall c :: c in s.db.active ==> c in s'.db.active && s'.db.active[c] == s.db.active[c]
  {
    hide CanCreate, NewDeployment, IsMaxNumber;
  }

  lemma FinishActivation(s: Sys, a: Action, s': Sys, c: Id)
    requires PcInv(s) && IntentInv(s.db) && UnwindStep(s, a, s')
    requires c in s.db.active && s'.db.active[c] != s.db.active[c]
    ensures a.Finish? && s.pc.id in s'.db.deployments
    ensures var d := s'.db.deployments[s.pc.id];
            && d.clusterId == c && d.origin != Reconciliation && d.status == Succeeded
            && s'.db.active[c] == Some(d.revisionId) && FullyVerified(s'.db, d)
  {
    hide ReadBackClean, WantsDhcp, HashFor;
    assert RowIntent(Intent(s), Held(s));
    assert s'.db.deployments[s.pc.id].tasks == Held(s).tasks;
  }

  lemma ActivationStep(s: Sys, a: Action, s': Sys, c: Id)
    requires Inv(s) && Step(s, a, s') && c in s.db.active && c in s'.db.active && s'.db.active[c] != s.db.active[c]
    ensures a.Finish? && Holds(s.pc) && s.pc.id in s'.db.deployments
    ensures var d := s'.db.deployments[s.pc.id];
            && d.clusterId == c && d.origin != Reconciliation && d.status == Succeeded
            && s'.db.active[c] == Some(d.revisionId) && FullyVerified(s'.db, d)
  {
    hide RowsInv, RefsInv, PinsInv, DraftsInv, IntentInv, PcInv, Step, FullyVerified;
    if !UnwindStep(s, a, s') {
      ActiveFrame(s, a, s');
    } else {
      FinishActivation(s, a, s', c);
    }
  }

  // Every success was read.

  /** Step m of the run read target i of the deployment back as `observed`. */
  ghost predicate ReadAt(run: Run, m: nat, id: Id, i: nat, observed: Document)
    requires |run.states| == |run.actions| + 1
  {
    m < |run.actions| && run.actions[m] == ReadBack(Some(observed)) && run.states[m].pc == Reading(id, i)
  }

  lemma CounterVerified(s: Sys, a: Action, s': Sys)
    requires Step(s, a, s') && s'.pc.Verified?
    ensures s'.pc == s.pc || (s.pc == Reading(s'.pc.id, s'.pc.i) && a == ReadBack(Some(s'.pc.observed)))
  {
    hide PrepareStep, TaskStep, UnwindStep, StopStep, OtherStep;
    if TaskStep(s, a, s') {
      TaskVerified(s, a, s');
    } else if OtherStep(s, a, s') {
      OtherCounter(s, a, s');
    } else {
      NotVerified(s, a, s');
    }
  }

  lemma TaskVerified(s: Sys, a: Action, s': Sys)
    requires TaskStep(s, a, s') && s'.pc.Verified?
    ensures s'.pc == s.pc || (s.pc == Reading(s'.pc.id, s'.pc.i) && a == ReadBack(Some(s'.pc.observed)))
  {
    hide ReadBackClean, WantsDhcp, Intent;
  }

  lemma OtherCounter(s: Sys, a: Action, s': Sys)
    requires OtherStep(s, a, s')
    ensures s'.pc == s.pc
  {
    hide CanCreate, NewDeployment, IsMaxNumber;
  }

  lemma NotVerified(s: Sys, a: Action, s': Sys)
    requires PrepareStep(s, a, s') || UnwindStep(s, a, s') || StopStep(s, a, s')
    ensures !s'.pc.Verified?
  {
    hide Effective, Intent;
  }

  lemma {:induction false} VerifiedWasRead(run: Run, k: nat) returns (m: nat)
    requires IsRun(run) && k < |run.states| && run.states[k].pc.Verified?
    ensures m < k && ReadAt(run, m, run.states[k].pc.id, run.states[k].pc.i, run.states[k].pc.observed)
  {
    hide Step;
    assert k > 0;
    assert StepAt(run, k - 1);
    CounterVerified(run.states[k - 1], run.actions[k - 1], run.states[k]);
    if run.states[k].pc == run.states[k - 1].pc {
      m := VerifiedWasRead(run, k - 1);
    } else {
      m := k - 1;
    }
  }

  ghost predicate SucceededAs(db: Db, id: Id, i: nat, observed: Document) {
    && id in db.deployments && i < |db.deployments[id].tasks|
    && db.deployments[id].tasks[i].status == TaskSucceeded && db.deployments[id].tasks[i].snapshot == Some(observed)
  }

  lemma SuccessStep(s: Sys, a: Action, s': Sys, id: Id, i: nat, observed: Document)
    requires Inv(s) && Step(s, a, s') && SucceededAs(s'.db, id, i, observed)
    ensures SucceededAs(s.db, id, i, observed) || s.pc == Verified(id, i, observed)
  {
    hide RowsInv, PcInv, RefsInv, IntentInv, PinsInv, DraftsInv, TaskStep, PrepareStep, UnwindStep, StopStep, OtherStep;
    if OtherStep(s, a, s') {
      OtherSuccess(s, a, s', id, i, observed);
    } else if a.RecordSuccess? {
      hide ExecutorStep;
      RecordIsTaskStep(s, a, s');
      RecordedSuccess(s, a, s', id, i, observed);
    } else {
      hide ExecutorStep;
      ExecutorEvolves(s, a, s');
    }
  }

  lemma RecordedSuccess(s: Sys, a: Action, s': Sys, id: Id, i: nat, observed: Document)
    requires TaskStep(s, a, s') && a.RecordSuccess? && SucceededAs(s'.db, id, i, observed)
    ensures SucceededAs(s.db, id, i, observed) || s.pc == Verified(id, i, observed)
  {
    hide ReadBackClean, WantsDhcp, Intent;
  }

  lemma OtherSuccess(s: Sys, a: Action, s': Sys, id: Id, i: nat, observed: Document)
    requires OtherStep(s, a, s') && SucceededAs(s'.db, id, i, observed)
    ensures SucceededAs(s.db, id, i, observed)
  {
    hide CanCreate, NewDeployment, IsMaxNumber;
    if a.Create? {
      NewDeploymentPending(s.db, a.request, a.deployment);
    }
  }

  lemma NewDeploymentPending(db: Db, request: Request, id: Id)
    requires CanCreate(db, id, request)
    ensures forall i :: 0 <= i < |NewDeployment(db, request).tasks| ==> NewDeployment(db, request).tasks[i].status == Pending
  {
    hide Plan, PlannedHash, DistinctListing, OverridesValid, ClusterBusy;
  }

  /** Every recorded success goes back to a read-back of that very target that returned the stored snapshot. */
  lemma {:induction false} SuccessWasRead(run: Run, k: nat, id: Id, i: nat, observed: Document) returns (m: nat)
    requires IsRun(run) && k < |run.states| && SucceededAs(run.states[k].db, id, i, observed)
    ensures m < k && ReadAt(run, m, id, i, observed)
  {
    hide Step, Inv;
    assert k > 0;
    assert StepAt(run, k - 1);
    Reachable(run, k - 1);
    SuccessStep(run.states[k - 1], run.actions[k - 1], run.states[k], id, i, observed);
    if SucceededAs(run.states[k - 1].db, id, i, observed) {
      m := SuccessWasRead(run, k - 1, id, i, observed);
    } else {
      m := VerifiedWasRead(run, k - 1);
    }
  }

  /** The active revision of a cluster changes only when a manual or rollback deployment finishes after every
      target was read back clean, by an earlier step of the run, and then every target carries the new active
      revision. */
  lemma ActivationOnlyVerified(run: Run, k: nat, c: Id)
    requires IsRun(run) && k < |run.actions|
    requires c in run.states[k].db.active && c in run.states[k + 1].db.active
    requires run.states[k + 1].db.active[c] != run.states[k].db.active[c]
    ensures run.actions[k].Finish? && Holds(run.states[k].pc) && run.states[k].pc.id in run.states[k + 1].db.deployments
    ensures var d := run.states[k + 1].db.deployments[run.states[k].pc.id];
            && d.clusterId == c && d.origin != Reconciliation && d.status == Succeeded
            && run.states[k + 1].db.active[c] == Some(d.revisionId) && FullyVerified(run.states[k + 1].db, d)
            && forall i :: 0 <= i < |d.tasks| ==>
                 d.tasks[i].snapshot.Some? && WasRead(run, k, run.states[k].pc.id, i, d.tasks[i].snapshot.value)
  {
    hide Inv, Step, FullyVerified;
    Reachable(run, k);
    assert StepAt(run, k);
    ActivationStep(run.states[k], run.actions[k], run.states[k + 1], c);
    var id := run.states[k].pc.id;
    var d := run.states[k + 1].db.deployments[id];
    forall i | 0 <= i < |d.tasks|
      ensures d.tasks[i].snapshot.Some? && WasRead(run, k, id, i, d.tasks[i].snapshot.value)
    {
      VerifiedSnapshot(run.states[k + 1].db, id, i);
      var m := SuccessWasRead(run, k + 1, id, i, d.tasks[i].snapshot.value);
      assert m != k;
    }
  }

  ghost predicate WasRead(run: Run, k: nat, id: Id, i: nat, observed: Document)
    requires |run.states| == |run.actions| + 1
  {
    exists m :: 0 <= m < k && ReadAt(run, m, id, i, observed)
  }

  lemma VerifiedSnapshot(db: Db, id: Id, i: nat)
    requires id in db.deployments && FullyVerified(db, db.deployments[id]) && i < |db.deployments[id].tasks|
    ensures db.deployments[id].tasks[i].snapshot.Some?
    ensures SucceededAs(db, id, i, db.deployments[id].tasks[i].snapshot.value)
  {
    hide ReadBackClean;
  }

  /** A node's applied hash is the hash of its applied revision's effective configuration. */
  lemma AppliedHashExact(run: Run, k: nat, n: Id)
    requires IsRun(run) && k < |run.states|
    requires n in run.states[k].db.nodes && run.states[k].db.nodes[n].applied.Some?
    ensures var db := run.states[k].db;
            var r := db.nodes[n].applied.value;
            r in db.revisions && HashFor(db.revisions[r].document, n, db.nodes[n].appliedHash)
  {
    hide HashFor;
    Reachable(run, k);
    assert NodePin(run.states[k].db, n);
  }

  // Retention.

  lemma {:induction false} PinnedInRun(run: Run, j: nat, k: nat, r: Id)
    requires IsRun(run) && j <= k < |run.states| && Pinned(run.states[j].db, r)
    ensures Pinned(run.states[k].db, r) && run.states[k].db.revisions[r] == run.states[j].db.revisions[r]
  {
    hide Step, Init;
    if j < k {
      PinnedInRun(run, j, k - 1, r);
      assert StepAt(run, k - 1);
      PinnedForever(run.states[k - 1], run.actions[k - 1], run.states[k], r);
    }
  }

  /** A revision that was active on a cluster or applied on a node at any time is kept, unchanged, for good. */
  lemma OnceUsedNeverDeleted(run: Run, j: nat, k: nat, r: Id)
    requires IsRun(run) && j <= k < |run.states|
    requires var db := run.states[j].db;
             || (exists c :: c in db.active && db.active[c] == Some(r))
             || (exists n :: n in db.nodes && db.nodes[n].applied == Some(r))
    ensures r in run.states[j].db.revisions && r in run.states[k].db.revisions
    ensures run.states[k].db.revisions[r] == run.states[j].db.revisions[r]
    ensures !CanDeleteRevision(run.states[k].db, r)
  {
    hide HashFor;
    Reachable(run, j);
    var db := run.states[j].db;
    if c :| c in db.active && db.active[c] == Some(r) {
      assert ClusterPin(db, c);
    } else {
      var n :| n in db.nodes && db.nodes[n].applied == Some(r);
      assert NodePin(db, n);
    }
    PinnedInRun(run, j, k, r);
  }

  // Revision numbers.

  /** The base of cluster c's draft has at least this number. */
  ghost predicate BaseAtLeast(db: Db, c: Id, number: int) {
    && c in db.drafts && db.drafts[c].base.Some? && db.drafts[c].base.value in db.revisions
    && db.revisions[db.drafts[c].base.value].clusterId == c
    && number <= db.revisions[db.drafts[c].base.value].number
  }

  lemma BaseStep(s: Sys, a: Action, s': Sys, c: Id, number: int)
    requires DraftsInv(s) && Step(s, a, s') && BaseAtLeast(s.db, c, number)
    ensures BaseAtLeast(s'.db, c, number)
  {
    hide ExecutorStep, CanCreate, NewDeployment;
    if ExecutorStep(s, a, s') {
      ExecutorEvolves(s, a, s');
    } else if a.FinishImport? {
      assert ReadInv(s.db, a.read);
    } else if a.Publish? && a.cluster == c {
      assert IsMaxNumber(s.db, c, a.number - 1);
    }
  }

  lemma {:induction false} BaseInRun(run: Run, j: nat, k: nat, c: Id, number: int)
    requires IsRun(run) && j <= k < |run.states| && BaseAtLeast(run.states[j].db, c, number)
    ensures BaseAtLeast(run.states[k].db, c, number)
  {
    hide Step, Init, BaseAtLeast, DraftsInv;
    if j < k {
      BaseInRun(run, j, k - 1, c, number);
      Reachable(run, k - 1);
      assert StepAt(run, k - 1);
      BaseStep(run.states[k - 1], run.actions[k - 1], run.states[k], c, number);
    }
  }

  /** A revision published at any time gets a higher number than every revision its cluster ever had before,
      deleted ones included. */
  lemma NumbersNeverReused(run: Run, j: nat, k: nat, r: Id)
    requires IsRun(run) && j <= k < |run.actions| && run.actions[k].Publish?
    requires r in run.states[j].db.revisions && run.states[j].db.revisions[r].clusterId == run.actions[k].cluster
    ensures run.actions[k].revision in run.states[k + 1].db.revisions
    ensures var published := run.states[k + 1].db.revisions[run.actions[k].revision];
            published.clusterId == run.actions[k].cluster && run.states[j].db.revisions[r].number < published.number
  {
    hide Init, RowsInv, PcInv, RefsInv, IntentInv, PinsInv, ExecutorStep;
    Reachable(run, j);
    assert BaseIsHighest(run.states[j].db, r);
    BaseInRun(run, j, k, run.actions[k].cluster, run.states[j].db.revisions[r].number);
    assert StepAt(run, k);
    PublishIsOther(run.states[k], run.actions[k], run.states[k + 1]);
  }

  lemma PublishIsOther(s: Sys, a: Action, s': Sys)
    requires Step(s, a, s') && a.Publish?
    ensures OtherStep(s, a, s')
  {
  }
}
