/** How often a target is entered: the counters of the task rows over every run. */
module Attempts {
  import opened Text
  import opened Configuration
  import opened Diff
  import opened Preview
  import opened Protocol
  import opened Invariant
  import opened Retention
  import opened Runs

  /** A task was entered once, or it is pending or skipped and was never entered. */
  predicate Counted(t: Task) {
    if t.status == Pending || t.status == Skipped then t.attempts == 0 && !t.started else t.attempts == 1 && t.started
  }

  /** Nothing but a claim takes a deployment past the queue; a cancellation or a restart may come first. */
  ghost predicate Booked(d: Deployment) {
    && (d.status != Queued && d.status != Cancelling && d.status != Interrupted ==> d.started)
    && forall i :: 0 <= i < |d.tasks| ==> Counted(d.tasks[i])
  }

  ghost predicate Books(s: Sys) {
    && (forall id :: id in s.db.deployments ==> Booked(s.db.deployments[id]))
    && (Holds(s.pc) && s.pc.id in s.db.deployments ==> Held(s).started)
  }

  /** A claim marks the row as started; a start finds it so. */
  lemma BookedRow(d: Deployment, status: DeploymentStatus)
    requires Booked(d)
    ensures Booked(d.(status := status, started := true))
  {
    hide Counted;
  }

  lemma BooksPrepare(s: Sys, a: Action, s': Sys)
    requires Books(s) && PrepareStep(s, a, s')
    ensures Books(s')
  {
    hide Effective, Intent, Booked;
    if a.Claim? {
      BookedRow(s.db.deployments[a.claimed], s'.db.deployments[a.claimed].status);
    } else {
      BookedRow(Held(s), Running);
      assert Held(s) == Held(s).(started := true);
    }
  }

  lemma BooksTask(s: Sys, a: Action, s': Sys)
    requires Books(s) && PcInv(s) && TaskStep(s, a, s')
    ensures Books(s')
  {
    hide ReadBackClean, WantsDhcp, Intent, AppliedUpTo, Range;
    assert Booked(Held(s));
  }

  lemma BooksUnwind(s: Sys, a: Action, s': Sys)
    requires Books(s) && PcInv(s) && UnwindStep(s, a, s')
    ensures Books(s')
  {
    hide ConcludeDrifts, AppliedUpTo, ReadBackClean, Intent;
    assert Booked(Held(s));
  }

  lemma BooksStop(s: Sys, a: Action, s': Sys)
    requires Books(s) && StopStep(s, a, s')
    ensures Books(s')
  {
    forall id | id in s'.db.deployments
      ensures Booked(s'.db.deployments[id])
    {
      assert Booked(s.db.deployments[id]);
    }
  }

  lemma BooksOther(s: Sys, a: Action, s': Sys)
    requires Books(s) && Inv(s) && OtherStep(s, a, s')
    ensures Books(s')
  {
    hide CanCreate, NewDeployment, IsMaxNumber, ResolveDrifts, Counted, IntentInv, PinsInv, DraftsInv, RowsInv;
    if a.Create? {
      NewBooked(s.db, a.deployment, a.request);
    }
  }

  lemma NewBooked(db: Db, id: Id, request: Request)
    requires CanCreate(db, id, request)
    ensures id !in db.deployments && request.revisionId in db.revisions && Booked(NewDeployment(db, request))
  {
    hide Plan, PlannedHash;
  }

  lemma BooksStep(s: Sys, a: Action, s': Sys)
    requires Books(s) && Inv(s) && Step(s, a, s')
    ensures Books(s')
  {
    hide Books, PrepareStep, TaskStep, UnwindStep, StopStep, OtherStep, IntentInv, PinsInv, DraftsInv, RowsInv, PcInv;
    if PrepareStep(s, a, s') {
      BooksPrepare(s, a, s');
    } else if TaskStep(s, a, s') {
      BooksTask(s, a, s');
    } else if UnwindStep(s, a, s') {
      BooksUnwind(s, a, s');
    } else if StopStep(s, a, s') {
      BooksStop(s, a, s');
    } else {
      BooksOther(s, a, s');
    }
  }

  lemma {:induction false} BooksReachable(run: Run, k: nat)
    requires IsRun(run) && k < |run.states|
    ensures Books(run.states[k])
  {
    if k > 0 {
      hide Step, Books, Inv, Init;
      BooksReachable(run, k - 1);
      Reachable(run, k - 1);
      assert StepAt(run, k - 1);
      BooksStep(run.states[k - 1], run.actions[k - 1], run.states[k]);
    }
  }

  /** In every reachable state a task that is neither pending nor skipped was entered exactly once, the others never;
      and a deployment that ran or ended, unless a restart ended it, was claimed. */
  lemma EnteredOnce(run: Run, k: nat, id: Id, i: nat)
    requires IsRun(run) && k < |run.states| && id in run.states[k].db.deployments
    requires i < |run.states[k].db.deployments[id].tasks|
    ensures var d := run.states[k].db.deployments[id];
            && (d.status != Queued && d.status != Cancelling && d.status != Interrupted ==> d.started)
            && d.tasks[i].attempts == (if d.tasks[i].status == Pending || d.tasks[i].status == Skipped then 0 else 1)
            && (d.tasks[i].started <==> d.tasks[i].attempts > 0)
  {
    BooksReachable(run, k);
    assert Booked(run.states[k].db.deployments[id]);
  }
}
