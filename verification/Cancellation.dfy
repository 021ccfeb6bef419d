/** What a stored cancel request guarantees. */
module Cancellation {
  import opened Text
  import opened Configuration
  import opened Preview
  import opened Protocol
  import opened Invariant
  import opened Retention
  import opened Runs

  ghost predicate CancelStored(db: Db, id: Id) {
    id in db.deployments && db.deployments[id].cancelRequested
  }

  /** Some task of the deployment goes from another status to applying. */
  ghost predicate EntersApplying(db: Db, db': Db, id: Id) {
    && id in db.deployments && id in db'.deployments
    && exists i :: 0 <= i < |db.deployments[id].tasks| && i < |db'.deployments[id].tasks|
         && db.deployments[id].tasks[i].status != Applying && db'.deployments[id].tasks[i].status == Applying
  }

  /** The number of steps from state `from` on in which a node of the deployment enters applying. */
  ghost function Entries(run: Run, id: Id, from: nat): nat
    requires |run.states| == |run.actions| + 1 && from <= |run.actions|
    decreases |run.actions| - from
  {
    if from == |run.actions| then 0
    else (if EntersApplying(run.states[from].db, run.states[from + 1].db, id) then 1 else 0) + Entries(run, id, from + 1)
  }

  /** One entry is still possible exactly while the executor is past its boundary check. */
  function Allowance(s: Sys, id: Id): nat {
    if s.pc.Entering? && s.pc.id == id then 1 else 0
  }

  lemma EntryExecutor(s: Sys, a: Action, s': Sys, id: Id)
    requires PcInv(s) && ExecutorStep(s, a, s') && id in s.db.deployments && EntersApplying(s.db, s'.db, id)
    ensures a.EnterTask? && s.pc.Entering? && s.pc.id == id && s'.pc.Configuring?
  {
    hide PrepareStep, TaskStep, UnwindStep, StopStep, PcInv;
    if TaskStep(s, a, s') {
      EntryTask(s, a, s', id);
    } else if UnwindStep(s, a, s') {
      NoEntryUnwind(s, a, s', id);
    } else if PrepareStep(s, a, s') {
      NoEntryPrepare(s, a, s', id);
    } else {
      NoEntryStop(s, a, s', id);
    }
  }

  lemma EntryTask(s: Sys, a: Action, s': Sys, id: Id)
    requires TaskStep(s, a, s') && EntersApplying(s.db, s'.db, id)
    ensures a.EnterTask? && s.pc.Entering? && s.pc.id == id && s'.pc.Configuring?
  {
    hide ReadBackClean, WantsDhcp, Intent;
  }

  lemma NoEntryUnwind(s: Sys, a: Action, s': Sys, id: Id)
    requires UnwindStep(s, a, s')
    ensures !EntersApplying(s.db, s'.db, id)
  {
  }

  lemma NoEntryPrepare(s: Sys, a: Action, s': Sys, id: Id)
    requires PrepareStep(s, a, s')
    ensures !EntersApplying(s.db, s'.db, id)
  {
    hide Effective, Intent;
  }

  lemma NoEntryStop(s: Sys, a: Action, s': Sys, id: Id)
    requires StopStep(s, a, s')
    ensures !EntersApplying(s.db, s'.db, id)
  {
  }

  lemma NoEntryOther(s: Sys, a: Action, s': Sys, id: Id)
    requires OtherStep(s, a, s')
    ensures !EntersApplying(s.db, s'.db, id)
  {
    hide CanCreate, NewDeployment, IsMaxNumber;
    if a.Create? {
      NewDeploymentRevision(s.db, a.request, a.deployment);
    }
  }

  lemma CancelStays(s: Sys, a: Action, s': Sys, id: Id)
    requires RowsInv(s.db) && Step(s, a, s') && CancelStored(s.db, id)
    ensures CancelStored(s'.db, id)
  {
    hide ExecutorStep, OtherStep, RowInv;
    if ExecutorStep(s, a, s') {
      CancelKeptByExecutor(s, a, s', id);
    } else {
      CancelKeptByOther(s, a, s', id);
    }
  }

  lemma CancelKeptByOther(s: Sys, a: Action, s': Sys, id: Id)
    requires OtherStep(s, a, s') && RowsInv(s.db) && CancelStored(s.db, id)
    ensures CancelStored(s'.db, id)
  {
    hide CanCreate, NewDeployment, IsMaxNumber, RowsInv, RowInv;
    NotQueued(s.db, id);
    if a.Create? {
      NewDeploymentRevision(s.db, a.request, a.deployment);
    }
  }

  lemma NotQueued(db: Db, id: Id)
    requires RowsInv(db) && CancelStored(db, id)
    ensures db.deployments[id].status != Queued
  {
    assert RowInv(db.deployments[id]);
  }

  lemma CancelKeptByExecutor(s: Sys, a: Action, s': Sys, id: Id)
    requires ExecutorStep(s, a, s') && CancelStored(s.db, id)
    ensures CancelStored(s'.db, id)
  {
    hide TaskStep, UnwindStep, Effective, Intent;
    if TaskStep(s, a, s') {
      CancelKeptByTask(s, a, s', id);
    } else if UnwindStep(s, a, s') {
      CancelKeptByUnwind(s, a, s', id);
    }
  }

  lemma CancelKeptByTask(s: Sys, a: Action, s': Sys, id: Id)
    requires TaskStep(s, a, s') && CancelStored(s.db, id)
    ensures CancelStored(s'.db, id)
  {
    hide ReadBackClean, WantsDhcp, Intent;
  }

  lemma CancelKeptByUnwind(s: Sys, a: Action, s': Sys, id: Id)
    requires UnwindStep(s, a, s') && CancelStored(s.db, id)
    ensures CancelStored(s'.db, id)
  {
  }

  /** With the request stored, the boundary check never lets the executor in again. */
  lemma NoNewAllowance(s: Sys, a: Action, s': Sys, id: Id)
    requires Step(s, a, s') && CancelStored(s.db, id)
    ensures Allowance(s', id) <= Allowance(s, id)
  {
    hide PrepareStep, TaskStep, UnwindStep, StopStep, OtherStep, CancelStored;
    if TaskStep(s, a, s') {
      NotLetIn(s, a, s', id);
    } else if OtherStep(s, a, s') {
      CounterKept(s, a, s');
    } else {
      NotAtEntry(s, a, s');
    }
  }

  lemma NotLetIn(s: Sys, a: Action, s': Sys, id: Id)
    requires TaskStep(s, a, s') && CancelStored(s.db, id)
    ensures Allowance(s', id) <= Allowance(s, id)
  {
    hide ReadBackClean, WantsDhcp, Intent;
  }

  lemma CounterKept(s: Sys, a: Action, s': Sys)
    requires OtherStep(s, a, s')
    ensures s'.pc == s.pc
  {
    hide CanCreate, NewDeployment, IsMaxNumber;
  }

  lemma NotAtEntry(s: Sys, a: Action, s': Sys)
    requires PrepareStep(s, a, s') || UnwindStep(s, a, s') || StopStep(s, a, s')
    ensures !s'.pc.Entering?
  {
    hide Effective, Intent;
  }

  lemma AllowancePays(s: Sys, a: Action, s': Sys, id: Id)
    requires Inv(s) && Step(s, a, s') && CancelStored(s.db, id)
    ensures (if EntersApplying(s.db, s'.db, id) then 1 else 0) + Allowance(s', id) <= Allowance(s, id)
  {
    hide Step, ExecutorStep, OtherStep, Inv, EntersApplying;
    NoNewAllowance(s, a, s', id);
    if EntersApplying(s.db, s'.db, id) {
      StepKinds(s, a, s');
      if OtherStep(s, a, s') {
        NoEntryOther(s, a, s', id);
      } else {
        InvParts(s);
        EntryExecutor(s, a, s', id);
      }
    }
  }

  lemma StepKinds(s: Sys, a: Action, s': Sys)
    requires Step(s, a, s')
    ensures ExecutorStep(s, a, s') || OtherStep(s, a, s')
  {
    hide ExecutorStep, OtherStep;
  }

  lemma InvParts(s: Sys)
    requires Inv(s)
    ensures RowsInv(s.db) && PcInv(s)
  {
    hide RowsInv, PcInv, RefsInv, IntentInv, PinsInv, DraftsInv;
  }

  lemma {:induction false} EntriesPaid(run: Run, id: Id, from: nat)
    requires IsRun(run) && from <= |run.actions| && CancelStored(run.states[from].db, id)
    ensures Entries(run, id, from) <= Allowance(run.states[from], id)
    decreases |run.actions| - from
  {
    hide Step, Inv, Init, EntersApplying, CancelStored;
    if from < |run.actions| {
      Reachable(run, from);
      assert StepAt(run, from);
      InvParts(run.states[from]);
      AllowancePays(run.states[from], run.actions[from], run.states[from + 1], id);
      CancelStays(run.states[from], run.actions[from], run.states[from + 1], id);
      EntriesPaid(run, id, from + 1);
    }
  }

  /** After a cancel request is stored at most one more node of the deployment enters applying, in any interleaving. */
  lemma AtMostOneMoreNode(run: Run, id: Id, from: nat)
    requires IsRun(run) && from <= |run.actions| && CancelStored(run.states[from].db, id)
    ensures Entries(run, id, from) <= 1
  {
    EntriesPaid(run, id, from);
  }

  /** A committed cancel request is stored. */
  lemma CancelStores(s: Sys, a: Action, s': Sys)
    requires Step(s, a, s') && a.Cancel?
    ensures a.deployment in s.db.deployments && CancelStored(s'.db, a.deployment) && s'.pc == s.pc
    ensures !Terminal(s.db.deployments[a.deployment].status)
  {
    hide PrepareStep, TaskStep, UnwindStep, CanCreate, NewDeployment, IsMaxNumber;
    CancelIsOther(s, a, s');
  }

  lemma CancelIsOther(s: Sys, a: Action, s': Sys)
    requires Step(s, a, s') && a.Cancel?
    ensures OtherStep(s, a, s')
  {
    hide OtherStep, Intent, Effective;
  }

  lemma {:induction false} CancelInRun(run: Run, k: nat, j: nat, id: Id)
    requires IsRun(run) && k <= j < |run.states| && CancelStored(run.states[k].db, id)
    ensures CancelStored(run.states[j].db, id)
  {
    hide Step, Inv, Init, CancelStored;
    if k < j {
      CancelInRun(run, k, j - 1, id);
      Reachable(run, j - 1);
      InvParts(run.states[j - 1]);
      assert StepAt(run, j - 1);
      CancelStays(run.states[j - 1], run.actions[j - 1], run.states[j], id);
    }
  }

  /** From the moment a cancel request commits, at most one more node of the deployment enters applying, and none if
      the deployment was still queued. */
  lemma CancelStopsEntries(run: Run, k: nat, id: Id)
    requires IsRun(run) && k < |run.actions| && run.actions[k] == Cancel(id)
    ensures id in run.states[k].db.deployments && CancelStored(run.states[k + 1].db, id)
    ensures Entries(run, id, k + 1) <= 1
    ensures run.states[k].db.deployments[id].status == Queued ==> Entries(run, id, k + 1) == 0
  {
    hide Step, Inv, Init, CancelStored;
    assert StepAt(run, k);
    CancelStores(run.states[k], run.actions[k], run.states[k + 1]);
    EntriesPaid(run, id, k + 1);
    Reachable(run, k);
    InvParts(run.states[k]);
    HeldNotQueued(run.states[k]);
  }

  // Reaching the next boundary.

  /** The executor works on cancelling the deployment from target i on. */
  ghost predicate Stopping(s: Sys, id: Id, i: nat) {
    && CancelStored(s.db, id) && Open(s.db.deployments[id].status)
    && (s.pc == Boundary(id, i) || (s.pc.CancelSkipping? && s.pc.id == id && s.pc.i == i))
    && i < |s.db.deployments[id].tasks|
  }

  /** Cancelled: the targets before i done, every other one skipped. */
  ghost predicate Stopped(db: Db, id: Id, i: nat) {
    && id in db.deployments && db.deployments[id].status == Cancelled
    && Range(db.deployments[id].tasks, 0, i, TaskSucceeded)
    && Range(db.deployments[id].tasks, i, |db.deployments[id].tasks|, Skipped)
  }

  /** Executor steps left until the deployment is cancelled. */
  function Remaining(s: Sys): nat
    requires Holds(s.pc) && s.pc.id in s.db.deployments && (s.pc.Boundary? || s.pc.CancelSkipping?)
    requires (if s.pc.Boundary? then s.pc.i else s.pc.next) <= |Held(s).tasks|
  {
    if s.pc.Boundary? then |Held(s).tasks| - s.pc.i + 2 else |Held(s).tasks| - s.pc.next + 1
  }

  /** The executor moves on, without a failing repository call and without a crash. */
  predicate Progress(a: Action) {
    a.CheckBoundary? || a.SkipTask? || a.Finish?
  }

  lemma StoppingExecutor(s: Sys, a: Action, s': Sys, id: Id, i: nat)
    requires PcInv(s) && ExecutorStep(s, a, s') && Stopping(s, id, i) && !a.StopWithError? && !a.Crash?
    ensures s'.db.active == s.db.active && Progress(a)
    ensures if a.Finish? then Stopped(s'.db, id, i) && Remaining(s) == 1
            else Stopping(s', id, i) && s'.pc.CancelSkipping? && s'.pc.next <= |Held(s').tasks|
                 && Remaining(s') == Remaining(s) - 1
  {
    hide PrepareStep, TaskStep, UnwindStep, StopStep, Stopped, PcInv;
    StoppingKinds(s, a, s', id, i);
    if TaskStep(s, a, s') {
      StoppingAtBoundary(s, a, s', id, i);
    } else {
      StoppingUnwinds(s, a, s', id, i);
    }
  }

  lemma StoppingKinds(s: Sys, a: Action, s': Sys, id: Id, i: nat)
    requires ExecutorStep(s, a, s') && Stopping(s, id, i) && !a.StopWithError? && !a.Crash?
    ensures TaskStep(s, a, s') || UnwindStep(s, a, s')
  {
    hide TaskStep, UnwindStep, Effective, Intent;
  }

  lemma StoppingAtBoundary(s: Sys, a: Action, s': Sys, id: Id, i: nat)
    requires TaskStep(s, a, s') && Stopping(s, id, i)
    ensures a.CheckBoundary? && s'.db.active == s.db.active && Stopping(s', id, i) && s'.pc == CancelSkipping(id, i, i)
    ensures Remaining(s') == Remaining(s) - 1
  {
    hide ReadBackClean, WantsDhcp, Intent;
  }

  lemma StoppingUnwinds(s: Sys, a: Action, s': Sys, id: Id, i: nat)
    requires PcInv(s) && UnwindStep(s, a, s') && Stopping(s, id, i)
    ensures s'.db.active == s.db.active && Progress(a)
    ensures if a.Finish? then Stopped(s'.db, id, i) && Remaining(s) == 1
            else Stopping(s', id, i) && s'.pc.CancelSkipping? && s'.pc.next <= |Held(s').tasks|
                 && Remaining(s') == Remaining(s) - 1
  {
    hide TargetRow, PrepareRow;
  }

  lemma StoppingOther(s: Sys, a: Action, s': Sys, id: Id, i: nat)
    requires OtherStep(s, a, s') && Stopping(s, id, i)
    ensures Stopping(s', id, i) && s'.pc == s.pc
    ensures s'.db.deployments[id] == s.db.deployments[id] && s.db.active.Keys <= s'.db.active.Keys
    ensures forall c :: c in s.db.active ==> s'.db.active[c] == s.db.active[c]
  {
    hide CanCreate, NewDeployment, IsMaxNumber;
    if a.Create? {
      NewDeploymentRevision(s.db, a.request, a.deployment);
    }
  }

  /** How many of the steps between two states moved the executor on. */
  function Moves(actions: seq<Action>): nat {
    if actions == [] then 0
    else (if Progress(actions[|actions| - 1]) then 1 else 0) + Moves(actions[..|actions| - 1])
  }

  lemma MovesNext(actions: seq<Action>, j: nat, k: nat)
    requires j < k <= |actions|
    ensures Moves(actions[j..k]) == Moves(actions[j..k - 1]) + if Progress(actions[k - 1]) then 1 else 0
  {
    var part := actions[j..k];
    assert part[..|part| - 1] == actions[j..k - 1];
    assert part[|part| - 1] == actions[k - 1];
  }

  ghost predicate SameActive(db: Db, db': Db) {
    forall c :: c in db.active ==> c in db'.active && db'.active[c] == db.active[c]
  }

  /** Still on the way at state k: nothing active changed, and every executor step counted. */
  ghost predicate OnTheWay(run: Run, j: nat, k: nat, id: Id, i: nat)
    requires j <= k < |run.states| == |run.actions| + 1 && Stopping(run.states[j], id, i) && run.states[j].pc.Boundary?
  {
    && Stopping(run.states[k], id, i) && SameActive(run.states[j].db, run.states[k].db)
    && (run.states[k].pc.CancelSkipping? ==> run.states[k].pc.next <= |Held(run.states[k]).tasks|)
    && Remaining(run.states[k]) + Moves(run.actions[j..k]) == Remaining(run.states[j])
  }

  /** Cancelled at state m, after as many executor steps as were left at state j. */
  ghost predicate CancelledAt(run: Run, j: nat, m: nat, id: Id, i: nat)
    requires j <= m < |run.states| == |run.actions| + 1 && Stopping(run.states[j], id, i) && run.states[j].pc.Boundary?
  {
    && Stopped(run.states[m].db, id, i) && SameActive(run.states[j].db, run.states[m].db)
    && Moves(run.actions[j..m]) == Remaining(run.states[j])
  }

  lemma OnTheWayStep(run: Run, j: nat, k: nat, id: Id, i: nat)
    requires IsRun(run) && j < k < |run.states| && Stopping(run.states[j], id, i) && run.states[j].pc.Boundary?
    requires OnTheWay(run, j, k - 1, id, i) && !run.actions[k - 1].StopWithError? && !run.actions[k - 1].Crash?
    ensures OnTheWay(run, j, k, id, i) || CancelledAt(run, j, k, id, i)
  {
    hide Step, Inv, Init, ExecutorStep, OtherStep, Stopped, Moves;
    var s, a, s' := run.states[k - 1], run.actions[k - 1], run.states[k];
    RunParts(run, k - 1);
    MovesNext(run.actions, j, k);
    if ExecutorStep(s, a, s') {
      StoppingExecutor(s, a, s', id, i);
    } else {
      StoppingOther(s, a, s', id, i);
      NoMove(s, a, s');
    }
  }

  lemma RunParts(run: Run, k: nat)
    requires IsRun(run) && k < |run.actions|
    ensures var s, a, s' := run.states[k], run.actions[k], run.states[k + 1];
            PcInv(s) && (ExecutorStep(s, a, s') || OtherStep(s, a, s'))
  {
    hide Step, Inv, Init, ExecutorStep, OtherStep;
    Reachable(run, k);
    InvParts(run.states[k]);
    assert StepAt(run, k);
    StepKinds(run.states[k], run.actions[k], run.states[k + 1]);
  }

  /** Once at a node boundary with the request stored, and with repository calls succeeding, the deployment is
      cancelled after exactly as many executor steps as there are targets left plus two, with the targets before
      the boundary succeeded, all others skipped, and no active revision changed on the way. */
  lemma {:induction false} BoundaryCancels(run: Run, j: nat, k: nat, id: Id, i: nat)
    requires IsRun(run) && j <= k < |run.states|
    requires run.states[j].pc == Boundary(id, i) && Stopping(run.states[j], id, i)
    requires forall m :: j <= m < k ==> !run.actions[m].StopWithError? && !run.actions[m].Crash?
    ensures OnTheWay(run, j, k, id, i) || exists m :: j < m <= k && CancelledAt(run, j, m, id, i)
  {
    if j < k {
      hide Step, Inv, Init, Stopping, OnTheWay, CancelledAt;
      BoundaryCancels(run, j, k - 1, id, i);
      if OnTheWay(run, j, k - 1, id, i) {
        OnTheWayStep(run, j, k, id, i);
      }
    } else {
      hide Step, Inv, Init;
      assert run.actions[j..k] == [];
    }
  }

  lemma NoMove(s: Sys, a: Action, s': Sys)
    requires OtherStep(s, a, s')
    ensures !Progress(a)
  {
    hide CanCreate, NewDeployment, IsMaxNumber;
  }

  /** A cancel request that committed, and a later node boundary of its deployment: with repository calls succeeding from
      there, the deployment is cancelled after exactly the steps left, with nothing more entered. */
  lemma CancelRequestStops(run: Run, c: nat, j: nat, k: nat, id: Id, i: nat)
    requires IsRun(run) && c < j <= k < |run.states| && run.actions[c] == Cancel(id)
    requires run.states[j].pc == Boundary(id, i) && id in run.states[j].db.deployments
    requires i < |run.states[j].db.deployments[id].tasks|
    requires forall m :: j <= m < k ==> !run.actions[m].StopWithError? && !run.actions[m].Crash?
    ensures Stopping(run.states[j], id, i)
    ensures OnTheWay(run, j, k, id, i) || exists m :: j < m <= k && CancelledAt(run, j, m, id, i)
  {
    hide Step, Inv, Init, OnTheWay, CancelledAt;
    assert StepAt(run, c);
    CancelStores(run.states[c], run.actions[c], run.states[c + 1]);
    CancelInRun(run, c + 1, j, id);
    Reachable(run, j);
    InvParts(run.states[j]);
    HeldNotQueued(run.states[j]);
    BoundaryCancels(run, j, k, id, i);
  }
}
