/** Exactly when a hand-over of the DHCP role can end with two servers: the source does not check that the targets
    include every running node. */
module HandoffLimits {
  import opened Text
  import opened Configuration
  import opened Diff
  import opened Preview
  import opened Protocol
  import opened Invariant
  import opened Retention
  import opened Runs
  import opened Handoff
  import opened Executors
  import ReadBack

  ghost predicate IsTarget(d: Deployment, n: Id) {
    exists i :: 0 <= i < |d.tasks| && d.tasks[i].nodeId == n
  }

  /** A running node of the cluster that the deployment does not touch. */
  ghost predicate RunsOutside(s: Sys, c: Id, d: Deployment, n: Id) {
    RunsIn(s, c, n) && !IsTarget(d, n)
  }

  /** The last target is to run DHCP while an untouched node of the cluster runs it, and no cancel is stored. */
  ghost predicate Uncovered(s: Sys, c: Id)
    requires HeldExists(s)
  {
    && !Held(s).cancelRequested
    && |Held(s).tasks| > 0 && WantsDhcp(Intent(s), Held(s).tasks[|Held(s).tasks| - 1].nodeId)
    && exists n :: RunsOutside(s, c, Held(s), n)
  }

  /** Switching a target on while another node of its cluster runs gives two servers. */
  lemma SecondServer(s: Sys, s': Sys, c: Id, other: Id)
    requires RefsInv(s.db) && TaskStep(s, WriteDhcp, s') && Held(s).clusterId == c
    requires WantsDhcp(Intent(s), CurrentTask(s).nodeId) && RunsIn(s, c, other) && other != CurrentTask(s).nodeId
    ensures !AtMostOne(s', c)
  {
    hide ReadBackClean, WantsDhcp, HashFor;
    assert RowRefs(s.db, Held(s));
    assert RunsIn(s', c, other) && RunsIn(s', c, CurrentTask(s).nodeId);
  }

  // No second server: the targets cover the running nodes, or none is switched on, or nothing is entered any more.

  ghost predicate NoneWants(s: Sys)
    requires HeldExists(s)
  {
    forall i :: 0 <= i < |Held(s).tasks| ==> !WantsDhcp(Intent(s), Held(s).tasks[i].nodeId)
  }

  ghost predicate Halted(s: Sys)
    requires HeldExists(s)
  {
    s.pc.Boundary? && Held(s).cancelRequested
  }

  ghost predicate Harmless(s: Sys, c: Id) {
    AtMostOne(s, c) && Mutating(s.pc) && HeldExists(s) && (NoneWants(s) || Halted(s))
  }

  ghost predicate SafeInv(s: Sys, c: Id) {
    HandoffInv(s, c) || Harmless(s, c)
  }

  /** No step but switching a wanted target on adds a running node to a cluster. */
  lemma RunningShrinksTask(s: Sys, a: Action, s': Sys, c: Id)
    requires TaskStep(s, a, s') && (a.WriteDhcp? ==> !WantsDhcp(Intent(s), CurrentTask(s).nodeId))
    ensures forall n :: RunsIn(s', c, n) ==> RunsIn(s, c, n)
  {
    hide ReadBackClean, WantsDhcp;
  }

  lemma RunningShrinksOther(s: Sys, a: Action, s': Sys, c: Id)
    requires OtherStep(s, a, s') && Disciplined(s, a, c)
    ensures forall n :: RunsIn(s', c, n) ==> RunsIn(s, c, n)
  {
    hide CanCreate, NewDeployment, IsMaxNumber;
  }

  lemma HarmlessTask(s: Sys, a: Action, s': Sys, c: Id)
    requires Harmless(s, c) && TaskStep(s, a, s')
    ensures AtMostOne(s', c) && (Mutating(s'.pc) ==> Harmless(s', c))
  {
    HarmlessTaskKeeps(s, a, s');
    RunningShrinksTask(s, a, s', c);
  }

  lemma HarmlessTaskKeeps(s: Sys, a: Action, s': Sys)
    requires TaskStep(s, a, s') && Mutating(s.pc) && HeldExists(s) && (NoneWants(s) || Halted(s))
    ensures a.WriteDhcp? ==> !WantsDhcp(Intent(s), CurrentTask(s).nodeId)
    ensures Mutating(s'.pc) ==> HeldExists(s') && NoneWants(s')
  {
    hide ReadBackClean, WantsDhcp;
  }

  lemma HarmlessOther(s: Sys, a: Action, s': Sys, c: Id)
    requires Inv(s) && Harmless(s, c) && OtherStep(s, a, s') && Disciplined(s, a, c)
    ensures Harmless(s', c)
  {
    hide Inv, OtherStep, WantsDhcp, Disciplined;
    RunningShrinksOther(s, a, s', c);
    OthersUndisturbed(s, a, s');
  }

  /** Unwinding, stopping and preparing leave running nodes alone and enter no target; nothing else can follow here. */
  lemma HarmlessEnds(s: Sys, a: Action, s': Sys, c: Id)
    requires Harmless(s, c) && (PrepareStep(s, a, s') || UnwindStep(s, a, s') || StopStep(s, a, s'))
    ensures AtMostOne(s', c) && !Mutating(s'.pc)
  {
    hide Effective, Intent, WantsDhcp;
    assert forall n :: RunsIn(s', c, n) ==> RunsIn(s, c, n);
  }

  lemma SafeStep(s: Sys, a: Action, s': Sys, c: Id)
    requires Inv(s) && Step(s, a, s') && SafeInv(s, c) && Disciplined(s, a, c)
    ensures SafeInv(s', c)
  {
    hide Inv, PrepareStep, TaskStep, UnwindStep, StopStep, OtherStep, Disciplined, Harmless, AtMostOne;
    if HandoffInv(s, c) {
      HandoffStep(s, a, s', c);
    } else if TaskStep(s, a, s') {
      HarmlessTask(s, a, s', c);
    } else if OtherStep(s, a, s') {
      HarmlessOther(s, a, s', c);
    } else {
      HarmlessEnds(s, a, s', c);
    }
  }

  ghost predicate DisciplinedFrom(run: Run, j: nat, c: Id)
    requires |run.states| == |run.actions| + 1
  {
    forall m :: j <= m < |run.actions| ==> Disciplined(run.states[m], run.actions[m], c)
  }

  lemma {:induction false} SafeInRun(run: Run, j: nat, k: nat, c: Id)
    requires IsRun(run) && j <= k < |run.states| && SafeInv(run.states[j], c) && DisciplinedFrom(run, j, c)
    ensures SafeInv(run.states[k], c)
  {
    hide Inv, Step, Init, Disciplined, SafeInv;
    if j < k {
      SafeInRun(run, j, k - 1, c);
      Reachable(run, k - 1);
      assert StepAt(run, k - 1);
      SafeStep(run.states[k - 1], run.actions[k - 1], run.states[k], c);
    }
  }

  /** Before the first target, not uncovered means safe. */
  lemma StartsSafe(s: Sys, id: Id, c: Id)
    requires Inv(s) && s.pc == Boundary(id, 0) && HeldExists(s) && Held(s).clusterId == c && AtMostOne(s, c)
    requires !Uncovered(s, c)
    ensures SafeInv(s, c)
  {
    hide WantsDhcp, HashFor, ReadBackClean, RowsInv, PcInv, RefsInv, PinsInv, DraftsInv;
    assert RowIntent(Intent(s), Held(s));
    if !Held(s).cancelRequested && !NoneWants(s) {
      forall n | RunsIn(s, c, n)
        ensures exists i :: 0 <= i < |Held(s).tasks| && Held(s).tasks[i].nodeId == n
      {
        assert !RunsOutside(s, c, Held(s), n);
      }
    }
  }

  // Two servers: the executor works through the targets and switches the last one on.

  /** On the way to switching the last target on, with an untouched node running. */
  ghost predicate Course(s: Sys, c: Id, other: Id) {
    && Mutating(s.pc) && HeldExists(s) && Held(s).clusterId == c && !Held(s).cancelRequested
    && |Held(s).tasks| > 0 && WantsDhcp(Intent(s), Held(s).tasks[|Held(s).tasks| - 1].nodeId)
    && RunsOutside(s, c, Held(s), other) && AtMostOne(s, c)
  }

  /** The run was extended by disciplined steps only. */
  ghost predicate Continues(run: Run, longer: Run, c: Id) {
    && IsRun(longer) && longer.states != [] && Extends(run, longer)
    && |run.actions| <= |longer.actions| && DisciplinedFrom(longer, |run.actions|, c)
  }

  lemma Go(run: Run, sofar: Run, a: Action, s': Sys, c: Id) returns (longer: Run)
    requires |run.states| == |run.actions| + 1 && Continues(run, sofar, c)
    requires ExecutorStep(Last(sofar), a, s') && Disciplined(Last(sofar), a, c)
    ensures Continues(run, longer, c) && Last(longer) == s'
  {
    hide Step, Init, Disciplined, ExecutorStep;
    longer := Extended(sofar, a, s');
    assert Step(Last(sofar), a, s') by {
      ExecutorIsStep(Last(sofar), a, s');
    }
    ExtendedIsRun(sofar, a, s');
  }

  lemma ExecutorIsStep(s: Sys, a: Action, s': Sys)
    requires ExecutorStep(s, a, s')
    ensures Step(s, a, s')
  {
    hide ExecutorStep, OtherStep;
  }

  /** A target step that writes no DHCP state stays on course. */
  lemma CourseKept(s: Sys, a: Action, s': Sys, c: Id, other: Id)
    requires Course(s, c, other) && TaskStep(s, a, s') && !a.WriteDhcp? && Mutating(s'.pc)
    ensures Course(s', c, other) && s'.pc.id == s.pc.id && |Held(s').tasks| == |Held(s).tasks|
  {
    hide WantsDhcp, TaskStep;
    TaskEvolves(s, a, s');
    TaskKept(s, a, s');
    forall n
      ensures RunsIn(s', c, n) <==> RunsIn(s, c, n)
    {
    }
    assert RowEvolves(Held(s), Held(s'));
  }

  lemma TaskKept(s: Sys, a: Action, s': Sys)
    requires TaskStep(s, a, s') && !a.WriteDhcp?
    ensures s'.dhcp == s.dhcp && Holds(s'.pc) && s'.pc.id == s.pc.id && HeldExists(s')
    ensures Held(s').cancelRequested == Held(s).cancelRequested && Intent(s') == Intent(s)
  {
    hide ReadBackClean, WantsDhcp;
  }

  lemma StepOn(run: Run, sofar: Run, a: Action, s': Sys, c: Id, other: Id) returns (longer: Run)
    requires |run.states| == |run.actions| + 1 && Continues(run, sofar, c) && Course(Last(sofar), c, other)
    requires TaskStep(Last(sofar), a, s') && !a.WriteDhcp? && Mutating(s'.pc) && Disciplined(Last(sofar), a, c)
    ensures Continues(run, longer, c) && Last(longer) == s' && Course(s', c, other)
    ensures s'.pc.id == Last(sofar).pc.id && |Held(s').tasks| == |Held(Last(sofar)).tasks|
  {
    hide TaskStep, PrepareStep, UnwindStep, StopStep, Disciplined, IsRun, DisciplinedFrom, Course;
    CourseKept(Last(sofar), a, s', c, other);
    longer := Go(run, sofar, a, s', c);
  }

  /** The step the executor takes next at a target, short of reading back. */
  lemma NextStep(s: Sys, c: Id) returns (a: Action, s': Sys)
    requires AtTask(s) && Mutating(s.pc) && !s.pc.Reading? && !Held(s).cancelRequested
    ensures TaskStep(s, a, s') && !a.WriteDhcp? && Mutating(s'.pc) && Disciplined(s, a, c)
    ensures match s.pc
            case Boundary(id, i) => s'.pc == Entering(id, i)
            case Entering(id, i) => s'.pc == Configuring(id, i)
            case Configuring(id, i) => s'.pc == Applied(id, i)
            case Applied(id, i) => s'.pc == Reading(id, i)
            case Verified(id, i, _) => s'.pc == Marking(id, i)
            case Marking(id, i) => s'.pc == Boundary(id, i + 1)
            case _ => true
  {
    hide TaskStep, Intent;
    NextIsStep(s);
    a, s' := NextAt(s).0, NextAt(s).1;
  }

  /** One target short of the last can be read back as its effective configuration: clean, and truly without DHCP. */
  lemma ReadStep(s: Sys, c: Id, other: Id) returns (a: Action, s': Sys)
    requires Inv(s) && Course(s, c, other) && s.pc.Reading? && s.pc.i < |Held(s).tasks| - 1
    ensures TaskStep(s, a, s') && !a.WriteDhcp? && Disciplined(s, a, c)
    ensures s'.pc.Verified? && s'.pc.id == s.pc.id && s'.pc.i == s.pc.i
  {
    hide Inv, ReadBackClean, WantsDhcp, Effective, RunsOutside, AtMostOne;
    var node := CurrentTask(s).nodeId;
    TargetQuiet(s, c, other);
    var observed := Effective(Intent(s), node).value;
    SelfClean(Intent(s), node);
    CleanMeansWanted(Intent(s), node, observed);
    a := ReadBack(Some(observed));
    s' := s.(pc := Verified(s.pc.id, s.pc.i, observed));
  }

  lemma TargetQuiet(s: Sys, c: Id, other: Id)
    requires Inv(s) && Course(s, c, other) && AtTask(s) && s.pc.i < |Held(s).tasks| - 1
    ensures Effective(Intent(s), CurrentTask(s).nodeId).Some?
    ensures !WantsDhcp(Intent(s), CurrentTask(s).nodeId) && CurrentTask(s).nodeId !in s.dhcp
  {
    hide RowsInv, PcInv, PinsInv, DraftsInv, ReadBackClean, WantsDhcp, Effective;
    var node := CurrentTask(s).nodeId;
    assert RowIntent(Intent(s), Held(s)) && RowRefs(s.db, Held(s));
    assert HashFor(Intent(s), node, CurrentTask(s).effectiveHash);
    assert IsTarget(Held(s), node);
    assert !RunsIn(s, c, node);
  }

  lemma SelfClean(document: DesiredDocument, nodeId: Id)
    requires Effective(document, nodeId).Some?
    ensures ReadBackClean(document, nodeId, Effective(document, nodeId).value)
  {
    hide Effective, CanonicalShared, CanonicalNode, ManagedDifferences;
    var effective := Effective(document, nodeId).value;
    ReadBack.EffectiveCanonical(document, nodeId);
    ManagedExact(effective, ProjectDocument(effective));
  }

  /** From the boundary of one target to reading it back. */
  lemma ToReading(run: Run, sofar: Run, i: nat, c: Id, other: Id) returns (longer: Run)
    requires |run.states| == |run.actions| + 1 && Continues(run, sofar, c) && Course(Last(sofar), c, other)
    requires Last(sofar).pc.Boundary? && Last(sofar).pc.i == i < |Held(Last(sofar)).tasks|
    ensures Continues(run, longer, c) && Course(Last(longer), c, other)
    ensures Last(longer).pc == Reading(Last(sofar).pc.id, i)
    ensures |Held(Last(longer)).tasks| == |Held(Last(sofar)).tasks|
  {
    hide TaskStep, Disciplined, IsRun, DisciplinedFrom, Extends, RunsOutside, AtMostOne, WantsDhcp, Intent;
    var a, s' := NextStep(Last(sofar), c);
    longer := StepOn(run, sofar, a, s', c, other);
    a, s' := NextStep(s', c);
    longer := StepOn(run, longer, a, s', c, other);
    a, s' := NextStep(s', c);
    longer := StepOn(run, longer, a, s', c, other);
    a, s' := NextStep(s', c);
    longer := StepOn(run, longer, a, s', c, other);
  }

  /** One target short of the last: entered, applied, read back clean, recorded and marked. */
  lemma PassTarget(run: Run, sofar: Run, i: nat, c: Id, other: Id) returns (longer: Run)
    requires |run.states| == |run.actions| + 1 && Continues(run, sofar, c) && Course(Last(sofar), c, other)
    requires Last(sofar).pc.Boundary? && Last(sofar).pc.i == i < |Held(Last(sofar)).tasks| - 1
    ensures Continues(run, longer, c) && Course(Last(longer), c, other)
    ensures Last(longer).pc == Boundary(Last(sofar).pc.id, i + 1)
    ensures |Held(Last(longer)).tasks| == |Held(Last(sofar)).tasks|
  {
    hide TaskStep, Disciplined, IsRun, DisciplinedFrom, Extends, RunsOutside, AtMostOne, WantsDhcp, Intent, Inv;
    longer := ToReading(run, sofar, i, c, other);
    Reachable(longer, |longer.states| - 1);
    var a, s' := ReadStep(Last(longer), c, other);
    longer := StepOn(run, longer, a, s', c, other);
    a, s' := NextStep(s', c);
    longer := StepOn(run, longer, a, s', c, other);
    a, s' := NextStep(s', c);
    longer := StepOn(run, longer, a, s', c, other);
  }

  /** The last target: entered, and switched on. */
  lemma SwitchOn(run: Run, sofar: Run, c: Id, other: Id) returns (longer: Run)
    requires |run.states| == |run.actions| + 1 && Continues(run, sofar, c) && Course(Last(sofar), c, other)
    requires Last(sofar).pc.Boundary? && Last(sofar).pc.i == |Held(Last(sofar)).tasks| - 1
    ensures Continues(run, longer, c) && !AtMostOne(Last(longer), c)
  {
    hide TaskStep, Disciplined, IsRun, DisciplinedFrom, Extends, AtMostOne, WantsDhcp, Inv, ExecutorStep;
    var a, s' := NextStep(Last(sofar), c);
    longer := StepOn(run, sofar, a, s', c, other);
    a, s' := NextStep(s', c);
    longer := StepOn(run, longer, a, s', c, other);
    Reachable(longer, |longer.states| - 1);
    var s := Last(longer);
    s' := s.(dhcp := s.dhcp + {CurrentTask(s).nodeId});
    SwitchStep(s, s', c, other);
    longer := Go(run, longer, WriteDhcp, s', c);
  }

  lemma SwitchStep(s: Sys, s': Sys, c: Id, other: Id)
    requires Inv(s) && Course(s, c, other) && s.pc.Configuring? && s.pc.i == |Held(s).tasks| - 1
    requires s' == s.(dhcp := s.dhcp + {CurrentTask(s).nodeId})
    ensures ExecutorStep(s, WriteDhcp, s') && Disciplined(s, WriteDhcp, c) && !AtMostOne(s', c)
  {
    hide RowsInv, PcInv, PinsInv, DraftsInv, IntentInv, ReadBackClean, HashFor, RefsInv, AtMostOne, Effective;
    assert WantsDhcp(Intent(s), CurrentTask(s).nodeId);
    assert TaskStep(s, WriteDhcp, s');
    assert IsTarget(Held(s), CurrentTask(s).nodeId);
    SecondServer(s, s', c, other);
  }

  lemma {:induction false} ReachTwo(run: Run, sofar: Run, i: nat, c: Id, other: Id) returns (longer: Run)
    requires |run.states| == |run.actions| + 1 && Continues(run, sofar, c) && Course(Last(sofar), c, other)
    requires Last(sofar).pc.Boundary? && Last(sofar).pc.i == i < |Held(Last(sofar)).tasks|
    ensures Continues(run, longer, c) && !AtMostOne(Last(longer), c)
    decreases |Held(Last(sofar)).tasks| - i
  {
    hide Disciplined, IsRun, DisciplinedFrom, Extends, RunsOutside, AtMostOne, WantsDhcp, Intent;
    if i == |Held(Last(sofar)).tasks| - 1 {
      longer := SwitchOn(run, sofar, c, other);
    } else {
      longer := PassTarget(run, sofar, i, c, other);
      longer := ReachTwo(run, longer, i + 1, c, other);
    }
  }

  /** Before the first target of a deployment, with at most one server running: disciplined steps can lead to two
      servers if and only if the last target is to run DHCP, an untouched node of the cluster runs it, and no cancel
      is stored. All three can be read off before the first target is entered. */
  lemma TwoServersExactly(run: Run, id: Id, c: Id)
    requires IsRun(run) && Last(run).pc == Boundary(id, 0)
    requires HeldExists(Last(run)) && Held(Last(run)).clusterId == c && AtMostOne(Last(run), c)
    ensures (exists longer :: Continues(run, longer, c) && !AtMostOne(Last(longer), c)) <==> Uncovered(Last(run), c)
  {
    hide Step, Init, Inv, Disciplined, AtMostOne, WantsDhcp, Intent, SafeInv, IsRun;
    RunShape(run, c);
    var s := Last(run);
    Reachable(run, |run.states| - 1);
    if Uncovered(s, c) {
      var other :| RunsOutside(s, c, Held(s), other);
      assert Course(s, c, other);
      var longer := ReachTwo(run, run, 0, c, other);
    } else {
      StartsSafe(s, id, c);
      forall longer | Continues(run, longer, c)
        ensures AtMostOne(Last(longer), c)
      {
        RunShape(longer, c);
        SafeInRun(longer, |run.actions|, |longer.states| - 1, c);
        SafeMeansOne(Last(longer), c);
      }
    }
  }

  lemma RunShape(run: Run, c: Id)
    requires IsRun(run)
    ensures |run.states| == |run.actions| + 1 && Continues(run, run, c)
  {
    hide Step, Init;
  }

  lemma SafeMeansOne(s: Sys, c: Id)
    requires SafeInv(s, c)
    ensures AtMostOne(s, c)
  {
    hide AtMostOne;
  }
}
