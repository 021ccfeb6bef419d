/** Choosing and ordering the targets of a deployment, and the part of validation that the
    ordering relies on. */
module Preview {
  import opened Text
  import opened Configuration
  import opened Diff

  type Id = string

  /** One row of the node listing a preview works on, with what is known of the node: whether its capability profile
      is supported and has every feature the document needs, and its latest successful observation. */
  datatype NodeInfo = NodeInfo(id: Id, enabled: bool, maintenance: bool, capable: bool, snapshot: Option<Document>)

  /** Enabled, out of maintenance, and in the selection when there is one. */
  predicate Chosen(info: NodeInfo, selected: set<Id>) {
    info.enabled && !info.maintenance && (selected == {} || info.id in selected)
  }

  predicate WantsDhcp(document: DesiredDocument, id: Id) {
    id in document.nodeOverrides && document.nodeOverrides[id].RunsDhcp()
  }

  /** Enabled nodes outside maintenance, restricted to the selection when there is one. */
  function Targets(listing: seq<NodeInfo>, selected: set<Id>): seq<Id> {
    if listing == [] then []
    else
      (if Chosen(listing[0], selected) then [listing[0].id] else [])
      + Targets(listing[1..], selected)
  }

  function EnabledIds(listing: seq<NodeInfo>): seq<Id> {
    if listing == [] then [] else (if listing[0].enabled then [listing[0].id] else []) + EnabledIds(listing[1..])
  }

  function DhcpKey(document: DesiredDocument): Id -> Key {
    (id: Id) => if WantsDhcp(document, id) then ["enabled"] else ["disabled"]
  }

  /** The stable sort that puts the node to be given DHCP last. */
  function OrderTargets(document: DesiredDocument, targets: seq<Id>): seq<Id> {
    if document.schemaVersion >= SCHEMA_VERSION then Sort(targets, DhcpKey(document)) else targets
  }

  /** How many of the given nodes are to run DHCP. */
  function DhcpCount(document: DesiredDocument, ids: seq<Id>): nat {
    if ids == [] then 0 else (if WantsDhcp(document, ids[0]) then 1 else 0) + DhcpCount(document, ids[1..])
  }

  /** The conditions ValidateDesired puts on schema version, legacy marker and node overrides. */
  predicate OverridesValid(document: DesiredDocument, ids: seq<Id>) {
    && document.schemaVersion == SCHEMA_VERSION
    && !IsLegacyConverted(document.unsupported)
    && (forall id :: id in ids ==> id in document.nodeOverrides)
    && DhcpCount(document, ids) <= 1
  }

  /** The counting loop of ValidateDesired: nodes without an override, and nodes to run DHCP. */
  method CountOverrides(document: DesiredDocument, ids: seq<Id>) returns (missing: nat, enabledDhcp: nat)
    ensures missing == 0 <==> forall id :: id in ids ==> id in document.nodeOverrides
    ensures enabledDhcp == DhcpCount(document, ids)
  {
    missing, enabledDhcp := 0, 0;
    for i := 0 to |ids|
      invariant missing == 0 <==> forall j :: 0 <= j < i ==> ids[j] in document.nodeOverrides
      invariant enabledDhcp + DhcpCount(document, ids[i..]) == DhcpCount(document, ids)
    {
      assert ids[i..][1..] == ids[i + 1..];
      if ids[i] !in document.nodeOverrides {
        missing := missing + 1;
        continue;
      }
      if document.nodeOverrides[ids[i]].RunsDhcp() {
        enabledDhcp := enabledDhcp + 1;
      }
    }
  }

  predicate DistinctListing(listing: seq<NodeInfo>) {
    forall i, j :: 0 <= i < j < |listing| ==> listing[i].id != listing[j].id
  }

  /** The ordered targets of a preview that found no issue. */
  function Plan(document: DesiredDocument, listing: seq<NodeInfo>, selected: set<Id>): seq<Id> {
    OrderTargets(document, Targets(listing, selected))
  }

  /** The target has the needed capabilities and was observed with the listener the document has for it. */
  predicate FitTarget(document: DesiredDocument, info: NodeInfo) {
    && info.capable && info.snapshot.Some? && Effective(document, info.id).Some?
    && ImmutableNodeDifferences(Effective(document, info.id).value, ProjectDocument(info.snapshot.value)) == []
  }

  predicate TargetsFit(document: DesiredDocument, listing: seq<NodeInfo>, selected: set<Id>) {
    forall i :: 0 <= i < |listing| && Chosen(listing[i], selected) ==> FitTarget(document, listing[i])
  }

  /** The check of every target, one after the other. */
  method CheckTargets(document: DesiredDocument, listing: seq<NodeInfo>, selected: set<Id>) returns (unfit: nat)
    ensures unfit == 0 <==> TargetsFit(document, listing, selected)
  {
    hide FitTarget;
    unfit := 0;
    for i := 0 to |listing|
      invariant unfit == 0 <==> forall j :: 0 <= j < i && Chosen(listing[j], selected) ==> FitTarget(document, listing[j])
    {
      if Chosen(listing[i], selected) && !FitTarget(document, listing[i]) {
        unfit := unfit + 1;
      }
    }
  }

  predicate PlanValid(document: DesiredDocument, listing: seq<NodeInfo>, selected: set<Id>) {
    && OverridesValid(document, EnabledIds(listing)) && TargetsFit(document, listing, selected)
    && Plan(document, listing, selected) != []
  }

  lemma {:induction false} TargetsFacts(listing: seq<NodeInfo>, selected: set<Id>)
    requires DistinctListing(listing)
    ensures Distinct(Targets(listing, selected))
    ensures forall id :: id in Targets(listing, selected) ==>
              id in EnabledIds(listing) && exists i :: 0 <= i < |listing| && listing[i].id == id
    ensures forall id :: id in EnabledIds(listing) ==> exists i :: 0 <= i < |listing| && listing[i].id == id
  {
    if listing != [] {
      TargetsFacts(listing[1..], selected);
      assert forall i :: 0 <= i < |listing| - 1 ==> listing[1..][i] == listing[i + 1];
      assert listing[0].id !in Targets(listing[1..], selected);
    }
  }

  /** An id is a target exactly if a listed row with it is enabled, out of maintenance, and selected if any are. */
  lemma {:induction false} TargetsAreChosen(listing: seq<NodeInfo>, selected: set<Id>, id: Id)
    ensures id in Targets(listing, selected) <==>
            exists r :: r in listing && r.id == id && r.enabled && !r.maintenance && (selected == {} || id in selected)
  {
    if listing != [] {
      TargetsAreChosen(listing[1..], selected, id);
      assert listing == [listing[0]] + listing[1..];
      if r :| r in listing && r.id == id && r.enabled && !r.maintenance && (selected == {} || id in selected) {
        assert r == listing[0] || r in listing[1..];
      }
      if id in Targets(listing, selected) {
        if Chosen(listing[0], selected) && listing[0].id == id {
          assert listing[0] in listing;
        } else {
          assert id in Targets(listing[1..], selected);
          var r :| r in listing[1..] && r.id == id && r.enabled && !r.maintenance && (selected == {} || id in selected);
          assert r in listing;
        }
      }
    }
  }

  lemma {:induction false} DhcpCountBound(document: DesiredDocument, ids: seq<Id>, a: Id, b: Id)
    requires a in ids && b in ids && a != b && WantsDhcp(document, a) && WantsDhcp(document, b)
    ensures DhcpCount(document, ids) >= 2
  {
    var x := ids[0];
    assert ids == [x] + ids[1..];
    if x == a {
      DhcpCountPositive(document, ids[1..], b);
    } else if x == b {
      DhcpCountPositive(document, ids[1..], a);
    } else {
      DhcpCountBound(document, ids[1..], a, b);
    }
  }

  lemma {:induction false} DhcpCountPositive(document: DesiredDocument, ids: seq<Id>, a: Id)
    requires a in ids && WantsDhcp(document, a)
    ensures DhcpCount(document, ids) >= 1
  {
    if ids[0] != a {
      assert ids == [ids[0]] + ids[1..];
      DhcpCountPositive(document, ids[1..], a);
    }
  }

  /** In the plan of a valid preview each enabled target appears once, and only the last may be given DHCP. */
  lemma PlanFacts(document: DesiredDocument, listing: seq<NodeInfo>, selected: set<Id>)
    requires DistinctListing(listing) && OverridesValid(document, EnabledIds(listing))
    ensures var plan := Plan(document, listing, selected);
            && Distinct(plan)
            && (forall id :: id in plan <==> id in Targets(listing, selected))
            && (forall id :: id in plan <==>
                  exists r :: r in listing && r.id == id && r.enabled && !r.maintenance && (selected == {} || id in selected))
            && (forall i :: 0 <= i < |plan| ==> plan[i] in document.nodeOverrides)
            && (forall i :: 0 <= i < |plan| - 1 ==> !WantsDhcp(document, plan[i]))
  {
    var targets := Targets(listing, selected);
    var plan := Plan(document, listing, selected);
    var key := DhcpKey(document);
    TargetsFacts(listing, selected);
    SortSorts(targets, key);
    PermutationDistinctBy(targets, plan, (id: Id) => id);
    forall id
      ensures id in plan <==>
              exists r :: r in listing && r.id == id && r.enabled && !r.maintenance && (selected == {} || id in selected)
    {
      TargetsAreChosen(listing, selected, id);
    }
    forall i | 0 <= i < |plan|
      ensures plan[i] in targets && plan[i] in EnabledIds(listing)
    {
      assert plan[i] in plan;
    }
    forall i | 0 <= i < |plan| - 1
      ensures !WantsDhcp(document, plan[i])
    {
      var last := |plan| - 1;
      if WantsDhcp(document, plan[i]) {
        assert !KeyLess(key(plan[last]), key(plan[i]));
        assert KeyLess(["disabled"], ["enabled"]) by {
          assert Less("disabled", "enabled");
        }
        assert WantsDhcp(document, plan[last]);
        DhcpCountBound(document, EnabledIds(listing), plan[i], plan[last]);
        assert false;
      }
    }
  }
}
