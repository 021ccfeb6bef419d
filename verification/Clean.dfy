/** The two list normalisers every configuration field goes through. */
module Clean {
  import opened Text

  /** cleanOrdered: trim, drop the empty, keep the order. */
  function CleanOrdered(values: seq<string>): seq<string> {
    if values == [] then []
    else (if Trim(values[0]) == "" then [] else [Trim(values[0])]) + CleanOrdered(values[1..])
  }

  /** The values cleanSet keeps: trimmed, non-empty, the first of each folded key. */
  function Kept(values: seq<string>, seen: set<string>): seq<string> {
    if values == [] then []
    else
      var value := Trim(values[0]);
      if value == "" || Lower(value) in seen then Kept(values[1..], seen)
      else [value] + Kept(values[1..], seen + {Lower(value)})
  }

  function FoldKey(s: string): Key {
    [Lower(s)]
  }

  /** cleanSet: the kept values in folded order. */
  function CleanSet(values: seq<string>): seq<string> {
    Sort(Kept(values, {}), FoldKey)
  }

  /** Dropping the first value of a list from its cleaning. */
  lemma CleanOrderedNext(values: seq<string>, i: nat)
    requires i < |values|
    ensures CleanOrdered(values[i..]) ==
            (if Trim(values[i]) == "" then [] else [Trim(values[i])]) + CleanOrdered(values[i + 1..])
  {
    assert values[i..][1..] == values[i + 1..];
  }

  method CleanOrderedLoop(values: seq<string>) returns (result: seq<string>)
    ensures result == CleanOrdered(values)
  {
    result := [];
    assert values[0..] == values;
    for i := 0 to |values|
      invariant result + CleanOrdered(values[i..]) == CleanOrdered(values)
    {
      hide CleanOrdered, Trim;
      var value := Trim(values[i]);
      CleanOrderedNext(values, i);
      if value != "" {
        result := result + [value];
      }
    }
    assert values[|values|..] == [];
  }

  lemma KeptNext(values: seq<string>, i: nat, seen: set<string>)
    requires i < |values|
    ensures var value := Trim(values[i]);
            Kept(values[i..], seen) ==
            if value == "" || Lower(value) in seen then Kept(values[i + 1..], seen)
            else [value] + Kept(values[i + 1..], seen + {Lower(value)})
  {
    assert values[i..][1..] == values[i + 1..];
  }

  method CleanSetLoop(values: seq<string>) returns (result: seq<string>)
    ensures result == CleanSet(values)
  {
    var seen: set<string> := {};
    result := [];
    assert values[0..] == values;
    for i := 0 to |values|
      invariant result + Kept(values[i..], seen) == Kept(values, {})
    {
      hide Kept, Trim, Lower;
      var value := Trim(values[i]);
      KeptNext(values, i, seen);
      if value == "" {
        continue;
      }
      var key := Lower(value);
      if key !in seen {
        seen := seen + {key};
        result := result + [value];
      }
    }
    assert result == Kept(values, {});
    result := Sort(result, FoldKey);
  }

  ghost function FoldedSet(values: seq<string>): set<string> {
    set v | v in values && Trim(v) != "" :: Lower(Trim(v))
  }

  ghost predicate Clean(s: seq<string>) {
    && (forall i :: 0 <= i < |s| ==> Trimmed(s[i]) && s[i] != "")
    && (forall i, j :: 0 <= i < j < |s| ==> Lower(s[i]) != Lower(s[j]))
  }

  lemma FoldedSetCons(v: string, rest: seq<string>)
    ensures FoldedSet([v] + rest) == FoldedSet(rest) + if Trim(v) == "" then {} else {Lower(Trim(v))}
  {
    var all := [v] + rest;
    assert forall w :: w in all <==> w == v || w in rest;
  }

  lemma {:induction false} KeptIsClean(values: seq<string>, seen: set<string>)
    ensures Clean(Kept(values, seen))
    ensures forall x :: x in Kept(values, seen) ==> Lower(x) !in seen
    ensures forall x :: x in Kept(values, seen) ==> exists v :: v in values && x == Trim(v)
  {
    hide Trim, Lower, Trimmed;
    if values != [] {
      var value := Trim(values[0]);
      TrimTrims(values[0]);
      if value != "" && Lower(value) !in seen {
        KeptIsClean(values[1..], seen + {Lower(value)});
      } else {
        KeptIsClean(values[1..], seen);
      }
    }
  }

  lemma {:induction false} KeptFoldedSet(values: seq<string>, seen: set<string>)
    ensures FoldedSet(Kept(values, seen)) == FoldedSet(values) - seen
  {
    if values != [] {
      var value := Trim(values[0]);
      TrimTrims(values[0]);
      assert values == [values[0]] + values[1..];
      FoldedSetCons(values[0], values[1..]);
      if value != "" && Lower(value) !in seen {
        KeptFoldedSet(values[1..], seen + {Lower(value)});
        FoldedSetCons(value, Kept(values[1..], seen + {Lower(value)}));
      } else {
        KeptFoldedSet(values[1..], seen);
      }
    }
  }

  /** On clean lists whose keys are new, Kept is the identity. */
  lemma {:induction false} KeptFixesClean(values: seq<string>, seen: set<string>)
    requires Clean(values)
    requires forall v :: v in values ==> Lower(v) !in seen
    ensures Kept(values, seen) == values
  {
    if values != [] {
      TrimTrims(values[0]);
      assert values == [values[0]] + values[1..];
      KeptFixesClean(values[1..], seen + {Lower(values[0])});
    }
  }

  /** Rearranging keeps a list clean. */
  lemma PermutationKeepsClean(s: seq<string>, r: seq<string>)
    requires Clean(s) && multiset(r) == multiset(s)
    ensures Clean(r)
  {
    forall i | 0 <= i < |r|
      ensures Trimmed(r[i]) && r[i] != ""
    {
      assert r[i] in multiset(s);
    }
    assert DistinctBy(s, Lower);
    PermutationDistinctBy(s, r, Lower);
    assert forall i, j :: 0 <= i < j < |r| ==> Lower(r[i]) != Lower(r[j]);
  }

  /** cleanSet: one entry per folded key, in folded order, with the folded set of its input, each entry a trimmed input. */
  lemma CleanSetFacts(values: seq<string>)
    ensures Clean(CleanSet(values)) && Sorted(CleanSet(values), FoldKey)
    ensures FoldedSet(CleanSet(values)) == FoldedSet(values)
    ensures forall x :: x in CleanSet(values) ==> exists v :: v in values && x == Trim(v)
  {
    var kept := Kept(values, {});
    KeptIsClean(values, {});
    KeptFoldedSet(values, {});
    SortSorts(kept, FoldKey);
    PermutationKeepsClean(kept, CleanSet(values));
    assert FoldedSet(CleanSet(values)) == FoldedSet(kept);
  }

  lemma CleanSetIdempotent(values: seq<string>)
    ensures CleanSet(CleanSet(values)) == CleanSet(values)
  {
    CleanSetFacts(values);
    KeptFixesClean(CleanSet(values), {});
    SortFixesSorted(CleanSet(values), FoldKey);
  }

  lemma {:induction false} CleanOrderedIdempotent(values: seq<string>)
    ensures CleanOrdered(CleanOrdered(values)) == CleanOrdered(values)
  {
    if values != [] {
      CleanOrderedIdempotent(values[1..]);
      TrimTrims(values[0]);
      var head, tail := Trim(values[0]), CleanOrdered(values[1..]);
      assert [] + tail == tail;
      assert ([head] + tail)[1..] == tail;
    }
  }

  /** No two trimmed values differ only by case. */
  ghost predicate NoCaseTwins(values: seq<string>) {
    forall v, w :: v in values && w in values && Lower(Trim(v)) == Lower(Trim(w)) ==> Trim(v) == Trim(w)
  }

  /** Without case twins the entries are exactly the trimmed, non-empty values. */
  lemma CleanSetElements(values: seq<string>, x: string)
    requires NoCaseTwins(values)
    ensures x in CleanSet(values) <==> x != "" && exists v :: v in values && x == Trim(v)
  {
    CleanSetFacts(values);
    var r := CleanSet(values);
    if x in r {
      var i :| 0 <= i < |r| && r[i] == x;
    }
    if x != "" && exists v :: v in values && x == Trim(v) {
      var v :| v in values && x == Trim(v);
      assert Lower(x) in FoldedSet(values);
      assert Lower(x) in FoldedSet(r);
      var y :| y in r && Trim(y) != "" && Lower(Trim(y)) == Lower(x);
      var i :| 0 <= i < |r| && r[i] == y;
      TrimTrims(y);
      var w :| w in values && y == Trim(w);
    }
  }

  lemma CleanSetOrderIrrelevant(a: seq<string>, b: seq<string>)
    requires NoCaseTwins(a)
    requires forall v :: v in a <==> v in b
    ensures CleanSet(a) == CleanSet(b)
  {
    CleanSetFacts(a);
    CleanSetFacts(b);
    forall x
      ensures x in CleanSet(a) <==> x in CleanSet(b)
    {
      CleanSetElements(a, x);
      CleanSetElements(b, x);
    }
    SortedUnique(CleanSet(a), CleanSet(b), FoldKey);
  }

  function MoveToFront(values: seq<string>, i: nat): seq<string>
    requires i < |values|
  {
    [values[i]] + values[..i] + values[i + 1..]
  }

  /** With case twins the order decides: moving the right one to the front changes the result. */
  lemma CaseTwinsOrderMatters(values: seq<string>)
    requires !NoCaseTwins(values)
    ensures exists i :: 0 <= i < |values| && CleanSet(MoveToFront(values, i)) != CleanSet(values)
  {
    hide Lower, Trim, Trimmed, Sort, Kept;
    var v, w :| v in values && w in values && Lower(Trim(v)) == Lower(Trim(w)) && Trim(v) != Trim(w);
    var r := CleanSet(values);
    CleanSetFacts(values);
    LowerFacts(Trim(v));
    LowerFacts(Trim(w));
    var u := if Trim(v) in r then w else v;
    assert Trim(u) !in r && Trim(u) != "";
    var k :| 0 <= k < |values| && values[k] == u;
    FrontIsKept(values, k);
  }

  /** The value in front is kept. */
  lemma FrontIsKept(values: seq<string>, i: nat)
    requires i < |values| && Trim(values[i]) != ""
    ensures Trim(values[i]) in CleanSet(MoveToFront(values, i))
  {
    hide Lower, Trim, Sort;
    var moved := MoveToFront(values, i);
    assert Kept(moved, {})[0] == Trim(values[i]);
    SortSorts(Kept(moved, {}), FoldKey);
    assert Trim(values[i]) in Kept(moved, {});
  }

  /** cleanSet ignores the order of its input exactly when no two trimmed values differ only by case. */
  lemma CleanSetOrderCharacterised(values: seq<string>)
    ensures NoCaseTwins(values)
         <==> forall b: seq<string> :: multiset(b) == multiset(values) ==> CleanSet(b) == CleanSet(values)
  {
    hide CleanSet, NoCaseTwins;
    if NoCaseTwins(values) {
      forall b: seq<string> | multiset(b) == multiset(values)
        ensures CleanSet(b) == CleanSet(values)
      {
        SameMembers(values, b);
        CleanSetOrderIrrelevant(values, b);
      }
    } else {
      var b := TwinsReordered(values);
    }
  }

  lemma SameMembers(a: seq<string>, b: seq<string>)
    requires multiset(a) == multiset(b)
    ensures forall v :: v in a <==> v in b
  {
    forall v
      ensures v in a <==> v in b
    {
      assert v in multiset(a) <==> v in multiset(b);
    }
  }

  lemma TwinsReordered(values: seq<string>) returns (b: seq<string>)
    requires !NoCaseTwins(values)
    ensures multiset(b) == multiset(values) && CleanSet(b) != CleanSet(values)
  {
    hide CleanSet, NoCaseTwins;
    CaseTwinsOrderMatters(values);
    var i :| 0 <= i < |values| && CleanSet(MoveToFront(values, i)) != CleanSet(values);
    b := MoveToFront(values, i);
    assert values == values[..i] + [values[i]] + values[i + 1..];
  }
}
