/**
  Deduplication of the root detector's results (detection.js).
  `filterUniqueInstances` keeps one detection per cell of a 30-pixel grid
  keyed by the box's x, y and width (not its height); `filterAndImproveDetections`
  applies it to each group of detections sharing the exact class name and
  sorts everything by descending score.
*/
module Dedup {

  import opened Predictions
  import opened Seqs
  import opened Sorting

  // ---------------------------------------------------------------------
  // filterUniqueInstances
  // ---------------------------------------------------------------------

  const GridSize: real := 30.0

  /**
    The grid cell of a box. The source joins the three integers with `_`
    into a string; integers contain no `_`, so the string identifies the triple.
  */
  datatype GridKey = GridKey(gridX: int, gridY: int, gridW: int)

  function KeyOf(d: Detection): GridKey {
    GridKey((d.bbox.x / GridSize).Floor, (d.bbox.y / GridSize).Floor, (d.bbox.width / GridSize).Floor)
  }

  /** An entry of `positionGroups`, a `Map` from grid key to its current representative. */
  datatype Entry = Entry(key: GridKey, obj: Detection)

  /** Position of `key` among the entries, or -1: `Map.prototype.has` and `get`. */
  function KeyIndex(es: seq<Entry>, key: GridKey): (r: int)
    ensures -1 <= r < |es|
    ensures r >= 0 ==> es[r].key == key
    ensures r == -1 <==> forall i :: 0 <= i < |es| ==> es[i].key != key
  {
    if es == [] then -1
    else if es[0].key == key then 0
    else
      var k := KeyIndex(es[1..], key);
      assert forall i :: 1 <= i < |es| ==> es[i] == es[1..][i - 1];
      if k == -1 then -1 else k + 1
  }

  /** The representatives, in the order their keys were first seen. */
  function Values(es: seq<Entry>): (vs: seq<Detection>)
    ensures |vs| == |es|
  {
    seq(|es|, i requires 0 <= i < |es| => es[i].obj)
  }

  /** One iteration of the loop: a new key is appended, a strictly higher score replaces in place. */
  function Step(es: seq<Entry>, obj: Detection): seq<Entry> {
    var key := KeyOf(obj);
    var at := KeyIndex(es, key);
    if at == -1 then es + [Entry(key, obj)]
    else if obj.score > es[at].obj.score then es[at := Entry(key, obj)]
    else es
  }

  /** `positionGroups` after the loop has seen `objs`. */
  function Groups(objs: seq<Detection>): seq<Entry> {
    if objs == [] then [] else Step(Groups(objs[..|objs| - 1]), objs[|objs| - 1])
  }

  /** The value `filterUniqueInstances` returns. */
  function UniqueInstances(objs: seq<Detection>): seq<Detection> {
    if |objs| <= 1 then objs else Values(Groups(objs))
  }

  /** Every entry sits under its own key, and no key appears twice. */
  ghost predicate WellKeyed(es: seq<Entry>) {
    && (forall i :: 0 <= i < |es| ==> es[i].key == KeyOf(es[i].obj))
    && (forall i, j :: 0 <= i < j < |es| ==> es[i].key != es[j].key)
  }

  lemma {:induction false} StepWellKeyed(es: seq<Entry>, obj: Detection)
    requires WellKeyed(es)
    ensures WellKeyed(Step(es, obj))
  {
  }

  /** In a well-keyed map, `uniqueObjects.indexOf(existingObj)` finds the entry's own slot. */
  lemma {:induction false} ValuesIndex(es: seq<Entry>, at: nat)
    requires WellKeyed(es) && at < |es|
    ensures IndexOf(Values(es), es[at].obj) == at
  {
    var vs := Values(es);
    assert vs[at] == es[at].obj;
    forall j | 0 <= j < at ensures vs[j] != vs[at] {
      assert es[j].key != es[at].key;
    }
  }

  lemma {:induction false} ValuesAppend(es: seq<Entry>, e: Entry)
    ensures Values(es + [e]) == Values(es) + [e.obj]
  {
    assert forall i :: 0 <= i < |es| ==> (es + [e])[i] == es[i];
  }

  lemma {:induction false} ValuesUpdate(es: seq<Entry>, at: nat, e: Entry)
    requires at < |es|
    ensures Values(es[at := e]) == Values(es)[at := e.obj]
  {
  }

  /** The loop of `filterUniqueInstances`, with `positionGroups` kept as a list of entries. */
  method FilterUniqueInstances(objectsOfSameClass: seq<Detection>) returns (uniqueObjects: seq<Detection>)
    ensures uniqueObjects == UniqueInstances(objectsOfSameClass)
  {
    if |objectsOfSameClass| <= 1 {
      return objectsOfSameClass;
    }
    uniqueObjects := [];
    var positionGroups: seq<Entry> := [];
    for n := 0 to |objectsOfSameClass|
      invariant positionGroups == Groups(objectsOfSameClass[..n])
      invariant uniqueObjects == Values(positionGroups)
      invariant WellKeyed(positionGroups)
    {
      var obj := objectsOfSameClass[n];
      assert objectsOfSameClass[..n + 1][..n] == objectsOfSameClass[..n];
      StepWellKeyed(positionGroups, obj);
      var key := KeyOf(obj);
      var at := KeyIndex(positionGroups, key);
      if at == -1 {
        ValuesAppend(positionGroups, Entry(key, obj));
        positionGroups := positionGroups + [Entry(key, obj)];
        uniqueObjects := uniqueObjects + [obj];
      } else {
        var existingObj := positionGroups[at].obj;
        if obj.score > existingObj.score {
          ValuesIndex(positionGroups, at);
          ValuesUpdate(positionGroups, at, Entry(key, obj));
          var index := IndexOf(uniqueObjects, existingObj);
          if index != -1 {
            uniqueObjects := uniqueObjects[index := obj];
            positionGroups := positionGroups[at := Entry(key, obj)];
          }
        }
      }
    }
    assert objectsOfSameClass[..|objectsOfSameClass|] == objectsOfSameClass;
  }

  /**
    `objs[m]` is the best of its grid cell: no element of the cell scores
    higher, and every earlier element of the cell scores strictly lower.
  */
  ghost predicate FirstBest(objs: seq<Detection>, m: int) {
    && 0 <= m < |objs|
    && forall j :: 0 <= j < |objs| && KeyOf(objs[j]) == KeyOf(objs[m]) ==>
         objs[j].score <= objs[m].score && (j < m ==> objs[j].score < objs[m].score)
  }

  /** `ps[i]` is the input position of the `i`-th representative, the best of its cell. */
  ghost predicate Positions(objs: seq<Detection>, es: seq<Entry>, ps: seq<int>) {
    |ps| == |es| && forall i :: 0 <= i < |es| ==> FirstBest(objs, ps[i]) && objs[ps[i]] == es[i].obj
  }

  /** Every cell of the input has an entry. */
  ghost predicate Covered(objs: seq<Detection>, es: seq<Entry>) {
    forall j :: 0 <= j < |objs| ==> KeyIndex(es, KeyOf(objs[j])) != -1
  }

  lemma {:induction false} FirstBestExtend(objs: seq<Detection>, m: int, o: Detection)
    requires FirstBest(objs, m)
    requires KeyOf(o) == KeyOf(objs[m]) ==> o.score <= objs[m].score
    ensures FirstBest(objs + [o], m)
  {
    var s := objs + [o];
    assert forall j :: 0 <= j < |objs| ==> s[j] == objs[j];
  }

  lemma {:induction false} FirstBestNew(objs: seq<Detection>, o: Detection)
    requires forall j :: 0 <= j < |objs| && KeyOf(objs[j]) == KeyOf(o) ==> objs[j].score < o.score
    ensures FirstBest(objs + [o], |objs|)
  {
    var s := objs + [o];
    assert forall j :: 0 <= j < |objs| ==> s[j] == objs[j];
  }

  lemma {:induction false} StepKeepsKeys(es: seq<Entry>, o: Detection, k: GridKey)
    ensures KeyIndex(es, k) != -1 ==> KeyIndex(Step(es, o), k) != -1
    ensures KeyIndex(Step(es, o), KeyOf(o)) != -1
  {
    var at := KeyIndex(es, KeyOf(o));
    var s := Step(es, o);
    if at == -1 {
      assert s[|es|].key == KeyOf(o);
      if KeyIndex(es, k) != -1 {
        assert s[KeyIndex(es, k)].key == k;
      }
    } else {
      assert s[at].key == KeyOf(o);
      if KeyIndex(es, k) != -1 {
        assert s[KeyIndex(es, k)].key == k;
      }
    }
  }

  lemma {:induction false} StepCovered(objs: seq<Detection>, es: seq<Entry>, o: Detection)
    requires Covered(objs, es)
    ensures Covered(objs + [o], Step(es, o))
  {
    var s := objs + [o];
    forall j | 0 <= j < |s| ensures KeyIndex(Step(es, o), KeyOf(s[j])) != -1 {
      StepKeepsKeys(es, o, KeyOf(s[j]));
      if j < |objs| {
        assert s[j] == objs[j];
      }
    }
  }

  lemma {:induction false} StepSubMultiset(objs: seq<Detection>, es: seq<Entry>, o: Detection)
    requires multiset(Values(es)) <= multiset(objs)
    ensures multiset(Values(Step(es, o))) <= multiset(objs + [o])
  {
    var at := KeyIndex(es, KeyOf(o));
    if at == -1 {
      ValuesAppend(es, Entry(KeyOf(o), o));
    } else if o.score > es[at].obj.score {
      ValuesUpdate(es, at, Entry(KeyOf(o), o));
      var vs := Values(es);
      assert vs == vs[..at] + [vs[at]] + vs[at + 1..];
      assert vs[at := o] == vs[..at] + [o] + vs[at + 1..];
    }
  }

  lemma {:induction false} StepPositions(objs: seq<Detection>, es: seq<Entry>, ps: seq<int>, o: Detection) returns (ps': seq<int>)
    requires WellKeyed(es) && Covered(objs, es) && Positions(objs, es, ps)
    ensures Positions(objs + [o], Step(es, o), ps')
  {
    var key := KeyOf(o);
    var at := KeyIndex(es, key);
    var s := Step(es, o);
    if at == -1 {
      ps' := ps + [|objs|];
      forall j | 0 <= j < |objs| ensures KeyOf(objs[j]) != key {
        assert KeyIndex(es, KeyOf(objs[j])) != -1;
      }
      FirstBestNew(objs, o);
      forall i | 0 <= i < |es| ensures FirstBest(objs + [o], ps[i]) {
        assert es[i].key != key;
        FirstBestExtend(objs, ps[i], o);
      }
      assert forall i :: 0 <= i < |es| ==> s[i] == es[i];
    } else if o.score > es[at].obj.score {
      ps' := ps[at := |objs|];
      forall j | 0 <= j < |objs| && KeyOf(objs[j]) == key ensures objs[j].score < o.score {
        assert FirstBest(objs, ps[at]);
      }
      FirstBestNew(objs, o);
      forall i | 0 <= i < |es| && i != at ensures FirstBest(objs + [o], ps[i]) {
        assert es[i].key != key;
        FirstBestExtend(objs, ps[i], o);
      }
    } else {
      ps' := ps;
      forall i | 0 <= i < |es| ensures FirstBest(objs + [o], ps[i]) {
        FirstBestExtend(objs, ps[i], o);
      }
    }
  }

  /** What the loop maintains, by induction on the input. */
  lemma {:induction false} GroupsRepresent(objs: seq<Detection>) returns (ps: seq<int>)
    ensures WellKeyed(Groups(objs)) && Covered(objs, Groups(objs)) && Positions(objs, Groups(objs), ps)
    ensures multiset(Values(Groups(objs))) <= multiset(objs)
  {
    if objs == [] {
      ps := [];
    } else {
      var init, o := objs[..|objs| - 1], objs[|objs| - 1];
      assert init + [o] == objs;
      var es := Groups(init);
      var ps0 := GroupsRepresent(init);
      StepWellKeyed(es, o);
      StepCovered(init, es, o);
      StepSubMultiset(init, es, o);
      ps := StepPositions(init, es, ps0, o);
    }
  }

  /** Lists of at most one detection come back unchanged; longer ones keep one detection per grid cell. */
  lemma {:induction false} UniqueInstancesDistinct(objs: seq<Detection>)
    ensures |objs| <= 1 ==> UniqueInstances(objs) == objs
    ensures var r := UniqueInstances(objs);
      forall i, j :: 0 <= i < j < |r| ==> KeyOf(r[i]) != KeyOf(r[j])
  {
    if |objs| > 1 {
      var _ := GroupsRepresent(objs);
    }
  }

  /** The input position of the `i`-th kept detection: the best of its cell. */
  lemma {:induction false} UniqueInstancesSource(objs: seq<Detection>, i: nat) returns (m: int)
    requires i < |UniqueInstances(objs)|
    ensures FirstBest(objs, m) && objs[m] == UniqueInstances(objs)[i]
  {
    if |objs| <= 1 {
      m := i;
      assert FirstBest(objs, m);
    } else {
      var ps := GroupsRepresent(objs);
      m := ps[i];
    }
  }

  /** The kept detection of the cell of `objs[j]`. */
  lemma {:induction false} UniqueInstancesCell(objs: seq<Detection>, j: nat) returns (i: nat)
    requires j < |objs|
    ensures i < |UniqueInstances(objs)| && KeyOf(UniqueInstances(objs)[i]) == KeyOf(objs[j])
  {
    if |objs| <= 1 {
      i := j;
    } else {
      var _ := GroupsRepresent(objs);
      i := KeyIndex(Groups(objs), KeyOf(objs[j]));
    }
  }

  lemma {:induction false} UniqueInstancesSubMultiset(objs: seq<Detection>)
    ensures multiset(UniqueInstances(objs)) <= multiset(objs)
  {
    if |objs| > 1 {
      var _ := GroupsRepresent(objs);
    }
  }

  /**
    Each kept detection is the best of its cell in the input, the earliest
    among equal scores; every cell of the input keeps a detection; and the
    kept detections are drawn from the input.
  */
  lemma {:induction false} UniqueInstancesBest(objs: seq<Detection>)
    ensures var r := UniqueInstances(objs);
      && (forall i :: 0 <= i < |r| ==> exists m :: FirstBest(objs, m) && objs[m] == r[i])
      && (forall j :: 0 <= j < |objs| ==> exists i :: 0 <= i < |r| && KeyOf(r[i]) == KeyOf(objs[j]))
      && multiset(r) <= multiset(objs)
  {
    var r := UniqueInstances(objs);
    forall i | 0 <= i < |r| ensures exists m :: FirstBest(objs, m) && objs[m] == r[i] {
      var m := UniqueInstancesSource(objs, i);
    }
    forall j | 0 <= j < |objs| ensures exists i :: 0 <= i < |r| && KeyOf(r[i]) == KeyOf(objs[j]) {
      var i := UniqueInstancesCell(objs, j);
    }
    UniqueInstancesSubMultiset(objs);
  }

  /** On input sorted by descending score, the one kept per cell is the cell's first element. */
  lemma {:induction false} UniqueInstancesOfSorted(objs: seq<Detection>, m: int)
    requires SortedBy(objs, HigherScore)
    requires FirstBest(objs, m)
    ensures forall j :: 0 <= j < m ==> KeyOf(objs[j]) != KeyOf(objs[m])
  {
    forall j | 0 <= j < m ensures KeyOf(objs[j]) != KeyOf(objs[m]) {
      assert !HigherScore(objs[m], objs[j]);
    }
  }

  // ---------------------------------------------------------------------
  // filterAndImproveDetections
  // ---------------------------------------------------------------------

  /** The comparator `(a, b) => b.score - a.score`: `a` goes first when it scores higher. */
  predicate HigherScore(a: Detection, b: Detection) {
    a.score > b.score
  }

  lemma {:induction false} HigherScoreOrder()
    ensures StrictWeakOrder(HigherScore)
  {
  }

  /** An entry of `objectsByClass`: an exact class name and its detections in order. */
  datatype ClassGroup = ClassGroup(cls: string, members: seq<Detection>)

  /** Position of the group of class `cls`, or -1. */
  function ClassIndex(gs: seq<ClassGroup>, cls: string): (r: int)
    ensures -1 <= r < |gs|
    ensures r >= 0 ==> gs[r].cls == cls
    ensures r == -1 <==> forall i :: 0 <= i < |gs| ==> gs[i].cls != cls
    ensures forall i :: 0 <= i < r ==> gs[i].cls != cls
  {
    if gs == [] then -1
    else if gs[0].cls == cls then 0
    else
      var k := ClassIndex(gs[1..], cls);
      assert forall i :: 1 <= i < |gs| ==> gs[i] == gs[1..][i - 1];
      if k == -1 then -1 else k + 1
  }

  /** Push `d` onto the group of its class, creating the group when the class is new. */
  function AddToGroup(gs: seq<ClassGroup>, d: Detection): seq<ClassGroup> {
    var at := ClassIndex(gs, d.cls);
    if at == -1 then gs + [ClassGroup(d.cls, [d])]
    else gs[at := ClassGroup(d.cls, gs[at].members + [d])]
  }

  /** `objectsByClass` after the grouping loop over `s`. */
  function GroupByClass(s: seq<Detection>): seq<ClassGroup> {
    if s == [] then [] else AddToGroup(GroupByClass(s[..|s| - 1]), s[|s| - 1])
  }

  /** `filterUniqueInstances` of every group, sorted first, concatenated in group order. */
  function PerClassUnique(gs: seq<ClassGroup>): seq<Detection> {
    if gs == [] then []
    else PerClassUnique(gs[..|gs| - 1]) + UniqueInstances(SortBy(gs[|gs| - 1].members, HigherScore))
  }

  /** The value `filterAndImproveDetections` returns when nothing throws. */
  function Improved(allDetections: seq<Detection>): seq<Detection> {
    if allDetections == [] then []
    else SortBy(PerClassUnique(GroupByClass(SortBy(allDetections, HigherScore))), HigherScore)
  }

  /** The loops of `filterAndImproveDetections`; the in-place sorts are sorts of the values. */
  method FilterAndImproveDetections(allDetections: seq<Detection>) returns (uniqueObjects: seq<Detection>)
    ensures uniqueObjects == Improved(allDetections)
  {
    if |allDetections| == 0 {
      return [];
    }
    var sorted := SortBy(allDetections, HigherScore);
    var objectsByClass: seq<ClassGroup> := [];
    for n := 0 to |sorted|
      invariant objectsByClass == GroupByClass(sorted[..n])
    {
      var detection := sorted[n];
      assert sorted[..n + 1][..n] == sorted[..n];
      var at := ClassIndex(objectsByClass, detection.cls);
      if at == -1 {
        objectsByClass := objectsByClass + [ClassGroup(detection.cls, [detection])];
      } else {
        objectsByClass := objectsByClass[at := ClassGroup(detection.cls, objectsByClass[at].members + [detection])];
      }
    }
    assert sorted[..|sorted|] == sorted;
    uniqueObjects := [];
    for m := 0 to |objectsByClass|
      invariant uniqueObjects == PerClassUnique(objectsByClass[..m])
    {
      assert objectsByClass[..m + 1][..m] == objectsByClass[..m];
      var objectsOfClass := SortBy(objectsByClass[m].members, HigherScore);
      var uniqueInstancesOfClass := FilterUniqueInstances(objectsOfClass);
      uniqueObjects := uniqueObjects + uniqueInstancesOfClass;
    }
    assert objectsByClass[..|objectsByClass|] == objectsByClass;
    uniqueObjects := SortBy(uniqueObjects, HigherScore);
  }

  /** Concatenation of every group's members. */
  function AllMembers(gs: seq<ClassGroup>): seq<Detection> {
    if gs == [] then [] else AllMembers(gs[..|gs| - 1]) + gs[|gs| - 1].members
  }

  /** No class name has two groups. */
  ghost predicate DistinctClasses(gs: seq<ClassGroup>) {
    forall i, j :: 0 <= i < j < |gs| ==> gs[i].cls != gs[j].cls
  }

  /** Every group holds only detections of its own class. */
  ghost predicate MembersOfClass(gs: seq<ClassGroup>) {
    forall i, x :: 0 <= i < |gs| && x in gs[i].members ==> x.cls == gs[i].cls
  }

  /** Every detection of `s` is in the group of its class. */
  ghost predicate Placed(s: seq<Detection>, gs: seq<ClassGroup>) {
    forall x :: x in s ==> ClassIndex(gs, x.cls) != -1 && x in gs[ClassIndex(gs, x.cls)].members
  }

  lemma {:induction false} MembersInAll(gs: seq<ClassGroup>, at: nat)
    requires at < |gs|
    ensures multiset(gs[at].members) <= multiset(AllMembers(gs))
  {
    if at < |gs| - 1 {
      MembersInAll(gs[..|gs| - 1], at);
    }
  }

  lemma {:induction false} AllMembersUpdate(gs: seq<ClassGroup>, at: nat, g: ClassGroup)
    requires at < |gs|
    ensures multiset(AllMembers(gs[at := g])) == multiset(AllMembers(gs)) - multiset(gs[at].members) + multiset(g.members)
  {
    var init := gs[..|gs| - 1];
    var last := gs[|gs| - 1].members;
    if at == |gs| - 1 {
      assert gs[at := g][..|gs| - 1] == init;
      assert AllMembers(gs[at := g]) == AllMembers(init) + g.members;
      assert AllMembers(gs) == AllMembers(init) + last;
      ReplaceLast(multiset(AllMembers(init)), multiset(last), multiset(g.members));
    } else {
      assert gs[at := g][..|gs| - 1] == init[at := g];
      assert AllMembers(gs[at := g]) == AllMembers(init[at := g]) + last;
      assert AllMembers(gs) == AllMembers(init) + last;
      AllMembersUpdate(init, at, g);
      MembersInAll(init, at);
      ReplaceInner(multiset(AllMembers(init)), multiset(gs[at].members), multiset(g.members), multiset(last));
    }
  }

  lemma {:induction false} ReplaceLast(a: multiset<Detection>, b: multiset<Detection>, c: multiset<Detection>)
    ensures a + c == (a + b) - b + c
  {
  }

  lemma {:induction false} ReplaceInner(a: multiset<Detection>, b: multiset<Detection>, c: multiset<Detection>, d: multiset<Detection>)
    requires b <= a
    ensures a - b + c + d == (a + d) - b + c
  {
  }

  lemma {:induction false} AddToGroupMultiset(gs: seq<ClassGroup>, d: Detection)
    ensures multiset(AllMembers(AddToGroup(gs, d))) == multiset(AllMembers(gs)) + multiset{d}
  {
    var at := ClassIndex(gs, d.cls);
    if at == -1 {
      assert AddToGroup(gs, d)[..|gs|] == gs;
    } else {
      AllMembersUpdate(gs, at, ClassGroup(d.cls, gs[at].members + [d]));
      MembersInAll(gs, at);
    }
  }

  lemma {:induction false} AddToGroupClasses(gs: seq<ClassGroup>, d: Detection)
    requires DistinctClasses(gs) && MembersOfClass(gs)
    ensures DistinctClasses(AddToGroup(gs, d)) && MembersOfClass(AddToGroup(gs, d))
  {
    var at := ClassIndex(gs, d.cls);
    var gs' := AddToGroup(gs, d);
    if at == -1 {
      assert forall i :: 0 <= i < |gs| ==> gs'[i] == gs[i];
    }
  }

  /** Extending or updating the groups without renaming them keeps every class at its position. */
  lemma {:induction false} ClassIndexKept(gs: seq<ClassGroup>, gs': seq<ClassGroup>, cls: string)
    requires |gs| <= |gs'| && forall i :: 0 <= i < |gs| ==> gs'[i].cls == gs[i].cls
    requires ClassIndex(gs, cls) != -1
    ensures ClassIndex(gs', cls) == ClassIndex(gs, cls)
  {
    var k := ClassIndex(gs, cls);
    assert gs'[k].cls == cls;
  }

  lemma {:induction false} AddToGroupPlaced(s: seq<Detection>, gs: seq<ClassGroup>, d: Detection)
    requires Placed(s, gs)
    ensures Placed(s + [d], AddToGroup(gs, d))
  {
    var at := ClassIndex(gs, d.cls);
    var gs' := AddToGroup(gs, d);
    assert forall i :: 0 <= i < |gs| ==> gs'[i].cls == gs[i].cls;
    forall x | x in s + [d] ensures ClassIndex(gs', x.cls) != -1 && x in gs'[ClassIndex(gs', x.cls)].members {
      if at == -1 && x == d {
        assert gs'[|gs|].cls == d.cls;
        assert ClassIndex(gs', d.cls) == |gs|;
      } else {
        if x != d {
          assert x in s;
        }
        ClassIndexKept(gs, gs', x.cls);
      }
    }
  }

  /** `objectsByClass` partitions its input by exact class name, in order of first appearance. */
  lemma {:induction false} GroupByClassPartitions(s: seq<Detection>)
    ensures DistinctClasses(GroupByClass(s)) && MembersOfClass(GroupByClass(s))
    ensures Placed(s, GroupByClass(s))
    ensures multiset(AllMembers(GroupByClass(s))) == multiset(s)
  {
    if s != [] {
      var init, d := s[..|s| - 1], s[|s| - 1];
      assert init + [d] == s;
      GroupByClassPartitions(init);
      AddToGroupClasses(GroupByClass(init), d);
      AddToGroupPlaced(init, GroupByClass(init), d);
      AddToGroupMultiset(GroupByClass(init), d);
    }
  }

  /** The kept detections of a group belong to the group's class. */
  lemma {:induction false} LastGroupClass(g: ClassGroup)
    requires forall x :: x in g.members ==> x.cls == g.cls
    ensures forall x :: x in UniqueInstances(SortBy(g.members, HigherScore)) ==> x.cls == g.cls
    ensures multiset(UniqueInstances(SortBy(g.members, HigherScore))) <= multiset(g.members)
  {
    var u := UniqueInstances(SortBy(g.members, HigherScore));
    UniqueInstancesSubMultiset(SortBy(g.members, HigherScore));
    forall x | x in u ensures x.cls == g.cls {
      assert x in multiset(u);
      assert x in multiset(g.members);
    }
  }

  /** The per-class concatenation is drawn from the groups, and each kept class is a group's class. */
  lemma {:induction false} PerClassUniqueFrom(gs: seq<ClassGroup>)
    requires MembersOfClass(gs)
    ensures multiset(PerClassUnique(gs)) <= multiset(AllMembers(gs))
    ensures forall x :: x in PerClassUnique(gs) ==> exists i :: 0 <= i < |gs| && gs[i].cls == x.cls
  {
    if gs != [] {
      var init, g := gs[..|gs| - 1], gs[|gs| - 1];
      assert forall i :: 0 <= i < |init| ==> init[i] == gs[i];
      PerClassUniqueFrom(init);
      LastGroupClass(g);
      forall x | x in PerClassUnique(gs) ensures exists i :: 0 <= i < |gs| && gs[i].cls == x.cls {
        if x in PerClassUnique(init) {
          var k :| 0 <= k < |init| && init[k].cls == x.cls;
          assert gs[k].cls == x.cls;
        } else {
          assert gs[|gs| - 1].cls == x.cls;
        }
      }
    }
  }

  /** Two detections of the same exact class in the same grid cell. */
  predicate SameSlot(a: Detection, b: Detection) {
    a.cls == b.cls && KeyOf(a) == KeyOf(b)
  }

  /** No two elements share a slot. */
  ghost predicate DistinctSlots(s: seq<Detection>) {
    forall i, j :: 0 <= i < j < |s| ==> !SameSlot(s[i], s[j])
  }

  lemma {:induction false} ConcatDistinctSlots(p: seq<Detection>, u: seq<Detection>, cls: string)
    requires DistinctSlots(p) && forall i, j :: 0 <= i < j < |u| ==> KeyOf(u[i]) != KeyOf(u[j])
    requires forall x :: x in p ==> x.cls != cls
    requires forall x :: x in u ==> x.cls == cls
    ensures DistinctSlots(p + u)
  {
    var s := p + u;
    forall i, j | 0 <= i < j < |s| ensures !SameSlot(s[i], s[j]) {
      if j < |p| {
        assert s[i] == p[i] && s[j] == p[j];
      } else if i >= |p| {
        assert s[i] == u[i - |p|] && s[j] == u[j - |p|];
      } else {
        assert s[i] == p[i] && s[j] == u[j - |p|];
        assert p[i] in p && u[j - |p|] in u;
      }
    }
  }

  /** Before the final sort no two detections share a class and grid cell. */
  lemma {:induction false} PerClassUniqueDistinct(gs: seq<ClassGroup>)
    requires DistinctClasses(gs) && MembersOfClass(gs)
    ensures DistinctSlots(PerClassUnique(gs))
  {
    if gs != [] {
      var init, g := gs[..|gs| - 1], gs[|gs| - 1];
      assert forall i :: 0 <= i < |init| ==> init[i] == gs[i];
      PerClassUniqueDistinct(init);
      PerClassUniqueFrom(init);
      LastGroupClass(g);
      UniqueInstancesDistinct(SortBy(g.members, HigherScore));
      forall x | x in PerClassUnique(init) ensures x.cls != g.cls {
        var k :| 0 <= k < |init| && init[k].cls == x.cls;
        assert gs[k].cls != gs[|gs| - 1].cls;
      }
      ConcatDistinctSlots(PerClassUnique(init), UniqueInstances(SortBy(g.members, HigherScore)), g.cls);
    }
  }

  /** Two positions holding one value count twice in the multiset. */
  lemma {:induction false} CountTwo(s: seq<Detection>, i: nat, j: nat)
    requires i < j < |s|
    ensures s[i] == s[j] ==> multiset(s)[s[i]] >= 2
  {
    assert s == s[..j] + [s[j]] + s[j + 1..];
    assert s[i] == s[..j][i];
    assert s[i] in multiset(s[..j]);
  }

  /** A sequence without shared slots holds each value once. */
  lemma {:induction false} DistinctSlotsOnce(a: seq<Detection>)
    requires DistinctSlots(a)
    ensures forall k :: 0 <= k < |a| ==> multiset(a)[a[k]] == 1
  {
    forall k | 0 <= k < |a| ensures multiset(a)[a[k]] == 1 {
      assert a == a[..k] + [a[k]] + a[k + 1..];
      forall t | 0 <= t < k ensures a[..k][t] != a[k] {
        assert !SameSlot(a[t], a[k]);
      }
      forall t | k + 1 <= t < |a| ensures a[t] != a[k] {
        assert !SameSlot(a[k], a[t]);
      }
      assert a[k] !in multiset(a[..k]);
      assert a[k] !in multiset(a[k + 1..]);
    }
  }

  /** Pairwise distinct slots survive any reordering. */
  lemma {:induction false} DistinctSlotsPermuted(a: seq<Detection>, b: seq<Detection>)
    requires multiset(a) == multiset(b) && DistinctSlots(a)
    ensures DistinctSlots(b)
  {
    DistinctSlotsOnce(a);
    forall i, j | 0 <= i < j < |b| ensures !SameSlot(b[i], b[j]) {
      assert b[i] in multiset(a) && b[j] in multiset(a);
      var i' :| 0 <= i' < |a| && a[i'] == b[i];
      var j' :| 0 <= j' < |a| && a[j'] == b[j];
      CountTwo(b, i, j);
      if i' < j' {
        assert !SameSlot(a[i'], a[j']);
      } else if j' < i' {
        assert !SameSlot(a[j'], a[i']);
      }
    }
  }

  /**
    `filterAndImproveDetections` returns `[]` for no detections; otherwise its
    result is sorted by descending score and drawn from the input.
  */
  lemma {:induction false} ImprovedSorted(allDetections: seq<Detection>)
    ensures allDetections == [] ==> Improved(allDetections) == []
    ensures SortedBy(Improved(allDetections), HigherScore)
    ensures multiset(Improved(allDetections)) <= multiset(allDetections)
  {
    if allDetections != [] {
      HigherScoreOrder();
      var gs := GroupByClass(SortBy(allDetections, HigherScore));
      SortBySorted(PerClassUnique(gs), HigherScore);
      GroupByClassPartitions(SortBy(allDetections, HigherScore));
      PerClassUniqueFrom(gs);
    }
  }

  /** The result keeps at most one detection per exact class name and grid cell. */
  lemma {:induction false} ImprovedDistinct(allDetections: seq<Detection>)
    ensures DistinctSlots(Improved(allDetections))
  {
    if allDetections != [] {
      var gs := GroupByClass(SortBy(allDetections, HigherScore));
      GroupByClassPartitions(SortBy(allDetections, HigherScore));
      PerClassUniqueDistinct(gs);
      DistinctSlotsPermuted(PerClassUnique(gs), Improved(allDetections));
    }
  }

  /** Each member of a group has a kept detection of the group in its cell, scoring at least as high. */
  lemma {:induction false} GroupRepresentative(g: ClassGroup, d: Detection) returns (x: Detection)
    requires d in g.members
    requires forall y :: y in g.members ==> y.cls == g.cls
    ensures x in UniqueInstances(SortBy(g.members, HigherScore))
    ensures x.cls == g.cls && KeyOf(x) == KeyOf(d) && x.score >= d.score
  {
    var t := SortBy(g.members, HigherScore);
    assert d in multiset(t);
    var j :| 0 <= j < |t| && t[j] == d;
    var i := UniqueInstancesCell(t, j);
    var m := UniqueInstancesSource(t, i);
    x := UniqueInstances(t)[i];
    LastGroupClass(g);
  }

  /** A member of group `at` has a kept detection of its class and cell scoring at least as high. */
  lemma {:induction false} CoveredInGroups(gs: seq<ClassGroup>, at: nat, d: Detection) returns (x: Detection)
    requires at < |gs| && d in gs[at].members && MembersOfClass(gs)
    ensures x in PerClassUnique(gs) && SameSlot(x, d) && x.score >= d.score
  {
    var init := gs[..|gs| - 1];
    var u := UniqueInstances(SortBy(gs[|gs| - 1].members, HigherScore));
    assert PerClassUnique(gs) == PerClassUnique(init) + u;
    if at < |gs| - 1 {
      assert forall i :: 0 <= i < |init| ==> init[i] == gs[i];
      x := CoveredInGroups(init, at, d);
    } else {
      x := GroupRepresentative(gs[at], d);
    }
  }

  /** The group holding `d` after grouping a sequence containing it. */
  lemma {:induction false} GroupOf(s: seq<Detection>, d: Detection) returns (at: nat)
    requires d in s
    ensures at < |GroupByClass(s)| && d in GroupByClass(s)[at].members && MembersOfClass(GroupByClass(s))
  {
    GroupByClassPartitions(s);
    at := ClassIndex(GroupByClass(s), d.cls);
  }

  lemma {:induction false} InImproved(allDetections: seq<Detection>, x: Detection)
    requires allDetections != [] && x in PerClassUnique(GroupByClass(SortBy(allDetections, HigherScore)))
    ensures x in Improved(allDetections)
  {
    var p := PerClassUnique(GroupByClass(SortBy(allDetections, HigherScore)));
    assert x in multiset(p);
  }

  /** Every input detection has a kept detection of its class and grid cell scoring at least as high. */
  lemma {:induction false} ImprovedCovers(allDetections: seq<Detection>, d: Detection)
    requires d in allDetections
    ensures exists k :: 0 <= k < |Improved(allDetections)| && SameSlot(Improved(allDetections)[k], d) &&
                        Improved(allDetections)[k].score >= d.score
  {
    var sorted := SortBy(allDetections, HigherScore);
    assert d in multiset(sorted);
    var at := GroupOf(sorted, d);
    var x := CoveredInGroups(GroupByClass(sorted), at, d);
    InImproved(allDetections, x);
    var r := Improved(allDetections);
    var k :| 0 <= k < |r| && r[k] == x;
  }
}
