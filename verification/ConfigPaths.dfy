/**
 StaticInformation of print-introspected-doxygen.cc: a recursive walk over the registered types that
 records every configuration path. The list of already processed types is a stack: it holds the types
 on the current path only.
 */
module ConfigPaths {
  import opened Basics

  /** Compared and ordered by its number. */
  type TypeId = nat

  type Entry = (TypeId, string)

  datatype Checker = Pointer(pointee: TypeId) | ObjectContainer(item: TypeId) | Other

  datatype Attribute = Attribute(name: string, checker: Checker)

  /**
   The type registry. pathName is the path element of a child or aggregated type: "$" and its name,
   with the scope separators escaped.
   */
  datatype Registry = Registry(registered: seq<TypeId>, attributes: TypeId -> seq<Attribute>,
                               isChildOf: (TypeId, TypeId) -> bool, pathName: TypeId -> string, objectType: TypeId)

  type Aggregates = seq<(TypeId, TypeId)>

  // ---------------------------------------------------------------- the labelled graph

  datatype Step = Step(element: string, target: TypeId)

  /** Lines 277-313: a pointer to a plain Object is not followed. */
  function AttributeStep(r: Registry, a: Attribute): seq<Step> {
    match a.checker
    case Pointer(t) => if t == r.objectType then [] else [Step(a.name, t)]
    case ObjectContainer(t) => [Step(a.name + "/[i]", t)]
    case Other => []
  }

  /** Lines 317-329. */
  function ChildStep(r: Registry, tid: TypeId, t: TypeId): seq<Step> {
    if r.isChildOf(t, tid) then [Step(r.pathName(t), t)] else []
  }

  /** Lines 333-365: the other end of an aggregation. */
  function AggregateStep(r: Registry, tid: TypeId, agg: (TypeId, TypeId)): seq<Step> {
    if agg.1 == tid then [Step(r.pathName(agg.0), agg.0)]
    else if agg.0 == tid then [Step(r.pathName(agg.1), agg.1)]
    else []
  }

  function AttributeSteps(r: Registry, attrs: seq<Attribute>): seq<Step> {
    if attrs == [] then [] else AttributeSteps(r, attrs[..|attrs|-1]) + AttributeStep(r, attrs[|attrs|-1])
  }

  function ChildSteps(r: Registry, tid: TypeId, candidates: seq<TypeId>): seq<Step> {
    if candidates == [] then []
    else ChildSteps(r, tid, candidates[..|candidates|-1]) + ChildStep(r, tid, candidates[|candidates|-1])
  }

  function AggregateSteps(r: Registry, tid: TypeId, aggs: Aggregates): seq<Step> {
    if aggs == [] then []
    else AggregateSteps(r, tid, aggs[..|aggs|-1]) + AggregateStep(r, tid, aggs[|aggs|-1])
  }

  lemma {:induction false} AttributeStepIn(r: Registry, attrs: seq<Attribute>, i: nat)
    requires i < |attrs|
    ensures AttributeSteps(r, attrs[..i+1]) == AttributeSteps(r, attrs[..i]) + AttributeStep(r, attrs[i])
    ensures forall s :: s in AttributeStep(r, attrs[i]) ==> s in AttributeSteps(r, attrs)
    decreases |attrs|
  {
    hide AttributeStep;
    assert attrs[..i+1][..i] == attrs[..i];
    var k := |attrs| - 1;
    if i < k {
      AttributeStepIn(r, attrs[..k], i);
    }
  }

  lemma {:induction false} ChildStepIn(r: Registry, tid: TypeId, candidates: seq<TypeId>, i: nat)
    requires i < |candidates|
    ensures ChildSteps(r, tid, candidates[..i+1])
         == ChildSteps(r, tid, candidates[..i]) + ChildStep(r, tid, candidates[i])
    ensures forall s :: s in ChildStep(r, tid, candidates[i]) ==> s in ChildSteps(r, tid, candidates)
    decreases |candidates|
  {
    hide ChildStep;
    assert candidates[..i+1][..i] == candidates[..i];
    var k := |candidates| - 1;
    if i < k {
      ChildStepIn(r, tid, candidates[..k], i);
    }
  }

  lemma {:induction false} AggregateStepIn(r: Registry, tid: TypeId, aggs: Aggregates, i: nat)
    requires i < |aggs|
    ensures AggregateSteps(r, tid, aggs[..i+1]) == AggregateSteps(r, tid, aggs[..i]) + AggregateStep(r, tid, aggs[i])
    ensures forall s :: s in AggregateStep(r, tid, aggs[i]) ==> s in AggregateSteps(r, tid, aggs)
    decreases |aggs|
  {
    hide AggregateStep;
    assert aggs[..i+1][..i] == aggs[..i];
    var k := |aggs| - 1;
    if i < k {
      AggregateStepIn(r, tid, aggs[..k], i);
    }
  }

  function Steps(r: Registry, aggs: Aggregates, tid: TypeId): seq<Step> {
    AttributeSteps(r, r.attributes(tid)) + ChildSteps(r, tid, r.registered) + AggregateSteps(r, tid, aggs)
  }

  lemma {:induction false} AttributeStepsIff(r: Registry, attrs: seq<Attribute>, s: Step)
    ensures s in AttributeSteps(r, attrs) <==>
      || (exists i :: 0 <= i < |attrs| && attrs[i].checker == Pointer(s.target)
            && s.target != r.objectType && s.element == attrs[i].name)
      || (exists i :: 0 <= i < |attrs| && attrs[i].checker == ObjectContainer(s.target)
            && s.element == attrs[i].name + "/[i]")
    decreases |attrs|
  {
    if attrs != [] {
      AttributeStepsIff(r, attrs[..|attrs|-1], s);
    }
  }

  lemma {:induction false} ChildStepsIff(r: Registry, tid: TypeId, candidates: seq<TypeId>, s: Step)
    ensures s in ChildSteps(r, tid, candidates)
       <==> s.target in candidates && r.isChildOf(s.target, tid) && s.element == r.pathName(s.target)
    decreases |candidates|
  {
    if candidates != [] {
      ChildStepsIff(r, tid, candidates[..|candidates|-1], s);
    }
  }

  lemma {:induction false} AggregateStepsIff(r: Registry, tid: TypeId, aggs: Aggregates, s: Step)
    ensures s in AggregateSteps(r, tid, aggs)
       <==> ((tid, s.target) in aggs || (s.target, tid) in aggs) && s.element == r.pathName(s.target)
    decreases |aggs|
  {
    if aggs != [] {
      AggregateStepsIff(r, tid, aggs[..|aggs|-1], s);
    }
  }

  /**
   The edges of the graph: pointers other than to Object, containers, registered children, and both
   directions of an aggregation.
   */
  lemma StepsIff(r: Registry, aggs: Aggregates, tid: TypeId, s: Step)
    ensures s in Steps(r, aggs, tid) <==>
      || (exists i :: 0 <= i < |r.attributes(tid)| && r.attributes(tid)[i].checker == Pointer(s.target)
            && s.target != r.objectType && s.element == r.attributes(tid)[i].name)
      || (exists i :: 0 <= i < |r.attributes(tid)| && r.attributes(tid)[i].checker == ObjectContainer(s.target)
            && s.element == r.attributes(tid)[i].name + "/[i]")
      || (s.target in r.registered && r.isChildOf(s.target, tid) && s.element == r.pathName(s.target))
      || (((tid, s.target) in aggs || (s.target, tid) in aggs) && s.element == r.pathName(s.target))
  {
    hide AttributeSteps, ChildSteps, AggregateSteps;
    AttributeStepsIff(r, r.attributes(tid), s);
    ChildStepsIff(r, tid, r.registered, s);
    AggregateStepsIff(r, tid, aggs, s);
  }

  ghost function Types(r: Registry): set<TypeId> {
    set t | t in r.registered
  }

  ghost predicate InTypes(r: Registry, steps: seq<Step>) {
    forall s :: s in steps ==> s.target in Types(r)
  }

  /** Types come into being by registration only. */
  ghost predicate Closed(r: Registry, aggs: Aggregates) {
    forall t :: t in Types(r) ==> InTypes(r, Steps(r, aggs, t))
  }

  // ---------------------------------------------------------------- simple paths

  function Nodes(tid: TypeId, w: seq<Step>): seq<TypeId> {
    [tid] + seq(|w|, i requires 0 <= i < |w| => w[i].target)
  }

  function End(tid: TypeId, w: seq<Step>): TypeId {
    if w == [] then tid else w[|w|-1].target
  }

  ghost predicate FollowsSteps(r: Registry, aggs: Aggregates, tid: TypeId, w: seq<Step>) {
    forall i :: 0 <= i < |w| ==> w[i] in Steps(r, aggs, Nodes(tid, w)[i])
  }

  /** Steps of the graph, one after the other, that visit no type twice. */
  ghost predicate SimplePath(r: Registry, aggs: Aggregates, tid: TypeId, w: seq<Step>) {
    FollowsSteps(r, aggs, tid, w) && Distinct(Nodes(tid, w))
  }

  function Labels(w: seq<Step>): seq<string> {
    seq(|w|, i requires 0 <= i < |w| => w[i].element)
  }

  /** Lines 211-221: a slash before each element. */
  function Render(path: seq<string>): string {
    if path == [] then "" else Render(path[..|path|-1]) + "/" + path[|path|-1]
  }

  /** A path is written as its elements in order, each after a slash. */
  lemma RenderMore(path: seq<string>, element: string)
    ensures Render([]) == "" && Render(path + [element]) == Render(path) + "/" + element
  {
    assert (path + [element])[..|path|] == path;
  }

  /** A simple path from tid that also avoids the types in seen. */
  ghost predicate Avoids(r: Registry, aggs: Aggregates, tid: TypeId, w: seq<Step>, seen: seq<TypeId>)
    decreases |w|
  {
    tid !in seen && (w == [] || (w[0] in Steps(r, aggs, tid) && Avoids(r, aggs, w[0].target, w[1..], seen + [tid])))
  }

  ghost predicate Apart(s: seq<TypeId>, t: seq<TypeId>) {
    forall x :: x in s ==> x !in t
  }

  lemma NodesCons(tid: TypeId, w: seq<Step>)
    requires w != []
    ensures Nodes(tid, w) == [tid] + Nodes(w[0].target, w[1..])
  {
  }

  lemma DistinctCons(x: TypeId, m: seq<TypeId>, seen: seq<TypeId>)
    ensures Distinct([x] + m) && Apart([x] + m, seen) <==> x !in seen && Distinct(m) && Apart(m, seen + [x])
  {
    var n := [x] + m;
    assert forall i :: 0 <= i < |m| ==> n[i+1] == m[i];
    if Distinct(n) && Apart(n, seen) {
      assert n[0] == x;
      assert forall j :: 1 <= j < |n| ==> n[0] != n[j] && n[j] in n;
    }
    if x !in seen && Distinct(m) && Apart(m, seen + [x]) {
      assert x in seen + [x];
      assert forall i :: 0 <= i < |m| ==> m[i] in m;
    }
  }

  lemma StepsCons(r: Registry, aggs: Aggregates, tid: TypeId, w: seq<Step>)
    requires w != []
    ensures FollowsSteps(r, aggs, tid, w)
       <==> w[0] in Steps(r, aggs, tid) && FollowsSteps(r, aggs, w[0].target, w[1..])
  {
    hide Steps;
    var rest := w[1..];
    var m, n := Nodes(w[0].target, rest), Nodes(tid, w);
    NodesCons(tid, w);
    assert n[0] == tid && |n| == |w| + 1 && forall i :: 0 <= i < |m| ==> m[i] == n[i+1];
    hide Nodes;
    if FollowsSteps(r, aggs, tid, w) {
      assert w[0] in Steps(r, aggs, n[0]);
      forall i | 0 <= i < |rest|
        ensures rest[i] in Steps(r, aggs, m[i])
      {
        assert w[i+1] in Steps(r, aggs, n[i+1]);
      }
    }
    if w[0] in Steps(r, aggs, tid) && FollowsSteps(r, aggs, w[0].target, rest) {
      forall i | 0 <= i < |w|
        ensures w[i] in Steps(r, aggs, n[i])
      {
        if i > 0 {
          assert rest[i-1] in Steps(r, aggs, m[i-1]);
        }
      }
    }
  }

  lemma {:induction false} AvoidsIffSimple(r: Registry, aggs: Aggregates, tid: TypeId, w: seq<Step>, seen: seq<TypeId>)
    ensures Avoids(r, aggs, tid, w, seen) <==> SimplePath(r, aggs, tid, w) && Apart(Nodes(tid, w), seen)
    decreases |w|
  {
    hide Steps, Distinct, Apart;
    if w == [] {
      assert FollowsSteps(r, aggs, tid, w);
      DistinctCons(tid, [], seen);
      assert Nodes(tid, w) == [tid] + [];
      assert Distinct<TypeId>([]) && Apart([], seen + [tid]) by { NothingApart(seen + [tid]); }
    } else {
      AvoidsIffSimple(r, aggs, w[0].target, w[1..], seen + [tid]);
      NodesCons(tid, w);
      StepsCons(r, aggs, tid, w);
      DistinctCons(tid, Nodes(w[0].target, w[1..]), seen);
    }
  }

  lemma NothingApart(s: seq<TypeId>)
    ensures Distinct<TypeId>([]) && Apart([], s)
  {
  }

  // ---------------------------------------------------------------- what the walk records

  ghost function Left(r: Registry, seen: seq<TypeId>): nat {
    |Types(r) - set t | t in seen|
  }

  lemma FewerLeft(r: Registry, seen: seq<TypeId>, tid: TypeId)
    requires tid in Types(r) && tid !in seen
    ensures Left(r, seen + [tid]) < Left(r, seen)
  {
    var a, b := Types(r) - (set t | t in seen), Types(r) - set t | t in seen + [tid];
    assert b == a - {tid};
  }

  /** The entries DoGather appends for tid. */
  ghost function Walk(r: Registry, aggs: Aggregates, tid: TypeId, path: seq<string>, seen: seq<TypeId>): seq<Entry>
    requires Closed(r, aggs) && tid in Types(r)
    decreases Left(r, seen), 0
  {
    if tid in seen then []
    else
      FewerLeft(r, seen, tid);
      [(tid, Render(path))] + WalkSteps(r, aggs, Steps(r, aggs, tid), path, seen + [tid])
  }

  ghost function WalkSteps(r: Registry, aggs: Aggregates, steps: seq<Step>, path: seq<string>,
                           seen: seq<TypeId>): seq<Entry>
    requires Closed(r, aggs) && InTypes(r, steps)
    decreases Left(r, seen), |steps| + 1
  {
    if steps == [] then []
    else
      var s := steps[|steps|-1];
      assert s in steps;
      WalkSteps(r, aggs, steps[..|steps|-1], path, seen) + Walk(r, aggs, s.target, path + [s.element], seen)
  }

  lemma {:induction false} WalkStepsConcat(r: Registry, aggs: Aggregates, a: seq<Step>, b: seq<Step>, path: seq<string>,
                                           seen: seq<TypeId>)
    requires Closed(r, aggs)
    requires InTypes(r, a + b)
    requires InTypes(r, a)
    requires InTypes(r, b)
    ensures WalkSteps(r, aggs, a + b, path, seen)
         == WalkSteps(r, aggs, a, path, seen) + WalkSteps(r, aggs, b, path, seen)
    decreases |b|
  {
    hide Walk, Closed, Types;
    if b == [] {
      assert a + b == a;
    } else {
      var k := |b| - 1;
      assert (a + b)[..|a|+k] == a + b[..k];
      WalkStepsConcat(r, aggs, a, b[..k], path, seen);
    }
  }

  ghost predicate Recorded(r: Registry, aggs: Aggregates, tid: TypeId, path: seq<string>, seen: seq<TypeId>, e: Entry) {
    exists w :: Avoids(r, aggs, tid, w, seen) && e.0 == End(tid, w) && e.1 == Render(path + Labels(w))
  }

  ghost predicate RecordedStep(r: Registry, aggs: Aggregates, steps: seq<Step>, path: seq<string>, seen: seq<TypeId>,
                               e: Entry) {
    exists i :: 0 <= i < |steps| && Recorded(r, aggs, steps[i].target, path + [steps[i].element], seen, e)
  }

  /** One step in front of a path. */
  lemma LabelsCons(path: seq<string>, s: Step, v: seq<Step>)
    ensures path + Labels([s] + v) == path + [s.element] + Labels(v)
  {
  }

  lemma AvoidsUnfold(r: Registry, aggs: Aggregates, tid: TypeId, w: seq<Step>, seen: seq<TypeId>)
    ensures w == [] ==> (Avoids(r, aggs, tid, w, seen) <==> tid !in seen) && End(tid, w) == tid
    ensures w != [] ==>
      && (Avoids(r, aggs, tid, w, seen) <==>
            tid !in seen && w[0] in Steps(r, aggs, tid) && Avoids(r, aggs, w[0].target, w[1..], seen + [tid]))
      && End(tid, w) == End(w[0].target, w[1..])
  {
    hide Steps;
  }

  lemma {:induction false} RecordedFirst(r: Registry, aggs: Aggregates, tid: TypeId, path: seq<string>,
                                         seen: seq<TypeId>, e: Entry)
    requires Recorded(r, aggs, tid, path, seen, e)
    ensures tid !in seen
    ensures e == (tid, Render(path)) || RecordedStep(r, aggs, Steps(r, aggs, tid), path, seen + [tid], e)
  {
    hide Steps, Render, Labels, Avoids, End;
    var steps, seen' := Steps(r, aggs, tid), seen + [tid];
    var w: seq<Step> :| Avoids(r, aggs, tid, w, seen) && e.0 == End(tid, w) && e.1 == Render(path + Labels(w));
    AvoidsUnfold(r, aggs, tid, w, seen);
    if w == [] {
      NoLabels(path);
    } else {
      var i :| 0 <= i < |steps| && steps[i] == w[0];
      assert w == [w[0]] + w[1..];
      LabelsCons(path, w[0], w[1..]);
      assert Recorded(r, aggs, steps[i].target, path + [steps[i].element], seen', e);
    }
  }

  lemma NoLabels(path: seq<string>)
    ensures path + Labels([]) == path
  {
  }

  lemma {:induction false} RecordedLater(r: Registry, aggs: Aggregates, tid: TypeId, path: seq<string>,
                                         seen: seq<TypeId>, e: Entry)
    requires tid !in seen && RecordedStep(r, aggs, Steps(r, aggs, tid), path, seen + [tid], e)
    ensures Recorded(r, aggs, tid, path, seen, e)
  {
    hide Steps, Render, Labels, Avoids, End;
    var steps, seen' := Steps(r, aggs, tid), seen + [tid];
    var i :| 0 <= i < |steps| && Recorded(r, aggs, steps[i].target, path + [steps[i].element], seen', e);
    var s := steps[i];
    var v :| Avoids(r, aggs, s.target, v, seen') && e.0 == End(s.target, v)
             && e.1 == Render(path + [s.element] + Labels(v));
    var w := [s] + v;
    assert w[1..] == v;
    AvoidsUnfold(r, aggs, tid, w, seen);
    LabelsCons(path, s, v);
    assert Avoids(r, aggs, tid, w, seen);
  }

  /** A recorded path is empty, or a step and then a recorded path. */
  lemma {:induction false} RecordedUnfold(r: Registry, aggs: Aggregates, tid: TypeId, path: seq<string>,
                                          seen: seq<TypeId>, e: Entry)
    ensures Recorded(r, aggs, tid, path, seen, e)
       <==> tid !in seen && (e == (tid, Render(path))
                             || RecordedStep(r, aggs, Steps(r, aggs, tid), path, seen + [tid], e))
  {
    hide Steps, Render, Labels, RecordedStep;
    if Recorded(r, aggs, tid, path, seen, e) {
      RecordedFirst(r, aggs, tid, path, seen, e);
    }
    if tid !in seen && e == (tid, Render(path)) {
      NoLabels(path);
      assert Avoids(r, aggs, tid, [], seen);
    }
    if tid !in seen && RecordedStep(r, aggs, Steps(r, aggs, tid), path, seen + [tid], e) {
      RecordedLater(r, aggs, tid, path, seen, e);
    }
  }

  /** Exactly the rendered simple paths that avoid seen. */
  lemma WalkIsRecorded(r: Registry, aggs: Aggregates, tid: TypeId, path: seq<string>, seen: seq<TypeId>, e: Entry)
    requires Closed(r, aggs) && tid in Types(r)
    ensures e in Walk(r, aggs, tid, path, seen) <==> Recorded(r, aggs, tid, path, seen, e)
    decreases Left(r, seen), 0
  {
    hide Closed, Steps, Recorded, RecordedStep, Render;
    RecordedUnfold(r, aggs, tid, path, seen, e);
    if tid !in seen {
      FewerLeft(r, seen, tid);
      StepsStay(r, aggs, tid);
      WalkStepsRecorded(r, aggs, Steps(r, aggs, tid), path, seen + [tid], e);
    }
  }

  lemma StepsStay(r: Registry, aggs: Aggregates, tid: TypeId)
    requires Closed(r, aggs) && tid in Types(r)
    ensures InTypes(r, Steps(r, aggs, tid))
  {
  }

  lemma {:induction false} WalkStepsRecorded(r: Registry, aggs: Aggregates, steps: seq<Step>, path: seq<string>,
                                             seen: seq<TypeId>, e: Entry)
    requires Closed(r, aggs) && InTypes(r, steps)
    ensures e in WalkSteps(r, aggs, steps, path, seen) <==> RecordedStep(r, aggs, steps, path, seen, e)
    decreases Left(r, seen), |steps| + 1
  {
    hide Closed, Recorded, Walk;
    if steps != [] {
      var k := |steps| - 1;
      WalkStepsRecorded(r, aggs, steps[..k], path, seen, e);
      WalkIsRecorded(r, aggs, steps[k].target, path + [steps[k].element], seen, e);
    }
  }

  // ---------------------------------------------------------------- order

  predicate StringLess(a: string, b: string) {
    if b == "" then false
    else if a == "" then true
    else a[0] < b[0] || (a[0] == b[0] && StringLess(a[1..], b[1..]))
  }

  /** operator< of std::pair<TypeId, std::string>. */
  predicate Less(a: Entry, b: Entry) {
    a.0 < b.0 || (a.0 == b.0 && StringLess(a.1, b.1))
  }

  lemma {:induction false} StringLessTotal(a: string, b: string)
    ensures !StringLess(a, a)
    ensures a == b || StringLess(a, b) || StringLess(b, a)
    ensures !(StringLess(a, b) && StringLess(b, a))
    decreases |a|
  {
    if a != "" {
      StringLessTotal(a[1..], if b == "" then "" else b[1..]);
      if b != "" && a[0] == b[0] && a[1..] == b[1..] {
        assert a == [a[0]] + a[1..] && b == [b[0]] + b[1..];
      }
    }
  }

  lemma {:induction false} StringLessTransitive(a: string, b: string, c: string)
    requires StringLess(a, b) && StringLess(b, c)
    ensures StringLess(a, c)
  {
    if a != "" && a[0] == b[0] && b[0] == c[0] {
      StringLessTransitive(a[1..], b[1..], c[1..]);
    }
  }

  /** Entries are ordered by type, and then by path: a proper prefix comes first, or the smaller character. */
  lemma LessMeans(a: Entry, b: Entry)
    ensures Less(a, b) <==>
      || a.0 < b.0
      || (a.0 == b.0 && a.1 < b.1)
      || (a.0 == b.0 && exists i :: 0 <= i < |a.1| && i < |b.1| && a.1[..i] == b.1[..i] && a.1[i] < b.1[i])
  {
    StringLessMeans(a.1, b.1);
  }

  lemma {:induction false} StringLessMeans(a: string, b: string)
    ensures StringLess(a, b) <==>
      a < b || exists i :: 0 <= i < |a| && i < |b| && a[..i] == b[..i] && a[i] < b[i]
    decreases |a|
  {
    if a != [] && b != [] {
      var x, y := a[1..], b[1..];
      StringLessMeans(x, y);
      assert a == [a[0]] + x && b == [b[0]] + y;
      if a[0] < b[0] {
        assert a[..0] == b[..0];
      } else if a[0] == b[0] {
        if i :| 0 <= i < |x| && i < |y| && x[..i] == y[..i] && x[i] < y[i] {
          assert a[..i+1] == [a[0]] + x[..i] && b[..i+1] == [b[0]] + y[..i];
          assert a[i+1] < b[i+1];
        }
        if i :| 0 <= i < |a| && i < |b| && a[..i] == b[..i] && a[i] < b[i] {
          assert i > 0 && x[..i-1] == a[..i][1..] && y[..i-1] == b[..i][1..];
          assert x[i-1] < y[i-1];
        }
      } else {
        forall i | 0 < i < |a| && i < |b|
          ensures a[..i] != b[..i]
        {
          assert a[..i][0] != b[..i][0];
        }
      }
    }
  }

  lemma LessTotal(a: Entry, b: Entry)
    ensures !Less(a, a) && (a == b || Less(a, b) || Less(b, a)) && !(Less(a, b) && Less(b, a))
  {
    StringLessTotal(a.1, b.1);
  }

  lemma LessTransitive(a: Entry, b: Entry, c: Entry)
    requires Less(a, b) && Less(b, c)
    ensures Less(a, c)
  {
    if a.0 == b.0 == c.0 {
      StringLessTransitive(a.1, b.1, c.1);
    }
  }

  predicate AtMost(a: Entry, b: Entry) {
    a == b || Less(a, b)
  }

  ghost predicate Sorted(s: seq<Entry>) {
    forall i, j :: 0 <= i < j < |s| ==> AtMost(s[i], s[j])
  }

  ghost predicate StrictlySorted(s: seq<Entry>) {
    forall i, j :: 0 <= i < j < |s| ==> Less(s[i], s[j])
  }

  ghost function Members(s: seq<Entry>): set<Entry> {
    set e | e in s
  }

  /** A strictly sorted list is determined by its elements. */
  lemma {:induction false} SortedIsUnique(a: seq<Entry>, b: seq<Entry>)
    requires StrictlySorted(a) && StrictlySorted(b) && Members(a) == Members(b)
    ensures a == b
    decreases |a|
  {
    assert b != [] ==> b[0] in Members(b);
    if a != [] {
      var n := |a| - 1;
      assert a[n] in Members(b);
      var m := |b| - 1;
      assert b[m] in Members(a);
      var i :| 0 <= i < |b| && b[i] == a[n];
      var j :| 0 <= j < |a| && a[j] == b[m];
      LessTotal(a[n], b[m]);
      assert a[n] == b[m];
      forall e
        ensures e in Members(a[..n]) <==> e in Members(b[..m])
      {
        LessTotal(a[n], a[n]);
        LastIsNew(a);
        LastIsNew(b);
      }
      SortedIsUnique(a[..n], b[..m]);
      assert a == a[..n] + [a[n]] && b == b[..m] + [b[m]];
    }
  }

  lemma LastIsNew(a: seq<Entry>)
    requires StrictlySorted(a) && a != []
    ensures Members(a[..|a|-1]) == Members(a) - {a[|a|-1]}
  {
    var n := |a| - 1;
    forall e
      ensures e in Members(a[..n]) <==> e in Members(a) - {a[n]}
    {
      if e in Members(a[..n]) {
        var i :| 0 <= i < n && a[i] == e;
        LessTotal(e, a[n]);
      }
    }
  }

  ghost function AttributeWalk(r: Registry, aggs: Aggregates, tid: TypeId, path: seq<string>,
                               seen: seq<TypeId>): seq<Entry>
    requires Closed(r, aggs) && tid in Types(r)
  {
    ThreeParts(r, aggs, tid);
    WalkSteps(r, aggs, AttributeSteps(r, r.attributes(tid)), path, seen)
  }

  ghost function ChildWalk(r: Registry, aggs: Aggregates, tid: TypeId, path: seq<string>, seen: seq<TypeId>): seq<Entry>
    requires Closed(r, aggs) && tid in Types(r)
  {
    ThreeParts(r, aggs, tid);
    WalkSteps(r, aggs, ChildSteps(r, tid, r.registered), path, seen)
  }

  ghost function AggregateWalk(r: Registry, aggs: Aggregates, tid: TypeId, path: seq<string>,
                               seen: seq<TypeId>): seq<Entry>
    requires Closed(r, aggs) && tid in Types(r)
  {
    ThreeParts(r, aggs, tid);
    WalkSteps(r, aggs, AggregateSteps(r, tid, aggs), path, seen)
  }

  lemma InTypesConcat(r: Registry, a: seq<Step>, b: seq<Step>)
    ensures InTypes(r, a + b) <==> InTypes(r, a) && InTypes(r, b)
  {
    hide Types;
    if InTypes(r, a + b) {
      assert forall s :: s in a ==> s in a + b;
      assert forall s :: s in b ==> s in a + b;
    }
  }

  lemma ThreeParts(r: Registry, aggs: Aggregates, tid: TypeId)
    requires Closed(r, aggs) && tid in Types(r)
    ensures InTypes(r, AttributeSteps(r, r.attributes(tid)))
    ensures InTypes(r, ChildSteps(r, tid, r.registered))
    ensures InTypes(r, AggregateSteps(r, tid, aggs))
  {
    StepsStay(r, aggs, tid);
    hide AttributeSteps, ChildSteps, AggregateSteps, Types, Closed, InTypes;
    InTypesConcat(r, AttributeSteps(r, r.attributes(tid)), ChildSteps(r, tid, r.registered));
    InTypesConcat(r, AttributeSteps(r, r.attributes(tid)) + ChildSteps(r, tid, r.registered),
                  AggregateSteps(r, tid, aggs));
  }

  // ---------------------------------------------------------------- the class

  class StaticInformation {
    const registry: Registry
    var output: seq<Entry>
    var currentPath: seq<string>
    var alreadyProcessed: seq<TypeId>
    var aggregates: Aggregates

    constructor (r: Registry)
      ensures registry == r && output == [] && currentPath == [] && alreadyProcessed == [] && aggregates == []
    {
      registry := r;
      output, currentPath, alreadyProcessed, aggregates := [], [], [], [];
    }

    method RecordAggregationInfo(a: TypeId, b: TypeId)
      modifies this`aggregates
      ensures aggregates == old(aggregates) + [(a, b)]
    {
      aggregates := aggregates + [(a, b)];
    }

    method GetCurrentPath() returns (s: string)
      ensures s == Render(currentPath)
    {
      s := "";
      for i := 0 to |currentPath|
        invariant s == Render(currentPath[..i])
      {
        assert currentPath[..i+1][..i] == currentPath[..i];
        s := s + "/" + currentPath[i];
      }
      assert currentPath[..|currentPath|] == currentPath;
    }

    method HasAlreadyBeenProcessed(tid: TypeId) returns (b: bool)
      ensures b <==> tid in alreadyProcessed
    {
      for i := 0 to |alreadyProcessed|
        invariant tid !in alreadyProcessed[..i]
      {
        if alreadyProcessed[i] == tid {
          return true;
        }
      }
      return false;
    }

    method RecordOutput(tid: TypeId)
      modifies this`output
      ensures output == old(output) + [(tid, Render(currentPath))]
    {
      var path := GetCurrentPath();
      output := output + [(tid, path)];
    }

    /** Lines 295-299, 307-311, 324-328 and 360-364: push, recurse, pop. */
    method Follow(tid: TypeId, element: string, target: TypeId)
      requires Closed(registry, aggregates) && tid in Types(registry) && tid !in alreadyProcessed
      requires InTypes(registry, [Step(element, target)])
      modifies this`output, this`currentPath, this`alreadyProcessed
      ensures output == old(output)
        + WalkSteps(registry, aggregates, [Step(element, target)], currentPath, alreadyProcessed + [tid])
      ensures currentPath == old(currentPath) && alreadyProcessed == old(alreadyProcessed)
      decreases Left(registry, alreadyProcessed + [tid]), 1
    {
      assert Step(element, target) in [Step(element, target)];
      OneStep(registry, aggregates, Step(element, target), currentPath, alreadyProcessed + [tid]);
      hide Walk, WalkSteps, Closed;
      ghost var path, seen := currentPath, alreadyProcessed;
      currentPath := currentPath + [element];
      alreadyProcessed := alreadyProcessed + [tid];
      DoGather(target);
      alreadyProcessed := alreadyProcessed[..|alreadyProcessed|-1];
      currentPath := currentPath[..|currentPath|-1];
      assert currentPath == path && alreadyProcessed == seen;
    }

    /** Lines 275-314. */
    method GatherAttributes(tid: TypeId)
      requires Closed(registry, aggregates) && tid in Types(registry) && tid !in alreadyProcessed
      modifies this`output, this`currentPath, this`alreadyProcessed
      ensures output == old(output) + AttributeWalk(registry, aggregates, tid, currentPath, alreadyProcessed + [tid])
      ensures currentPath == old(currentPath) && alreadyProcessed == old(alreadyProcessed)
      decreases Left(registry, alreadyProcessed + [tid]), 2
    {
      hide Walk, WalkSteps, Closed, Types, Steps, InTypes, AttributeSteps;
      var attrs := registry.attributes(tid);
      ghost var seen, path, start := alreadyProcessed + [tid], currentPath, output;
      NoSteps(registry, aggregates, tid, path, seen);
      for i := 0 to |attrs|
        invariant currentPath == old(currentPath) && alreadyProcessed == old(alreadyProcessed)
        invariant InTypes(registry, AttributeSteps(registry, attrs[..i]))
        invariant output == start
          + WalkSteps(registry, aggregates, AttributeSteps(registry, attrs[..i]), path, seen)
      {
        NextAttribute(registry, aggregates, tid, i, path, seen, start);
        var info := attrs[i];
        match info.checker {
          case Pointer(pointee) =>
            if registry.objectType == pointee {
              continue;
            }
            Follow(tid, info.name, pointee);
          case ObjectContainer(item) =>
            Follow(tid, info.name + "/[i]", item);
          case Other =>
        }
      }
      assert attrs[..|attrs|] == attrs;
    }

    /** Lines 315-330. */
    method GatherChildren(tid: TypeId)
      requires Closed(registry, aggregates) && tid in Types(registry) && tid !in alreadyProcessed
      modifies this`output, this`currentPath, this`alreadyProcessed
      ensures output == old(output) + ChildWalk(registry, aggregates, tid, currentPath, alreadyProcessed + [tid])
      ensures currentPath == old(currentPath) && alreadyProcessed == old(alreadyProcessed)
      decreases Left(registry, alreadyProcessed + [tid]), 2
    {
      hide Walk, WalkSteps, Closed, Types, Steps, InTypes, ChildSteps;
      var registered := registry.registered;
      ghost var seen, path, start := alreadyProcessed + [tid], currentPath, output;
      NoSteps(registry, aggregates, tid, path, seen);
      for j := 0 to |registered|
        invariant currentPath == old(currentPath) && alreadyProcessed == old(alreadyProcessed)
        invariant InTypes(registry, ChildSteps(registry, tid, registered[..j]))
        invariant output == start
          + WalkSteps(registry, aggregates, ChildSteps(registry, tid, registered[..j]), path, seen)
      {
        NextChild(registry, aggregates, tid, j, path, seen, start);
        var child := registered[j];
        if registry.isChildOf(child, tid) {
          Follow(tid, registry.pathName(child), child);
        }
      }
      assert registered[..|registered|] == registered;
    }

    /** Lines 331-366. */
    method GatherAggregates(tid: TypeId)
      requires Closed(registry, aggregates) && tid in Types(registry) && tid !in alreadyProcessed
      modifies this`output, this`currentPath, this`alreadyProcessed
      ensures output == old(output) + AggregateWalk(registry, aggregates, tid, currentPath, alreadyProcessed + [tid])
      ensures currentPath == old(currentPath) && alreadyProcessed == old(alreadyProcessed)
      decreases Left(registry, alreadyProcessed + [tid]), 2
    {
      hide Walk, WalkSteps, Closed, Types, Steps, InTypes, AggregateSteps;
      ghost var seen, path, start := alreadyProcessed + [tid], currentPath, output;
      NoSteps(registry, aggregates, tid, path, seen);
      for k := 0 to |aggregates|
        invariant currentPath == old(currentPath) && alreadyProcessed == old(alreadyProcessed)
        invariant InTypes(registry, AggregateSteps(registry, tid, aggregates[..k]))
        invariant output == start
          + WalkSteps(registry, aggregates, AggregateSteps(registry, tid, aggregates[..k]), path, seen)
      {
        NextAggregate(registry, aggregates, tid, k, path, seen, start);
        var tmp := aggregates[k];
        if tmp.0 == tid || tmp.1 == tid {
          var other := 0;
          if tmp.0 == tid {
            other := tmp.1;
          }
          if tmp.1 == tid {
            other := tmp.0;
          }
          Follow(tid, registry.pathName(other), other);
        }
      }
      assert aggregates[..|aggregates|] == aggregates;
    }

    method DoGather(tid: TypeId)
      requires Closed(registry, aggregates) && tid in Types(registry)
      modifies this`output, this`currentPath, this`alreadyProcessed
      ensures output == old(output) + Walk(registry, aggregates, tid, currentPath, alreadyProcessed)
      ensures currentPath == old(currentPath) && alreadyProcessed == old(alreadyProcessed)
      decreases Left(registry, alreadyProcessed), 0
    {
      var processed := HasAlreadyBeenProcessed(tid);
      if processed {
        return;
      }
      FewerLeft(registry, alreadyProcessed, tid);
      WalkUnfold(registry, aggregates, tid, currentPath, alreadyProcessed, output);
      hide Walk, Closed, Types, AttributeWalk, ChildWalk, AggregateWalk, Render;
      RecordOutput(tid);
      GatherAttributes(tid);
      GatherChildren(tid);
      GatherAggregates(tid);
    }

    /** Lines 258-264; called between walks, when both stacks are empty. */
    method Gather(tid: TypeId)
      requires Closed(registry, aggregates) && tid in Types(registry) && currentPath == [] && alreadyProcessed == []
      modifies this`output, this`currentPath, this`alreadyProcessed
      ensures currentPath == [] && alreadyProcessed == []
      ensures StrictlySorted(output)
      ensures forall e :: e in output <==> e in old(output) || PathEntry(registry, aggregates, tid, e)
    {
      hide Walk, Closed, Types, PathEntry, Sorted, StrictlySorted;
      ghost var start := output;
      DoGather(tid);
      ghost var walked := output;
      output := Sort(output);
      output := Unique(output);
      forall e
        ensures e in output <==> e in start || PathEntry(registry, aggregates, tid, e)
      {
        assert e in walked <==> e in start || e in Walk(registry, aggregates, tid, [], []);
        WalkIsPaths(registry, aggregates, tid, e);
      }
    }

    /** The loop of main over the root objects. */
    method GatherAll(roots: seq<TypeId>)
      requires Closed(registry, aggregates) && forall t :: t in roots ==> t in Types(registry)
      requires currentPath == [] && alreadyProcessed == [] && output == []
      modifies this`output, this`currentPath, this`alreadyProcessed
      ensures StrictlySorted(output)
      ensures forall e :: e in output <==> exists i :: 0 <= i < |roots| && PathEntry(registry, aggregates, roots[i], e)
    {
      hide Closed, Types, PathEntry;
      for i := 0 to |roots|
        invariant currentPath == [] && alreadyProcessed == [] && StrictlySorted(output)
        invariant forall e :: e in output <==> exists j :: 0 <= j < i && PathEntry(registry, aggregates, roots[j], e)
      {
        assert roots[i] in roots;
        Gather(roots[i]);
      }
    }

    /** Lines 243-255. */
    method Get(tid: TypeId) returns (paths: seq<string>)
      ensures forall p :: p in paths <==> (tid, p) in output
      ensures StrictlySorted(output) ==> forall i, j :: 0 <= i < j < |paths| ==> StringLess(paths[i], paths[j])
    {
      paths := [];
      for i := 0 to |output|
        invariant forall p :: p in paths <==> (tid, p) in output[..i]
        invariant StrictlySorted(output) ==> forall i, j :: 0 <= i < j < |paths| ==> StringLess(paths[i], paths[j])
      {
        var tmp := output[i];
        if tmp.0 == tid {
          if StrictlySorted(output) {
            forall k | 0 <= k < |paths|
              ensures StringLess(paths[k], tmp.1)
            {
              assert paths[k] in paths;
              var m :| 0 <= m < i && output[m] == (tid, paths[k]);
              assert Less(output[m], tmp);
            }
          }
          paths := paths + [tmp.1];
        }
      }
      assert output[..|output|] == output;
    }
  }

  /** e is a simple path from tid: the type at its end, and its rendered elements. */
  ghost predicate PathEntry(r: Registry, aggs: Aggregates, tid: TypeId, e: Entry) {
    exists w :: SimplePath(r, aggs, tid, w) && e == (End(tid, w), Render(Labels(w)))
  }

  lemma AvoidsNothing(r: Registry, aggs: Aggregates, tid: TypeId, w: seq<Step>)
    ensures Avoids(r, aggs, tid, w, []) <==> SimplePath(r, aggs, tid, w)
  {
    hide Avoids, SimplePath, Nodes;
    AvoidsIffSimple(r, aggs, tid, w, []);
  }

  lemma WalkIsPaths(r: Registry, aggs: Aggregates, tid: TypeId, e: Entry)
    requires Closed(r, aggs) && tid in Types(r)
    ensures e in Walk(r, aggs, tid, [], []) <==> PathEntry(r, aggs, tid, e)
  {
    WalkIsRecorded(r, aggs, tid, [], [], e);
    hide Walk, Closed, Types, Avoids, SimplePath, Render, Labels, End;
    if Recorded(r, aggs, tid, [], [], e) {
      var w :| Avoids(r, aggs, tid, w, []) && e.0 == End(tid, w) && e.1 == Render([] + Labels(w));
      assert [] + Labels(w) == Labels(w);
      AvoidsNothing(r, aggs, tid, w);
    }
    if PathEntry(r, aggs, tid, e) {
      var w :| SimplePath(r, aggs, tid, w) && e == (End(tid, w), Render(Labels(w)));
      assert [] + Labels(w) == Labels(w);
      AvoidsNothing(r, aggs, tid, w);
    }
  }

  /** Stands for std::sort: ascending, and a rearrangement. */
  method Sort(s: seq<Entry>) returns (r: seq<Entry>)
    ensures Sorted(r) && multiset(r) == multiset(s) && forall e :: e in r <==> e in s
  {
    r := [];
    for i := 0 to |s|
      invariant Sorted(r) && multiset(r) == multiset(s[..i])
    {
      var x, p := s[i], 0;
      while p < |r| && Less(r[p], x)
        invariant 0 <= p <= |r| && forall k :: 0 <= k < p ==> Less(r[k], x)
      {
        p := p + 1;
      }
      InsertKeepsSorted(r, p, x);
      assert s[..i+1] == s[..i] + [x];
      assert r == r[..p] + r[p..];
      r := r[..p] + [x] + r[p..];
    }
    assert s[..|s|] == s;
    assert forall e :: e in r <==> e in multiset(r);
    assert forall e :: e in s <==> e in multiset(s);
  }

  lemma InsertKeepsSorted(r: seq<Entry>, p: nat, x: Entry)
    requires Sorted(r) && p <= |r| && (forall k :: 0 <= k < p ==> Less(r[k], x)) && (p < |r| ==> !Less(r[p], x))
    ensures Sorted(r[..p] + [x] + r[p..])
  {
    forall k | p <= k < |r|
      ensures AtMost(x, r[k])
    {
      LessTotal(r[p], x);
      if Less(x, r[p]) && Less(r[p], r[k]) {
        LessTransitive(x, r[p], r[k]);
      }
    }
  }

  /** Stands for std::unique and erase: drops an entry that equals the one before it. */
  method Unique(s: seq<Entry>) returns (r: seq<Entry>)
    requires Sorted(s)
    ensures StrictlySorted(r) && forall e :: e in r <==> e in s
  {
    r := [];
    for i := 0 to |s|
      invariant StrictlySorted(r) && forall e :: e in r <==> e in s[..i]
      invariant if i == 0 then r == [] else r != [] && r[|r|-1] == s[i-1]
    {
      if r == [] || r[|r|-1] != s[i] {
        if r != [] {
          assert AtMost(s[i-1], s[i]);
          forall k | 0 <= k < |r| - 1
            ensures Less(r[k], s[i])
          {
            LessTransitive(r[k], r[|r|-1], s[i]);
          }
        }
        r := r + [s[i]];
      }
    }
    assert s[..|s|] == s;
  }

  /** What is gathered depends only on which roots are gathered, not on their order or number. */
  lemma GatherOrderDoesNotMatter(r: Registry, aggs: Aggregates, roots: seq<TypeId>, others: seq<TypeId>, a: seq<Entry>,
                                 b: seq<Entry>)
    requires forall t :: t in roots <==> t in others
    requires StrictlySorted(a)
    requires forall e :: e in a <==> exists i :: 0 <= i < |roots| && PathEntry(r, aggs, roots[i], e)
    requires StrictlySorted(b)
    requires forall e :: e in b <==> exists i :: 0 <= i < |others| && PathEntry(r, aggs, others[i], e)
    ensures a == b
  {
    hide PathEntry;
    forall e
      ensures e in a <==> e in b
    {
      if e in a {
        var i :| 0 <= i < |roots| && PathEntry(r, aggs, roots[i], e);
        assert roots[i] in others;
      }
      if e in b {
        var i :| 0 <= i < |others| && PathEntry(r, aggs, others[i], e);
        assert others[i] in roots;
      }
    }
    SortedIsUnique(a, b);
  }

  lemma OneStep(r: Registry, aggs: Aggregates, s: Step, path: seq<string>, seen: seq<TypeId>)
    requires Closed(r, aggs) && s.target in Types(r)
    ensures WalkSteps(r, aggs, [s], path, seen) == Walk(r, aggs, s.target, path + [s.element], seen)
  {
    assert [s][..0] == [];
  }

  /** Walking the steps of one more item, of which there is at most one. */
  lemma WalkStepsGrow(r: Registry, aggs: Aggregates, steps: seq<Step>, more: seq<Step>, path: seq<string>,
                      seen: seq<TypeId>)
    requires Closed(r, aggs) && InTypes(r, steps)
    requires InTypes(r, more)
    ensures InTypes(r, steps + more) && InTypes(r, more)
    ensures WalkSteps(r, aggs, steps + more, path, seen)
         == WalkSteps(r, aggs, steps, path, seen) + WalkSteps(r, aggs, more, path, seen)
    ensures WalkSteps(r, aggs, [], path, seen) == []
  {
    hide Walk, Closed;
    WalkStepsConcat(r, aggs, steps, more, path, seen);
  }

  lemma NoSteps(r: Registry, aggs: Aggregates, tid: TypeId, path: seq<string>, seen: seq<TypeId>)
    requires Closed(r, aggs)
    ensures AttributeSteps(r, []) == [] && ChildSteps(r, tid, []) == [] && AggregateSteps(r, tid, []) == []
    ensures InTypes(r, []) && WalkSteps(r, aggs, [], path, seen) == []
  {
  }

  /** One round of each loop of DoGather: the steps of one more item are walked. */
  lemma NextAttribute(r: Registry, aggs: Aggregates, tid: TypeId, i: nat, path: seq<string>, seen: seq<TypeId>,
                      start: seq<Entry>)
    requires Closed(r, aggs) && tid in Types(r) && i < |r.attributes(tid)|
    requires InTypes(r, AttributeSteps(r, r.attributes(tid)[..i]))
    ensures var attrs := r.attributes(tid);
      var done, step := AttributeSteps(r, attrs[..i]), AttributeStep(r, attrs[i]);
      var next := AttributeSteps(r, attrs[..i+1]);
      && InTypes(r, step) && InTypes(r, next)
      && start + WalkSteps(r, aggs, done, path, seen) + WalkSteps(r, aggs, step, path, seen)
         == start + WalkSteps(r, aggs, next, path, seen)
      && WalkSteps(r, aggs, [], path, seen) == []
  {
    var attrs := r.attributes(tid);
    AttributeStepIn(r, attrs, i);
    StepsStay(r, aggs, tid);
    WalkStepsGrow(r, aggs, AttributeSteps(r, attrs[..i]), AttributeStep(r, attrs[i]), path, seen);
  }

  lemma NextChild(r: Registry, aggs: Aggregates, tid: TypeId, j: nat, path: seq<string>, seen: seq<TypeId>,
                  start: seq<Entry>)
    requires Closed(r, aggs) && tid in Types(r) && j < |r.registered|
    requires InTypes(r, ChildSteps(r, tid, r.registered[..j]))
    ensures var all := r.registered;
      var done, step, next := ChildSteps(r, tid, all[..j]), ChildStep(r, tid, all[j]), ChildSteps(r, tid, all[..j+1]);
      && InTypes(r, step) && InTypes(r, next)
      && start + WalkSteps(r, aggs, done, path, seen) + WalkSteps(r, aggs, step, path, seen)
         == start + WalkSteps(r, aggs, next, path, seen)
      && WalkSteps(r, aggs, [], path, seen) == []
  {
    ChildStepIn(r, tid, r.registered, j);
    StepsStay(r, aggs, tid);
    WalkStepsGrow(r, aggs, ChildSteps(r, tid, r.registered[..j]), ChildStep(r, tid, r.registered[j]), path, seen);
  }

  lemma NextAggregate(r: Registry, aggs: Aggregates, tid: TypeId, k: nat, path: seq<string>, seen: seq<TypeId>,
                      start: seq<Entry>)
    requires Closed(r, aggs) && tid in Types(r) && k < |aggs|
    requires InTypes(r, AggregateSteps(r, tid, aggs[..k]))
    ensures var done, step, next :=
        AggregateSteps(r, tid, aggs[..k]), AggregateStep(r, tid, aggs[k]), AggregateSteps(r, tid, aggs[..k+1]);
      && InTypes(r, step) && InTypes(r, next)
      && start + WalkSteps(r, aggs, done, path, seen) + WalkSteps(r, aggs, step, path, seen)
         == start + WalkSteps(r, aggs, next, path, seen)
      && WalkSteps(r, aggs, [], path, seen) == []
  {
    AggregateStepIn(r, tid, aggs, k);
    StepsStay(r, aggs, tid);
    WalkStepsGrow(r, aggs, AggregateSteps(r, tid, aggs[..k]), AggregateStep(r, tid, aggs[k]), path, seen);
  }

  lemma WalkUnfold(r: Registry, aggs: Aggregates, tid: TypeId, path: seq<string>, seen: seq<TypeId>, start: seq<Entry>)
    requires Closed(r, aggs) && tid in Types(r) && tid !in seen
    ensures start + [(tid, Render(path))] + AttributeWalk(r, aggs, tid, path, seen + [tid])
          + ChildWalk(r, aggs, tid, path, seen + [tid]) + AggregateWalk(r, aggs, tid, path, seen + [tid])
         == start + Walk(r, aggs, tid, path, seen)
  {
    hide WalkSteps, Render, AttributeSteps, ChildSteps, AggregateSteps;
    StepsStay(r, aggs, tid);
    FewerLeft(r, seen, tid);
    ThreeParts(r, aggs, tid);
    var a, b, c := AttributeSteps(r, r.attributes(tid)), ChildSteps(r, tid, r.registered), AggregateSteps(r, tid, aggs);
    assert Steps(r, aggs, tid) == a + b + c;
    assert Walk(r, aggs, tid, path, seen) == [(tid, Render(path))] + WalkSteps(r, aggs, a + b + c, path, seen + [tid]);
    hide Walk, Closed, Types, InTypes, Steps;
    WalkStepsGrow(r, aggs, a, b, path, seen + [tid]);
    WalkStepsGrow(r, aggs, a + b, c, path, seen + [tid]);
  }

}
