/**
 find_cycles of topsort.py, a stack-based enumeration of all elementary cycles, and is_rotated of
 rad_util.py, by which it removes duplicates.
 */
module Cycles {
  import opened Basics
  import opened Digraph

  // ---------------------------------------------------------------- rotations

  ghost function Rotate<T>(s: seq<T>, k: nat): seq<T>
    requires k <= |s|
  {
    s[k..] + s[..k]
  }

  ghost predicate Rotation<T>(a: seq<T>, b: seq<T>) {
    |a| == |b| && exists k :: 0 <= k < |a| && Rotate(a, k) == b
  }

  lemma RotateAt<T>(s: seq<T>, k: nat, i: nat)
    requires k <= |s| && i < |s|
    ensures Rotate(s, k)[i] == s[if k + i < |s| then k + i else k + i - |s|]
  {
  }

  lemma RotationSymmetric<T>(a: seq<T>, b: seq<T>)
    requires Rotation(a, b)
    ensures Rotation(b, a)
  {
    var k :| 0 <= k < |a| && Rotate(a, k) == b;
    var m := if k == 0 then 0 else |a| - k;
    assert Rotate(b, m) == a;
  }

  lemma RotationTransitive<T>(a: seq<T>, b: seq<T>, c: seq<T>)
    requires Rotation(a, b) && Rotation(b, c)
    ensures Rotation(a, c)
  {
    var k :| 0 <= k < |a| && Rotate(a, k) == b;
    var m :| 0 <= m < |b| && Rotate(b, m) == c;
    var n := if k + m < |a| then k + m else k + m - |a|;
    forall i | 0 <= i < |a|
      ensures Rotate(a, n)[i] == c[i]
    {
      RotateAt(a, n, i);
      RotateAt(b, m, i);
      RotateAt(a, k, if m + i < |b| then m + i else m + i - |b|);
    }
    assert Rotate(a, n) == c;
  }

  /** None stands for the IndexError of two empty sequences. */
  method IsRotated<T(==)>(seq1: seq<T>, seq2: seq<T>) returns (r: Option<bool>)
    ensures r.None? <==> seq1 == [] && seq2 == []
    ensures r.Some? ==> (r.value <==> Rotation(seq1, seq2))
  {
    if |seq1| != |seq2| {
      return Some(false);
    }
    if |seq2| == 0 {
      return None;
    }
    var startIndexes: seq<nat> := [];
    var headItem := seq2[0];
    for index1 := 0 to |seq1|
      invariant forall i :: i in startIndexes <==> 0 <= i < index1 && seq1[i] == headItem
    {
      if seq1[index1] == headItem {
        startIndexes := startIndexes + [index1];
      }
    }
    var doubleSeq1 := seq1 + seq1;
    for n := 0 to |startIndexes|
      invariant forall m :: 0 <= m < n ==> startIndexes[m] < |seq1| && Rotate(seq1, startIndexes[m]) != seq2
    {
      var index1 := startIndexes[n];
      assert index1 in startIndexes;
      assert doubleSeq1[index1..index1+|seq1|] == Rotate(seq1, index1);
      if doubleSeq1[index1..index1+|seq1|] == seq2 {
        return Some(true);
      }
    }
    forall k | 0 <= k < |seq1|
      ensures Rotate(seq1, k) != seq2
    {
      if seq1[k] == headItem {
        assert k in startIndexes;
      } else {
        assert Rotate(seq1, k)[0] == seq1[k];
      }
    }
    return Some(false);
  }

  // ---------------------------------------------------------------- what has been found

  ghost predicate Found(cycles: seq<seq<Node>>, c: seq<Node>) {
    exists i :: 0 <= i < |cycles| && Rotation(cycles[i], c)
  }

  /** Exactly one listed cycle is a rotation of c. */
  ghost predicate FoundOnce(cycles: seq<seq<Node>>, c: seq<Node>) {
    exists i :: 0 <= i < |cycles| && Rotation(cycles[i], c)
            && forall j :: 0 <= j < |cycles| && Rotation(cycles[j], c) ==> j == i
  }

  /** Every listed cycle is elementary, and no two are rotations of each other. */
  ghost predicate Sound(g: Graph, cycles: seq<seq<Node>>) {
    && (forall i :: 0 <= i < |cycles| ==> ElementaryCycle(g, cycles[i]))
    && forall i, j :: 0 <= i < j < |cycles| ==> !Rotation(cycles[i], cycles[j])
  }

  /** Lines 371-376. */
  method IsDup(ghost g: Graph, cycles: seq<seq<Node>>, cycle: seq<Node>) returns (isDup: bool)
    requires Sound(g, cycles) && cycle != []
    ensures isDup <==> Found(cycles, cycle)
  {
    for i := 0 to |cycles|
      invariant forall j :: 0 <= j < i ==> !Rotation(cycles[j], cycle)
    {
      assert ElementaryCycle(g, cycles[i]);
      var rotated := IsRotated(cycles[i], cycle);
      if rotated.value {
        return true;
      }
    }
    return false;
  }

  /** Every way to close p has been found. */
  ghost predicate Expanded(g: Graph, cycles: seq<seq<Node>>, p: seq<Node>)
    requires p != []
  {
    forall k :: 0 <= k < |p| && Edge(g, p[|p|-1], p[k]) ==> Found(cycles, p[k..])
  }

  ghost predicate PrefixOnStack(stack: seq<seq<Node>>, p: seq<Node>) {
    exists i :: 0 <= i < |stack| && stack[i] <= p
  }

  ghost predicate Covered(g: Graph, cycles: seq<seq<Node>>, stack: seq<seq<Node>>, p: seq<Node>)
    requires p != []
  {
    Expanded(g, cycles, p) || PrefixOnStack(stack, p)
  }

  /** Every simple path from root has been expanded or will be. */
  ghost predicate AllCovered(g: Graph, cycles: seq<seq<Node>>, stack: seq<seq<Node>>, root: Node) {
    forall p {:trigger Covered(g, cycles, stack, p)} ::
      SimplePath(g, p) && p[0] == root ==> Covered(g, cycles, stack, p)
  }

  ghost predicate Reached(g: Graph, roots: set<Node>, v: Node) {
    exists p :: SimplePath(g, p) && p[0] in roots && p[|p|-1] == v
  }

  // ---------------------------------------------------------------- termination

  ghost function Pow(b: nat, n: nat): nat {
    if n == 0 then 1 else b * Pow(b, n - 1)
  }

  ghost predicate DegreeBound(g: Graph, d: nat) {
    forall p :: p in g ==> |g[p]| <= d
  }

  lemma BoundExists(g: Graph) returns (d: nat)
    ensures DegreeBound(g, d)
  {
    if g == map[] {
      d := 0;
    } else {
      var p :| p in g;
      d := BoundExists(g - {p});
      assert forall q :: q in g && q != p ==> q in g - {p} && (g - {p})[q] == g[q];
      d := if |g[p]| > d then |g[p]| else d;
    }
  }

  /** A path weighs (d+1) to the number of nodes it has not used: more than all its extensions. */
  ghost function Weight(d: nat, n: nat, len: nat): nat {
    if len <= n then Pow(d + 1, n - len) else 0
  }

  ghost function StackWeight(d: nat, n: nat, stack: seq<seq<Node>>): nat {
    if stack == [] then 0
    else StackWeight(d, n, stack[..|stack|-1]) + Weight(d, n, |stack[|stack|-1]|)
  }

  lemma ChildrenWeighLess(d: nat, n: nat, len: nat, kids: nat)
    requires len <= n && kids <= d
    ensures kids * Weight(d, n, len + 1) < Weight(d, n, len)
  {
    if len < n {
      var w := Weight(d, n, len + 1);
      PowPositive(d + 1, n - len - 1);
      assert Weight(d, n, len) == (d + 1) * w;
      assert kids * w <= d * w < (d + 1) * w;
    }
  }

  lemma {:induction false} PowPositive(b: nat, n: nat)
    requires b > 0
    ensures Pow(b, n) > 0
  {
    if n > 0 {
      PowPositive(b, n - 1);
    }
  }

  // ---------------------------------------------------------------- the search

  /** Everything on the stack is a simple path from root. */
  ghost predicate StackOf(g: Graph, root: Node, stack: seq<seq<Node>>) {
    forall i :: 0 <= i < |stack| ==> SimplePath(g, stack[i]) && stack[i][0] == root && InNodes(g, stack[i])
  }

  ghost predicate InNodes(g: Graph, p: seq<Node>) {
    forall x :: x in p ==> x in Nodes(g)
  }

  /** Closing a simple path at index k gives an elementary cycle. */
  lemma ClosedPath(g: Graph, path: seq<Node>, k: nat)
    requires SimplePath(g, path) && k < |path| && Edge(g, path[|path|-1], path[k])
    ensures ElementaryCycle(g, path[k..])
  {
  }

  lemma ExtendedPath(g: Graph, path: seq<Node>, child: Node)
    requires SimplePath(g, path) && InNodes(g, path) && child !in path && Edge(g, path[|path|-1], child)
    ensures SimplePath(g, path + [child]) && InNodes(g, path + [child])
  {
  }

  function Index(s: seq<Node>, x: Node): (i: nat)
    requires x in s
    ensures i < |s| && s[i] == x && x !in s[..i]
  {
    if s[0] == x then 0 else 1 + Index(s[1..], x)
  }

  lemma FoundMonotone(cycles: seq<seq<Node>>, more: seq<seq<Node>>, c: seq<Node>)
    requires cycles <= more && Found(cycles, c)
    ensures Found(more, c)
  {
    var i :| 0 <= i < |cycles| && Rotation(cycles[i], c);
    assert more[i] == cycles[i];
  }

  /** Lines 369-378: close path at child. */
  method CloseCycle(ghost g: Graph, path: seq<Node>, child: Node, cycles0: seq<seq<Node>>)
    returns (cycles: seq<seq<Node>>)
    requires SimplePath(g, path) && child in path && Edge(g, path[|path|-1], child)
    requires Sound(g, cycles0)
    ensures cycles0 <= cycles && Sound(g, cycles)
    ensures forall k :: 0 <= k < |path| && path[k] == child ==> Found(cycles, path[k..])
  {
    cycles := cycles0;
    var at := Index(path, child);
    var cycle := path[at..];
    ClosedPath(g, path, at);
    var isDup := IsDup(g, cycles, cycle);
    if !isDup {
      cycles := cycles + [cycle];
      assert Rotate(cycle, 0) == cycle;
      assert Rotation(cycles[|cycles|-1], cycle);
    }
  }

  /** The children of path seen so far: those on the path closed, the others pushed. */
  ghost predicate ChildrenDone(cycles: seq<seq<Node>>, stack: seq<seq<Node>>, path: seq<Node>, seen: seq<Node>) {
    && (forall k :: 0 <= k < |path| && path[k] in seen ==> Found(cycles, path[k..]))
    && forall child :: child in seen && child !in path ==> path + [child] in stack
  }

  /** Expanding path[..] in full leaves nothing uncovered. */
  lemma StillCovered(g: Graph, root: Node, path: seq<Node>, stack0: seq<seq<Node>>, cycles0: seq<seq<Node>>,
                     stack: seq<seq<Node>>, cycles: seq<seq<Node>>)
    requires AllCovered(g, cycles0, stack0 + [path], root) && SimplePath(g, path)
    requires stack0 <= stack && cycles0 <= cycles
    requires path[|path|-1] in g ==> ChildrenDone(cycles, stack, path, g[path[|path|-1]])
    ensures AllCovered(g, cycles, stack, root)
  {
    var popped := stack0 + [path];
    forall p | SimplePath(g, p) && p[0] == root
      ensures Covered(g, cycles, stack, p)
    {
      assert Covered(g, cycles0, popped, p);
      if Expanded(g, cycles0, p) {
        forall k | 0 <= k < |p| && Edge(g, p[|p|-1], p[k])
          ensures Found(cycles, p[k..])
        {
          FoundMonotone(cycles0, cycles, p[k..]);
        }
      } else {
        var i :| 0 <= i < |popped| && popped[i] <= p;
        if i < |stack0| {
          assert stack[i] == popped[i];
        } else if |p| == |path| {
          assert p == path;
        } else {
          var child := p[|path|];
          assert Edge(g, p[|path|-1], p[|path|]);
          assert child !in path;
          assert path + [child] <= p;
        }
      }
    }
  }

  lemma PushedWeight(d: nat, n: nat, stack: seq<seq<Node>>, path: seq<Node>)
    ensures StackWeight(d, n, stack + [path]) == StackWeight(d, n, stack) + Weight(d, n, |path|)
  {
    assert (stack + [path])[..|stack|] == stack;
  }

  /** Lines 362-385. */
  method ExpandChildren(ghost g: Graph, ghost root: Node, path: seq<Node>, children: seq<Node>, stack0: seq<seq<Node>>,
                        cycles0: seq<seq<Node>>, visited0: set<Node>, ghost roots: set<Node>, ghost d: nat)
    returns (stack: seq<seq<Node>>, cycles: seq<seq<Node>>, visited: set<Node>)
    requires StackOf(g, root, stack0 + [path]) && Sound(g, cycles0)
    requires path != [] && path[|path|-1] in g && g[path[|path|-1]] == children
    requires root in roots && forall v :: v in visited0 ==> Reached(g, roots, v)
    ensures StackOf(g, root, stack) && Sound(g, cycles) && cycles0 <= cycles && stack0 <= stack
    ensures forall v :: v in visited ==> Reached(g, roots, v)
    ensures ChildrenDone(cycles, stack, path, children)
    ensures StackWeight(d, |Nodes(g)|, stack)
         <= StackWeight(d, |Nodes(g)|, stack0) + |children| * Weight(d, |Nodes(g)|, |path| + 1)
  {
    hide Reached, Nodes, Weight, StackWeight, Sound, ChildrenDone;
    assert ChildrenDone(cycles0, stack0, path, []) by { NothingSeen(cycles0, stack0, path); }
    stack, cycles, visited := stack0, cycles0, visited0;
    assert (stack0 + [path])[|stack0|] == path;
    assert forall i :: 0 <= i < |stack0| ==> (stack0 + [path])[i] == stack0[i];
    ghost var n, w := |Nodes(g)|, Weight(d, |Nodes(g)|, |path| + 1);
    for j := 0 to |children|
      invariant StackOf(g, root, stack) && Sound(g, cycles) && cycles0 <= cycles && stack0 <= stack
      invariant forall v :: v in visited ==> Reached(g, roots, v)
      invariant ChildrenDone(cycles, stack, path, children[..j])
      invariant StackWeight(d, n, stack) <= StackWeight(d, n, stack0) + j * w
    {
      var child := children[j];
      assert Edge(g, path[|path|-1], child);
      assert children[..j+1] == children[..j] + [child];
      ghost var before := cycles;
      ghost var stackBefore := stack;
      if child in path {
        cycles := CloseCycle(g, path, child, cycles);
      } else {
        ExtendedPath(g, path, child);
        PushedWeight(d, n, stack, path + [child]);
        ReachedBy(g, roots, path + [child]);
        stack := stack + [path + [child]];
        visited := visited + {child};
      }
      StillDone(before, cycles, stackBefore, stack, path, children[..j], child);
    }
    assert children[..|children|] == children;
  }

  lemma ReachedBy(g: Graph, roots: set<Node>, p: seq<Node>)
    requires SimplePath(g, p) && p[0] in roots
    ensures Reached(g, roots, p[|p|-1])
  {
  }

  lemma NothingSeen(cycles: seq<seq<Node>>, stack: seq<seq<Node>>, path: seq<Node>)
    ensures ChildrenDone(cycles, stack, path, [])
  {
  }

  lemma StillDone(cycles0: seq<seq<Node>>, cycles: seq<seq<Node>>, stack0: seq<seq<Node>>, stack: seq<seq<Node>>,
                  path: seq<Node>, seen: seq<Node>, child: Node)
    requires cycles0 <= cycles && stack0 <= stack && ChildrenDone(cycles0, stack0, path, seen)
    requires forall k :: 0 <= k < |path| && path[k] == child ==> Found(cycles, path[k..])
    requires child !in path ==> path + [child] in stack
    ensures ChildrenDone(cycles, stack, path, seen + [child])
  {
    forall k | 0 <= k < |path| && path[k] in seen + [child]
      ensures Found(cycles, path[k..])
    {
      if path[k] in seen {
        FoundMonotone(cycles0, cycles, path[k..]);
      }
    }
    forall c | c in seen + [child] && c !in path
      ensures path + [c] in stack
    {
      if c in seen {
        var i :| 0 <= i < |stack0| && stack0[i] == path + [c];
        assert stack[i] == stack0[i];
      }
    }
  }

  /** Lines 355-385 for a path just popped off the stack. */
  method Expand(g: Graph, ghost root: Node, path: seq<Node>, stack0: seq<seq<Node>>, cycles0: seq<seq<Node>>,
                visited0: set<Node>, ghost roots: set<Node>, ghost d: nat)
    returns (stack: seq<seq<Node>>, cycles: seq<seq<Node>>, visited: set<Node>)
    requires StackOf(g, root, stack0 + [path]) && Sound(g, cycles0) && DegreeBound(g, d)
    requires root in roots && forall v :: v in visited0 ==> Reached(g, roots, v)
    requires AllCovered(g, cycles0, stack0 + [path], root)
    ensures StackOf(g, root, stack) && Sound(g, cycles) && cycles0 <= cycles
    ensures forall v :: v in visited ==> Reached(g, roots, v)
    ensures AllCovered(g, cycles, stack, root)
    ensures StackWeight(d, |Nodes(g)|, stack) < StackWeight(d, |Nodes(g)|, stack0 + [path])
  {
    hide Reached, Nodes, Covered, Weight;
    stack, cycles, visited := stack0, cycles0, visited0;
    assert (stack0 + [path])[|stack0|] == path;
    var parent := path[|path|-1];
    ghost var n, kids := |Nodes(g)|, 0;
    if parent in g {
      stack, cycles, visited := ExpandChildren(g, root, path, g[parent], stack0, cycles0, visited0, roots, d);
      kids := |g[parent]|;
    } else {
      assert forall i :: 0 <= i < |stack0| ==> (stack0 + [path])[i] == stack0[i];
    }
    StillCovered(g, root, path, stack0, cycles0, stack, cycles);
    PushedWeight(d, n, stack0, path);
    DistinctFits(path, Nodes(g));
    ChildrenWeighLess(d, n, |path|, kids);
  }

  /** Lines 351-385: everything that can be found from one root. */
  method SearchFrom(g: Graph, root: Node, cycles0: seq<seq<Node>>, visited0: set<Node>, ghost roots: set<Node>)
    returns (cycles: seq<seq<Node>>, visited: set<Node>)
    requires root in g && root in roots && Sound(g, cycles0)
    requires forall v :: v in visited0 ==> Reached(g, roots, v)
    ensures Sound(g, cycles) && cycles0 <= cycles && AllCovered(g, cycles, [], root)
    ensures forall v :: v in visited ==> Reached(g, roots, v)
  {
    hide Reached, Sound, Weight;
    ghost var d := BoundExists(g);
    cycles, visited := cycles0, visited0;
    var paths := [[root]];
    while paths != []
      invariant StackOf(g, root, paths) && Sound(g, cycles) && cycles0 <= cycles
      invariant forall v :: v in visited ==> Reached(g, roots, v)
      invariant AllCovered(g, cycles, paths, root)
      decreases StackWeight(d, |Nodes(g)|, paths)
    {
      var path := paths[|paths|-1];
      assert paths == paths[..|paths|-1] + [path];
      paths, cycles, visited := Expand(g, root, path, paths[..|paths|-1], cycles, visited, roots, d);
    }
  }

  // ---------------------------------------------------------------- completeness

  lemma RotatedEdge(g: Graph, c: seq<Node>, m: nat, i: nat)
    requires IsCycle(g, c) && m < |c| && 0 < i < |c|
    ensures Edge(g, Rotate(c, m)[i-1], Rotate(c, m)[i])
  {
    hide Edge;
    var r := Rotate(c, m);
    if m + i < |c| {
      assert r[i-1] == c[m+i-1] && r[i] == c[m+i];
    } else if m + i == |c| {
      assert r[i-1] == c[|c|-1] && r[i] == c[0];
    } else {
      assert r[i-1] == c[m+i-|c|-1] && r[i] == c[m+i-|c|];
    }
  }

  lemma RotatedDistinct<T>(s: seq<T>, m: nat)
    requires Distinct(s) && m < |s|
    ensures Distinct(Rotate(s, m)) && forall x :: x in Rotate(s, m) <==> x in s
  {
    assert s == s[..m] + s[m..];
  }

  lemma RotatedWalk(g: Graph, c: seq<Node>, m: nat)
    requires IsCycle(g, c) && m < |c|
    ensures IsCycle(g, Rotate(c, m))
  {
    hide Edge;
    var r := Rotate(c, m);
    forall i | 0 < i < |r|
      ensures Edge(g, r[i-1], r[i])
    {
      RotatedEdge(g, c, m, i);
    }
    if m > 0 {
      assert r[|r|-1] == c[m-1] && r[0] == c[m];
    }
  }

  lemma RotatedCycle(g: Graph, c: seq<Node>, m: nat)
    requires ElementaryCycle(g, c) && m < |c|
    ensures ElementaryCycle(g, Rotate(c, m)) && Rotate(c, m)[0] == c[m]
    ensures Rotation(Rotate(c, m), c)
    ensures forall x {:trigger x in c} :: x in Rotate(c, m) ==> x in c
  {
    hide IsCycle, Distinct;
    RotatedDistinct(c, m);
    RotatedWalk(g, c, m);
    RotationSymmetric(c, Rotate(c, m));
  }

  lemma FirstMeeting(p: seq<Node>, c: seq<Node>) returns (j: nat)
    requires p != [] && p[|p|-1] in c
    ensures j < |p| && p[j] in c && forall i :: 0 <= i < j ==> p[i] !in c
  {
    j := 0;
    while p[j] !in c
      invariant 0 <= j < |p| && forall i :: 0 <= i < j ==> p[i] !in c
      decreases |p| - j
    {
      j := j + 1;
    }
  }

  /** A path into a cycle meets it first somewhere; going once around from there is a simple path. */
  lemma AroundFrom(g: Graph, p: seq<Node>, c: seq<Node>) returns (w: seq<Node>, j: nat)
    requires SimplePath(g, p) && ElementaryCycle(g, c) && p[|p|-1] in c
    ensures SimplePath(g, w) && w[0] == p[0]
    ensures j < |w| && Edge(g, w[|w|-1], w[j]) && Rotation(w[j..], c)
  {
    hide Rotate, Rotation, Edge;
    j := FirstMeeting(p, c);
    var m :| 0 <= m < |c| && c[m] == p[j];
    RotatedCycle(g, c, m);
    var r := Rotate(c, m);
    w := p[..j] + r;
    PathInto(g, p, j, r);
    assert w[|w|-1] == r[|r|-1] && w[j] == r[0];
    assert w[j..] == r;
  }

  lemma PathInto(g: Graph, p: seq<Node>, j: nat, r: seq<Node>)
    requires SimplePath(g, p) && SimplePath(g, r) && j < |p| && p[j] == r[0]
    requires forall i :: 0 <= i < j ==> p[i] !in r
    ensures SimplePath(g, p[..j] + r)
  {
    var w := p[..j] + r;
    forall i | 0 < i < |w|
      ensures Edge(g, w[i-1], w[i])
    {
      if i <= j {
        assert w[i-1] == p[i-1] && w[i] == p[i];
      } else {
        assert w[i-1] == r[i-1-j] && w[i] == r[i-j];
      }
    }
    forall a, b | 0 <= a < b < |w|
      ensures w[a] != w[b]
    {
      if a < j <= b {
        assert r[b-j] in r;
      }
    }
  }

  /** Once all simple paths from a root are expanded, every cycle they reach has been found. */
  lemma ReachedIsFound(g: Graph, cycles: seq<seq<Node>>, roots: set<Node>, c: seq<Node>)
    requires ElementaryCycle(g, c) && Reached(g, roots, c[0])
    requires forall r :: r in roots ==> AllCovered(g, cycles, [], r)
    ensures Found(cycles, c)
  {
    var p :| SimplePath(g, p) && p[0] in roots && p[|p|-1] == c[0];
    var w, j := AroundFrom(g, p, c);
    assert Covered(g, cycles, [], w);
    assert Found(cycles, w[j..]);
    var i :| 0 <= i < |cycles| && Rotation(cycles[i], w[j..]);
    RotationTransitive(cycles[i], w[j..], c);
  }

  lemma FoundIsFoundOnce(g: Graph, cycles: seq<seq<Node>>, c: seq<Node>)
    requires Sound(g, cycles) && Found(cycles, c)
    ensures FoundOnce(cycles, c)
  {
    var i :| 0 <= i < |cycles| && Rotation(cycles[i], c);
    RotationSymmetric(cycles[i], c);
    forall j | 0 <= j < |cycles| && Rotation(cycles[j], c)
      ensures j == i
    {
      RotationSymmetric(cycles[j], c);
      RotationTransitive(cycles[i], c, cycles[j]);
      RotationTransitive(cycles[j], c, cycles[i]);
    }
  }

  lemma MoreRoots(g: Graph, roots: set<Node>, root: Node, visited: set<Node>)
    requires root in g && forall v :: v in visited ==> Reached(g, roots, v)
    ensures forall v :: v in visited + {root} ==> Reached(g, roots + {root}, v)
  {
    forall v | v in visited
      ensures Reached(g, roots + {root}, v)
    {
      var p :| SimplePath(g, p) && p[0] in roots && p[|p|-1] == v;
      assert p[0] in roots + {root};
    }
    assert SimplePath(g, [root]);
  }

  lemma CoveredMonotone(g: Graph, cycles: seq<seq<Node>>, more: seq<seq<Node>>, root: Node)
    requires cycles <= more && AllCovered(g, cycles, [], root)
    ensures AllCovered(g, more, [], root)
  {
    forall p | SimplePath(g, p) && p[0] == root
      ensures Covered(g, more, [], p)
    {
      assert Covered(g, cycles, [], p);
      forall k | 0 <= k < |p| && Edge(g, p[|p|-1], p[k])
        ensures Found(more, p[k..])
      {
        FoundMonotone(cycles, more, p[k..]);
      }
    }
  }

  lemma AllFoundOnce(g: Graph, cycles: seq<seq<Node>>, roots: set<Node>)
    requires Sound(g, cycles)
    requires forall v :: v in g ==> Reached(g, roots, v)
    requires forall r :: r in roots ==> AllCovered(g, cycles, [], r)
    ensures forall c :: ElementaryCycle(g, c) ==> FoundOnce(cycles, c)
    ensures cycles != [] <==> Cyclic(g)
  {
    forall c | ElementaryCycle(g, c)
      ensures FoundOnce(cycles, c)
    {
      assert c[0] in g by {
        if |c| > 1 {
          assert Edge(g, c[0], c[1]);
        }
      }
      ReachedIsFound(g, cycles, roots, c);
      FoundIsFoundOnce(g, cycles, c);
    }
    CyclicIffCore(g);
    if cycles != [] {
      assert ElementaryCycle(g, cycles[0]);
    }
  }

  /** Yields, in order; an exhausted generator. */
  method FindCycles(parentChildren: Graph) returns (cycles: seq<seq<Node>>)
    ensures forall i :: 0 <= i < |cycles| ==> ElementaryCycle(parentChildren, cycles[i])
    ensures forall c :: ElementaryCycle(parentChildren, c) ==> FoundOnce(cycles, c)
    ensures cycles != [] <==> Cyclic(parentChildren)
  {
    hide Reached, AllCovered, Cyclic, FoundOnce;
    cycles := [];
    var visited, todo: set<Node> := {}, parentChildren.Keys;
    ghost var roots: set<Node> := {};
    while todo != {}
      invariant todo <= parentChildren.Keys
      invariant Sound(parentChildren, cycles)
      invariant forall v :: v in visited ==> Reached(parentChildren, roots, v)
      invariant forall r :: r in roots ==> AllCovered(parentChildren, cycles, [], r)
      invariant forall v :: v in parentChildren && v !in todo ==> Reached(parentChildren, roots, v)
    {
      var parent :| parent in todo;
      todo := todo - {parent};
      if parent !in visited {
        MoreRoots(parentChildren, roots, parent, visited + (parentChildren.Keys - todo - {parent}));
        ghost var roots0, cycles0 := roots, cycles;
        roots := roots + {parent};
        cycles, visited := SearchFrom(parentChildren, parent, cycles, visited, roots);
        forall r | r in roots0
          ensures AllCovered(parentChildren, cycles, [], r)
        {
          CoveredMonotone(parentChildren, cycles0, cycles, r);
        }
      }
    }
    AllFoundOnce(parentChildren, cycles, roots);
  }
}
