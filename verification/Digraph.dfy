/**
 Directed graphs as topsort.py holds them: a dictionary from a parent to its collection of
 children, where a child may be listed more than once and need not be a key itself.
 */
module Digraph {
  import opened Basics

  /** Any hashable element. */
  type Node(==,!new)

  /** parent -> collection of children */
  type Graph = map<Node, seq<Node>>

  ghost predicate Edge(g: Graph, p: Node, c: Node) {
    p in g && c in g[p]
  }

  ghost function Nodes(g: Graph): set<Node> {
    g.Keys + set p, c | p in g && c in g[p] :: c
  }

  ghost predicate IsPath(g: Graph, p: seq<Node>) {
    p != [] && forall i :: 0 < i < |p| ==> Edge(g, p[i-1], p[i])
  }

  ghost predicate SimplePath(g: Graph, p: seq<Node>) {
    IsPath(g, p) && Distinct(p)
  }

  /** A closed walk: the last item is a parent of the first. */
  ghost predicate IsCycle(g: Graph, c: seq<Node>) {
    IsPath(g, c) && Edge(g, c[|c|-1], c[0])
  }

  ghost predicate ElementaryCycle(g: Graph, c: seq<Node>) {
    IsCycle(g, c) && Distinct(c)
  }

  ghost predicate Cyclic(g: Graph) {
    exists c :: IsCycle(g, c)
  }

  // ---------------------------------------------------------------- cores

  ghost predicate HasParentIn(g: Graph, s: set<Node>, x: Node) {
    exists p :: p in s && Edge(g, p, x)
  }

  /** Every member of s has a parent in s. */
  ghost predicate SelfSupported(g: Graph, s: set<Node>) {
    forall x {:trigger HasParentIn(g, s, x)} :: x in s ==> HasParentIn(g, s, x)
  }

  ghost predicate Supported(g: Graph, x: Node) {
    exists s: set<Node> :: SelfSupported(g, s) && x in s
  }

  /** The largest self-supported set: see CoreIsLargest. */
  ghost function Core(g: Graph): set<Node> {
    set x | x in Nodes(g) && Supported(g, x)
  }

  lemma CoreIsLargest(g: Graph, s: set<Node>)
    requires SelfSupported(g, s)
    ensures s <= Core(g)
  {
    forall x | x in s
      ensures x in Core(g)
    {
      assert HasParentIn(g, s, x);
      assert Supported(g, x);
    }
  }

  lemma CoreIsSelfSupported(g: Graph)
    ensures SelfSupported(g, Core(g))
  {
    forall x | x in Core(g)
      ensures HasParentIn(g, Core(g), x)
    {
      var s: set<Node> :| SelfSupported(g, s) && x in s;
      assert HasParentIn(g, s, x);
      var p :| p in s && Edge(g, p, x);
      assert Supported(g, p);
    }
  }

  /** The nodes of a closed walk support each other. */
  lemma CycleIsSelfSupported(g: Graph, c: seq<Node>)
    requires IsCycle(g, c)
    ensures SelfSupported(g, set x | x in c)
  {
    var s := set x | x in c;
    forall x | x in s
      ensures HasParentIn(g, s, x)
    {
      var i :| 0 <= i < |c| && c[i] == x;
      if i == 0 {
        assert c[|c|-1] in s && Edge(g, c[|c|-1], x);
      } else {
        assert c[i-1] in s && Edge(g, c[i-1], x);
      }
    }
  }

  lemma DistinctFits(p: seq<Node>, s: set<Node>)
    requires Distinct(p) && forall x :: x in p ==> x in s
    ensures |p| <= |s|
  {
    if p != [] {
      var n := |p| - 1;
      DistinctFits(p[..n], s - {p[n]});
    }
  }

  /** Walking from parent to parent inside a self-supported set closes a cycle, from which a path leads back. */
  lemma WalkBack(g: Graph, s: set<Node>, p: seq<Node>) returns (c: seq<Node>, w: seq<Node>)
    requires SelfSupported(g, s)
    requires SimplePath(g, p) && forall x :: x in p ==> x in s
    ensures ElementaryCycle(g, c)
    ensures SimplePath(g, w) && w[0] == c[0] && w[|w|-1] == p[|p|-1]
    decreases |s| - |p|
  {
    DistinctFits(p, s);
    assert p[0] in s;
    assert HasParentIn(g, s, p[0]);
    var q :| q in s && Edge(g, q, p[0]);
    if q in p {
      var k :| 0 <= k < |p| && p[k] == q;
      c, w := p[..k+1], p;
    } else {
      var longer := [q] + p;
      DistinctFits(longer, s);
      c, w := WalkBack(g, s, longer);
    }
  }

  /** Some path leads from a node of a closed walk to x. */
  ghost predicate BehindCycle(g: Graph, x: Node) {
    exists c, w :: IsCycle(g, c) && IsPath(g, w) && w[0] in c && w[|w|-1] == x
  }

  /** The core is what can be reached from a cycle. */
  lemma CoreIsBehindCycles(g: Graph, x: Node)
    ensures x in Core(g) <==> BehindCycle(g, x)
  {
    if x in Core(g) {
      CoreIsSelfSupported(g);
      var c, w := WalkBack(g, Core(g), [x]);
    }
    if BehindCycle(g, x) {
      var c, w :| IsCycle(g, c) && IsPath(g, w) && w[0] in c && w[|w|-1] == x;
      var s := (set y | y in c) + set y | y in w;
      CycleIsSelfSupported(g, c);
      forall y | y in s
        ensures HasParentIn(g, s, y)
      {
        if y in c {
          assert HasParentIn(g, (set z | z in c), y);
        } else {
          var i :| 0 <= i < |w| && w[i] == y;
          assert i > 0 && Edge(g, w[i-1], y);
        }
      }
      CoreIsLargest(g, s);
    }
  }

  ghost predicate HasChild(g: Graph, x: Node) {
    exists c :: Edge(g, x, c)
  }

  /** A graph has a closed walk exactly when its core is not empty, and then it has an elementary cycle. */
  lemma CyclicIffCore(g: Graph)
    ensures Cyclic(g) <==> Core(g) != {}
    ensures Cyclic(g) <==> exists c :: ElementaryCycle(g, c)
  {
    if Cyclic(g) {
      var c :| IsCycle(g, c);
      CycleIsSelfSupported(g, c);
      CoreIsLargest(g, set x | x in c);
      assert c[0] in Core(g);
    }
    if Core(g) != {} {
      var x :| x in Core(g);
      CoreIsSelfSupported(g);
      var c, w := WalkBack(g, Core(g), [x]);
      assert ElementaryCycle(g, c) && IsCycle(g, c);
    }
  }
}
