/**
 topsort, topsort_levels and topsort_levels_core of topsort.py: Kahn's algorithm on a list that
 grows inside its own loop, and its level-by-level variant.
 */
module Topsort {
  import opened Basics
  import opened Digraph

  type Pairs = seq<(Node, Node)>

  /** CycleError carries what the source raises; levels has no answer list in its error. */
  datatype SortResult =
    | Sorted(answer: seq<Node>)
    | CycleError(answer: seq<Node>, numParents: map<Node, int>, children: Graph)

  datatype LevelsEnd =
    | StopIteration
    | LevelsCycleError(numParents: map<Node, int>, children: Graph)
    | KeyError

  // ---------------------------------------------------------------- what the maps mean

  /** The children dictionary of a pair list. */
  ghost function ChildrenOf(pairs: Pairs): Graph {
    if pairs == [] then map[]
    else
      var (p, c) := pairs[|pairs|-1];
      var g := ChildrenOf(pairs[..|pairs|-1]);
      g[p := (if p in g then g[p] else []) + [c]]
  }

  ghost function Elements(pairs: Pairs): set<Node> {
    (set i | 0 <= i < |pairs| :: pairs[i].0) + (set i | 0 <= i < |pairs| :: pairs[i].1)
  }

  lemma {:induction false} EdgeIffPair(pairs: Pairs, p: Node, c: Node)
    ensures Edge(ChildrenOf(pairs), p, c) <==> (p, c) in pairs
  {
    if pairs != [] {
      var n := |pairs| - 1;
      EdgeIffPair(pairs[..n], p, c);
      assert pairs == pairs[..n] + [pairs[n]];
      var g, g' := ChildrenOf(pairs[..n]), ChildrenOf(pairs);
      var q := pairs[n].0;
      assert g' == g[q := (if q in g then g[q] else []) + [pairs[n].1]];
      assert p != q ==> (Edge(g', p, c) <==> Edge(g, p, c));
    }
  }

  lemma {:induction false} KeyIffParent(pairs: Pairs, p: Node)
    ensures p in ChildrenOf(pairs) <==> exists i :: 0 <= i < |pairs| && pairs[i].0 == p
  {
    if pairs != [] {
      var n := |pairs| - 1;
      KeyIffParent(pairs[..n], p);
      assert pairs == pairs[..n] + [pairs[n]];
      if p == pairs[n].0 {
        assert pairs[n].0 == p;
      } else {
        forall i | 0 <= i < |pairs| && pairs[i].0 == p
          ensures p in ChildrenOf(pairs[..n])
        {
          assert pairs[..n][i].0 == p;
        }
      }
    }
  }

  lemma NodesAreElements(pairs: Pairs)
    ensures Nodes(ChildrenOf(pairs)) == Elements(pairs)
  {
    var g := ChildrenOf(pairs);
    forall x
      ensures x in Nodes(g) <==> x in Elements(pairs)
    {
      KeyIffParent(pairs, x);
      if x in Nodes(g) && x !in g {
        var p, c :| p in g && c in g[p] && c == x;
        assert Edge(g, p, x);
        EdgeIffPair(pairs, p, x);
        var i :| 0 <= i < |pairs| && pairs[i] == (p, x);
        assert pairs[i].1 == x;
      }
      if x in Elements(pairs) {
        if i :| 0 <= i < |pairs| && pairs[i].1 == x {
          EdgeIffPair(pairs, pairs[i].0, x);
          assert pairs[i] == (pairs[i].0, x);
          assert Edge(g, pairs[i].0, x);
        }
      }
    }
  }

  // ---------------------------------------------------------------- counting open slots

  /** A slot (p, k) of x says that x is the k-th child of p; it is open while p is not done. */
  ghost function Slots(g: Graph, done: set<Node>, x: Node): set<(Node, int)> {
    set p, k | p in g && 0 <= k < |g[p]| && p !in done && g[p][k] == x :: (p, k)
  }

  /** Open slots when the first j children of cur have been handled as well. */
  ghost function PartSlots(g: Graph, done: set<Node>, cur: Node, j: int, x: Node): set<(Node, int)> {
    set p, k | p in g && 0 <= k < |g[p]| && p !in done && g[p][k] == x && (p == cur ==> j <= k) :: (p, k)
  }

  ghost predicate Counts(g: Graph, done: set<Node>, num: map<Node, int>) {
    forall x :: x in num ==> num[x] == |Slots(g, done, x)|
  }

  ghost predicate PartCounts(g: Graph, done: set<Node>, cur: Node, j: int, num: map<Node, int>) {
    forall x :: x in num ==> num[x] == |PartSlots(g, done, cur, j, x)|
  }

  lemma PartStart(g: Graph, done: set<Node>, cur: Node, x: Node)
    ensures PartSlots(g, done, cur, 0, x) == Slots(g, done, x)
  {
  }

  lemma PartEnd(g: Graph, done: set<Node>, cur: Node, x: Node)
    ensures PartSlots(g, done, cur, if cur in g then |g[cur]| else 0, x) == Slots(g, done + {cur}, x)
  {
  }

  /** Handling child j of cur closes exactly one slot, and it belongs to that child. */
  lemma CloseSlot(g: Graph, done: set<Node>, cur: Node, j: int, x: Node)
    requires cur in g && cur !in done && 0 <= j < |g[cur]|
    ensures |PartSlots(g, done, cur, j + 1, x)|
         == |PartSlots(g, done, cur, j, x)| - if x == g[cur][j] then 1 else 0
  {
    var before, after := PartSlots(g, done, cur, j, x), PartSlots(g, done, cur, j + 1, x);
    if x == g[cur][j] {
      assert (cur, j) in before;
      assert after == before - {(cur, j)};
    } else {
      assert after == before;
    }
  }

  lemma PartStarts(g: Graph, done: set<Node>, cur: Node, num: map<Node, int>)
    requires Counts(g, done, num)
    ensures PartCounts(g, done, cur, 0, num)
  {
    forall x | x in num
      ensures num[x] == |PartSlots(g, done, cur, 0, x)|
    {
      PartStart(g, done, cur, x);
    }
  }

  lemma PartEnds(g: Graph, done: set<Node>, cur: Node, num: map<Node, int>)
    requires cur in g && PartCounts(g, done, cur, |g[cur]|, num)
    ensures Counts(g, done + {cur}, num)
  {
    forall x | x in num
      ensures num[x] == |Slots(g, done + {cur}, x)|
    {
      PartEnd(g, done, cur, x);
    }
  }

  /** Decrementing the entry of child j of cur keeps the counts right. */
  lemma DropSlot(g: Graph, done: set<Node>, cur: Node, j: int, num: map<Node, int>)
    requires cur in g && cur !in done && 0 <= j < |g[cur]| && g[cur][j] in num
    requires PartCounts(g, done, cur, j, num)
    ensures PartCounts(g, done, cur, j + 1, num[g[cur][j] := num[g[cur][j]] - 1])
  {
    forall x | x in num
      ensures num[g[cur][j] := num[g[cur][j]] - 1][x] == |PartSlots(g, done, cur, j + 1, x)|
    {
      CloseSlot(g, done, cur, j, x);
    }
  }

  lemma NoSlotsNoParents(g: Graph, done: set<Node>, x: Node)
    ensures |Slots(g, done, x)| == 0 <==> forall p :: Edge(g, p, x) ==> p in done
  {
    if |Slots(g, done, x)| != 0 {
      var slot :| slot in Slots(g, done, x);
      assert Edge(g, slot.0, x);
    } else {
      forall p | Edge(g, p, x)
        ensures p in done
      {
        var k :| 0 <= k < |g[p]| && g[p][k] == x;
        assert p !in done ==> (p, k) in Slots(g, done, x);
      }
    }
  }

  /** Open slots of x, counted as the pairs into x whose parent is not done. */
  lemma {:induction false} SlotsArePairs(pairs: Pairs, done: set<Node>, x: Node)
    ensures |Slots(ChildrenOf(pairs), done, x)|
         == |set i | 0 <= i < |pairs| && pairs[i].1 == x && pairs[i].0 !in done|
  {
    if pairs == [] {
      assert Slots(ChildrenOf(pairs), done, x) == {};
    } else {
      var n := |pairs| - 1;
      var init := pairs[..n];
      SlotsArePairs(init, done, x);
      AddPair(init, pairs[n], done, x);
      assert pairs == init + [pairs[n]];
      var a := set i | 0 <= i < n && init[i].1 == x && init[i].0 !in done;
      var b := set i | 0 <= i < |pairs| && pairs[i].1 == x && pairs[i].0 !in done;
      if pairs[n].1 == x && pairs[n].0 !in done {
        assert b == a + {n};
      } else {
        assert b == a;
      }
    }
  }

  lemma AddPair(pairs: Pairs, pair: (Node, Node), done: set<Node>, x: Node)
    ensures |Slots(ChildrenOf(pairs + [pair]), done, x)|
         == |Slots(ChildrenOf(pairs), done, x)| + if x == pair.1 && pair.0 !in done then 1 else 0
  {
    assert (pairs + [pair])[..|pairs|] == pairs;
    AddChild(ChildrenOf(pairs), ChildrenOf(pairs + [pair]), pair.0, pair.1, done, x);
  }

  /** Giving p one more child c adds just the slot (p, number of children so far), unless p is done. */
  lemma AddedSlot(g: Graph, g': Graph, p: Node, c: Node, done: set<Node>, x: Node, s: (Node, int))
    requires g' == g[p := (if p in g then g[p] else []) + [c]]
    ensures s in Slots(g', done, x) <==>
      s in Slots(g, done, x) || (s == (p, if p in g then |g[p]| else 0) && x == c && p !in done)
  {
    if s.0 in g && s.0 != p {
      assert g'[s.0] == g[s.0];
    }
  }

  lemma AddChild(g: Graph, g': Graph, p: Node, c: Node, done: set<Node>, x: Node)
    requires g' == g[p := (if p in g then g[p] else []) + [c]]
    ensures |Slots(g', done, x)| == |Slots(g, done, x)| + if x == c && p !in done then 1 else 0
  {
    var before, after := Slots(g, done, x), Slots(g', done, x);
    var slot := (p, if p in g then |g[p]| else 0);
    var extra := if x == c && p !in done then {slot} else {};
    assert slot !in before;
    forall s
      ensures s in after <==> s in before + extra
    {
      AddedSlot(g, g', p, c, done, x, s);
    }
    assert after == before + extra;
  }

  // ---------------------------------------------------------------- building the maps

  /** Lines 77-90, and again 157-170. */
  method BuildMaps(pairs: Pairs) returns (num: map<Node, int>, children: Graph)
    ensures children == ChildrenOf(pairs)
    ensures num.Keys == Elements(pairs) == Nodes(children)
    ensures Counts(children, {}, num)
  {
    hide Slots;
    num, children := map[], map[];
    for i := 0 to |pairs|
      invariant children == ChildrenOf(pairs[..i])
      invariant num.Keys == Elements(pairs[..i])
      invariant Counts(children, {}, num)
    {
      var (parent, child) := pairs[i];
      ghost var num0 := num;
      if parent !in num {
        num := num[parent := 0];
      }
      if child !in num {
        num := num[child := 0];
      }
      num := num[child := num[child] + 1];
      children := children[parent := (if parent in children then children[parent] else []) + [child]];
      assert pairs[..i+1][..i] == pairs[..i] && pairs[..i+1][i] == pairs[i];
      MoreElements(pairs, i);
      CountPair(pairs[..i], children, num0, parent, child, num);
    }
    assert pairs[..|pairs|] == pairs;
    NodesAreElements(pairs);
  }

  lemma MoreElements(pairs: Pairs, i: nat)
    requires i < |pairs|
    ensures Elements(pairs[..i+1]) == Elements(pairs[..i]) + {pairs[i].0, pairs[i].1}
  {
    var before, after := pairs[..i], pairs[..i+1];
    forall x
      ensures x in Elements(after) <==> x in Elements(before) + {pairs[i].0, pairs[i].1}
    {
      if x in Elements(before) {
        if j :| 0 <= j < |before| && before[j].0 == x {
          assert after[j].0 == x;
        } else {
          var j :| 0 <= j < |before| && before[j].1 == x;
          assert after[j].1 == x;
        }
      }
      assert after[i].0 == pairs[i].0 && after[i].1 == pairs[i].1;
    }
  }

  /** One round of the counting loop: new keys start at 0, and child gains a parent. */
  lemma CountPair(pairs: Pairs, g': Graph, num0: map<Node, int>, p: Node, c: Node, num: map<Node, int>)
    requires num0.Keys == Elements(pairs) && Counts(ChildrenOf(pairs), {}, num0)
    requires num.Keys == num0.Keys + {p, c}
    requires forall x :: x in num ==> num[x] == (if x in num0 then num0[x] else 0) + if x == c then 1 else 0
    requires var g := ChildrenOf(pairs); g' == g[p := (if p in g then g[p] else []) + [c]]
    ensures Counts(g', {}, num)
  {
    forall x | x in num
      ensures num[x] == |Slots(g', {}, x)|
    {
      AddChild(ChildrenOf(pairs), g', p, c, {}, x);
      if x !in num0 {
        Fresh(pairs, x);
      }
    }
  }

  lemma Fresh(pairs: Pairs, x: Node)
    requires x !in Elements(pairs)
    ensures |Slots(ChildrenOf(pairs), {}, x)| == 0
  {
    NodesAreElements(pairs);
    assert Slots(ChildrenOf(pairs), {}, x) == {};
  }

  /** Dictionary order is not specified, so any order will do. */
  method KeysAtZero(num: map<Node, int>) returns (zeros: seq<Node>)
    ensures Distinct(zeros)
    ensures forall x :: x in zeros <==> x in num && num[x] == 0
  {
    zeros := [];
    var keys := num.Keys;
    while keys != {}
      invariant keys <= num.Keys
      invariant Distinct(zeros)
      invariant forall x :: x in zeros <==> x in num && x !in keys && num[x] == 0
    {
      var x :| x in keys;
      keys := keys - {x};
      if num[x] == 0 {
        zeros := zeros + [x];
      }
    }
  }

  // ---------------------------------------------------------------- orders and leftovers

  /** No repetition, and all parents of an item come before it. */
  ghost predicate ParentsFirst(g: Graph, order: seq<Node>) {
    && Distinct(order)
    && forall k, p :: 0 <= k < |order| && Edge(g, p, order[k]) ==> p in order[..k]
  }

  ghost function Members(s: seq<Node>): set<Node> {
    set x | x in s
  }

  /** num_parents at a CycleError: the core, each node with its number of parents in the core. */
  ghost function LeftoverCounts(g: Graph): map<Node, int> {
    map x | x in Core(g) :: |Slots(g, Nodes(g) - Core(g), x)|
  }

  ghost function LeftoverChildren(g: Graph): Graph {
    map p | p in g && p in Core(g) :: g[p]
  }

  /** A parents-first order meets no self-supported set. */
  lemma {:induction false} OrderAvoids(g: Graph, order: seq<Node>, s: set<Node>, k: nat)
    requires ParentsFirst(g, order) && SelfSupported(g, s) && k < |order|
    ensures order[k] !in s
  {
    if order[k] in s {
      assert HasParentIn(g, s, order[k]);
      var p :| p in s && Edge(g, p, order[k]);
      var i :| 0 <= i < k && order[..k][i] == p;
      OrderAvoids(g, order, s, i);
    }
  }

  /** When no node is free any more, what is left is the core. */
  lemma LeftIsCore(g: Graph, order: seq<Node>, left: set<Node>)
    requires ParentsFirst(g, order)
    requires Nodes(g) <= Members(order) + left && left !! Members(order)
    requires forall x :: x in left ==> |Slots(g, Members(order), x)| != 0
    ensures left == Core(g)
  {
    forall x | x in left
      ensures HasParentIn(g, left, x)
    {
      NoSlotsNoParents(g, Members(order), x);
      var p :| Edge(g, p, x) && p !in Members(order);
      assert p in Nodes(g);
    }
    CoreIsLargest(g, left);
    CoreIsSelfSupported(g);
    forall x | x in Core(g)
      ensures x in left
    {
      if x in order {
        var k :| 0 <= k < |order| && order[k] == x;
        OrderAvoids(g, order, Core(g), k);
      }
    }
  }

  /** Slots depend on which parents of x are done, and those are nodes. */
  lemma SameSlots(g: Graph, d: set<Node>, e: set<Node>, x: Node)
    requires forall p :: p in g ==> (p in d <==> p in e)
    ensures Slots(g, d, x) == Slots(g, e, x)
  {
  }

  lemma LeftoversAre(g: Graph, done: set<Node>, num: map<Node, int>, children: Graph)
    requires num.Keys == Core(g) && Nodes(g) <= done + Core(g) && done !! Core(g)
    requires Counts(g, done, num)
    requires children == map p | p in g && p !in done :: g[p]
    ensures num == LeftoverCounts(g) && children == LeftoverChildren(g)
  {
    forall x | x in num
      ensures num[x] == LeftoverCounts(g)[x]
    {
      SameSlots(g, done, Nodes(g) - Core(g), x);
    }
  }

  /**
   The children map of a CycleError has exactly the cycles of the whole map, so that find_cycles may be
   given either.
   */
  lemma LeftoversKeepCycles(g: Graph, c: seq<Node>)
    ensures ElementaryCycle(LeftoverChildren(g), c) <==> ElementaryCycle(g, c)
    ensures Cyclic(LeftoverChildren(g)) <==> Cyclic(g)
  {
    forall d | IsCycle(g, d)
      ensures IsCycle(LeftoverChildren(g), d)
    {
      CycleIsSelfSupported(g, d);
      CoreIsLargest(g, set x | x in d);
      assert forall i :: 0 <= i < |d| ==> d[i] in Core(g);
    }
    assert forall d :: IsCycle(LeftoverChildren(g), d) ==> IsCycle(g, d);
  }

  /** Everything left over has a child exactly if no path leads from a cycle to a node without children. */
  lemma LeftoversHaveChildrenIff(g: Graph)
    ensures (forall x :: x in LeftoverCounts(g) ==> HasChild(g, x))
       <==> forall x :: BehindCycle(g, x) ==> HasChild(g, x)
  {
    hide HasChild, BehindCycle, Core;
    forall x
      ensures x in LeftoverCounts(g) <==> BehindCycle(g, x)
    {
      CoreIsBehindCycles(g, x);
    }
  }

  /** x depends on itself and y on x: y is left over, with a parent but without a child. */
  lemma ChildlessLeftover(x: Node, y: Node)
    requires x != y
    ensures var g := ChildrenOf([(x, x), (x, y)]);
      Cyclic(g) && y in LeftoverCounts(g) && !HasChild(g, y) && !HasChild(LeftoverChildren(g), y)
  {
    var pairs := [(x, x), (x, y)];
    var g := ChildrenOf(pairs);
    forall p, c
      ensures Edge(g, p, c) <==> (p, c) in [(x, x), (x, y)]
    {
      EdgeIffPair(pairs, p, c);
    }
    assert forall c :: Edge(LeftoverChildren(g), y, c) ==> Edge(g, y, c);
    assert IsCycle(g, [x]) && IsPath(g, [x, y]) && [x, y][0] in [x];
    CoreIsBehindCycles(g, y);
  }

  // ---------------------------------------------------------------- first freed, first listed

  /** The k-th child of the i-th item of the answer. */
  datatype Place = Place(i: int, k: int)

  predicate Before(s: Place, t: Place) {
    s.i < t.i || (s.i == t.i && s.k < t.k)
  }

  ghost predicate HasParent(g: Graph, x: Node) {
    exists p :: Edge(g, p, x)
  }

  ghost predicate IsAt(g: Graph, answer: seq<Node>, x: Node, s: Place) {
    0 <= s.i < |answer| && answer[s.i] in g && 0 <= s.k < |g[answer[s.i]]| && g[answer[s.i]][s.k] == x
  }

  /** x is freed when the loops come to s, the last place where it is a child. */
  ghost predicate FreedAt(g: Graph, answer: seq<Node>, x: Node, s: Place) {
    IsAt(g, answer, x, s) && forall t :: IsAt(g, answer, x, t) ==> t == s || Before(t, s)
  }

  /** Items without parents come first, and the others in the order in which they are freed. */
  ghost predicate FirstFreedFirst(g: Graph, answer: seq<Node>) {
    forall a, b :: 0 <= a < b < |answer| ==>
      && (HasParent(g, answer[a]) ==> HasParent(g, answer[b]))
      && forall s, t :: FreedAt(g, answer, answer[a], s) && FreedAt(g, answer, answer[b], t) ==> Before(s, t)
  }

  /** places holds where each item was freed, before now; Place(-1, -1) for items without parents. */
  ghost predicate Queued(g: Graph, answer: seq<Node>, places: seq<Place>, now: Place) {
    && |places| == |answer|
    && (forall a :: 0 <= a < |answer| ==> PlaceIs(g, answer, answer[a], places[a]) && Before(places[a], now))
    && forall a, b :: 0 <= a < b < |answer| ==> Before(places[a], places[b]) || places[a] == places[b] == Place(-1, -1)
  }

  ghost predicate PlaceIs(g: Graph, answer: seq<Node>, x: Node, s: Place) {
    if HasParent(g, x) then FreedAt(g, answer, x, s) else s == Place(-1, -1)
  }

  lemma QueuedIsFirstFreed(g: Graph, answer: seq<Node>, places: seq<Place>, now: Place)
    requires Queued(g, answer, places, now)
    ensures FirstFreedFirst(g, answer)
  {
    hide IsAt, HasParent;
    forall a, b | 0 <= a < b < |answer|
      ensures HasParent(g, answer[a]) ==> HasParent(g, answer[b])
      ensures forall s, t :: FreedAt(g, answer, answer[a], s) && FreedAt(g, answer, answer[b], t) ==> Before(s, t)
    {
      assert PlaceIs(g, answer, answer[a], places[a]) && PlaceIs(g, answer, answer[b], places[b]);
      AtNeedsParent(g, answer, answer[a]);
      AtNeedsParent(g, answer, answer[b]);
    }
  }

  lemma AtNeedsParent(g: Graph, answer: seq<Node>, x: Node)
    ensures forall s :: IsAt(g, answer, x, s) ==> HasParent(g, x) && s.i >= 0
  {
    forall s | IsAt(g, answer, x, s)
      ensures HasParent(g, x)
    {
      assert Edge(g, answer[s.i], x);
    }
  }

  lemma QueuedStart(g: Graph, answer: seq<Node>)
    requires forall a :: 0 <= a < |answer| ==> !HasParent(g, answer[a])
    ensures Queued(g, answer, seq(|answer|, _ => Place(-1, -1)), Place(0, 0))
  {
    hide HasParent;
  }

  lemma QueuedLater(g: Graph, answer: seq<Node>, places: seq<Place>, now: Place, later: Place)
    requires Queued(g, answer, places, now) && (now == later || Before(now, later))
    ensures Queued(g, answer, places, later)
  {
    hide PlaceIs;
  }

  /** The child at now is freed, and none of the items before it is its child. */
  lemma QueuedMore(g: Graph, answer: seq<Node>, places: seq<Place>, now: Place, child: Node)
    requires Queued(g, answer, places, now) && now.i >= 0 && now.k >= 0
    requires FreedAt(g, answer + [child], child, now)
    requires forall a :: 0 <= a < |answer| ==> !Edge(g, child, answer[a])
    ensures Queued(g, answer + [child], places + [now], Place(now.i, now.k + 1))
  {
    var longer, more := answer + [child], places + [now];
    AtNeedsParent(g, longer, child);
    forall a | 0 <= a < |answer|
      ensures PlaceIs(g, longer, longer[a], more[a])
    {
      assert PlaceIs(g, answer, answer[a], places[a]);
      SamePlaces(g, answer, child, answer[a]);
    }
    hide FreedAt, HasParent, IsAt;
    assert longer[|answer|] == child && more[|answer|] == now;
    assert PlaceIs(g, longer, child, now);
  }

  lemma SamePlaces(g: Graph, answer: seq<Node>, child: Node, x: Node)
    requires !Edge(g, child, x)
    ensures forall s :: IsAt(g, answer + [child], x, s) <==> IsAt(g, answer, x, s)
  {
  }

  /** Child j of cur is freed there, if it has no other open slot. */
  lemma FreedNow(g: Graph, answer: seq<Node>, i: nat, j: nat, child: Node)
    requires i < |answer| && Distinct(answer) && answer[i] in g && j < |g[answer[i]]| && g[answer[i]][j] == child
    requires |PartSlots(g, Members(answer[..i]), answer[i], j + 1, child)| == 0 && child !in answer
    requires !Edge(g, child, child)
    ensures FreedAt(g, answer + [child], child, Place(i, j))
  {
    var longer := answer + [child];
    forall t | IsAt(g, longer, child, t)
      ensures t == Place(i, j) || Before(t, Place(i, j))
    {
      var p := longer[t.i];
      assert Edge(g, p, child);
      assert t.i < |answer| && answer[t.i] == p;
      assert (p, t.k) !in PartSlots(g, Members(answer[..i]), answer[i], j + 1, child);
      assert p in answer[..i] || (p == answer[i] && t.k <= j);
    }
  }

  lemma NotParent(g: Graph, answer: seq<Node>, child: Node)
    requires ParentsFirst(g, answer) && child !in answer
    ensures forall a :: 0 <= a < |answer| ==> !Edge(g, child, answer[a])
  {
  }

  // ---------------------------------------------------------------- topsort

  /** What holds whenever the loop of topsort has handled the first i items of answer. */
  ghost predicate Handled(g: Graph, num: map<Node, int>, children: Graph, answer: seq<Node>, i: int)
  {
    && 0 <= i <= |answer|
    && num.Keys == Nodes(g) - Members(answer[..i])
    && Counts(g, Members(answer[..i]), num)
    && (forall x :: x in num ==> (num[x] == 0 <==> x in answer))
    && ParentsFirst(g, answer) && Members(answer) <= Nodes(g)
    && children == map p | p in g && p !in answer[..i] :: g[p]
  }

  lemma ClosedChild(g: Graph, done: set<Node>, cur: Node, j: int, child: Node)
    requires |PartSlots(g, done, cur, j, child)| == 0
    ensures forall p :: Edge(g, p, child) ==> p in done + {cur}
  {
    forall p | Edge(g, p, child)
      ensures p in done + {cur}
    {
      var k :| 0 <= k < |g[p]| && g[p][k] == child;
      assert p !in done && p != cur ==> (p, k) in PartSlots(g, done, cur, j, child);
    }
  }

  lemma AppendFree(g: Graph, answer: seq<Node>, n: nat, child: Node)
    requires ParentsFirst(g, answer) && child !in answer && n <= |answer|
    requires forall p :: Edge(g, p, child) ==> p in answer[..n]
    ensures ParentsFirst(g, answer + [child])
  {
    var longer := answer + [child];
    forall k, p | 0 <= k < |longer| && Edge(g, p, longer[k])
      ensures p in longer[..k]
    {
      if k < |answer| {
        assert longer[..k] == answer[..k];
      } else {
        assert longer[..k] == answer;
        assert p in answer[..n];
      }
    }
  }

  /** Lines 100-103 for parent == answer[i]: parent is already deleted from num. */
  method KnockDown(ghost g: Graph, kids: seq<Node>, num0: map<Node, int>, answer0: seq<Node>, ghost i: nat,
                   ghost places0: seq<Place>)
    returns (num: map<Node, int>, answer: seq<Node>, ghost places: seq<Place>)
    requires i < |answer0| && ParentsFirst(g, answer0) && Members(answer0) <= Nodes(g)
    requires answer0[i] in g && g[answer0[i]] == kids
    requires num0.Keys == Nodes(g) - Members(answer0[..i+1])
    requires Counts(g, Members(answer0[..i]), num0)
    requires forall x :: x in num0 ==> (num0[x] == 0 <==> x in answer0)
    requires Queued(g, answer0, places0, Place(i, 0))
    ensures Queued(g, answer, places, Place(i + 1, 0))
    ensures answer0 <= answer && ParentsFirst(g, answer) && Members(answer) <= Nodes(g)
    ensures num.Keys == num0.Keys && Counts(g, Members(answer0[..i+1]), num)
    ensures forall x :: x in num ==> (num[x] == 0 <==> x in answer)
  {
    hide Slots, PartSlots, Core, Supported, Queued, FreedAt, Before;
    answer, num, places := answer0, num0, places0;
    ghost var parent, done := answer0[i], Members(answer0[..i]);
    assert parent !in done;
    PartStarts(g, done, parent, num);
    for j := 0 to |kids|
      invariant num.Keys == num0.Keys
      invariant PartCounts(g, done, parent, j, num)
      invariant forall x :: x in num ==> (num[x] == 0 <==> x in answer)
      invariant ParentsFirst(g, answer) && Members(answer) <= Nodes(g)
      invariant answer0 <= answer
      invariant Queued(g, answer, places, Place(i, j))
    {
      var child := kids[j];
      assert Edge(g, parent, child);
      DropSlot(g, done, parent, j, num);
      num := num[child := num[child] - 1];
      if num[child] == 0 {
        assert answer[..i] == answer0[..i];
        AppendFreed(g, answer, places, i, j, child);
        answer, places := answer + [child], places + [Place(i, j)];
      } else {
        NextPlace(i, j);
        QueuedLater(g, answer, places, Place(i, j), Place(i, j + 1));
      }
    }
    PartEnds(g, done, parent, num);
    assert Before(Place(i, |kids|), Place(i + 1, 0)) by { NextPlace(i, |kids|); }
    QueuedLater(g, answer, places, Place(i, |kids|), Place(i + 1, 0));
    assert Members(answer0[..i+1]) == done + {parent};
  }

  lemma NextPlace(i: int, k: int)
    ensures Before(Place(i, k), Place(i, k + 1)) && Before(Place(i, k), Place(i + 1, 0))
  {
  }

  lemma NoLoop(g: Graph, answer: seq<Node>, child: Node)
    requires ParentsFirst(g, answer + [child]) && child !in answer
    ensures !Edge(g, child, child)
  {
    var longer := answer + [child];
    assert longer[|answer|] == child && longer[..|answer|] == answer;
  }

  /** Child j of the i-th item, when it has no open slot left. */
  lemma AppendFreed(g: Graph, answer: seq<Node>, places: seq<Place>, i: nat, j: nat, child: Node)
    requires ParentsFirst(g, answer) && child !in answer && Queued(g, answer, places, Place(i, j))
    requires i < |answer| && answer[i] in g && j < |g[answer[i]]| && g[answer[i]][j] == child
    requires |PartSlots(g, Members(answer[..i]), answer[i], j + 1, child)| == 0
    ensures ParentsFirst(g, answer + [child])
    ensures Queued(g, answer + [child], places + [Place(i, j)], Place(i, j + 1))
  {
    hide PartSlots, Queued, FreedAt;
    ClosedChild(g, Members(answer[..i]), answer[i], j + 1, child);
    AppendFree(g, answer, i + 1, child);
    NoLoop(g, answer, child);
    NotParent(g, answer, child);
    FreedNow(g, answer, i, j, child);
    QueuedMore(g, answer, places, Place(i, j), child);
  }

  lemma InBounds(g: Graph, answer: seq<Node>, i: nat)
    requires i < |answer| && Distinct(answer) && Members(answer) <= Nodes(g)
    ensures i < |Nodes(g)|
  {
    DistinctFits(answer, Nodes(g));
  }

  /** Lines 98-106 for parent == answer[i]. */
  method HandleParent(ghost g: Graph, num0: map<Node, int>, children0: Graph, answer0: seq<Node>, i: nat,
                      ghost places0: seq<Place>)
    returns (num: map<Node, int>, children: Graph, answer: seq<Node>, ghost places: seq<Place>)
    requires i < |answer0| && Handled(g, num0, children0, answer0, i) && Queued(g, answer0, places0, Place(i, 0))
    ensures Queued(g, answer, places, Place(i + 1, 0))
    ensures Handled(g, num, children, answer, i + 1)
    ensures answer0 <= answer && i < |Nodes(g)|
  {
    hide Slots, Core, Nodes, Queued, Before;
    InBounds(g, answer0, i);
    answer, children, places := answer0, children0, places0;
    var parent := answer[i];
    num := num0 - {parent};
    assert Members(answer0[..i+1]) == Members(answer0[..i]) + {parent};
    if parent in children {
      num, answer, places := KnockDown(g, children[parent], num, answer, i, places);
      children := children - {parent};
    } else {
      NextPlace(i, 0);
      QueuedLater(g, answer, places, Place(i, 0), Place(i + 1, 0));
      forall x
        ensures Slots(g, Members(answer0[..i]), x) == Slots(g, Members(answer0[..i+1]), x)
      {
        SameSlots(g, Members(answer0[..i]), Members(answer0[..i+1]), x);
      }
    }
    assert answer[..i+1] == answer0[..i+1];
  }

  lemma StartHandled(g: Graph, num: map<Node, int>, answer: seq<Node>)
    requires num.Keys == Nodes(g) && Counts(g, {}, num)
    requires Distinct(answer) && forall x :: x in answer <==> x in num && num[x] == 0
    ensures Handled(g, num, g, answer, 0)
    ensures Queued(g, answer, seq(|answer|, _ => Place(-1, -1)), Place(0, 0))
  {
    assert Members(answer[..0]) == {};
    forall k | 0 <= k < |answer|
      ensures forall p :: !Edge(g, p, answer[k])
    {
      NoSlotsNoParents(g, {}, answer[k]);
    }
    assert g == map p | p in g && p !in answer[..0] :: g[p];
    assert forall k :: 0 <= k < |answer| ==> !HasParent(g, answer[k]);
    QueuedStart(g, answer);
  }

  lemma AllHandled(g: Graph, num: map<Node, int>, children: Graph, answer: seq<Node>)
    requires Handled(g, num, children, answer, |answer|)
    ensures num == LeftoverCounts(g) && children == LeftoverChildren(g)
    ensures Members(answer) == Nodes(g) - Core(g)
    ensures num == map[] <==> !Cyclic(g)
    ensures num == map[] ==> Members(answer) == Nodes(g)
  {
    hide Slots, Cyclic, Supported;
    CyclicIffCore(g);
    assert answer[..|answer|] == answer;
    forall x | x in num
      ensures |Slots(g, Members(answer), x)| != 0
    {
      assert x !in answer;
    }
    LeftIsCore(g, answer, num.Keys);
    assert children == map p | p in g && p !in Members(answer) :: g[p];
    LeftoversAre(g, Members(answer), num, children);
  }

  method Topsort(pairs: Pairs) returns (r: SortResult)
    ensures r.CycleError? <==> Cyclic(ChildrenOf(pairs))
    ensures ParentsFirst(ChildrenOf(pairs), r.answer) && FirstFreedFirst(ChildrenOf(pairs), r.answer)
    ensures Members(r.answer) == Elements(pairs) - Core(ChildrenOf(pairs))
    ensures r.Sorted? ==> Members(r.answer) == Elements(pairs)
    ensures r.CycleError? ==>
      && r.numParents == LeftoverCounts(ChildrenOf(pairs))
      && r.children == LeftoverChildren(ChildrenOf(pairs))
  {
    hide Counts, Core, Nodes, ParentsFirst, Members, Elements, Cyclic, LeftoverCounts, LeftoverChildren, Queued,
      FirstFreedFirst;
    var num, children := BuildMaps(pairs);
    ghost var g := children;
    var answer := KeysAtZero(num);
    ghost var places := seq(|answer|, _ => Place(-1, -1));
    StartHandled(g, num, answer);
    var i := 0;
    while i < |answer|
      invariant Handled(g, num, children, answer, i) && Queued(g, answer, places, Place(i, 0))
      decreases |Nodes(g)| - i
    {
      num, children, answer, places := HandleParent(g, num, children, answer, i, places);
      i := i + 1;
    }
    AllHandled(g, num, children, answer);
    QueuedIsFirstFreed(g, answer, places, Place(i, 0));
    if num != map[] {
      return CycleError(answer, num, children);
    }
    return Sorted(answer);
  }

  // ---------------------------------------------------------------- levels

  ghost function Flatten(levels: seq<seq<Node>>): seq<Node> {
    if levels == [] then [] else Flatten(levels[..|levels|-1]) + levels[|levels|-1]
  }

  ghost predicate PathTo(g: Graph, p: seq<Node>, x: Node) {
    IsPath(g, p) && p[|p|-1] == x
  }

  /** The longest path that ends in x has k edges. */
  ghost predicate LongestPath(g: Graph, x: Node, k: nat) {
    && (exists p :: PathTo(g, p, x) && |p| == k + 1)
    && (forall p :: PathTo(g, p, x) ==> |p| <= k + 1)
  }

  /** Every node is counted, with its number of parents; topsort_levels_core itself takes any two maps. */
  ghost predicate Consistent(num: map<Node, int>, children: Graph) {
    Nodes(children) <= num.Keys && Counts(children, {}, num)
  }

  ghost predicate ParentInLevel(g: Graph, level: seq<Node>, x: Node) {
    exists p :: p in level && Edge(g, p, x)
  }

  /** All parents in earlier levels, and from the second level on one of them in the level just before. */
  ghost predicate Stacked(g: Graph, levels: seq<seq<Node>>, k: int, x: Node)
    requires 0 <= k <= |levels|
  {
    && (forall p :: Edge(g, p, x) ==> p in Flatten(levels[..k]))
    && (k > 0 ==> ParentInLevel(g, levels[k-1], x))
  }

  ghost predicate AllStacked(g: Graph, levels: seq<seq<Node>>) {
    forall k, x {:trigger Stacked(g, levels, k, x)} ::
      0 <= k < |levels| && x in levels[k] ==> Stacked(g, levels, k, x)
  }

  /** Every item of level k is at the end of a longest path of k edges. */
  ghost predicate LevelsAreDepths(g: Graph, levels: seq<seq<Node>>) {
    forall k, x {:trigger LongestPath(g, x, k)} ::
      0 <= k < |levels| && x in levels[k] ==> LongestPath(g, x, k)
  }

  ghost predicate EscapesBefore(g: Graph, before: seq<Node>, x: Node) {
    exists p :: Edge(g, p, x) && p !in before
  }

  /** What holds between two rounds; all is the key set of the initial num_parents. */
  ghost predicate Rounds(g: Graph, all: set<Node>, levels: seq<seq<Node>>, num: map<Node, int>, children: Graph)
  {
    && Nodes(g) <= all
    && num.Keys == all - Members(Flatten(levels)) && Members(Flatten(levels)) <= all
    && Counts(g, Members(Flatten(levels)), num)
    && ParentsFirst(g, Flatten(levels))
    && AllStacked(g, levels)
    && (levels != [] ==>
          forall x :: x in num ==> EscapesBefore(g, Flatten(levels[..|levels|-1]), x))
    && children == (map p | p in g && p !in Flatten(levels) :: g[p])
    && [] !in levels
  }

  /** Counts have changed by the slots closed so far, whatever they were at first. */
  ghost predicate Balanced(g: Graph, num0: map<Node, int>, done: set<Node>, num: map<Node, int>) {
    forall x :: x in num ==> x in num0 && num[x] - |Slots(g, done, x)| == num0[x] - |Slots(g, {}, x)|
  }

  /** Lines 221-224 for any two maps; level_parent is already deleted from num. false stands for a KeyError. */
  method KnockDownLevel(ghost g: Graph, kids: seq<Node>, num1: map<Node, int>, ghost done: set<Node>,
                        ghost parent: Node)
    returns (ok: bool, num: map<Node, int>)
    requires parent in g && g[parent] == kids && parent !in done
    ensures ok <==> forall c :: c in kids ==> c in num1
    ensures ok ==> num.Keys == num1.Keys
    ensures ok ==> forall x :: x in num ==>
      num[x] - |Slots(g, done + {parent}, x)| == num1[x] - |Slots(g, done, x)|
  {
    hide Slots, PartSlots;
    num := num1;
    forall x
      ensures PartSlots(g, done, parent, 0, x) == Slots(g, done, x)
      ensures PartSlots(g, done, parent, |kids|, x) == Slots(g, done + {parent}, x)
    {
      PartStart(g, done, parent, x);
      PartEnd(g, done, parent, x);
    }
    for j := 0 to |kids|
      invariant num.Keys == num1.Keys && forall i :: 0 <= i < j ==> kids[i] in num1
      invariant forall x :: x in num ==>
        num[x] - |PartSlots(g, done, parent, j, x)| == num1[x] - |Slots(g, done, x)|
    {
      var child := kids[j];
      if child !in num {
        return false, num;
      }
      forall x
        ensures |PartSlots(g, done, parent, j + 1, x)|
             == |PartSlots(g, done, parent, j, x)| - if x == child then 1 else 0
      {
        CloseSlot(g, done, parent, j, x);
      }
      num := num[child := num[child] - 1];
    }
    return true, num;
  }

  /** The first i items of order are deleted, together with their edges. */
  ghost predicate Deleted(g: Graph, all: set<Node>, order: seq<Node>, i: int, num: map<Node, int>, children: Graph) {
    && 0 <= i <= |order| && ParentsFirst(g, order)
    && Nodes(g) <= all && Members(order) <= all
    && num.Keys == all - Members(order[..i])
    && Counts(g, Members(order[..i]), num)
    && children == map p | p in g && p !in order[..i] :: g[p]
  }

  /** The items of done are deleted from both maps, and their edges are counted down. */
  ghost predicate Removed(g: Graph, num0: map<Node, int>, done: set<Node>, num: map<Node, int>, children: Graph) {
    && done <= num0.Keys && num.Keys == num0.Keys - done && Balanced(g, num0, done, num)
    && children == map p | p in g && p !in done :: g[p]
  }

  /** Lines 219-224 for one level_parent. */
  method RemoveOne(ghost g: Graph, ghost num0: map<Node, int>, ghost done: set<Node>, levelParent: Node,
                   num1: map<Node, int>, children1: Graph)
    returns (ok: bool, num: map<Node, int>, children: Graph)
    requires Removed(g, num0, done, num1, children1) && levelParent in num1
    ensures ok ==> Removed(g, num0, done + {levelParent}, num, children)
    ensures !ok ==> exists c :: Edge(g, levelParent, c) && c !in num0.Keys - done - {levelParent}
  {
    hide Slots;
    num, children := num1 - {levelParent}, children1;
    if levelParent in children {
      ok, num := KnockDownLevel(g, children[levelParent], num, done, levelParent);
      if !ok {
        return;
      }
      children := children - {levelParent};
    } else {
      ok := true;
      forall x
        ensures Slots(g, done, x) == Slots(g, done + {levelParent}, x)
      {
        SameSlots(g, done, done + {levelParent}, x);
      }
    }
  }

  /** Some item of level has a child that is no key, or is deleted before its turn. */
  ghost predicate MissingChild(g: Graph, num0: map<Node, int>, before: seq<Node>, level: seq<Node>) {
    exists a, c :: 0 <= a < |level| && Edge(g, level[a], c) && (c !in num0 || c in before + level[..a+1])
  }

  /** Lines 217-224: delete one level and its edges. */
  method RemoveLevel(ghost g: Graph, ghost num0: map<Node, int>, ghost before: seq<Node>, level: seq<Node>,
                     num1: map<Node, int>, children1: Graph)
    returns (ok: bool, num: map<Node, int>, children: Graph)
    requires Removed(g, num0, Members(before), num1, children1)
    requires Distinct(level) && forall x :: x in level ==> x in num1
    ensures ok ==> Removed(g, num0, Members(before + level), num, children)
    ensures !ok ==> MissingChild(g, num0, before, level)
  {
    hide Slots, Balanced;
    num, children := num1, children1;
    ghost var done := Members(before);
    assert before + level[..0] == before;
    for a := 0 to |level|
      invariant done == Members(before + level[..a]) && Removed(g, num0, done, num, children)
    {
      assert level[a] in level && level[a] !in level[..a];
      assert before + level[..a+1] == before + level[..a] + [level[a]];
      assert Members(before + level[..a+1]) == done + {level[a]};
      ok, num, children := RemoveOne(g, num0, done, level[a], num, children);
      if !ok {
        ghost var c :| Edge(g, level[a], c) && c !in num0.Keys - done - {level[a]};
        assert c !in num0 || c in Members(before + level[..a+1]);
        return;
      }
      done := done + {level[a]};
    }
    assert level[..|level|] == level;
    ok := true;
  }

  /** Between two rounds, for any two maps; more is known if the counts are right. */
  ghost predicate AnyRounds(g: Graph, num0: map<Node, int>, levels: seq<seq<Node>>, num: map<Node, int>,
                            children: Graph)
  {
    && Removed(g, num0, Members(Flatten(levels)), num, children)
    && Distinct(Flatten(levels)) && [] !in levels
    && (Consistent(num0, g) ==> Rounds(g, num0.Keys, levels, num, children))
  }

  /** Items without open slots have all their parents in earlier levels, and one in the last. */
  lemma FreeIsStacked(g: Graph, all: set<Node>, levels: seq<seq<Node>>, num: map<Node, int>, children: Graph, x: Node)
    requires Rounds(g, all, levels, num, children)
    requires x in num && num[x] == 0
    ensures forall p :: Edge(g, p, x) ==> p in Flatten(levels)
    ensures Stacked(g, levels, |levels|, x)
  {
    var before := Flatten(levels);
    assert levels[..|levels|] == levels;
    NoSlotsNoParents(g, Members(before), x);
    if levels != [] {
      assert EscapesBefore(g, Flatten(levels[..|levels|-1]), x);
      var p :| Edge(g, p, x) && p !in Flatten(levels[..|levels|-1]);
      assert p in Members(before);
      assert p in levels[|levels|-1];
    }
  }

  lemma AppendLevel(g: Graph, before: seq<Node>, level: seq<Node>)
    requires ParentsFirst(g, before) && Distinct(level)
    requires forall x :: x in level ==> x !in before
    requires forall x, p :: x in level && Edge(g, p, x) ==> p in before
    ensures ParentsFirst(g, before + level)
  {
    var order := before + level;
    assert forall j :: 0 <= j < |level| ==> level[j] in level;
    assert forall j :: 0 <= j < |before| ==> before[j] in before;
    forall k, p | 0 <= k < |order| && Edge(g, p, order[k])
      ensures p in order[..k]
    {
      if k < |before| {
        assert order[..k] == before[..k];
      } else {
        assert order[k] == level[k - |before|];
        assert p in before;
        assert before <= order[..k];
      }
    }
  }

  lemma LevelFits(g: Graph, all: set<Node>, levels: seq<seq<Node>>, num: map<Node, int>, children: Graph,
                  level: seq<Node>)
    requires Rounds(g, all, levels, num, children)
    requires Distinct(level) && forall x :: x in level <==> x in num && num[x] == 0
    ensures Deleted(g, all, Flatten(levels) + level, |Flatten(levels)|, num, children)
  {
    forall x | x in level
      ensures forall p :: Edge(g, p, x) ==> p in Flatten(levels)
    {
      FreeIsStacked(g, all, levels, num, children, x);
    }
    AppendLevel(g, Flatten(levels), level);
    assert (Flatten(levels) + level)[..|Flatten(levels)|] == Flatten(levels);
  }

  lemma AddLevel(g: Graph, all: set<Node>, levels: seq<seq<Node>>, num: map<Node, int>, children: Graph,
                 level: seq<Node>)
    requires Rounds(g, all, levels, num, children)
    requires forall x :: x in level ==> x in num && num[x] == 0
    ensures AllStacked(g, levels + [level])
  {
    hide Slots, Nodes, ParentsFirst, EscapesBefore;
    var levels' := levels + [level];
    forall k, x | 0 <= k < |levels'| && x in levels'[k]
      ensures Stacked(g, levels', k, x)
    {
      if k < |levels| {
        assert Stacked(g, levels, k, x);
        assert levels'[..k] == levels[..k];
      } else {
        FreeIsStacked(g, all, levels, num, children, x);
        assert levels'[..k] == levels[..k];
      }
    }
  }

  lemma NextRound(g: Graph, all: set<Node>, levels: seq<seq<Node>>, num: map<Node, int>, children: Graph,
                  level: seq<Node>, num': map<Node, int>, children': Graph)
    requires Rounds(g, all, levels, num, children)
    requires level != [] && Distinct(level) && forall x :: x in level <==> x in num && num[x] == 0
    requires Deleted(g, all, Flatten(levels) + level, |Flatten(levels) + level|, num', children')
    ensures Rounds(g, all, levels + [level], num', children')
    ensures num'.Keys < num.Keys
  {
    hide Slots, Nodes, Stacked;
    var before, levels' := Flatten(levels), levels + [level];
    assert levels'[..|levels|] == levels;
    assert (before + level)[..|before + level|] == before + level;
    assert Flatten(levels') == before + level;
    AddLevel(g, all, levels, num, children, level);
    forall x | x in num'
      ensures EscapesBefore(g, before, x)
    {
      assert x !in Members(before + level);
      assert x in num && num[x] != 0;
      NoSlotsNoParents(g, Members(before), x);
    }
    assert level[0] in num && level[0] in before + level;
  }

  lemma {:induction false} InFlatten(levels: seq<seq<Node>>, x: Node)
    ensures x in Flatten(levels) <==> exists k :: 0 <= k < |levels| && x in levels[k]
  {
    if levels != [] {
      InFlatten(levels[..|levels|-1], x);
    }
  }

  lemma {:induction false} LongPathExists(g: Graph, levels: seq<seq<Node>>, k: nat, x: Node) returns (p: seq<Node>)
    requires AllStacked(g, levels) && k < |levels| && x in levels[k]
    ensures PathTo(g, p, x) && |p| == k + 1
  {
    assert Stacked(g, levels, k, x);
    if k == 0 {
      p := [x];
    } else {
      var q :| q in levels[k-1] && Edge(g, q, x);
      p := LongPathExists(g, levels, k - 1, q);
      p := p + [x];
    }
  }

  lemma {:induction false} NoLongerPath(g: Graph, levels: seq<seq<Node>>, k: nat, x: Node, p: seq<Node>)
    requires AllStacked(g, levels) && k < |levels| && x in levels[k] && PathTo(g, p, x)
    ensures |p| <= k + 1
    decreases k
  {
    if |p| > 1 {
      assert Stacked(g, levels, k, x);
      var q := p[|p|-2];
      assert Edge(g, q, x);
      InFlatten(levels[..k], q);
      var j :| 0 <= j < k && q in levels[..k][j];
      NoLongerPath(g, levels, j, q, p[..|p|-1]);
    }
  }

  lemma LevelsMeasureDepth(g: Graph, levels: seq<seq<Node>>)
    requires AllStacked(g, levels)
    ensures LevelsAreDepths(g, levels)
  {
    forall k, x | 0 <= k < |levels| && x in levels[k]
      ensures LongestPath(g, x, k)
    {
      var p := LongPathExists(g, levels, k, x);
      forall q | PathTo(g, q, x)
        ensures |q| <= k + 1
      {
        NoLongerPath(g, levels, k, x, q);
      }
    }
  }

  /** Counts that are right at first stay right. */
  lemma BalancedCounts(g: Graph, num0: map<Node, int>, done: set<Node>, num: map<Node, int>)
    requires Consistent(num0, g) && Balanced(g, num0, done, num)
    ensures Counts(g, done, num)
  {
    hide Slots;
  }

  lemma ParentBefore(g: Graph, order: seq<Node>, i: nat, k: nat)
    requires ParentsFirst(g, order) && i < |order| && k < |order| && Edge(g, order[i], order[k])
    ensures i < k
  {
    assert order[i] in order[..k];
  }

  /** With right counts no key is missing. */
  lemma NoneMissing(g: Graph, num0: map<Node, int>, before: seq<Node>, level: seq<Node>)
    requires Consistent(num0, g) && ParentsFirst(g, before + level)
    ensures !MissingChild(g, num0, before, level)
  {
    hide Counts, ParentsFirst;
    var order := before + level;
    forall a, c | 0 <= a < |level| && Edge(g, level[a], c)
      ensures c in num0 && c !in before + level[..a+1]
    {
      var i := |before| + a;
      assert c in Nodes(g);
      assert before + level[..a+1] == order[..i+1];
      forall k | 0 <= k < i + 1
        ensures order[k] != c
      {
        if order[k] == c {
          assert order[i] == level[a];
          ParentBefore(g, order, i, k);
        }
      }
    }
  }

  /** A round when the counts are right. */
  lemma NextRightRound(g: Graph, num0: map<Node, int>, levels: seq<seq<Node>>, num1: map<Node, int>, children1: Graph,
                       level: seq<Node>, ok: bool, num: map<Node, int>, children: Graph)
    requires Consistent(num0, g) && Rounds(g, num0.Keys, levels, num1, children1)
    requires level != [] && Distinct(level) && forall x :: x in level <==> x in num1 && num1[x] == 0
    requires ok ==> Removed(g, num0, Members(Flatten(levels) + level), num, children)
    requires !ok ==> MissingChild(g, num0, Flatten(levels), level)
    ensures ok && Rounds(g, num0.Keys, levels + [level], num, children)
  {
    hide Slots, Balanced, Counts, Stacked, AllStacked, Nodes, Distinct, MissingChild, Rounds, ParentsFirst;
    var order := Flatten(levels) + level;
    LevelFits(g, num0.Keys, levels, num1, children1, level);
    NoneMissing(g, num0, Flatten(levels), level);
    hide Consistent;
    BalancedCounts(g, num0, Members(order), num);
    assert order[..|order|] == order;
    assert Deleted(g, num0.Keys, order, |order|, num, children);
    NextRound(g, num0.Keys, levels, num1, children1, level, num, children);
  }

  lemma NextAnyRound(g: Graph, num0: map<Node, int>, levels: seq<seq<Node>>, num1: map<Node, int>, children1: Graph,
                     level: seq<Node>, ok: bool, num: map<Node, int>, children: Graph)
    requires AnyRounds(g, num0, levels, num1, children1)
    requires level != [] && Distinct(level) && forall x :: x in level <==> x in num1 && num1[x] == 0
    requires ok ==> Removed(g, num0, Members(Flatten(levels) + level), num, children)
    requires !ok ==> MissingChild(g, num0, Flatten(levels), level)
    ensures Flatten(levels + [level]) == Flatten(levels) + level
    ensures Distinct(Flatten(levels) + level) && Members(Flatten(levels) + level) <= num0.Keys
    ensures Consistent(num0, g) ==> ok
    ensures ok ==> AnyRounds(g, num0, levels + [level], num, children) && num.Keys < num1.Keys
  {
    hide Slots, Balanced, Consistent, Rounds, MissingChild;
    var before := Flatten(levels);
    assert (levels + [level])[..|levels|] == levels;
    assert forall j :: 0 <= j < |level| ==> level[j] in level;
    assert forall j :: 0 <= j < |before| ==> before[j] in Members(before);
    if Consistent(num0, g) {
      NextRightRound(g, num0, levels, num1, children1, level, ok, num, children);
    }
    assert level[0] in num1 && level[0] in Members(before + level);
  }

  /** Lines 205-224: find the next level, and delete it. */
  method OneRound(ghost g: Graph, ghost num0: map<Node, int>, ghost levels: seq<seq<Node>>, num1: map<Node, int>,
                  children1: Graph)
    returns (ok: bool, level: seq<Node>, num: map<Node, int>, children: Graph)
    requires AnyRounds(g, num0, levels, num1, children1)
    ensures level == [] ==> ok && num == num1 && children == children1 && forall x :: x in num ==> num[x] != 0
    ensures level != [] ==> Flatten(levels + [level]) == Flatten(levels) + level
    ensures level != [] ==> Distinct(Flatten(levels) + level) && Members(Flatten(levels) + level) <= num0.Keys
    ensures level != [] && ok ==> AnyRounds(g, num0, levels + [level], num, children) && num.Keys < num1.Keys
    ensures !ok ==> MissingChild(g, num0, Flatten(levels), level) && !Consistent(num0, g)
  {
    hide Slots, Balanced, Consistent, MissingChild, Distinct, Rounds;
    num, children := num1, children1;
    level := KeysAtZero(num);
    if level == [] {
      return true, level, num, children;
    }
    ok, num, children := RemoveLevel(g, num0, Flatten(levels), level, num, children);
    NextAnyRound(g, num0, levels, num1, children1, level, ok, num, children);
  }

  /** Lines 203-224: the rounds of the generator, up to the break or a KeyError. */
  method AllRounds(numParents: map<Node, int>, children0: Graph)
    returns (ok: bool, levels: seq<seq<Node>>, num: map<Node, int>, children: Graph)
    ensures ok ==> AnyRounds(children0, numParents, levels, num, children) && forall x :: x in num ==> num[x] != 0
    ensures Distinct(Flatten(levels)) && Members(Flatten(levels)) <= numParents.Keys && [] !in levels
    ensures !ok ==>
      && !Consistent(numParents, children0) && levels != []
      && MissingChild(children0, numParents, Flatten(levels[..|levels|-1]), levels[|levels|-1])
  {
    hide Slots, Balanced, Consistent, MissingChild, Distinct, Rounds;
    num, children, levels := numParents, children0, [];
    FirstRound(num, children);
    while true
      invariant AnyRounds(children0, numParents, levels, num, children)
      decreases num.Keys
    {
      var level;
      ok, level, num, children := OneRound(children0, numParents, levels, num, children);
      if level == [] {
        return;
      }
      assert (levels + [level])[..|levels|] == levels;
      levels := levels + [level];
      if !ok {
        return;
      }
    }
  }

  /**
   All yielded levels, in order, and how the generator ends, for any two maps. A KeyError comes of a child
   in the last level that is no key, or has been deleted; it never comes if the counts are right.
   */
  method TopsortLevelsCore(numParents: map<Node, int>, children0: Graph)
    returns (levels: seq<seq<Node>>, end: LevelsEnd)
    ensures Distinct(Flatten(levels)) && Members(Flatten(levels)) <= numParents.Keys && [] !in levels
    ensures end.StopIteration? ==> Members(Flatten(levels)) == numParents.Keys
    ensures end.LevelsCycleError? ==>
      && Removed(children0, numParents, Members(Flatten(levels)), end.numParents, end.children)
      && end.numParents != map[] && forall x :: x in end.numParents ==> end.numParents[x] != 0
    ensures end.KeyError? ==>
      && !Consistent(numParents, children0) && levels != []
      && MissingChild(children0, numParents, Flatten(levels[..|levels|-1]), levels[|levels|-1])
    ensures Consistent(numParents, children0) ==>
      && (end.StopIteration? <==> !Cyclic(children0))
      && (end.LevelsCycleError? ==>
            end.numParents == LeftoverCounts(children0) && end.children == LeftoverChildren(children0))
      && LevelsAreDepths(children0, levels) && ParentsFirst(children0, Flatten(levels))
      && Members(Flatten(levels)) == numParents.Keys - Core(children0)
  {
    hide Slots, Balanced, Consistent, MissingChild, Distinct, Rounds;
    var ok, num, children;
    ok, levels, num, children := AllRounds(numParents, children0);
    if !ok {
      return levels, KeyError;
    }
    if Consistent(numParents, children0) {
      LastRound(children0, numParents.Keys, levels, num, children);
    }
    if num != map[] {
      assert exists x :: x in num;
      return levels, LevelsCycleError(num, children);
    }
    NothingLeft(children0, numParents, Members(Flatten(levels)), num, children);
    return levels, StopIteration;
  }

  lemma NothingLeft(g: Graph, num0: map<Node, int>, done: set<Node>, num: map<Node, int>, children: Graph)
    requires Removed(g, num0, done, num, children) && num == map[]
    ensures done == num0.Keys
  {
    hide Balanced;
    forall x | x in num0
      ensures x in done
    {
      assert x !in num.Keys;
    }
  }

  lemma FirstRound(num: map<Node, int>, g: Graph)
    ensures AnyRounds(g, num, [], num, g)
  {
    assert Members(Flatten([])) == {};
    assert g == map p | p in g && p !in Flatten([]) :: g[p];
  }

  lemma LastRound(g: Graph, all: set<Node>, levels: seq<seq<Node>>, num: map<Node, int>, children: Graph)
    requires Rounds(g, all, levels, num, children)
    requires forall x :: x in num ==> num[x] != 0
    ensures num == LeftoverCounts(g) && children == LeftoverChildren(g)
    ensures Members(Flatten(levels)) == all - Core(g)
    ensures num == map[] <==> !Cyclic(g)
    ensures num == map[] ==> Members(Flatten(levels)) == all
    ensures LevelsAreDepths(g, levels) && ParentsFirst(g, Flatten(levels))
  {
    hide Slots, Core, Stacked, LongestPath, Cyclic;
    LevelsMeasureDepth(g, levels);
    CyclicIffCore(g);
    var order := Flatten(levels);
    LeftIsCore(g, order, num.Keys);
    assert children == map p | p in g && p !in Members(order) :: g[p];
    LeftoversAre(g, Members(order), num, children);
  }

  method TopsortLevels(pairs: Pairs) returns (levels: seq<seq<Node>>, end: LevelsEnd)
    ensures end.StopIteration? <==> !Cyclic(ChildrenOf(pairs))
    ensures end.LevelsCycleError? ==>
      && end.numParents == LeftoverCounts(ChildrenOf(pairs))
      && end.children == LeftoverChildren(ChildrenOf(pairs))
    ensures LevelsAreDepths(ChildrenOf(pairs), levels)
    ensures ParentsFirst(ChildrenOf(pairs), Flatten(levels))
    ensures Members(Flatten(levels)) == Elements(pairs) - Core(ChildrenOf(pairs))
    ensures end.StopIteration? ==> Members(Flatten(levels)) == Elements(pairs)
  {
    var num, children := BuildMaps(pairs);
    assert Consistent(num, children);
    levels, end := TopsortLevelsCore(num, children);
  }
}
