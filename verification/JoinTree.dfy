/**
  The union of the join paths from one anchor (`find_paths_from`) and why it is a tree.
  Every path is a least walk, every prefix of a least walk is one too, and least walks are unique,
  so all the paths agree on the edge by which they enter a table.
 */
module JoinTree {
  import opened Wrappers
  import opened RelationshipGraph
  import opened Walks
  import opened JoinPaths

  type Key = (string, string, string)

  function KeyOf(e: Edge): Key {
    (e.source, e.target, e.name)
  }

  /** `edges` followed by `e`, unless an edge with the same key is there already. */
  function AddOne(edges: seq<Edge>, e: Edge): seq<Edge> {
    if exists d :: d in edges && KeyOf(d) == KeyOf(e) then edges else edges + [e]
  }

  /** `edges` followed by those edges of `path` whose key is new, in path order. */
  function AddNew(edges: seq<Edge>, path: seq<Edge>): seq<Edge> {
    if path == [] then edges
    else
      AddOne(AddNew(edges, path[..|path| - 1]), path[|path| - 1])
  }

  ghost function PathUnion(g: Graph, anchor: string, others: seq<string>): seq<Edge> {
    if others == [] then []
    else
      var prior := PathUnion(g, anchor, others[..|others| - 1]);
      var target := others[|others| - 1];
      if target == anchor then prior else AddNew(prior, ShortestPath(g, anchor, target))
  }

  ghost predicate AreKeysOf(seen: set<Key>, edges: seq<Edge>) {
    forall key :: key in seen <==> exists e :: e in edges && KeyOf(e) == key
  }

  /** One path's turn: its edges are appended in order, except those whose key has been seen. */
  method AddPath(prior: seq<Edge>, path: seq<Edge>, priorSeen: set<Key>) returns (edges: seq<Edge>, seen: set<Key>)
    requires AreKeysOf(priorSeen, prior)
    ensures edges == AddNew(prior, path) && AreKeysOf(seen, edges)
  {
    edges, seen := prior, priorSeen;
    for j := 0 to |path|
      invariant edges == AddNew(prior, path[..j]) && AreKeysOf(seen, edges)
    {
      var edge := path[j];
      assert path[..j + 1][..j] == path[..j];
      if KeyOf(edge) !in seen {
        seen := seen + {KeyOf(edge)};
        edges := edges + [edge];
      }
    }
    assert path[..|path|] == path;
  }

  method FindPathsFrom(g: Graph, anchor: string, others: seq<string>) returns (edges: seq<Edge>)
    ensures edges == PathUnion(g, anchor, others)
    ensures DiscoveredInOrder(g, anchor, others, edges)
  {
    PathUnionIsInOrder(g, anchor, others);
    hide ShortestPath, AddNew;
    var seen: set<Key> := {};
    edges := [];
    for i := 0 to |others|
      invariant edges == PathUnion(g, anchor, others[..i]) && AreKeysOf(seen, edges)
    {
      assert others[..i + 1][..i] == others[..i];
      if others[i] != anchor {
        var path := FindPath(g, anchor, others[i]);
        edges, seen := AddPath(edges, path, seen);
      }
    }
    assert others[..|others|] == others;
  }

  // ----- the union is a tree

  /** The edge by which the least walk from `anchor` enters `e.target`. */
  ghost predicate Canonical(g: Graph, anchor: string, e: Edge) {
    exists w :: w != [] && Least(g, anchor, e.target, w) && Edges(g, anchor, w)[|w| - 1] == e
  }

  lemma CanonicalUnique(g: Graph, anchor: string, d: Edge, e: Edge)
    requires Canonical(g, anchor, d) && Canonical(g, anchor, e) && d.target == e.target
    ensures d == e && e.target != anchor
  {
    var v :| v != [] && Least(g, anchor, d.target, v) && Edges(g, anchor, v)[|v| - 1] == d;
    var w :| w != [] && Least(g, anchor, e.target, w) && Edges(g, anchor, w)[|w| - 1] == e;
    LeastUnique(g, anchor, d.target, v, w);
    if e.target == anchor {
      LeastToSourceIsEmpty(g, anchor, w);
    }
  }

  /**
    A tree with all its edges pointing away from `anchor`, listed parents first: no edge enters the anchor,
    no table is entered twice, and each edge leaves the anchor or a table an earlier edge has entered.
   */
  ghost predicate IsOutTree(anchor: string, edges: seq<Edge>) {
    && (forall k :: 0 <= k < |edges| ==> edges[k].target != anchor)
    && (forall i, k :: 0 <= i < k < |edges| ==> edges[i].target != edges[k].target)
    && (forall k :: 0 <= k < |edges| ==> edges[k].source == anchor || Entered(edges[..k], edges[k].source))
  }

  ghost predicate Entered(edges: seq<Edge>, table: string) {
    exists i :: 0 <= i < |edges| && edges[i].target == table
  }

  ghost function Touched(anchor: string, edges: seq<Edge>): set<string> {
    {anchor} + (set e | e in edges :: e.source) + (set e | e in edges :: e.target)
  }

  lemma OutTreeFront(anchor: string, front: seq<Edge>, last: Edge)
    requires IsOutTree(anchor, front + [last])
    ensures IsOutTree(anchor, front)
    ensures last.source == anchor || Entered(front, last.source)
    ensures last.target != anchor && !Entered(front, last.target)
  {
    var edges := front + [last];
    assert edges[..|front|] == front && edges[|front|] == last;
    forall k | 0 <= k < |front|
      ensures front[k].source == anchor || Entered(front[..k], front[k].source)
    {
      assert front[..k] == edges[..k];
    }
    forall k | 0 <= k < |front|
      ensures front[k].target != anchor && front[k].target != last.target
    {
      assert edges[k] == front[k];
    }
    forall i, k | 0 <= i < k < |front|
      ensures front[i].target != front[k].target
    {
      assert edges[i] == front[i] && edges[k] == front[k];
    }
  }

  lemma OutTreeSources(anchor: string, edges: seq<Edge>, e: Edge)
    requires IsOutTree(anchor, edges) && e in edges
    ensures e.source == anchor || Entered(edges, e.source)
  {
    var k :| 0 <= k < |edges| && edges[k] == e;
    if edges[k].source != anchor {
      var i :| 0 <= i < |edges[..k]| && edges[..k][i].target == e.source;
      assert edges[i].target == e.source;
    }
  }

  /** A tree has one edge fewer than it has tables. */
  lemma {:induction false} OutTreeCount(anchor: string, edges: seq<Edge>)
    requires IsOutTree(anchor, edges)
    ensures |Touched(anchor, edges)| == |edges| + 1
    decreases |edges|
  {
    if edges == [] {
      assert Touched(anchor, edges) == {anchor};
    } else {
      hide IsOutTree, Touched;
      var front, last := edges[..|edges| - 1], edges[|edges| - 1];
      assert edges == front + [last];
      OutTreeFront(anchor, front, last);
      OutTreeCount(anchor, front);
      TouchedSnoc(anchor, front, last);
      NewTargetUntouched(anchor, front, last.target);
    }
  }

  lemma NewTargetUntouched(anchor: string, front: seq<Edge>, table: string)
    requires IsOutTree(anchor, front) && table != anchor && !Entered(front, table)
    ensures table !in Touched(anchor, front)
  {
    forall e | e in front
      ensures e.source != table && e.target != table
    {
      OutTreeSources(anchor, front, e);
    }
  }

  lemma TouchedSnoc(anchor: string, front: seq<Edge>, last: Edge)
    requires last.source == anchor || Entered(front, last.source)
    ensures Touched(anchor, front + [last]) == Touched(anchor, front) + {last.target}
  {
    var edges := front + [last];
    forall e | e in edges
      ensures e in front || e == last
    {
    }
    assert forall e :: e in front ==> e in edges;
    assert last in edges;
  }

  ghost predicate CanonicalTree(g: Graph, anchor: string, edges: seq<Edge>) {
    IsOutTree(anchor, edges) && forall e :: e in edges ==> Canonical(g, anchor, e)
  }

  /** The `n`-th edge of a least walk is canonical, and starts where the edge before it ended. */
  lemma {:induction false} StepOfLeast(g: Graph, anchor: string, target: string, w: Walk, n: nat)
    requires Least(g, anchor, target, w) && n < |w|
    ensures Canonical(g, anchor, Edges(g, anchor, w)[n])
    ensures Edges(g, anchor, w)[n].source == if n == 0 then anchor else Edges(g, anchor, w)[n - 1].target
    decreases |w|
  {
    WalkEnd(g, anchor, w);
    LeastInit(g, anchor, target, w);
    if n < |w| - 1 {
      StepOfLeast(g, anchor, Follow(g, anchor, Init(w)).value, Init(w), n);
    } else if n > 0 {
      WalkEnd(g, anchor, Init(w));
    }
  }

  lemma WalkEnd(g: Graph, source: string, w: Walk)
    requires Follow(g, source, w).Some? && w != []
    ensures Edges(g, source, w)[|w| - 1].target == Follow(g, source, w).value
    ensures Edges(g, source, w)[|w| - 1].source == Follow(g, source, Init(w)).value
  {
  }

  lemma AddOneKeepsTree(g: Graph, anchor: string, rest: seq<Edge>, last: Edge)
    requires CanonicalTree(g, anchor, rest) && Canonical(g, anchor, last)
    requires last.source == anchor || exists e :: e in rest && e.target == last.source
    ensures AddOne(rest, last) == if last in rest then rest else rest + [last]
    ensures CanonicalTree(g, anchor, AddOne(rest, last))
  {
    CanonicalUnique(g, anchor, last, last);
    forall e | e in rest && e.target == last.target
      ensures e == last
    {
      CanonicalUnique(g, anchor, e, last);
    }
    if last !in rest {
      GrowTree(g, anchor, rest, last);
    }
  }

  /** Adding the first `n` edges of a least walk to a canonical tree keeps it one and loses no edge. */
  lemma {:induction false} AddNewKeepsTree(g: Graph, anchor: string, edges: seq<Edge>, target: string, w: Walk, n: nat)
    requires CanonicalTree(g, anchor, edges)
    requires Least(g, anchor, target, w) && n <= |w|
    ensures CanonicalTree(g, anchor, AddNew(edges, Edges(g, anchor, w)[..n]))
    ensures forall e :: e in AddNew(edges, Edges(g, anchor, w)[..n]) <==> e in edges || e in Edges(g, anchor, w)[..n]
    decreases n
  {
    hide IsOutTree, Canonical, AddOne, Follow, Edges;
    var path := Edges(g, anchor, w);
    if n == 0 {
      assert path[..0] == [];
    } else {
      AddNewKeepsTree(g, anchor, edges, target, w, n - 1);
      assert path[..n][..n - 1] == path[..n - 1];
      assert path[..n] == path[..n - 1] + [path[n - 1]];
      var rest, last := AddNew(edges, path[..n - 1]), path[n - 1];
      StepOfLeast(g, anchor, target, w, n - 1);
      if n > 1 {
        assert path[n - 2] in path[..n - 1];
      }
      AddOneKeepsTree(g, anchor, rest, last);
    }
  }

  lemma GrowTree(g: Graph, anchor: string, rest: seq<Edge>, last: Edge)
    requires CanonicalTree(g, anchor, rest) && Canonical(g, anchor, last)
    requires last.target != anchor
    requires forall e :: e in rest ==> e.target != last.target
    requires last.source == anchor || exists e :: e in rest && e.target == last.source
    ensures CanonicalTree(g, anchor, rest + [last])
  {
    hide Canonical;
    GrowOutTree(anchor, rest, last);
    hide IsOutTree;
  }

  lemma GrowOutTree(anchor: string, rest: seq<Edge>, last: Edge)
    requires IsOutTree(anchor, rest) && last.target != anchor
    requires forall e :: e in rest ==> e.target != last.target
    requires last.source == anchor || exists e :: e in rest && e.target == last.source
    ensures IsOutTree(anchor, rest + [last])
  {
    var grown := rest + [last];
    forall k | 0 <= k < |grown|
      ensures grown[k].source == anchor || Entered(grown[..k], grown[k].source)
    {
      if k < |rest| {
        assert grown[..k] == rest[..k];
      } else {
        assert grown[..k] == rest;
      }
    }
  }

  lemma UnionStep(g: Graph, anchor: string, prior: seq<Edge>, target: string)
    requires CanonicalTree(g, anchor, prior) && target != anchor
    ensures CanonicalTree(g, anchor, AddNew(prior, ShortestPath(g, anchor, target)))
    ensures forall e :: e in AddNew(prior, ShortestPath(g, anchor, target)) <==>
              e in prior || e in ShortestPath(g, anchor, target)
  {
    var path := ShortestPath(g, anchor, target);
    if path != [] {
      var w :| Least(g, anchor, target, w);
      ShortestPathIs(g, anchor, target, w);
      hide CanonicalTree, AddNew, ShortestPath, Least, Follow, Edges;
      AddNewKeepsTree(g, anchor, prior, target, w, |w|);
      assert path[..|w|] == path;
    }
  }

  lemma {:induction false} PathUnionIsCanonical(g: Graph, anchor: string, others: seq<string>)
    ensures CanonicalTree(g, anchor, PathUnion(g, anchor, others))
    ensures forall e :: e in PathUnion(g, anchor, others) <==>
              exists target :: target in others && e in ShortestPath(g, anchor, target)
    decreases |others|
  {
    if others == [] {
      assert PathUnion(g, anchor, others) == [];
    } else {
      var front, target := others[..|others| - 1], others[|others| - 1];
      assert others == front + [target];
      assert target == anchor ==> ShortestPath(g, anchor, target) == [];
      hide CanonicalTree, AddNew, ShortestPath;
      PathUnionIsCanonical(g, anchor, front);
      if target != anchor {
        UnionStep(g, anchor, PathUnion(g, anchor, front), target);
      }
    }
  }

  /** A requested table the anchor can reach is entered by the union. */
  lemma RequestedIsEntered(g: Graph, anchor: string, others: seq<string>, target: string)
    requires target in others && target != anchor
    requires anchor in g.nodes && target in g.nodes && Reachable(g, anchor, target)
    ensures Entered(PathUnion(g, anchor, others), target)
  {
    var v :| Follow(g, anchor, v) == Some(target);
    var w := LeastExists(g, anchor, target, v);
    ShortestPathIs(g, anchor, target, w);
    WalkEnd(g, anchor, w);
    PathUnionIsCanonical(g, anchor, others);
    assert Edges(g, anchor, w)[|w| - 1] in PathUnion(g, anchor, others);
  }

  /** An edge listed later is on the way to no requested table before those that an earlier edge is on the way to. */
  ghost predicate DiscoveredInOrder(g: Graph, anchor: string, tables: seq<string>, edges: seq<Edge>) {
    forall a, b, i ::
      0 <= a < b < |edges| && 0 <= i < |tables| && edges[b] in ShortestPath(g, anchor, tables[i]) ==>
        OnWay(g, anchor, tables[..i + 1], edges[a])
  }

  /** The edge is on the shortest path to one of the tables. */
  ghost predicate OnWay(g: Graph, anchor: string, tables: seq<string>, e: Edge) {
    exists table :: table in tables && e in ShortestPath(g, anchor, table)
  }

  lemma {:induction false} AddNewExtends(edges: seq<Edge>, path: seq<Edge>)
    ensures edges <= AddNew(edges, path)
    decreases |path|
  {
    if path != [] {
      AddNewExtends(edges, path[..|path| - 1]);
    }
  }

  /** Later requests only add to what earlier ones have found. */
  lemma {:induction false} PathUnionExtends(g: Graph, anchor: string, others: seq<string>, n: nat)
    requires n <= |others|
    ensures PathUnion(g, anchor, others[..n]) <= PathUnion(g, anchor, others)
    decreases |others|
  {
    if n == |others| {
      assert others[..n] == others;
    } else {
      var front := others[..|others| - 1];
      assert front[..n] == others[..n];
      PathUnionExtends(g, anchor, front, n);
      AddNewExtends(PathUnion(g, anchor, front), ShortestPath(g, anchor, others[|others| - 1]));
    }
  }

  lemma PathUnionIsInOrder(g: Graph, anchor: string, others: seq<string>)
    ensures DiscoveredInOrder(g, anchor, others, PathUnion(g, anchor, others))
  {
    var edges := PathUnion(g, anchor, others);
    PathUnionIsCanonical(g, anchor, others);
    hide ShortestPath, PathUnion, Canonical;
    forall a, b, i | 0 <= a < b < |edges| && 0 <= i < |others| && edges[b] in ShortestPath(g, anchor, others[i])
      ensures OnWay(g, anchor, others[..i + 1], edges[a])
    {
      var soFar := PathUnion(g, anchor, others[..i + 1]);
      PathUnionExtends(g, anchor, others, i + 1);
      PathUnionIsCanonical(g, anchor, others[..i + 1]);
      assert others[..i + 1][i] == others[i];
      assert edges[b] in soFar;
      var k :| 0 <= k < |soFar| && soFar[k] == edges[b];
      assert edges[k] == edges[b];
      assert a < k;
      assert edges[a] == soFar[a] && soFar[a] in soFar;
    }
  }

  /** The main theorem about `find_paths_from`. */
  lemma PathUnionIsShortestPathTree(g: Graph, anchor: string, others: seq<string>)
    ensures IsOutTree(anchor, PathUnion(g, anchor, others))
    ensures |PathUnion(g, anchor, others)| == |Touched(anchor, PathUnion(g, anchor, others))| - 1
    ensures forall target ::
              (target in others && target != anchor && anchor in g.nodes && target in g.nodes
               && Reachable(g, anchor, target))
              ==> Entered(PathUnion(g, anchor, others), target)
    ensures forall e :: e in PathUnion(g, anchor, others) <==>
              exists target :: target in others && e in ShortestPath(g, anchor, target)
  {
    PathUnionIsCanonical(g, anchor, others);
    OutTreeCount(anchor, PathUnion(g, anchor, others));
    forall target | target in others && target != anchor && anchor in g.nodes && target in g.nodes &&
                    Reachable(g, anchor, target)
      ensures Entered(PathUnion(g, anchor, others), target)
    {
      RequestedIsEntered(g, anchor, others, target);
    }
  }
}
