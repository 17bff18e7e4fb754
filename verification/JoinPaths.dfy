/**
  Join-path search of `schema_linker/relationships.py`: a breadth-first search with a queue of carried paths,
  and the deduplicated union of the paths found from one anchor table.
 */
module JoinPaths {
  import opened Wrappers
  import opened Selections
  import opened RelationshipGraph
  import opened Walks

  ghost predicate Reachable(g: Graph, source: string, target: string) {
    exists w :: Follow(g, source, w) == Some(target)
  }

  /** Declared relationships leading from one table to another, each starting where the one before it ended. */
  ghost predicate DeclaredChain(relationships: seq<Relationship>, source: string, target: string,
                                chain: seq<Relationship>)
    decreases |chain|
  {
    if chain == [] then source == target
    else
      var last := chain[|chain| - 1];
      && last in relationships
      && last.targetTable == target
      && DeclaredChain(relationships, source, last.sourceTable, chain[..|chain| - 1])
  }

  lemma {:induction false} WalkIsDeclared(g: Graph, relationships: seq<Relationship>, source: string, w: Walk)
    returns (chain: seq<Relationship>)
    requires forall table :: DeclaredOn(relationships, table, g.EdgesFrom(table))
    requires Follow(g, source, w).Some?
    ensures |chain| == |w| && DeclaredChain(relationships, source, Follow(g, source, w).value, chain)
    decreases |w|
  {
    chain := [];
    if w != [] {
      LastStep(g, source, w);
      hide Selects, Follow;
      var front := WalkIsDeclared(g, relationships, source, Init(w));
      var table := Follow(g, source, Init(w)).value;
      var edges := g.EdgesFrom(table);
      assert DeclaredOn(relationships, table, edges);
      var r := SelectedComesFrom(relationships, On(table), edges, Declares, edges[Last(w)]);
      chain := front + [r];
      assert chain[..|chain| - 1] == front;
    }
  }

  lemma {:induction false} DeclaredIsWalk(g: Graph, relationships: seq<Relationship>, source: string, target: string,
                                          chain: seq<Relationship>)
    returns (w: Walk)
    requires forall table :: DeclaredOn(relationships, table, g.EdgesFrom(table))
    requires DeclaredChain(relationships, source, target, chain)
    ensures |w| == |chain| && Follow(g, source, w) == Some(target)
    decreases |chain|
  {
    w := [];
    if chain != [] {
      var last := chain[|chain| - 1];
      hide Selects;
      var v := DeclaredIsWalk(g, relationships, source, last.sourceTable, chain[..|chain| - 1]);
      var edges := g.EdgesFrom(last.sourceTable);
      assert DeclaredOn(relationships, last.sourceTable, edges);
      var e := KeptIsSelected(relationships, On(last.sourceTable), edges, Declares, last);
      var k :| 0 <= k < |edges| && edges[k] == e;
      FollowExtend(g, source, v, k);
      w := v + [k];
    }
  }

  /** One table can be reached from another exactly when declared relationships lead there. */
  lemma ReachableIffDeclared(g: Graph, relationships: seq<Relationship>, source: string, target: string)
    requires forall table :: DeclaredOn(relationships, table, g.EdgesFrom(table))
    ensures Reachable(g, source, target) <==> exists chain :: DeclaredChain(relationships, source, target, chain)
  {
    hide DeclaredOn;
    if w :| Follow(g, source, w) == Some(target) {
      var chain := WalkIsDeclared(g, relationships, source, w);
    } else if chain :| DeclaredChain(relationships, source, target, chain) {
      var w := DeclaredIsWalk(g, relationships, source, target, chain);
    }
  }

  /** What the search must return: the edges of the least walk, or nothing. */
  ghost function ShortestPath(g: Graph, source: string, target: string): seq<Edge> {
    if source != target && source in g.nodes && target in g.nodes && (exists w :: Least(g, source, target, w)) then
      var w :| Least(g, source, target, w);
      Edges(g, source, w)
    else
      []
  }

  lemma ShortestPathIs(g: Graph, source: string, target: string, w: Walk)
    requires source != target && source in g.nodes && target in g.nodes
    requires Least(g, source, target, w)
    ensures ShortestPath(g, source, target) == Edges(g, source, w) && w != []
  {
    var v :| Least(g, source, target, v) && ShortestPath(g, source, target) == Edges(g, source, v);
    LeastUnique(g, source, target, v, w);
  }

  // ----- breadth-first search

  /** Every table the search can ever visit. */
  ghost function Universe(g: Graph, source: string): set<string> {
    {source} + set table, k | table in g.adjacency && 0 <= k < |g.adjacency[table]| :: g.adjacency[table][k].target
  }

  /** One queue entry: a visited table, the edges leading to it and, as a ghost, the walk those edges spell. */
  datatype Entry = Entry(table: string, path: seq<Edge>)

  ghost predicate EntryOk(g: Graph, source: string, e: Entry, w: Walk) {
    && Least(g, source, e.table, w)
    && e.path == Edges(g, source, w)
  }

  ghost predicate EntriesOk(g: Graph, source: string, queue: seq<Entry>, walks: seq<Walk>) {
    |queue| == |walks| && forall i :: 0 <= i < |queue| ==> EntryOk(g, source, queue[i], walks[i])
  }

  ghost predicate Ascending(walks: seq<Walk>) {
    forall i, j :: 0 <= i < j < |walks| ==> Less(walks[i], walks[j])
  }

  /** Every queued walk was made by extending a walk below `p`, or `p` itself by one of its first `k` edges. */
  ghost predicate Grown(walks: seq<Walk>, p: Walk, k: nat) {
    forall i :: 0 <= i < |walks| ==>
      && walks[i] != []
      && (Less(Init(walks[i]), p) || (Init(walks[i]) == p && Last(walks[i]) < k))
  }

  ghost predicate Above(walks: seq<Walk>, p: Walk) {
    forall i :: 0 <= i < |walks| ==> Less(p, walks[i])
  }

  /** All edges out of `done` lead back into `visited`. */
  ghost predicate Closed(g: Graph, done: set<string>, visited: set<string>) {
    forall table, k :: table in done && 0 <= k < |g.EdgesFrom(table)| ==> g.EdgesFrom(table)[k].target in visited
  }

  /** The first `k` edges out of `current` lead back into `visited`. */
  ghost predicate Examined(g: Graph, current: string, k: nat, visited: set<string>) {
    k <= |g.EdgesFrom(current)| && forall j :: 0 <= j < k ==> g.EdgesFrom(current)[j].target in visited
  }

  ghost function Tables(queue: seq<Entry>): set<string> {
    set i | 0 <= i < |queue| :: queue[i].table
  }

  /** The search's state while `current`, reached by `p`, has had its first `k` edges examined. */
  ghost predicate Frontier(g: Graph, source: string, visited: set<string>, done: set<string>,
                           current: string, p: Walk, k: nat, queue: seq<Entry>, walks: seq<Walk>) {
    && source in visited
    && Least(g, source, current, p)
    && EntriesOk(g, source, queue, walks)
    && Ascending(walks) && Above(walks, p) && Grown(walks, p, k)
    && visited == done + {current} + Tables(queue)
    && Closed(g, done, visited)
    && Examined(g, current, k, visited)
  }

  /** No walk leaves the visited tables below `p + [k]`. */
  lemma CrossingIsLate(g: Graph, source: string, visited: set<string>, done: set<string>, current: string, p: Walk,
                       k: nat, queue: seq<Entry>, walks: seq<Walk>, w: Walk, x: string, j: nat)
    requires Frontier(g, source, visited, done, current, p, k, queue, walks)
    requires Follow(g, source, w) == Some(x) && x in visited
    requires j < |g.EdgesFrom(x)| && g.EdgesFrom(x)[j].target !in visited
    ensures w + [j] == p + [k] || Less(p + [k], w + [j])
  {
    hide Follow, Edges;
    FollowExtend(g, source, p, k);
    FollowExtend(g, source, w, j);
    if x == current {
      assert w == p || Less(p, w);
    } else {
      var i :| 0 <= i < |queue| && queue[i].table == x;
      assert EntryOk(g, source, queue[i], walks[i]);
      if w != walks[i] {
        LessTransitive(p, walks[i], w);
      }
    }
  }

  /** Hence `p + [k]` comes before every other walk to a table not yet visited. */
  lemma {:induction false} UnvisitedIsLate(
    g: Graph, source: string, visited: set<string>, done: set<string>, current: string, p: Walk,
    k: nat, queue: seq<Entry>, walks: seq<Walk>, w: Walk)
    requires Frontier(g, source, visited, done, current, p, k, queue, walks)
    requires Follow(g, source, w).Some? && Follow(g, source, w).value !in visited
    ensures w == p + [k] || Less(p + [k], w)
    decreases |w|
  {
    assert w != [] && source in visited;
    LastStep(g, source, w);
    hide Frontier, Follow, Less;
    var x := Follow(g, source, Init(w)).value;
    if x in visited {
      CrossingIsLate(g, source, visited, done, current, p, k, queue, walks, Init(w), x, Last(w));
    } else {
      UnvisitedIsLate(g, source, visited, done, current, p, k, queue, walks, Init(w));
      LessThanExtension(p + [k], w);
    }
  }

  lemma DiscoveryIsLeast(g: Graph, source: string, visited: set<string>, done: set<string>, current: string, p: Walk,
                         k: nat, queue: seq<Entry>, walks: seq<Walk>)
    requires Frontier(g, source, visited, done, current, p, k, queue, walks)
    requires k < |g.EdgesFrom(current)| && g.EdgesFrom(current)[k].target !in visited
    ensures Least(g, source, g.EdgesFrom(current)[k].target, p + [k])
    ensures Edges(g, source, p + [k]) == Edges(g, source, p) + [g.EdgesFrom(current)[k]]
  {
    FollowExtend(g, source, p, k);
    var y := g.EdgesFrom(current)[k].target;
    forall v | Follow(g, source, v) == Some(y)
      ensures p + [k] == v || Less(p + [k], v)
    {
      UnvisitedIsLate(g, source, visited, done, current, p, k, queue, walks, v);
    }
  }

  /** The walk just discovered comes last in the queue. */
  lemma WalksGrow(walks: seq<Walk>, p: Walk, k: nat)
    requires Ascending(walks) && Above(walks, p) && Grown(walks, p, k)
    ensures Ascending(walks + [p + [k]]) && Above(walks + [p + [k]], p) && Grown(walks + [p + [k]], p, k + 1)
  {
    assert Init(p + [k]) == p && Last(p + [k]) == k;
    LessThanExtension(p, p + [k]);
    forall i | 0 <= i < |walks|
      ensures Less(walks[i], p + [k])
    {
      assert Less(Init(walks[i]), p) || (Init(walks[i]) == p && Last(walks[i]) < k);
    }
  }

  lemma EntriesGrow(g: Graph, source: string, queue: seq<Entry>, walks: seq<Walk>, entry: Entry, w: Walk)
    requires EntriesOk(g, source, queue, walks) && EntryOk(g, source, entry, w)
    ensures EntriesOk(g, source, queue + [entry], walks + [w])
  {
    hide EntryOk;
  }

  lemma VisitedGrows(g: Graph, visited: set<string>, done: set<string>, current: string, k: nat, table: string)
    requires Closed(g, done, visited) && Examined(g, current, k, visited)
    requires k < |g.EdgesFrom(current)| && g.EdgesFrom(current)[k].target == table
    ensures Closed(g, done, visited + {table}) && Examined(g, current, k + 1, visited + {table})
  {
  }

  lemma FrontierGrows(g: Graph, source: string, visited: set<string>, done: set<string>, current: string, p: Walk,
                      k: nat, queue: seq<Entry>, walks: seq<Walk>, entry: Entry)
    requires Frontier(g, source, visited, done, current, p, k, queue, walks)
    requires k < |g.EdgesFrom(current)| && g.EdgesFrom(current)[k].target !in visited
    requires entry == Entry(g.EdgesFrom(current)[k].target, Edges(g, source, p) + [g.EdgesFrom(current)[k]])
    ensures Frontier(g, source, visited + {entry.table}, done, current, p, k + 1, queue + [entry], walks + [p + [k]])
  {
    DiscoveryIsLeast(g, source, visited, done, current, p, k, queue, walks);
    hide Edges, Ascending, Above, Grown, Tables, EntriesOk, Closed, Examined, Less;
    EntriesGrow(g, source, queue, walks, entry, p + [k]);
    WalksGrow(walks, p, k);
    VisitedGrows(g, visited, done, current, k, entry.table);
    TablesSnoc(queue, entry);
  }

  lemma FrontierSkips(g: Graph, source: string, visited: set<string>, done: set<string>, current: string, p: Walk,
                      k: nat, queue: seq<Entry>, walks: seq<Walk>)
    requires Frontier(g, source, visited, done, current, p, k, queue, walks)
    requires k < |g.EdgesFrom(current)| && g.EdgesFrom(current)[k].target in visited
    ensures Frontier(g, source, visited, done, current, p, k + 1, queue, walks)
  {
  }

  lemma TablesSnoc(queue: seq<Entry>, entry: Entry)
    ensures Tables(queue + [entry]) == Tables(queue) + {entry.table}
  {
    var longer := queue + [entry];
    assert longer[|queue|] == entry;
    forall table | table in Tables(queue) + {entry.table}
      ensures table in Tables(longer)
    {
      if table in Tables(queue) {
        var i :| 0 <= i < |queue| && queue[i].table == table;
        assert longer[i].table == table;
      }
    }
  }

  lemma TablesCons(queue: seq<Entry>)
    requires queue != []
    ensures Tables(queue) == {queue[0].table} + Tables(queue[1..])
  {
    forall table | table in Tables(queue)
      ensures table in {queue[0].table} + Tables(queue[1..])
    {
      var i :| 0 <= i < |queue| && queue[i].table == table;
      if i > 0 {
        assert queue[1..][i - 1].table == table;
      }
    }
  }

  /** The state between two iterations of the outer loop. */
  ghost predicate Waiting(g: Graph, source: string, visited: set<string>, done: set<string>,
                          queue: seq<Entry>, walks: seq<Walk>) {
    && source in visited
    && EntriesOk(g, source, queue, walks)
    && Ascending(walks)
    && (forall i :: 1 <= i < |walks| ==> walks[i] != [] && Less(Init(walks[i]), walks[0]))
    && visited == done + Tables(queue)
    && Closed(g, done, visited)
  }

  lemma SearchStarts(g: Graph, source: string)
    ensures Waiting(g, source, {source}, {}, [Entry(source, [])], [[]])
  {
    var queue := [Entry(source, [])];
    TablesCons(queue);
    assert {} + Tables(queue) == {source};
    assert EntryOk(g, source, queue[0], []);
  }

  lemma PopFront(g: Graph, source: string, visited: set<string>, done: set<string>,
                 queue: seq<Entry>, walks: seq<Walk>)
    requires Waiting(g, source, visited, done, queue, walks) && queue != []
    ensures Frontier(g, source, visited, done, queue[0].table, walks[0], 0, queue[1..], walks[1..])
  {
    TablesCons(queue);
    assert EntryOk(g, source, queue[0], walks[0]);
    forall i | 0 <= i < |queue[1..]|
      ensures EntryOk(g, source, queue[1..][i], walks[1..][i])
    {
      assert EntryOk(g, source, queue[i + 1], walks[i + 1]);
    }
  }

  lemma Finished(g: Graph, source: string, visited: set<string>, done: set<string>, current: string, p: Walk,
                 queue: seq<Entry>, walks: seq<Walk>)
    requires Frontier(g, source, visited, done, current, p, |g.EdgesFrom(current)|, queue, walks)
    ensures Waiting(g, source, visited, done + {current}, queue, walks)
  {
    forall i | 1 <= i < |walks|
      ensures walks[i] != [] && Less(Init(walks[i]), walks[0])
    {
      if Init(walks[i]) != p {
        LessTransitive(Init(walks[i]), p, walks[0]);
      }
    }
  }

  lemma {:induction false} ClosedContainsAllWalks(g: Graph, source: string, visited: set<string>, w: Walk)
    requires source in visited && Closed(g, visited, visited)
    requires Follow(g, source, w).Some?
    ensures Follow(g, source, w).value in visited
    decreases |w|
  {
    if w != [] {
      ClosedContainsAllWalks(g, source, visited, Init(w));
    }
  }

  /** The least walk gives a chain of declared edges, and no chain between the same tables is shorter. */
  lemma LeastIsShortestChain(g: Graph, source: string, target: string, w: Walk)
    requires Least(g, source, target, w)
    ensures IsChain(g, source, target, Edges(g, source, w))
    ensures forall other :: IsChain(g, source, target, other) ==> |Edges(g, source, w)| <= |other|
  {
    WalkIsChain(g, source, w);
    forall other | IsChain(g, source, target, other)
      ensures |w| <= |other|
    {
      var v := ChainIsWalk(g, source, target, other);
      assert w == v || Less(w, v);
    }
  }

  /** What a caller of the search relies on, with no mention of walks or indices. */
  ghost predicate IsShortestPath(g: Graph, source: string, target: string, path: seq<Edge>) {
    && IsChain(g, source, target, path)
    && forall other :: IsChain(g, source, target, other) ==> |path| <= |other|
  }

  lemma TargetFound(g: Graph, source: string, target: string, visited: set<string>, done: set<string>, current: string,
                    p: Walk, k: nat, queue: seq<Entry>, walks: seq<Walk>)
    requires Frontier(g, source, visited, done, current, p, k, queue, walks)
    requires source != target && source in g.nodes && target in g.nodes && target !in visited
    requires k < |g.EdgesFrom(current)| && g.EdgesFrom(current)[k].target == target
    ensures Edges(g, source, p) + [g.EdgesFrom(current)[k]] == ShortestPath(g, source, target)
    ensures IsShortestPath(g, source, target, ShortestPath(g, source, target))
    ensures Reachable(g, source, target)
  {
    DiscoveryIsLeast(g, source, visited, done, current, p, k, queue, walks);
    ShortestPathIs(g, source, target, p + [k]);
    LeastIsShortestChain(g, source, target, p + [k]);
  }

  lemma QueueExhausted(g: Graph, source: string, target: string, visited: set<string>, done: set<string>,
                       queue: seq<Entry>, walks: seq<Walk>)
    requires Waiting(g, source, visited, done, queue, walks) && queue == []
    requires target !in visited
    ensures !Reachable(g, source, target) && ShortestPath(g, source, target) == []
  {
    forall w
      ensures Follow(g, source, w) != Some(target)
    {
      if Follow(g, source, w).Some? {
        ClosedContainsAllWalks(g, source, visited, w);
      }
    }
  }

  /** The inner loop body of `FindPath`: examine the edges of one dequeued table, in declaration order. */
  method ExpandTable(g: Graph, source: string, target: string, visited: set<string>, ghost done: set<string>,
                     current: string, pathSoFar: seq<Edge>, ghost p: Walk, queue: seq<Entry>, ghost walks: seq<Walk>)
    returns (found: Option<seq<Edge>>, visited': set<string>, queue': seq<Entry>, ghost walks': seq<Walk>)
    requires source != target && source in g.nodes && target in g.nodes
    requires Frontier(g, source, visited, done, current, p, 0, queue, walks)
    requires pathSoFar == Edges(g, source, p)
    requires target !in visited && visited <= Universe(g, source)
    ensures found.Some? ==>
              && found.value == ShortestPath(g, source, target)
              && found.value != []
              && IsShortestPath(g, source, target, found.value)
              && Reachable(g, source, target)
    ensures found.None? ==>
              && Waiting(g, source, visited', done + {current}, queue', walks')
              && target !in visited' && visited <= visited' <= Universe(g, source)
              && (visited' == visited ==> queue' == queue)
  {
    hide Frontier, Waiting, ShortestPath, IsShortestPath, Reachable, Edges, Follow, Least;
    visited', queue', walks' := visited, queue, walks;
    var edges := g.EdgesFrom(current);
    for k := 0 to |edges|
      invariant Frontier(g, source, visited', done, current, p, k, queue', walks')
      invariant target !in visited' && visited <= visited' <= Universe(g, source)
      invariant visited' == visited ==> queue' == queue
    {
      var edge := edges[k];
      if edge.target == target {
        TargetFound(g, source, target, visited', done, current, p, k, queue', walks');
        found := Some(pathSoFar + [edge]);
        return;
      }
      if edge.target !in visited' {
        var entry := Entry(edge.target, pathSoFar + [edge]);
        FrontierGrows(g, source, visited', done, current, p, k, queue', walks', entry);
        visited' := visited' + {edge.target};
        queue', walks' := queue' + [entry], walks' + [p + [k]];
      } else {
        FrontierSkips(g, source, visited', done, current, p, k, queue', walks');
      }
    }
    Finished(g, source, visited', done, current, p, queue', walks');
    found := None;
  }

  method FindPath(g: Graph, source: string, target: string) returns (path: seq<Edge>)
    ensures path == ShortestPath(g, source, target)
    ensures path == [] <==>
              source == target || source !in g.nodes || target !in g.nodes || !Reachable(g, source, target)
    ensures path != [] ==> IsShortestPath(g, source, target, path)
  {
    hide Frontier;
    if source == target {
      return [];
    }
    if source !in g.nodes || target !in g.nodes {
      return [];
    }
    var visited := {source};
    var queue := [Entry(source, [])];
    ghost var walks: seq<Walk> := [[]];
    ghost var done: set<string> := {};
    SearchStarts(g, source);
    hide Waiting;
    while queue != []
      invariant Waiting(g, source, visited, done, queue, walks)
      invariant target !in visited && visited <= Universe(g, source)
      decreases Universe(g, source) - visited, |queue|
    {
      PopFront(g, source, visited, done, queue, walks);
      var current, pathSoFar := queue[0].table, queue[0].path;
      var found, visited', queue';
      ghost var walks';
      found, visited', queue', walks' :=
        ExpandTable(g, source, target, visited, done, current, pathSoFar, walks[0], queue[1..], walks[1..]);
      if found.Some? {
        return found.value;
      }
      visited, queue, walks := visited', queue', walks';
      done := done + {current};
    }
    QueueExhausted(g, source, target, visited, done, queue, walks);
    return [];
  }
}
