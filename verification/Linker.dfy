/**
  The part of `schema_linker/linker.py` that decides which tables a query involves and joins them up.
  Resolving one concept is an input here: the table it resolved to, if any, and whether it was reported ambiguous.
 */
module Linker {
  import opened Wrappers
  import opened Selections
  import opened RelationshipGraph
  import opened Walks
  import opened JoinPaths
  import opened JoinTree

  datatype Resolution = Resolution(table: Option<string>, ambiguous: bool)

  /** One query's concepts, already sent through the resolver; an absent primary entity or sort is None. */
  datatype ResolvedQuery = ResolvedQuery(
    primary: Option<Resolution>,
    secondary: seq<Resolution>,
    metrics: seq<Resolution>,
    dimensions: seq<Resolution>,
    filters: seq<Resolution>,
    sort: Option<Resolution>)

  datatype Linked = Linked(relationshipPaths: seq<Edge>, ambiguities: nat)

  datatype LinkError = EmptyRegistry

  function Present(o: Option<Resolution>): seq<Resolution> {
    if o.Some? then [o.value] else []
  }

  function Concepts(q: ResolvedQuery): seq<Resolution> {
    Present(q.primary) + q.secondary + q.metrics + q.dimensions + q.filters + Present(q.sort)
  }

  function ResolvedTables(rs: seq<Resolution>): seq<string> {
    if rs == [] then []
    else ResolvedTables(rs[..|rs| - 1]) + match rs[|rs| - 1].table case Some(t) => [t] case None => []
  }

  function AmbiguityCount(rs: seq<Resolution>): nat {
    if rs == [] then 0
    else AmbiguityCount(rs[..|rs| - 1]) + if rs[|rs| - 1].ambiguous then 1 else 0
  }

  // ----- what is gathered from a query, told from its own fields

  predicate HasTable(r: Resolution) {
    r.table.Some?
  }

  predicate Names(r: Resolution, table: string) {
    r.table == Some(table)
  }

  predicate IsAmbiguous(r: Resolution) {
    r.ambiguous
  }

  predicate Same(r: Resolution, marked: Resolution) {
    r == marked
  }

  /** The tables are those of the concepts that have one, in order; the count is of the ambiguous concepts. */
  ghost predicate Gathers(concepts: seq<Resolution>, tables: seq<string>, ambiguities: nat) {
    && Selects(concepts, HasTable, tables, Names)
    && exists marked :: Selects(concepts, IsAmbiguous, marked, Same) && |marked| == ambiguities
  }

  predicate IsConcept(q: ResolvedQuery, r: Resolution) {
    || q.primary == Some(r) || r in q.secondary || r in q.metrics || r in q.dimensions || r in q.filters
    || q.sort == Some(r)
  }

  /** The involved tables of a query: those of its resolved concepts, field by field. */
  ghost predicate Involves(q: ResolvedQuery, tables: seq<string>, ambiguities: nat) {
    && Gathers(Present(q.primary) + q.secondary + q.metrics + q.dimensions + q.filters + Present(q.sort),
               tables, ambiguities)
    && (forall r :: IsConcept(q, r) && r.table.Some? ==> r.table.value in tables)
    && (forall t :: t in tables ==> exists r :: IsConcept(q, r) && r.table == Some(t))
  }

  lemma {:induction false} GathersAll(rs: seq<Resolution>) returns (marked: seq<Resolution>)
    ensures Selects(rs, HasTable, ResolvedTables(rs), Names)
    ensures Selects(rs, IsAmbiguous, marked, Same) && |marked| == AmbiguityCount(rs)
    decreases |rs|
  {
    hide Selects;
    if rs == [] {
      SelectsNothing<Resolution, string>(HasTable, Names);
      SelectsNothing<Resolution, Resolution>(IsAmbiguous, Same);
      marked := [];
    } else {
      var front, last := rs[..|rs| - 1], rs[|rs| - 1];
      assert rs == front + [last];
      var before := GathersAll(front);
      var more := if last.ambiguous then [last] else [];
      SelectsMore(front, HasTable, ResolvedTables(front), Names, last,
                  match last.table case Some(t) => [t] case None => []);
      SelectsMore(front, IsAmbiguous, before, Same, last, more);
      marked := before + more;
    }
  }

  lemma InvolvesConcepts(q: ResolvedQuery)
    ensures Involves(q, ResolvedTables(Concepts(q)), AmbiguityCount(Concepts(q)))
  {
    var concepts := Concepts(q);
    var tables := ResolvedTables(concepts);
    var marked := GathersAll(concepts);
    hide Selects, ResolvedTables, AmbiguityCount;
    assert forall r :: r in concepts <==> IsConcept(q, r);
    forall r | r in concepts && r.table.Some?
      ensures r.table.value in tables
    {
      var _ := KeptIsSelected(concepts, HasTable, tables, Names, r);
    }
    forall t | t in tables
      ensures exists r :: IsConcept(q, r) && r.table == Some(t)
    {
      var r := SelectedComesFrom(concepts, HasTable, tables, Names, t);
      assert IsConcept(q, r);
    }
  }

  lemma {:induction false} ConceptsAppend(a: seq<Resolution>, b: seq<Resolution>)
    ensures ResolvedTables(a + b) == ResolvedTables(a) + ResolvedTables(b)
    ensures AmbiguityCount(a + b) == AmbiguityCount(a) + AmbiguityCount(b)
    decreases |b|
  {
    if b == [] {
      assert a + b == a;
    } else {
      var front := b[..|b| - 1];
      assert (a + b)[..|a + b| - 1] == a + front;
      ConceptsAppend(a, front);
    }
  }

  method CollectFrom(rs: seq<Resolution>, involved: seq<string>, ambiguities: nat)
    returns (involved': seq<string>, ambiguities': nat)
    ensures involved' == involved + ResolvedTables(rs)
    ensures ambiguities' == ambiguities + AmbiguityCount(rs)
  {
    involved', ambiguities' := involved, ambiguities;
    for i := 0 to |rs|
      invariant involved' == involved + ResolvedTables(rs[..i])
      invariant ambiguities' == ambiguities + AmbiguityCount(rs[..i])
    {
      assert rs[..i + 1][..i] == rs[..i];
      if rs[i].ambiguous {
        ambiguities' := ambiguities' + 1;
      }
      if rs[i].table.Some? {
        involved' := involved' + [rs[i].table.value];
      }
    }
    assert rs[..|rs|] == rs;
  }

  /** `tuple(dict.fromkeys(...))`: each table once, in order of first appearance. */
  function Unique(tables: seq<string>): (r: seq<string>)
    ensures forall t :: t in r <==> t in tables
    ensures forall i, j :: 0 <= i < j < |r| ==> r[i] != r[j]
    ensures tables != [] ==> r != [] && r[0] == tables[0]
  {
    if tables == [] then []
    else
      var front := Unique(tables[..|tables| - 1]);
      if tables[|tables| - 1] in front then front else front + [tables[|tables| - 1]]
  }

  /** Of two distinct tables, the one listed first is mentioned before every mention of the other. */
  lemma {:induction false} UniqueKeepsFirsts(tables: seq<string>, j: nat, k: nat) returns (at: nat)
    requires j < k < |Unique(tables)|
    ensures at < |tables| && tables[at] == Unique(tables)[j]
    ensures forall i :: 0 <= i < |tables| && tables[i] == Unique(tables)[k] ==> at < i
    decreases |tables|
  {
    var front, last := tables[..|tables| - 1], tables[|tables| - 1];
    if k < |Unique(front)| {
      at := UniqueKeepsFirsts(front, j, k);
    } else {
      assert Unique(front)[j] in front;
      at :| 0 <= at < |front| && front[at] == Unique(front)[j];
      assert forall i :: 0 <= i < |front| ==> tables[i] in front;
    }
  }

  /** The union of the paths from the first distinct table to the others, if there are two. */
  ghost function JoiningEdges(g: Graph, involved: seq<string>): seq<Edge> {
    if |Unique(involved)| < 2 then [] else PathUnion(g, Unique(involved)[0], Unique(involved)[1..])
  }

  method ResolveRelationshipPaths(tables: set<string>, relationships: seq<Relationship>, involved: seq<string>)
    returns (edges: seq<Edge>, ghost g: Graph)
    ensures g.nodes == tables && forall t :: DeclaredOn(relationships, t, g.EdgesFrom(t))
    ensures edges == JoiningEdges(g, involved)
  {
    var graph := BuildGraph(tables, relationships);
    g := graph;
    var unique := Unique(involved);
    if |unique| < 2 {
      return [], g;
    }
    edges := FindPathsFrom(graph, unique[0], unique[1..]);
  }

  /** The edges form a tree rooted at the first involved table that holds every involved table it can reach. */
  ghost predicate Connects(g: Graph, involved: seq<string>, edges: seq<Edge>) {
    involved != [] ==>
      && IsOutTree(involved[0], edges)
      && |edges| == |Touched(involved[0], edges)| - 1
      && forall t :: (t in involved && involved[0] in g.nodes && t in g.nodes && Reachable(g, involved[0], t))
           ==> t in Touched(involved[0], edges)
  }

  lemma TouchedTables(anchor: string)
    ensures Touched(anchor, []) == {anchor} && IsOutTree(anchor, [])
    ensures forall edges: seq<Edge>, t :: t == anchor || Entered(edges, t) ==> t in Touched(anchor, edges)
  {
  }

  lemma InvolvedTablesAreConnected(g: Graph, involved: seq<string>)
    ensures Connects(g, involved, JoiningEdges(g, involved))
  {
    hide IsOutTree, PathUnion, ShortestPath, Reachable, Touched;
    if involved != [] {
      var unique := Unique(involved);
      var anchor, others := unique[0], unique[1..];
      PathUnionIsShortestPathTree(g, anchor, others);
      TouchedTables(anchor);
      var edges := PathUnion(g, anchor, others);
      forall t | t in involved && t != anchor && anchor in g.nodes && t in g.nodes && Reachable(g, anchor, t)
        ensures t in Touched(anchor, edges)
      {
        var i :| 0 <= i < |unique| && unique[i] == t;
        assert others[i - 1] == t;
      }
    }
  }

  method CollectInvolved(q: ResolvedQuery) returns (involved: seq<string>, ambiguities: nat)
    ensures involved == ResolvedTables(Concepts(q))
    ensures ambiguities == AmbiguityCount(Concepts(q))
    ensures Involves(q, involved, ambiguities)
  {
    ghost var seen := Present(q.primary);
    involved, ambiguities := CollectFrom(Present(q.primary), [], 0);
    assert involved == ResolvedTables(seen);
    involved, ambiguities := CollectMore(seen, q.secondary, involved, ambiguities);
    seen := seen + q.secondary;
    involved, ambiguities := CollectMore(seen, q.metrics, involved, ambiguities);
    seen := seen + q.metrics;
    involved, ambiguities := CollectMore(seen, q.dimensions, involved, ambiguities);
    seen := seen + q.dimensions;
    involved, ambiguities := CollectMore(seen, q.filters, involved, ambiguities);
    seen := seen + q.filters;
    involved, ambiguities := CollectMore(seen, Present(q.sort), involved, ambiguities);
    InvolvesConcepts(q);
  }

  method CollectMore(ghost seen: seq<Resolution>, rs: seq<Resolution>, involved: seq<string>, ambiguities: nat)
    returns (involved': seq<string>, ambiguities': nat)
    requires involved == ResolvedTables(seen) && ambiguities == AmbiguityCount(seen)
    ensures involved' == ResolvedTables(seen + rs) && ambiguities' == AmbiguityCount(seen + rs)
  {
    ConceptsAppend(seen, rs);
    involved', ambiguities' := CollectFrom(rs, involved, ambiguities);
  }

  /** Every edge is one of the declared relationships, and lies on the shortest path to an involved table. */
  ghost predicate JoinsWith(g: Graph, relationships: seq<Relationship>, involved: seq<string>, edges: seq<Edge>) {
    forall e :: e in edges ==>
      && (exists r :: r in relationships && Declares(r, e))
      && involved != [] && OnWay(g, involved[0], involved, e)
  }

  lemma OnWayIsDeclared(g: Graph, relationships: seq<Relationship>, source: string, tables: seq<string>, e: Edge)
    requires forall t :: DeclaredOn(relationships, t, g.EdgesFrom(t))
    requires OnWay(g, source, tables, e)
    ensures exists r :: r in relationships && Declares(r, e)
  {
    hide Selects;
    var target :| target in tables && e in ShortestPath(g, source, target);
    var w :| Least(g, source, target, w) && e in Edges(g, source, w);
    var table := EdgeOfWalk(g, source, w, e);
    assert DeclaredOn(relationships, table, g.EdgesFrom(table));
    var r := SelectedComesFrom(relationships, On(table), g.EdgesFrom(table), Declares, e);
  }

  lemma {:induction false} EdgeOfWalk(g: Graph, source: string, w: Walk, e: Edge) returns (table: string)
    requires Follow(g, source, w).Some? && e in Edges(g, source, w)
    ensures e in g.EdgesFrom(table)
    decreases |w|
  {
    LastStep(g, source, w);
    if e in Edges(g, source, Init(w)) {
      table := EdgeOfWalk(g, source, Init(w), e);
    } else {
      table := Follow(g, source, Init(w)).value;
    }
  }

  lemma JoiningEdgesJoin(g: Graph, relationships: seq<Relationship>, involved: seq<string>)
    requires forall t :: DeclaredOn(relationships, t, g.EdgesFrom(t))
    ensures JoinsWith(g, relationships, involved, JoiningEdges(g, involved))
  {
    var edges := JoiningEdges(g, involved);
    if edges != [] {
      var anchor, others := Unique(involved)[0], Unique(involved)[1..];
      hide DeclaredOn, ShortestPath, PathUnion, Unique;
      PathUnionIsShortestPathTree(g, anchor, others);
      forall e | e in edges
        ensures OnWay(g, anchor, involved, e) && exists r :: r in relationships && Declares(r, e)
      {
        var target :| target in others && e in ShortestPath(g, anchor, target);
        assert target in Unique(involved);
        OnWayIsDeclared(g, relationships, anchor, involved, e);
      }
    }
  }

  /** Edges are listed in the order in which the involved tables, as first mentioned, call for them. */
  lemma JoiningEdgesInOrder(g: Graph, involved: seq<string>)
    ensures involved != [] ==> DiscoveredInOrder(g, involved[0], involved, JoiningEdges(g, involved))
  {
    var edges := JoiningEdges(g, involved);
    if edges != [] {
      var unique := Unique(involved);
      var anchor, others := unique[0], unique[1..];
      assert ShortestPath(g, anchor, anchor) == [];
      PathUnionIsInOrder(g, anchor, others);
      hide ShortestPath, PathUnion, Unique, OnWay;
      forall a, b, i |
        0 <= a < b < |edges| && 0 <= i < |involved| && edges[b] in ShortestPath(g, anchor, involved[i])
        ensures OnWay(g, anchor, involved[..i + 1], edges[a])
      {
        assert involved[i] in unique;
        var m :| 0 <= m < |unique| && unique[m] == involved[i];
        assert others[m - 1] == involved[i];
        assert OnWay(g, anchor, others[..m], edges[a]);
        OnWayToEarlier(g, involved, m, i, edges[a]);
      }
    }
  }

  lemma OnWayToEarlier(g: Graph, involved: seq<string>, m: nat, i: nat, e: Edge)
    requires 1 <= m < |Unique(involved)| && i < |involved| && involved[i] == Unique(involved)[m]
    requires OnWay(g, Unique(involved)[0], Unique(involved)[1..][..m], e)
    ensures OnWay(g, Unique(involved)[0], involved[..i + 1], e)
  {
    hide ShortestPath, Unique;
    var others := Unique(involved)[1..];
    var target :| target in others[..m] && e in ShortestPath(g, Unique(involved)[0], target);
    var j :| 0 <= j < m && others[j] == target;
    FirstMentionIsEarlier(involved, j + 1, m, i);
  }

  lemma FirstMentionIsEarlier(tables: seq<string>, j: nat, k: nat, i: nat)
    requires j <= k < |Unique(tables)| && i < |tables| && tables[i] == Unique(tables)[k]
    ensures Unique(tables)[j] in tables[..i + 1]
  {
    hide Unique;
    if j == k {
      assert tables[..i + 1][i] == tables[i];
    } else {
      var at := UniqueKeepsFirsts(tables, j, k);
      assert tables[..i + 1][at] == tables[at];
    }
  }

  /** The graph leads from one table to another exactly where declared relationships do. */
  ghost predicate FollowsDeclarations(g: Graph, relationships: seq<Relationship>) {
    forall a, b :: Reachable(g, a, b) <==> exists chain :: DeclaredChain(relationships, a, b, chain)
  }

  lemma GraphFollowsDeclarations(g: Graph, relationships: seq<Relationship>)
    requires forall t :: DeclaredOn(relationships, t, g.EdgesFrom(t))
    ensures FollowsDeclarations(g, relationships)
  {
    forall a, b
      ensures Reachable(g, a, b) <==> exists chain :: DeclaredChain(relationships, a, b, chain)
    {
      ReachableIffDeclared(g, relationships, a, b);
    }
  }

  /** In particular a relationship declared from one table to another makes the second reachable from the first. */
  lemma DeclaredIsReachable(g: Graph, relationships: seq<Relationship>, r: Relationship)
    requires FollowsDeclarations(g, relationships) && r in relationships
    ensures Reachable(g, r.sourceTable, r.targetTable)
  {
    assert [r][..0] == [];
    assert DeclaredChain(relationships, r.sourceTable, r.targetTable, [r]);
  }

  method Link(tables: set<string>, relationships: seq<Relationship>, q: ResolvedQuery)
    returns (linked: Result<Linked, LinkError>, ghost g: Graph, ghost involved: seq<string>)
    ensures linked.Err? <==> tables == {}
    ensures linked.Ok? ==>
              var edges := linked.value.relationshipPaths;
              && g.nodes == tables && FollowsDeclarations(g, relationships)
              && Involves(q, involved, linked.value.ambiguities)
              && Connects(g, involved, edges)
              && JoinsWith(g, relationships, involved, edges)
              && (involved != [] ==> DiscoveredInOrder(g, involved[0], involved, edges))
  {
    if tables == {} {
      return Err(EmptyRegistry), RawGraph({}, map[]), [];
    }
    hide *;
    var gathered, ambiguities := CollectInvolved(q);
    involved := gathered;
    var edges;
    edges, g := ResolveRelationshipPaths(tables, relationships, gathered);
    GraphFollowsDeclarations(g, relationships);
    InvolvedTablesAreConnected(g, involved);
    JoiningEdgesJoin(g, relationships, involved);
    JoiningEdgesInOrder(g, involved);
    linked := Ok(Linked(edges, ambiguities));
  }
}
