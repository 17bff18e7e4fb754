/** The table-relationship graph of `metadata/relationships.py`: an adjacency list of the declared relationships. */
module RelationshipGraph {
  import opened Selections

  datatype Relationship = Relationship(
    name: string,
    sourceTable: string,
    targetTable: string,
    sourceColumns: seq<string>,
    targetColumns: seq<string>)

  /** One directed edge; also the shape of a resolved relationship, which copies the same five fields. */
  datatype Edge = Edge(
    source: string,
    target: string,
    name: string,
    sourceColumns: seq<string>,
    targetColumns: seq<string>)

  function FromRelationship(r: Relationship): Edge {
    Edge(r.sourceTable, r.targetTable, r.name, r.sourceColumns, r.targetColumns)
  }

  datatype RawGraph = RawGraph(nodes: set<string>, adjacency: map<string, seq<Edge>>) {
    /** A missing table simply has no outgoing edges. */
    function EdgesFrom(table: string): seq<Edge> {
      if table in adjacency then adjacency[table] else []
    }

    ghost predicate SourcesAgree() {
      forall table, k :: 0 <= k < |EdgesFrom(table)| ==> EdgesFrom(table)[k].source == table
    }
  }

  /** Construction files every edge under its own source table. */
  type Graph = g: RawGraph | g.SourcesAgree() witness RawGraph({}, map[])

  /** The edges leaving `table`, in declaration order: what `edges_from` promises. */
  ghost function Outgoing(relationships: seq<Relationship>, table: string): seq<Edge> {
    if relationships == [] then []
    else
      var last := relationships[|relationships| - 1];
      Outgoing(relationships[..|relationships| - 1], table) +
      (if last.sourceTable == table then [FromRelationship(last)] else [])
  }

  /** The edge carries the relationship over, field by field. */
  predicate Declares(r: Relationship, e: Edge) {
    && e.source == r.sourceTable && e.target == r.targetTable && e.name == r.name
    && e.sourceColumns == r.sourceColumns && e.targetColumns == r.targetColumns
  }

  function On(table: string): Relationship -> bool {
    (r: Relationship) => r.sourceTable == table
  }

  /** The edges are, in order, one for each relationship declared on `table`. */
  ghost predicate DeclaredOn(relationships: seq<Relationship>, table: string, edges: seq<Edge>) {
    Selects(relationships, On(table), edges, Declares)
  }

  lemma {:induction false} OutgoingIsDeclared(relationships: seq<Relationship>, table: string)
    ensures DeclaredOn(relationships, table, Outgoing(relationships, table))
    ensures forall e :: e in Outgoing(relationships, table) ==> e.source == table
    decreases |relationships|
  {
    hide Selects;
    if relationships == [] {
      SelectsNothing<Relationship, Edge>(On(table), Declares);
    } else {
      var front, last := relationships[..|relationships| - 1], relationships[|relationships| - 1];
      OutgoingIsDeclared(front, table);
      SelectsMore(front, On(table), Outgoing(front, table), Declares, last,
                  if last.sourceTable == table then [FromRelationship(last)] else []);
      assert relationships == front + [last];
    }
  }

  method BuildGraph(tables: set<string>, relationships: seq<Relationship>) returns (graph: Graph)
    ensures graph.nodes == tables
    ensures forall table :: DeclaredOn(relationships, table, graph.EdgesFrom(table))
    ensures forall table :: graph.EdgesFrom(table) == Outgoing(relationships, table)
    ensures forall table :: table in graph.adjacency <==> Outgoing(relationships, table) != []
  {
    var grouped: map<string, seq<Edge>> := map[];
    for i := 0 to |relationships|
      invariant forall table :: table in grouped <==> Outgoing(relationships[..i], table) != []
      invariant forall table :: table in grouped ==> grouped[table] == Outgoing(relationships[..i], table)
    {
      var r := relationships[i];
      assert relationships[..i + 1][..i] == relationships[..i];
      var existing := if r.sourceTable in grouped then grouped[r.sourceTable] else [];
      grouped := grouped[r.sourceTable := existing + [FromRelationship(r)]];
    }
    assert relationships[..|relationships|] == relationships;
    var raw := RawGraph(tables, grouped);
    forall table, k | 0 <= k < |raw.EdgesFrom(table)|
      ensures raw.EdgesFrom(table)[k].source == table
    {
      OutgoingIsDeclared(relationships, table);
    }
    graph := raw;
    forall table
      ensures DeclaredOn(relationships, table, graph.EdgesFrom(table))
    {
      OutgoingIsDeclared(relationships, table);
    }
  }
}
