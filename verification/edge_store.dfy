/** The `edges` table and the two queries `graph_operations.py` runs on it: the
    `INSERT OR REPLACE` of `create_edge` and the `UNION` of `get_related_nodes`. */
module EdgeStore {
  import opened Wrappers
  import opened Sequences

  /** One row of `edges`, without its autoincrement `id`. */
  datatype Edge = Edge(source: string, target: string, relType: string, strength: real)

  /** The table, rows in insertion (`id`) order. */
  type Table = seq<Edge>

  /** One row of the query result: `(other_node, relationship_type, strength)`. */
  datatype Neighbor = Neighbor(node: string, relType: string, strength: real)

  /** `create_edge`. The table's only key is the autoincrement `id`, so the
      `REPLACE` never finds a conflicting row: the call always adds one row at
      the end and leaves the others as they were. */
  function CreateEdge(table: Table, source: string, target: string, relType: string, strength: real): (t: Table)
    ensures |t| == |table| + 1
    ensures t[..|table|] == table
    ensures t[|table|] == Edge(source, target, relType, strength)
  {
    table + [Edge(source, target, relType, strength)]
  }

  /** `if relationship_type:` — `None` and the empty string both mean "any type". */
  predicate Filters(relType: Option<string>) {
    relType.Some? && relType.value != ""
  }

  predicate TypeMatches(e: Edge, relType: Option<string>) {
    !Filters(relType) || e.relType == relType.value
  }

  /** The first `SELECT`: rows leaving `node`, seen from their target side. */
  function OutgoingBranch(table: Table, node: string, relType: Option<string>): (r: seq<Neighbor>)
    ensures forall x :: x in r <==>
      exists e :: e in table && e.source == node && TypeMatches(e, relType) &&
                  x == Neighbor(e.target, e.relType, e.strength)
  {
    if |table| == 0 then []
    else
      var e := table[0];
      var rest := OutgoingBranch(table[1..], node, relType);
      assert table == [e] + table[1..];
      if e.source == node && TypeMatches(e, relType) then [Neighbor(e.target, e.relType, e.strength)] + rest
      else rest
  }

  /** The second `SELECT`: rows entering `node`, seen from their source side. */
  function IncomingBranch(table: Table, node: string, relType: Option<string>): (r: seq<Neighbor>)
    ensures forall x :: x in r <==>
      exists e :: e in table && e.target == node && TypeMatches(e, relType) &&
                  x == Neighbor(e.source, e.relType, e.strength)
  {
    if |table| == 0 then []
    else
      var e := table[0];
      var rest := IncomingBranch(table[1..], node, relType);
      assert table == [e] + table[1..];
      if e.target == node && TypeMatches(e, relType) then [Neighbor(e.source, e.relType, e.strength)] + rest
      else rest
  }

  /** Row `e` puts `x` into the neighbours of `node`: `node` is one end of `e`,
      `x` describes the other end, and `e` passes the type filter. */
  ghost predicate Contributes(e: Edge, node: string, relType: Option<string>, x: Neighbor) {
    && TypeMatches(e, relType)
    && x.relType == e.relType && x.strength == e.strength
    && ((e.source == node && x.node == e.target) || (e.target == node && x.node == e.source))
  }

  /** `get_related_nodes(node_id, relationship_type)`. `UNION` has set semantics,
      so the result holds each matching tuple exactly once; SQL leaves the order
      open, and this model lists tuples by first appearance, outgoing branch first. */
  function GetRelatedNodes(table: Table, node: string, relType: Option<string>): (r: seq<Neighbor>)
    ensures Distinct(r)
    ensures forall x :: x in r <==> exists e :: e in table && Contributes(e, node, relType, x)
  {
    var out := OutgoingBranch(table, node, relType);
    var inc := IncomingBranch(table, node, relType);
    var r := Dedup(out + inc);
    assert forall x :: x in r <==> x in out || x in inc;
    r
  }
}

/** What callers of the edge store can rely on across calls. */
module EdgeStoreProperties {
  import opened Wrappers
  import opened Sequences
  import opened EdgeStore

  /** After `create_edge(s, t, r, w)`, a query on either end that admits type `r`
      reports the other end with `r` and `w`. */
  lemma CreateThenQuery(table: Table, s: string, t: string, r: string, w: real, relType: Option<string>)
    requires !Filters(relType) || relType.value == r
    ensures Neighbor(t, r, w) in GetRelatedNodes(CreateEdge(table, s, t, r, w), s, relType)
    ensures Neighbor(s, r, w) in GetRelatedNodes(CreateEdge(table, s, t, r, w), t, relType)
  {
    var e := Edge(s, t, r, w);
    var table' := CreateEdge(table, s, t, r, w);
    assert e == table'[|table|] && e in table';
    assert Contributes(e, s, relType, Neighbor(t, r, w));
    assert Contributes(e, t, relType, Neighbor(s, r, w));
  }

  /** The store is append-only: a tuple once reported stays reported. */
  lemma CreateKeepsNeighbors(table: Table, s: string, t: string, r: string, w: real, node: string, relType: Option<string>)
    ensures forall x :: x in GetRelatedNodes(table, node, relType) ==>
      x in GetRelatedNodes(CreateEdge(table, s, t, r, w), node, relType)
  {
    var table' := CreateEdge(table, s, t, r, w);
    assert forall e :: e in table ==> e in table';
  }

  /** A type-filtered query returns exactly the unfiltered tuples of that type;
      in particular it is a subset of the unfiltered result. */
  lemma FilteredIsRestriction(table: Table, node: string, relType: string)
    requires relType != ""
    ensures forall x :: x in GetRelatedNodes(table, node, Some(relType)) <==>
      x in GetRelatedNodes(table, node, None) && x.relType == relType
  {
  }

  /** An empty type string is falsy, so it queries every type, like `None`. */
  lemma {:induction false} EmptyTypeMeansAnyType(table: Table, node: string)
    ensures GetRelatedNodes(table, node, Some("")) == GetRelatedNodes(table, node, None)
  {
    BranchesIgnoreEmptyType(table, node);
  }

  lemma {:induction false} BranchesIgnoreEmptyType(table: Table, node: string)
    ensures OutgoingBranch(table, node, Some("")) == OutgoingBranch(table, node, None)
    ensures IncomingBranch(table, node, Some("")) == IncomingBranch(table, node, None)
    decreases |table|
  {
    if |table| > 0 {
      BranchesIgnoreEmptyType(table[1..], node);
    }
  }

  /** Writing the same row twice changes no query result: `UNION` collapses the copies. */
  lemma DuplicateRowsCollapse(table: Table, s: string, t: string, r: string, w: real, node: string, relType: Option<string>)
    ensures var once := CreateEdge(table, s, t, r, w);
            var twice := CreateEdge(once, s, t, r, w);
            forall x :: x in GetRelatedNodes(twice, node, relType) <==> x in GetRelatedNodes(once, node, relType)
  {
    var once := CreateEdge(table, s, t, r, w);
    var twice := CreateEdge(once, s, t, r, w);
    assert forall e :: e in twice <==> e in once;
  }

  /** A self-loop is reported once, not once per `UNION` branch. */
  lemma SelfLoopReportedOnce(table: Table, a: string, r: string, w: real)
    ensures multiset(GetRelatedNodes(CreateEdge(table, a, a, r, w), a, None))[Neighbor(a, r, w)] == 1
  {
    CreateThenQuery(table, a, a, r, w, None);
    var q := GetRelatedNodes(CreateEdge(table, a, a, r, w), a, None);
    DistinctCountsAtMostOne(q, Neighbor(a, r, w));
  }

  /** The scenario of `test_get_related_nodes` in tests/test_kb_graph.py: two
      edges leaving "A" give two tuples. */
  lemma TwoEdgesFromA()
    ensures var table := CreateEdge(CreateEdge([], "A", "B", "RELATED_TO", 0.8), "A", "C", "PART_OF", 0.9);
            var related := GetRelatedNodes(table, "A", None);
            && |related| == 2
            && Neighbor("B", "RELATED_TO", 0.8) in related
            && Neighbor("C", "PART_OF", 0.9) in related
  {
    var table := CreateEdge(CreateEdge([], "A", "B", "RELATED_TO", 0.8), "A", "C", "PART_OF", 0.9);
    var b := Neighbor("B", "RELATED_TO", 0.8);
    var c := Neighbor("C", "PART_OF", 0.9);
    assert table == [Edge("A", "B", "RELATED_TO", 0.8), Edge("A", "C", "PART_OF", 0.9)];
    assert table[1..][1..] == [];
    assert OutgoingBranch(table[1..], "A", None) == [c];
    assert OutgoingBranch(table, "A", None) == [b, c];
    assert IncomingBranch(table[1..], "A", None) == [];
    assert IncomingBranch(table, "A", None) == [];
    assert [b, c] + [] == [b, c];
    assert [b, c][..1] == [b];
    assert Dedup([b]) == [b];
    assert GetRelatedNodes(table, "A", None) == [b, c];
  }
}
