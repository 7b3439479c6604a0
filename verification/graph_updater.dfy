/** `update_knowledge_graph`: links a text's content-addressed node to each of
    its key concepts with a `RELATED_TO` edge of strength 1.0. */
module GraphUpdater {
  import opened Wrappers
  import opened EdgeStore
  import KeyConcepts
  import Text

  const RelatedTo: string := "RELATED_TO"

  /** The loop `for concept in key_concepts: create_edge(info_id, concept, "RELATED_TO", 1.0)`:
      one new row per concept, in concept order, after the untouched old rows. */
  function LinkConcepts(table: Table, infoId: string, concepts: seq<string>): (t: Table)
    ensures |t| == |table| + |concepts|
    ensures t[..|table|] == table
    ensures forall i :: 0 <= i < |concepts| ==> t[|table| + i] == Edge(infoId, concepts[i], RelatedTo, 1.0)
    decreases |concepts|
  {
    if |concepts| == 0 then table
    else
      var next := CreateEdge(table, infoId, concepts[0], RelatedTo, 1.0);
      var t := LinkConcepts(next, infoId, concepts[1..]);
      assert t[..|table|] == next[..|table|];
      t
  }

  /** `update_knowledge_graph(new_information)`, with the MD5 hex digest passed
      in as `digest`. The Python function returns `None`, so only the new table is returned. */
  function UpdateKnowledgeGraph(table: Table, newInformation: string, digest: string -> string): (t: Table)
    ensures var concepts := KeyConcepts.ExtractKeyConcepts(newInformation);
            && |t| == |table| + |concepts|
            && t[..|table|] == table
            && forall i :: 0 <= i < |concepts| ==>
                 t[|table| + i] == Edge(digest(newInformation), concepts[i], RelatedTo, 1.0)
  {
    var keyConcepts := KeyConcepts.ExtractKeyConcepts(newInformation);
    var infoId := digest(newInformation);
    LinkConcepts(table, infoId, keyConcepts)
  }

  /** Every row the update adds joins the text's node to a token that occurs
      more than once in the text, and no two added rows name the same token. */
  lemma UpdateAddsOnlyRepeatedTokens(table: Table, newInformation: string, digest: string -> string)
    ensures var t := UpdateKnowledgeGraph(table, newInformation, digest);
            && (forall i :: |table| <= i < |t| ==>
                  && t[i].source == digest(newInformation)
                  && t[i].relType == RelatedTo && t[i].strength == 1.0
                  && multiset(Text.Tokens(newInformation))[t[i].target] > 1)
            && (forall i, j :: |table| <= i < j < |t| ==> t[i].target != t[j].target)
  {
    var t := UpdateKnowledgeGraph(table, newInformation, digest);
    var concepts := KeyConcepts.ExtractKeyConcepts(newInformation);
    var tokens := Text.Tokens(newInformation);
    NewRowsNameConcepts(table, digest(newInformation), concepts, t);
    forall i | |table| <= i < |t|
      ensures multiset(tokens)[t[i].target] > 1
    {
      assert t[i].target in concepts;
    }
  }

  lemma NewRowsNameConcepts(table: Table, infoId: string, concepts: seq<string>, t: Table)
    requires Sequences.Distinct(concepts)
    requires |t| == |table| + |concepts|
    requires forall i :: 0 <= i < |concepts| ==> t[|table| + i] == Edge(infoId, concepts[i], RelatedTo, 1.0)
    ensures forall i :: |table| <= i < |t| ==>
      t[i].source == infoId && t[i].relType == RelatedTo && t[i].strength == 1.0 && t[i].target in concepts
    ensures forall i, j :: |table| <= i < j < |t| ==> t[i].target != t[j].target
  {
    forall i | |table| <= i < |t|
      ensures t[i] == Edge(infoId, concepts[i - |table|], RelatedTo, 1.0)
    {
      assert t[i] == t[|table| + (i - |table|)];
    }
  }

  /** After the update, the text's node and each of its key concepts see each
      other through a `RELATED_TO` edge of strength 1.0. */
  lemma UpdateLinksEveryConcept(table: Table, newInformation: string, digest: string -> string, concept: string)
    requires concept in KeyConcepts.ExtractKeyConcepts(newInformation)
    ensures var t := UpdateKnowledgeGraph(table, newInformation, digest);
            && Neighbor(concept, RelatedTo, 1.0) in GetRelatedNodes(t, digest(newInformation), None)
            && Neighbor(digest(newInformation), RelatedTo, 1.0) in GetRelatedNodes(t, concept, None)
  {
    var t := UpdateKnowledgeGraph(table, newInformation, digest);
    var concepts := KeyConcepts.ExtractKeyConcepts(newInformation);
    var id := digest(newInformation);
    var i :| 0 <= i < |concepts| && concepts[i] == concept;
    var e := t[|table| + i];
    assert e == Edge(id, concept, RelatedTo, 1.0) && e in t;
    assert Contributes(e, id, None, Neighbor(concept, RelatedTo, 1.0));
    assert Contributes(e, concept, None, Neighbor(id, RelatedTo, 1.0));
  }

  /** A text whose tokens are all different adds nothing to the table. */
  lemma UpdateWithoutRepeatsIsNoop(table: Table, newInformation: string, digest: string -> string)
    requires Sequences.Distinct(Text.Tokens(newInformation))
    ensures UpdateKnowledgeGraph(table, newInformation, digest) == table
  {
    KeyConcepts.NoRepeatsNoConcepts(newInformation);
  }
}
