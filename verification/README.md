# Knowledge-graph edge store and similarity analyzer, in Dafny

This project models `src/kb_graph/graph_operations.py` of the knowledge-graph
package: the store of labelled, weighted edges between node identifiers, the
frequency-based key-concept extractor, the graph updater that links a text to
its key concepts, and the analyzer that compares two content records and
proposes relationship categories.

Modules, leaves first:

- `Wrappers`: `Option` and `Result`. A Python exception is a `Failure`.
- `Sequences`: `Distinct` and `Dedup`, plus counting facts about them.
- `Text`: `str.lower()` and argument-less `str.split()`. `IsSpace` is the
  character set of `str.isspace()`.
- `KeyConcepts`: `extract_key_concepts`. The `word_freq` dictionary is a
  `FreqTable`: its keys in insertion order and their counts.
- `Similarity`: the four comparators and `analyze_file_pair`. A content record
  is a `FileRecord` with one optional field per key the analyzer reads, plus
  the set of any other keys.
- `SimilarityProperties`: symmetry, bounds, bucket examples and an end-to-end
  property.
- `EdgeStore`: the `edges` table as a `seq<Edge>` in `id` order, with
  `create_edge` and `get_related_nodes`.
- `EdgeStoreProperties`: what a caller can rely on across calls.
- `GraphUpdater`: `update_knowledge_graph`.

The model follows the code on these points:

- Jaccard similarity of two empty sets raises `ZeroDivisionError` in the code.
  It is not defined as 0. The error propagates out of `analyze_file_pair`, so
  `AnalyzeFilePair` returns `Failure(ZeroDivision)` exactly in that case.
- `create_edge` always appends a row. Its `INSERT OR REPLACE` has no unique key
  to conflict with, because the only key in the table schema is the
  autoincrement `id` (tests/test_kb_graph.py:17-24). So there is no upsert.
- `get_related_nodes` uses SQL `UNION`, which removes duplicate result tuples.
  Two identical rows therefore show up once, not once per row.
- `update_knowledge_graph` has no `return`, so it returns `None`, not the id.
- The bucket bounds are strict (`<`). Two instants exactly one hour apart are
  `SAME_DAY`, not `TEMPORALLY_CLOSE`. The module-level
  `test_compare_timestamps` (tests/test_kb_graph.py:127-137) expects the
  opposite, but its assertions never run: unittest does not collect it, and
  pytest errors on the missing `self` fixture.
  `SimilarityProperties.TimestampBoundaries` states the code's behaviour.

## Model

| member | source | states |
|---|---|---|
| Text.Split | src/kb_graph/graph_operations.py:39 | every token is non-empty and free of whitespace |
| Text.SplitOfWord | src/kb_graph/graph_operations.py:39 | a single word splits into exactly itself |
| Text.SplitAtSpace | src/kb_graph/graph_operations.py:39 | any whitespace character separates tokens: the tokens of the whole are the tokens before it followed by the tokens after it, so tokens are the maximal whitespace-free runs |
| Text.SplitKeepsCharacters | src/kb_graph/graph_operations.py:39 | the tokens together hold every non-whitespace character of the input, in order, and nothing else |
| Text.SplitJoin | src/kb_graph/graph_operations.py:39 | splitting words joined by single spaces gives back exactly those words |
| Text.Tokens | src/kb_graph/graph_operations.py:39 | `lower().split()` yields whitespace-free words without upper-case ASCII letters |
| KeyConcepts.Tally | src/kb_graph/graph_operations.py:40-42 | the frequency dictionary holds each distinct word once, with its number of occurrences, keys in first-occurrence order |
| KeyConcepts.KeyConceptsOf | src/kb_graph/graph_operations.py:40-43 | the result is exactly the words occurring more than once, each listed once, ordered by first occurrence |
| KeyConcepts.ExtractKeyConcepts | src/kb_graph/graph_operations.py:38-43 | the result is exactly the distinct lower-cased tokens with frequency above one, without repeats, in first-occurrence order |
| KeyConcepts.NoRepeatsNoConcepts | src/kb_graph/graph_operations.py:38-43 | a text whose tokens are all different yields `[]` |
| KeyConcepts.RepeatedWordExample | src/kb_graph/graph_operations.py:38-43 | "a a b" yields ["a"] |
| KeyConcepts.NoRepeatedWordExample | src/kb_graph/graph_operations.py:38-43 | "a b c" yields [] |
| Similarity.Jaccard | src/kb_graph/graph_operations.py:114-116 | `|A∩B|/|A∪B|` fails exactly when both sets are empty; otherwise the numerator is at most the positive denominator, they are equal iff A = B, and the numerator is positive iff A and B share an element |
| Similarity.WordOverlap | src/kb_graph/graph_operations.py:108-112 | the code's division `len(common) / (len(w1) + len(w2) - len(common))` equals the Jaccard similarity, including its division-by-zero case |
| Similarity.CompareContent | src/kb_graph/graph_operations.py:108-112 | content similarity is the Jaccard similarity of the two lower-cased word sets |
| Similarity.CompareTitles | src/kb_graph/graph_operations.py:118-122 | title similarity is the Jaccard similarity of the two lower-cased word sets |
| Similarity.CompareTags | src/kb_graph/graph_operations.py:114-116 | tag similarity is the Jaccard similarity of the two tag sets: it fails iff both tag lists are empty; otherwise it is at most 1 and positive iff some tag occurs in both lists |
| Similarity.CompareTimestamps | src/kb_graph/graph_operations.py:124-136 | for every distance: `TEMPORALLY_CLOSE`/0.9 iff under an hour, `SAME_DAY`/0.7 iff at least an hour and under a day, `SAME_WEEK`/0.5 iff at least a day and under a week, no category iff a week or more |
| Similarity.ContentStep | src/kb_graph/graph_operations.py:81-85 | raises iff both contents are present with no words; otherwise emits at most one entry, and an entry is emitted iff it is `SIMILAR_CONTENT` carrying the word-set overlap, and that overlap exceeds 0.3 |
| Similarity.TagStep | src/kb_graph/graph_operations.py:87-91 | raises iff both tag lists are present and empty; otherwise emits `SHARED_TAGS` with the tag overlap iff the overlap exceeds 0 |
| Similarity.TitleStep | src/kb_graph/graph_operations.py:93-97 | raises iff both titles are present with no words; otherwise emits `RELATED_TOPIC` with the title overlap iff the overlap exceeds 0.5 |
| Similarity.TimeStep | src/kb_graph/graph_operations.py:99-103 | with both timestamps present, appends the bucket tuple unchanged, or nothing when there is no bucket |
| Similarity.AnalyzeFilePair | src/kb_graph/graph_operations.py:70-106 | an empty record on either side gives `[]`; otherwise the call fails iff a comparator fed by both records divides by zero; on success there are at most 4 entries, with comparator ranks strictly increasing, and an entry is present iff its comparator's key is in both records and the overlap or bucket justifies it |
| SimilarityProperties.ComparatorsSymmetric | src/kb_graph/graph_operations.py:108-136 | content, title, tag and timestamp comparisons give the same result with arguments swapped |
| SimilarityProperties.JaccardSymmetric | src/kb_graph/graph_operations.py:114-116 | Jaccard similarity is symmetric |
| SimilarityProperties.SimilarityInUnitInterval | src/kb_graph/graph_operations.py:114-116 | when not both sets are empty, the similarity is defined and lies in [0, 1] |
| SimilarityProperties.IdenticalInputsScoreOne | src/kb_graph/graph_operations.py:108-122 | identical inputs with at least one word or tag have similarity exactly 1 |
| SimilarityProperties.CloserNeverWeaker | src/kb_graph/graph_operations.py:127-136 | a pair of instants that is closer never gets no bucket, or a lower-scored bucket, than a pair that is further apart |
| SimilarityProperties.TimestampExamples | src/kb_graph/graph_operations.py:129-136 | 30 minutes apart is TEMPORALLY_CLOSE 0.9, 5 hours is SAME_DAY 0.7, 3 days is SAME_WEEK 0.5, 15 days is no category |
| SimilarityProperties.TimestampBoundaries | src/kb_graph/graph_operations.py:129-136 | exactly one hour apart is SAME_DAY, exactly one day is SAME_WEEK, exactly one week is no category |
| SimilarityProperties.AnalyzeSymmetric | src/kb_graph/graph_operations.py:70-106 | analysing (f1, f2) and (f2, f1) gives the same result |
| SimilarityProperties.AllFourCategories | src/kb_graph/graph_operations.py:79-106 | content overlap above 0.3, a shared tag, title overlap above 0.5 and less than an hour apart give exactly SIMILAR_CONTENT, SHARED_TAGS, RELATED_TOPIC, TEMPORALLY_CLOSE, in that order |
| EdgeStore.CreateEdge | src/kb_graph/graph_operations.py:21-28 | one row `(source, target, type, strength)` is added at the end, and every earlier row is unchanged |
| EdgeStore.OutgoingBranch | src/kb_graph/graph_operations.py:49-52 | yields `(target, type, strength)` exactly for the rows leaving the node that pass the type filter |
| EdgeStore.IncomingBranch | src/kb_graph/graph_operations.py:53-56 | yields `(source, type, strength)` exactly for the rows entering the node that pass the type filter |
| EdgeStore.GetRelatedNodes | src/kb_graph/graph_operations.py:45-68 | the result has no duplicates and contains a tuple iff some row has the node at one end, the tuple's node at the other end, the same type and strength, and passes the type filter |
| EdgeStoreProperties.CreateThenQuery | src/kb_graph/graph_operations.py:21-68 | after creating (s, t, r, w), a query on s admitting type r contains (t, r, w), and a query on t contains (s, r, w) |
| EdgeStoreProperties.CreateKeepsNeighbors | src/kb_graph/graph_operations.py:21-28 | creating an edge never removes a tuple from any query result |
| EdgeStoreProperties.FilteredIsRestriction | src/kb_graph/graph_operations.py:48-67 | a non-empty type filter returns exactly the unfiltered tuples of that type, so the filtered result is a subset of the unfiltered one |
| EdgeStoreProperties.EmptyTypeMeansAnyType | src/kb_graph/graph_operations.py:48 | filtering on the empty string returns the same result as no filter |
| EdgeStoreProperties.DuplicateRowsCollapse | src/kb_graph/graph_operations.py:59-67 | writing the same row twice changes no query result |
| EdgeStoreProperties.SelfLoopReportedOnce | src/kb_graph/graph_operations.py:59-67 | a self-loop appears exactly once in the query on its node |
| EdgeStoreProperties.TwoEdgesFromA | tests/test_kb_graph.py:52-60 | after creating A→B and A→C, the query on A returns exactly the two expected tuples |
| GraphUpdater.LinkConcepts | src/kb_graph/graph_operations.py:34-35 | one `RELATED_TO` 1.0 row per concept from the info id is added, in concept order, after the unchanged old rows |
| GraphUpdater.UpdateKnowledgeGraph | src/kb_graph/graph_operations.py:31-36 | the table grows by one `(digest(text), concept, RELATED_TO, 1.0)` row per key concept, in order, and the old rows are unchanged |
| GraphUpdater.UpdateAddsOnlyRepeatedTokens | src/kb_graph/graph_operations.py:31-43 | every added row joins the text's id to a token that occurs more than once in the text, and no two added rows share a target |
| GraphUpdater.UpdateLinksEveryConcept | src/kb_graph/graph_operations.py:31-36 | after the update, the text's id and each of its key concepts are reported as neighbours of each other |
| GraphUpdater.UpdateWithoutRepeatsIsNoop | src/kb_graph/graph_operations.py:31-36 | a text whose tokens are all different leaves the table unchanged |

## Left out

- SQLite plumbing is not modelled: `get_db_connection`, `DB_DIR`, `DB_PATH`, connections, commits and the `id` column. The table is a value passed in and returned. `sqlite3` I/O errors are not modelled either.
- Logging (`logger.*`) is not modelled, because it does not affect any result.
- `hashlib.md5(...).hexdigest()` is not modelled. It is the parameter `digest: string -> string` of `UpdateKnowledgeGraph`.
- Timestamp parsing is not modelled. This covers `datetime.fromisoformat`, the `Z` replacement, `ValueError` on malformed strings and `TypeError` when naive and aware datetimes are mixed. Timestamps are already-parsed instants in integer microseconds, the resolution of `datetime`.
- Text.Lower: only ASCII letters are lower-cased. Python's `str.lower()` also lower-cases non-ASCII letters, and some of them expand to two characters.
- Floating point is not modelled. Similarities and strengths are exact `real`s, and thresholds are decided exactly on the integer counts. Float rounding could only change a threshold decision for word sets far larger than any text.
- Python's dynamic typing is not modelled. Record values are assumed to have the types the comparators expect: strings, a list of strings and a timestamp.
- EdgeStore.GetRelatedNodes: the result order is one particular order, by first appearance with the outgoing branch first. SQL leaves the order of a `UNION` open, so callers should rely only on the contents and the absence of duplicates.
- Concurrency between writers is not modelled, because each call here is a single sequential step.
- src/knowledge_extraction/extractor.py is not part of this model. It wraps external analyzers whose code is not available.
- setup.py and examples/basic_usage.py are not part of this model. They are packaging and demo code.
