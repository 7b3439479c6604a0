/** `analyze_file_pair` and its four comparators: Jaccard overlap of content
    words, tags and title words, and a bucketing of the time between two records. */
module Similarity {
  import opened Wrappers
  import Text

  /** Timestamps are instants counted in microseconds, the resolution of Python's
      `datetime`; the bucket bounds are in seconds as `compare_timestamps` writes them. */
  const MicrosPerSecond: int := 1_000_000
  const HourSeconds: int := 3600
  const DaySeconds: int := 86400
  const WeekSeconds: int := 604800

  /** The category names the analyzer emits. */
  datatype Label = SimilarContent | SharedTags | RelatedTopic | TemporallyClose | SameDay | SameWeek {

    function Name(): string {
      match this
      case SimilarContent => "SIMILAR_CONTENT"
      case SharedTags => "SHARED_TAGS"
      case RelatedTopic => "RELATED_TOPIC"
      case TemporallyClose => "TEMPORALLY_CLOSE"
      case SameDay => "SAME_DAY"
      case SameWeek => "SAME_WEEK"
    }

    /** Position of the comparator that emits the label: content, tags, title, timestamp. */
    function Rank(): nat {
      match this
      case SimilarContent => 0
      case SharedTags => 1
      case RelatedTopic => 2
      case _ => 3
    }
  }

  /** One `(category, score)` tuple of the result. */
  datatype Category = Category(kind: Label, score: real)

  /** The only exception the analyzer raises on well-typed records. */
  datatype AnalysisError = ZeroDivision

  /** A similarity `shared / total`, kept as the two counts `graph_operations.py` divides. */
  datatype Ratio = Ratio(shared: nat, total: nat) {
    function Value(): real
      requires total > 0
    {
      shared as real / total as real
    }
  }

  /** `|a ∩ b| / |a ∪ b|`, the division failing when both sets are empty. */
  function Jaccard(a: set<string>, b: set<string>): (r: Result<Ratio, AnalysisError>)
    ensures r.Failure? <==> a == {} && b == {}
    ensures r.Success? ==> 0 < r.value.total && r.value.shared <= r.value.total
    ensures r.Success? ==> (r.value.shared == r.value.total <==> a == b)
    ensures r.Success? ==> (r.value.shared > 0 <==> exists x :: x in a && x in b)
  {
    var u := a + b;
    if |u| == 0 then
      assert a <= u && b <= u;
      Failure(ZeroDivision)
    else
      var i := a * b;
      SubsetCard(i, u);
      if |i| == |u| then
        SubsetCardEqual(i, u);
        assert a == b by {
          assert forall x :: x in a ==> x in u;
          assert forall x :: x in b ==> x in u;
        }
        Success(Ratio(|i|, |u|))
      else
        assert a != b;
        assert |i| > 0 ==> exists x :: x in i;
        Success(Ratio(|i|, |u|))
  }

  lemma SubsetCard<T>(x: set<T>, y: set<T>)
    requires x <= y
    ensures |x| <= |y|
    ensures |y| == |x| + |y - x|
  {
    assert y == x + (y - x);
  }

  lemma SubsetCardEqual<T>(x: set<T>, y: set<T>)
    requires x <= y && |x| == |y|
    ensures x == y
  {
    SubsetCard(x, y);
  }

  /** Inclusion–exclusion: `|a ∪ b| == |a| + |b| - |a ∩ b|`. */
  lemma UnionCard<T>(a: set<T>, b: set<T>)
    ensures |a + b| == |a| + |b| - |a * b|
  {
    assert a + b == a + (b - a);
    assert a * (b - a) == {};
    assert b == (b - a) + (a * b);
    assert (b - a) * (a * b) == {};
  }

  /** The distinct lower-cased whitespace tokens of a text: `set(text.lower().split())`. */
  function WordSet(text: string): (ws: set<string>)
    ensures forall w :: w in ws ==> Text.IsWord(w)
  {
    set w | w in Text.Tokens(text)
  }

  /** The division `compare_content` and `compare_titles` write out:
      `len(common) / (len(words1) + len(words2) - len(common))`. It is the
      Jaccard similarity of the two word sets. */
  function WordOverlap(words1: set<string>, words2: set<string>): (r: Result<Ratio, AnalysisError>)
    ensures r == Jaccard(words1, words2)
  {
    var common := words1 * words2;
    UnionCard(words1, words2);
    var denominator := |words1| + |words2| - |common|;
    if denominator == 0 then Failure(ZeroDivision)
    else Success(Ratio(|common|, denominator))
  }

  /** `compare_content(content1, content2)`. */
  function CompareContent(content1: string, content2: string): (r: Result<Ratio, AnalysisError>)
    ensures r == Jaccard(WordSet(content1), WordSet(content2))
  {
    WordOverlap(WordSet(content1), WordSet(content2))
  }

  /** `compare_titles(title1, title2)`: the same computation over titles. */
  function CompareTitles(title1: string, title2: string): (r: Result<Ratio, AnalysisError>)
    ensures r == Jaccard(WordSet(title1), WordSet(title2))
  {
    WordOverlap(WordSet(title1), WordSet(title2))
  }

  /** `set(tags)`. */
  function TagSet(tags: seq<string>): (r: set<string>)
    ensures forall t :: t in r <==> t in tags
  {
    set t | t in tags
  }

  /** `compare_tags(tags1, tags2)`: Jaccard over the tag sets, exact string match. */
  function CompareTags(tags1: seq<string>, tags2: seq<string>): (r: Result<Ratio, AnalysisError>)
    ensures r == Jaccard(TagSet(tags1), TagSet(tags2))
    ensures r.Failure? <==> |tags1| == 0 && |tags2| == 0
    ensures r.Success? ==> (r.value.shared > 0 <==> exists t :: t in tags1 && t in tags2)
    ensures r.Success? ==> r.value.shared <= r.value.total
  {
    var a := TagSet(tags1);
    var b := TagSet(tags2);
    assert |tags1| > 0 ==> tags1[0] in a;
    assert |tags2| > 0 ==> tags2[0] in b;
    Jaccard(a, b)
  }

  function Abs(x: int): nat {
    if x < 0 then -x else x
  }

  /** `compare_timestamps`: the first bucket whose bound exceeds the distance
      between the instants, or none when they are a week or more apart. */
  function CompareTimestamps(t1: int, t2: int): (r: Option<Category>)
    ensures r.None? <==> Abs(t2 - t1) >= WeekSeconds * MicrosPerSecond
    ensures r.Some? ==> r.value.kind.Rank() == 3 && 0.0 < r.value.score < 1.0
    ensures Abs(t2 - t1) < HourSeconds * MicrosPerSecond
            <==> r == Some(Category(TemporallyClose, 0.9))
    ensures HourSeconds * MicrosPerSecond <= Abs(t2 - t1) < DaySeconds * MicrosPerSecond
            <==> r == Some(Category(SameDay, 0.7))
    ensures DaySeconds * MicrosPerSecond <= Abs(t2 - t1) < WeekSeconds * MicrosPerSecond
            <==> r == Some(Category(SameWeek, 0.5))
  {
    var diff := Abs(t2 - t1);
    if diff < HourSeconds * MicrosPerSecond then Some(Category(TemporallyClose, 0.9))
    else if diff < DaySeconds * MicrosPerSecond then Some(Category(SameDay, 0.7))
    else if diff < WeekSeconds * MicrosPerSecond then Some(Category(SameWeek, 0.5))
    else None
  }

  /** A content record: a Python dict that may hold the keys the analyzer reads,
      plus any number of other keys the analyzer ignores. */
  datatype FileRecord = FileRecord(
    content: Option<string>,
    tags: Option<seq<string>>,
    title: Option<string>,
    timestamp: Option<int>,
    otherKeys: set<string>)
  {
    /** `not file`: the dict has no keys at all. */
    predicate IsEmpty() {
      content.None? && tags.None? && title.None? && timestamp.None? && otherKeys == {}
    }
  }

  /** `s` is the overlap of `a` and `b` and exceeds `threshold`. */
  ghost predicate OverlapAbove(a: set<string>, b: set<string>, threshold: real, s: real) {
    a + b != {} && s == |a * b| as real / |a + b| as real && s > threshold
  }

  /** What justifies category `c` for the pair, stated over word and tag sets
      with the real-valued thresholds of `analyze_file_pair`. */
  ghost predicate Qualifies(f1: FileRecord, f2: FileRecord, c: Category) {
    match c.kind
    case SimilarContent =>
      f1.content.Some? && f2.content.Some? &&
      OverlapAbove(WordSet(f1.content.value), WordSet(f2.content.value), 0.3, c.score)
    case SharedTags =>
      f1.tags.Some? && f2.tags.Some? &&
      OverlapAbove(TagSet(f1.tags.value), TagSet(f2.tags.value), 0.0, c.score)
    case RelatedTopic =>
      f1.title.Some? && f2.title.Some? &&
      OverlapAbove(WordSet(f1.title.value), WordSet(f2.title.value), 0.5, c.score)
    case _ =>
      f1.timestamp.Some? && f2.timestamp.Some? &&
      CompareTimestamps(f1.timestamp.value, f2.timestamp.value) == Some(c)
  }

  /** A comparator whose key both records hold but whose division is by zero. */
  ghost predicate ContentUndefined(f1: FileRecord, f2: FileRecord) {
    f1.content.Some? && f2.content.Some? &&
    WordSet(f1.content.value) == {} && WordSet(f2.content.value) == {}
  }

  ghost predicate TagsUndefined(f1: FileRecord, f2: FileRecord) {
    f1.tags.Some? && f2.tags.Some? && |f1.tags.value| == 0 && |f2.tags.value| == 0
  }

  ghost predicate TitleUndefined(f1: FileRecord, f2: FileRecord) {
    f1.title.Some? && f2.title.Some? &&
    WordSet(f1.title.value) == {} && WordSet(f2.title.value) == {}
  }

  /** The `> p/q` threshold tests are done on the counts by cross-multiplication. */
  lemma CrossMultiply(n: nat, d: nat, p: nat, q: nat)
    requires d > 0 && q > 0
    ensures n as real / d as real > p as real / q as real <==> q * n > p * d
  {
    var x := n as real / d as real;
    var y := p as real / q as real;
    assert x * d as real == n as real;
    assert y * q as real == p as real;
    assert (q * n) as real == x * (d as real * q as real);
    assert (p * d) as real == y * (d as real * q as real);
    assert d as real * q as real > 0.0;
  }

  /** `if similarity > p/q: categories.append((kind, similarity))`, the test
      done on the counts by cross-multiplication. */
  function Emit(kind: Label, s: Ratio, p: nat, q: nat): (r: seq<Category>)
    requires s.total > 0 && q > 0
    ensures |r| <= 1
    ensures forall c :: c in r <==> c.kind == kind && c.score == s.Value() && c.score > p as real / q as real
  {
    CrossMultiply(s.shared, s.total, p, q);
    if q * s.shared > p * s.total then [Category(kind, s.Value())] else []
  }

  /** The `SIMILAR_CONTENT` branch: emitted when the content similarity exceeds 0.3. */
  function ContentStep(f1: FileRecord, f2: FileRecord): (r: Result<seq<Category>, AnalysisError>)
    ensures r.Failure? <==> ContentUndefined(f1, f2)
    ensures r.Success? ==> |r.value| <= 1
    ensures r.Success? ==> forall c :: c in r.value <==> c.kind == SimilarContent && Qualifies(f1, f2, c)
  {
    if f1.content.Some? && f2.content.Some? then
      var s :- CompareContent(f1.content.value, f2.content.value);
      Success(Emit(SimilarContent, s, 3, 10))
    else
      Success([])
  }

  /** The `SHARED_TAGS` branch: emitted when the tag similarity exceeds 0. */
  function TagStep(f1: FileRecord, f2: FileRecord): (r: Result<seq<Category>, AnalysisError>)
    ensures r.Failure? <==> TagsUndefined(f1, f2)
    ensures r.Success? ==> |r.value| <= 1
    ensures r.Success? ==> forall c :: c in r.value <==> c.kind == SharedTags && Qualifies(f1, f2, c)
  {
    if f1.tags.Some? && f2.tags.Some? then
      var s :- CompareTags(f1.tags.value, f2.tags.value);
      Success(Emit(SharedTags, s, 0, 1))
    else
      Success([])
  }

  /** The `RELATED_TOPIC` branch: emitted when the title similarity exceeds 0.5. */
  function TitleStep(f1: FileRecord, f2: FileRecord): (r: Result<seq<Category>, AnalysisError>)
    ensures r.Failure? <==> TitleUndefined(f1, f2)
    ensures r.Success? ==> |r.value| <= 1
    ensures r.Success? ==> forall c :: c in r.value <==> c.kind == RelatedTopic && Qualifies(f1, f2, c)
  {
    if f1.title.Some? && f2.title.Some? then
      var s :- CompareTitles(f1.title.value, f2.title.value);
      Success(Emit(RelatedTopic, s, 5, 10))
    else
      Success([])
  }

  /** The timestamp branch: the bucket tuple, appended unchanged when there is one. */
  function TimeStep(f1: FileRecord, f2: FileRecord): (r: seq<Category>)
    ensures |r| <= 1
    ensures forall c :: c in r <==> c.kind.Rank() == 3 && Qualifies(f1, f2, c)
  {
    if f1.timestamp.Some? && f2.timestamp.Some? then
      match CompareTimestamps(f1.timestamp.value, f2.timestamp.value)
      case Some(c) => [c]
      case None => []
    else
      []
  }

  /** Labels appear in comparator order, so no label appears twice. */
  predicate RanksIncrease(cats: seq<Category>) {
    forall i, j :: 0 <= i < j < |cats| ==> cats[i].kind.Rank() < cats[j].kind.Rank()
  }

  /** `categories` after the four branches append their findings. */
  function Assemble(content: seq<Category>, tags: seq<Category>, title: seq<Category>, time: seq<Category>): (cats: seq<Category>)
    requires |content| <= 1 && |tags| <= 1 && |title| <= 1 && |time| <= 1
    requires forall c :: c in content ==> c.kind.Rank() == 0
    requires forall c :: c in tags ==> c.kind.Rank() == 1
    requires forall c :: c in title ==> c.kind.Rank() == 2
    requires forall c :: c in time ==> c.kind.Rank() == 3
    ensures |cats| <= 4 && RanksIncrease(cats)
    ensures forall c :: c in cats <==> c in content || c in tags || c in title || c in time
  {
    var cats := content + tags + title + time;
    assert forall c :: c in cats <==> c in content || c in tags || c in title || c in time;
    assert RanksIncrease(cats) by {
      forall i, j | 0 <= i < j < |cats|
        ensures cats[i].kind.Rank() < cats[j].kind.Rank()
      {
        assert cats[i] in cats && cats[j] in cats;
      }
    }
    cats
  }

  /** `analyze_file_pair(file1, file2)`. An empty dict on either side gives `[]`.
      Otherwise the call raises exactly when a comparator both records feed
      divides by zero, and else returns every justified category, at most one
      per comparator, in the order content, tags, title, timestamp. */
  function AnalyzeFilePair(f1: FileRecord, f2: FileRecord): (r: Result<seq<Category>, AnalysisError>)
    ensures f1.IsEmpty() || f2.IsEmpty() ==> r == Success([])
    ensures r.Failure? <==>
      && !f1.IsEmpty() && !f2.IsEmpty()
      && (ContentUndefined(f1, f2) || TagsUndefined(f1, f2) || TitleUndefined(f1, f2))
    ensures r.Success? ==> |r.value| <= 4 && RanksIncrease(r.value)
    ensures r.Success? ==> forall c :: c in r.value <==> !f1.IsEmpty() && !f2.IsEmpty() && Qualifies(f1, f2, c)
  {
    if f1.IsEmpty() || f2.IsEmpty() then Success([])
    else
      var content :- ContentStep(f1, f2);
      var tags :- TagStep(f1, f2);
      var title :- TitleStep(f1, f2);
      var time := TimeStep(f1, f2);
      var cats := Assemble(content, tags, title, time);
      assert forall c :: Qualifies(f1, f2, c) ==> c in content || c in tags || c in title || c in time;
      Success(cats)
  }
}

/** Properties of the comparators and of the pair analysis as a whole. */
module SimilarityProperties {
  import opened Wrappers
  import opened Similarity

  /** Every comparator gives the same answer with its arguments swapped. */
  lemma ComparatorsSymmetric(a: string, b: string, tags1: seq<string>, tags2: seq<string>, t1: int, t2: int)
    ensures CompareContent(a, b) == CompareContent(b, a)
    ensures CompareTitles(a, b) == CompareTitles(b, a)
    ensures CompareTags(tags1, tags2) == CompareTags(tags2, tags1)
    ensures CompareTimestamps(t1, t2) == CompareTimestamps(t2, t1)
  {
    JaccardSymmetric(WordSet(a), WordSet(b));
    JaccardSymmetric(TagSet(tags1), TagSet(tags2));
  }

  lemma JaccardSymmetric(a: set<string>, b: set<string>)
    ensures Jaccard(a, b) == Jaccard(b, a)
  {
    assert a + b == b + a && a * b == b * a;
  }

  /** A defined similarity lies in [0, 1]. */
  lemma SimilarityInUnitInterval(a: set<string>, b: set<string>)
    requires a != {} || b != {}
    ensures Jaccard(a, b).Success?
    ensures 0.0 <= Jaccard(a, b).value.Value() <= 1.0
  {
    var r := Jaccard(a, b).value;
    CrossMultiply(r.shared, r.total, 1, 1);
    CrossMultiply(r.shared, r.total, 0, 1);
  }

  /** Identical non-empty inputs have similarity exactly 1. */
  lemma IdenticalInputsScoreOne(text: string, tags: seq<string>)
    ensures WordSet(text) != {} ==> CompareContent(text, text).Success? && CompareContent(text, text).value.Value() == 1.0
    ensures WordSet(text) != {} ==> CompareTitles(text, text).Success? && CompareTitles(text, text).value.Value() == 1.0
    ensures |tags| > 0 ==> CompareTags(tags, tags).Success? && CompareTags(tags, tags).value.Value() == 1.0
  {
    if WordSet(text) != {} {
      IdenticalSetsScoreOne(WordSet(text));
    }
    if |tags| > 0 {
      assert tags[0] in TagSet(tags);
      IdenticalSetsScoreOne(TagSet(tags));
    }
  }

  lemma IdenticalSetsScoreOne(a: set<string>)
    requires a != {}
    ensures Jaccard(a, a).Success? && Jaccard(a, a).value.Value() == 1.0
  {
    var r := Jaccard(a, a);
    assert r.value.shared == r.value.total;
  }

  /** A pair of instants never gets a weaker bucket than a pair further apart. */
  lemma CloserNeverWeaker(t1: int, t2: int, u1: int, u2: int)
    requires Abs(t2 - t1) <= Abs(u2 - u1)
    requires CompareTimestamps(u1, u2).Some?
    ensures CompareTimestamps(t1, t2).Some?
    ensures CompareTimestamps(t1, t2).value.score >= CompareTimestamps(u1, u2).value.score
  {
  }

  /** The buckets at half an hour, five hours, three days and fifteen days. */
  lemma TimestampExamples(t: int)
    ensures CompareTimestamps(t, t + 30 * 60 * MicrosPerSecond) == Some(Category(TemporallyClose, 0.9))
    ensures CompareTimestamps(t, t + 5 * HourSeconds * MicrosPerSecond) == Some(Category(SameDay, 0.7))
    ensures CompareTimestamps(t, t + 3 * DaySeconds * MicrosPerSecond) == Some(Category(SameWeek, 0.5))
    ensures CompareTimestamps(t, t + 15 * DaySeconds * MicrosPerSecond) == None
  {
  }

  /** Each bound is exclusive: exactly one hour apart is already `SAME_DAY`,
      one day `SAME_WEEK`, and one week no category. */
  lemma TimestampBoundaries(t: int)
    ensures CompareTimestamps(t, t + HourSeconds * MicrosPerSecond) == Some(Category(SameDay, 0.7))
    ensures CompareTimestamps(t, t + DaySeconds * MicrosPerSecond) == Some(Category(SameWeek, 0.5))
    ensures CompareTimestamps(t, t + WeekSeconds * MicrosPerSecond) == None
  {
  }

  /** Analysing the pair the other way round gives the same answer. */
  lemma AnalyzeSymmetric(f1: FileRecord, f2: FileRecord)
    ensures AnalyzeFilePair(f1, f2) == AnalyzeFilePair(f2, f1)
  {
    ContentStepSymmetric(f1, f2);
    TagStepSymmetric(f1, f2);
    TitleStepSymmetric(f1, f2);
    TimeStepSymmetric(f1, f2);
  }

  lemma ContentStepSymmetric(f1: FileRecord, f2: FileRecord)
    ensures ContentStep(f1, f2) == ContentStep(f2, f1)
  {
    if f1.content.Some? && f2.content.Some? {
      ComparatorsSymmetric(f1.content.value, f2.content.value, [], [], 0, 0);
    }
  }

  lemma TagStepSymmetric(f1: FileRecord, f2: FileRecord)
    ensures TagStep(f1, f2) == TagStep(f2, f1)
  {
    if f1.tags.Some? && f2.tags.Some? {
      ComparatorsSymmetric("", "", f1.tags.value, f2.tags.value, 0, 0);
    }
  }

  lemma TitleStepSymmetric(f1: FileRecord, f2: FileRecord)
    ensures TitleStep(f1, f2) == TitleStep(f2, f1)
  {
    if f1.title.Some? && f2.title.Some? {
      ComparatorsSymmetric(f1.title.value, f2.title.value, [], [], 0, 0);
    }
  }

  lemma TimeStepSymmetric(f1: FileRecord, f2: FileRecord)
    ensures TimeStep(f1, f2) == TimeStep(f2, f1)
  {
    if f1.timestamp.Some? && f2.timestamp.Some? {
      ComparatorsSymmetric("", "", [], [], f1.timestamp.value, f2.timestamp.value);
    }
  }

  /** When all four comparators clear their thresholds, all four categories are
      reported, in comparator order. */
  lemma AllFourCategories(f1: FileRecord, f2: FileRecord)
    requires f1.content.Some? && f2.content.Some?
    requires f1.tags.Some? && f2.tags.Some?
    requires f1.title.Some? && f2.title.Some?
    requires f1.timestamp.Some? && f2.timestamp.Some?
    requires var a := WordSet(f1.content.value); var b := WordSet(f2.content.value);
             10 * |a * b| > 3 * |a + b|
    requires exists t :: t in f1.tags.value && t in f2.tags.value
    requires var a := WordSet(f1.title.value); var b := WordSet(f2.title.value);
             2 * |a * b| > |a + b|
    requires Abs(f2.timestamp.value - f1.timestamp.value) < HourSeconds * MicrosPerSecond
    ensures AnalyzeFilePair(f1, f2).Success?
    ensures var cats := AnalyzeFilePair(f1, f2).value;
            |cats| == 4 &&
            cats[0].kind == SimilarContent && cats[1].kind == SharedTags &&
            cats[2].kind == RelatedTopic && cats[3] == Category(TemporallyClose, 0.9)
  {
    var c := ContentStep(f1, f2);
    var g := TagStep(f1, f2);
    var h := TitleStep(f1, f2);
    assert |c.value| == 1 && |g.value| == 1 && |h.value| == 1;
    assert CompareTimestamps(f1.timestamp.value, f2.timestamp.value) == Some(Category(TemporallyClose, 0.9));
    assert TimeStep(f1, f2) == [Category(TemporallyClose, 0.9)];
  }
}
