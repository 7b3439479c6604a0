/** `extract_key_concepts`: the tokens of a text that occur more than once,
    listed in the order the frequency dictionary first saw them. */
module KeyConcepts {
  import opened Sequences
  import Text

  /** Position of the first occurrence of `w` in `s`. */
  function FirstIndex(s: seq<string>, w: string): (k: nat)
    requires w in s
    ensures k < |s| && s[k] == w
    ensures forall i :: 0 <= i < k ==> s[i] != w
  {
    if s[0] == w then 0 else 1 + FirstIndex(s[1..], w)
  }

  /** Appending to `s` does not move the first occurrence of anything already in it. */
  lemma FirstIndexAppend(s: seq<string>, x: string, w: string)
    requires w in s
    ensures FirstIndex(s + [x], w) == FirstIndex(s, w)
  {
    var k := FirstIndex(s + [x], w);
    var k0 := FirstIndex(s, w);
    assert (s + [x])[k0] == w;
    assert k <= k0;
    assert s[k] == (s + [x])[k];
  }

  lemma FirstIndexNew(s: seq<string>, w: string)
    requires w !in s
    ensures FirstIndex(s + [w], w) == |s|
  {
    assert forall i :: 0 <= i < |s| ==> (s + [w])[i] == s[i];
  }

  /** Every element of `order` occurs in `words`, and `order` lists them by
      the position of their first occurrence in `words`. */
  predicate InFirstOccurrenceOrder(order: seq<string>, words: seq<string>) {
    && (forall i :: 0 <= i < |order| ==> order[i] in words)
    && (forall i, j :: 0 <= i < j < |order| ==> Before(words, order[i], order[j]))
  }

  /** `a` and `b` both occur in `words`, and `a` first occurs earlier. */
  predicate Before(words: seq<string>, a: string, b: string) {
    a in words && b in words && FirstIndex(words, a) < FirstIndex(words, b)
  }

  /** The Python `word_freq` dictionary: its keys in insertion order and its counts. */
  datatype FreqTable = FreqTable(order: seq<string>, count: map<string, nat>)

  /** `word_freq[word] = word_freq.get(word, 0) + 1`: an existing key keeps
      its place, a new key goes to the end with count 1. */
  function Bump(d: FreqTable, w: string): FreqTable {
    if w in d.count then FreqTable(d.order, d.count[w := d.count[w] + 1])
    else FreqTable(d.order + [w], d.count[w := 1])
  }

  /** The frequency dictionary after the loop over `words`. It holds each
      distinct word once, with its number of occurrences, in first-occurrence order. */
  function Tally(words: seq<string>): (d: FreqTable)
    ensures Distinct(d.order)
    ensures forall w :: w in d.order <==> w in words
    ensures forall w :: w in d.count <==> w in words
    ensures forall w :: w in d.count ==> d.count[w] == multiset(words)[w]
    ensures InFirstOccurrenceOrder(d.order, words)
    decreases |words|
  {
    if |words| == 0 then FreqTable([], map[])
    else
      var prefix := words[..|words| - 1];
      var w := words[|words| - 1];
      var d := Tally(prefix);
      assert words == prefix + [w];
      TallyCounts(prefix, w, d);
      TallyOrder(prefix, w, d);
      Bump(d, w)
  }

  lemma TallyCounts(prefix: seq<string>, w: string, d: FreqTable)
    requires forall x :: x in d.count <==> x in prefix
    requires forall x :: x in d.count ==> d.count[x] == multiset(prefix)[x]
    ensures forall x :: x in Bump(d, w).count <==> x in prefix + [w]
    ensures forall x :: x in Bump(d, w).count ==> Bump(d, w).count[x] == multiset(prefix + [w])[x]
  {
    assert multiset(prefix + [w]) == multiset(prefix) + multiset{w};
  }

  lemma TallyOrder(prefix: seq<string>, w: string, d: FreqTable)
    requires Distinct(d.order)
    requires forall x :: x in d.order <==> x in prefix
    requires forall x :: x in d.count <==> x in prefix
    requires InFirstOccurrenceOrder(d.order, prefix)
    ensures Distinct(Bump(d, w).order)
    ensures forall x :: x in Bump(d, w).order <==> x in prefix + [w]
    ensures InFirstOccurrenceOrder(Bump(d, w).order, prefix + [w])
  {
    var words := prefix + [w];
    var e := Bump(d, w);
    assert forall x :: x in words <==> x in prefix || x == w;
    forall i, j | 0 <= i < j < |e.order|
      ensures Before(words, e.order[i], e.order[j])
    {
      TallyOrderPair(prefix, w, d, i, j);
    }
  }

  lemma TallyOrderPair(prefix: seq<string>, w: string, d: FreqTable, i: nat, j: nat)
    requires forall x :: x in d.order <==> x in prefix
    requires forall x :: x in d.count <==> x in prefix
    requires InFirstOccurrenceOrder(d.order, prefix)
    requires i < j < |Bump(d, w).order|
    ensures Before(prefix + [w], Bump(d, w).order[i], Bump(d, w).order[j])
  {
    var e := Bump(d, w);
    assert e.order[i] == d.order[i];
    FirstIndexAppend(prefix, w, d.order[i]);
    if j < |d.order| {
      assert e.order[j] == d.order[j];
      FirstIndexAppend(prefix, w, d.order[j]);
    } else {
      assert w !in prefix && e.order[j] == w;
      FirstIndexNew(prefix, w);
    }
  }

  /** The dictionary keys whose count is greater than one, in key order. */
  function Repeated(order: seq<string>, count: map<string, nat>): (r: seq<string>)
    ensures forall w :: w in r <==> w in order && w in count && count[w] > 1
    ensures Distinct(order) ==> Distinct(r)
  {
    if |order| == 0 then []
    else
      var rest := Repeated(order[1..], count);
      assert order == [order[0]] + order[1..];
      if order[0] in count && count[order[0]] > 1 then [order[0]] + rest else rest
  }

  /** Dropping elements keeps the remaining ones in first-occurrence order. */
  lemma {:induction false} RepeatedKeepsOrder(order: seq<string>, count: map<string, nat>, words: seq<string>)
    requires InFirstOccurrenceOrder(order, words)
    ensures InFirstOccurrenceOrder(Repeated(order, count), words)
    decreases |order|
  {
    if |order| > 0 {
      var tail := order[1..];
      assert InFirstOccurrenceOrder(tail, words) by {
        forall i, j | 0 <= i < j < |tail|
          ensures Before(words, tail[i], tail[j])
        {
          assert tail[i] == order[i + 1] && tail[j] == order[j + 1];
        }
      }
      RepeatedKeepsOrder(tail, count, words);
      var rest := Repeated(tail, count);
      forall k | 0 <= k < |rest|
        ensures Before(words, order[0], rest[k])
      {
        assert rest[k] in tail;
        var m :| 0 <= m < |tail| && tail[m] == rest[k];
        assert order[m + 1] == rest[k];
      }
    }
  }

  /** The keys of `d` whose count is greater than one, in key order. */
  function RepeatedKeys(d: FreqTable): seq<string> {
    Repeated(d.order, d.count)
  }

  /** The key concepts of an already tokenised text: exactly the distinct words
      occurring more than once, each listed once, by first occurrence. */
  function KeyConceptsOf(words: seq<string>): (r: seq<string>)
    ensures forall w :: w in r <==> multiset(words)[w] > 1
    ensures Distinct(r)
    ensures InFirstOccurrenceOrder(r, words)
  {
    var d := Tally(words);
    RepeatedKeepsOrder(d.order, d.count, words);
    RepeatedKeys(d)
  }

  /** `extract_key_concepts(information)`. */
  function ExtractKeyConcepts(information: string): (r: seq<string>)
    ensures forall w :: w in r <==> multiset(Text.Tokens(information))[w] > 1
    ensures Distinct(r)
    ensures InFirstOccurrenceOrder(r, Text.Tokens(information))
  {
    KeyConceptsOf(Text.Tokens(information))
  }

  /** A text in which no token repeats has no key concepts. */
  lemma NoRepeatsNoConcepts(information: string)
    requires Distinct(Text.Tokens(information))
    ensures ExtractKeyConcepts(information) == []
  {
    var r := ExtractKeyConcepts(information);
    if |r| > 0 {
      DistinctCountsAtMostOne(Text.Tokens(information), r[0]);
    }
  }

  lemma LowerOfLowerCase()
    ensures Text.Lower("a a b") == "a a b"
    ensures Text.Lower("a b c") == "a b c"
  {
  }

  lemma JoinOfLetters()
    ensures Text.Join(["a", "a", "b"]) == "a a b"
    ensures Text.Join(["a", "b", "c"]) == "a b c"
  {
  }

  lemma TokensOfSpacedWords()
    ensures Text.Tokens("a a b") == ["a", "a", "b"]
    ensures Text.Tokens("a b c") == ["a", "b", "c"]
  {
    LowerOfLowerCase();
    JoinOfLetters();
    Text.SplitJoin(["a", "a", "b"]);
    Text.SplitJoin(["a", "b", "c"]);
  }

  lemma KeyConceptsOfAAB()
    ensures KeyConceptsOf(["a", "a", "b"]) == ["a"]
  {
    var words := ["a", "a", "b"];
    var r := KeyConceptsOf(words);
    assert multiset(words)["a"] == 2 && multiset(words)["b"] == 1;
    assert forall w :: w in r <==> w == "a";
    Sequences.DistinctSingleton(r, "a");
  }

  /** "a a b" has the single key concept "a". */
  lemma RepeatedWordExample()
    ensures ExtractKeyConcepts("a a b") == ["a"]
  {
    TokensOfSpacedWords();
    KeyConceptsOfAAB();
  }

  /** "a b c" has no key concept. */
  lemma NoRepeatedWordExample()
    ensures ExtractKeyConcepts("a b c") == []
  {
    TokensOfSpacedWords();
    NoRepeatsNoConcepts("a b c");
  }
}
