/** Python's `str.lower()` and argument-less `str.split()`, the tokeniser every
    word-based comparison and the key-concept extractor start from. */
module Text {

  /** The characters `str.isspace()` accepts, which is what `str.split()` splits on. */
  predicate IsSpace(c: char) {
    || c == ' '
    || ('\t' <= c <= '\r')
    || ('\U{1c}' <= c <= '\U{1f}')
    || c == '\U{85}' || c == '\U{a0}' || c == '\U{1680}'
    || ('\U{2000}' <= c <= '\U{200a}')
    || c == '\U{2028}' || c == '\U{2029}' || c == '\U{202f}' || c == '\U{205f}'
    || c == '\U{3000}'
  }

  /** A token `split()` can produce: non-empty and free of whitespace. */
  predicate IsWord(w: string) {
    |w| > 0 && forall i :: 0 <= i < |w| ==> !IsSpace(w[i])
  }

  predicate IsUpper(c: char) {
    'A' <= c <= 'Z'
  }

  function LowerChar(c: char): (d: char)
    ensures !IsUpper(d)
    ensures IsSpace(d) <==> IsSpace(c)
  {
    if IsUpper(c) then (c as int - 'A' as int + 'a' as int) as char else c
  }

  function Lower(s: string): (r: string)
    ensures |r| == |s|
    ensures forall i :: 0 <= i < |s| ==> r[i] == LowerChar(s[i])
  {
    seq(|s|, i requires 0 <= i < |s| => LowerChar(s[i]))
  }

  /** Length of the run of non-whitespace characters that `s` starts with. */
  function WordLength(s: string): (n: nat)
    ensures n <= |s|
    ensures forall i :: 0 <= i < n ==> !IsSpace(s[i])
    ensures n < |s| ==> IsSpace(s[n])
  {
    if |s| == 0 || IsSpace(s[0]) then 0 else 1 + WordLength(s[1..])
  }

  /** The characters of `s` that are not whitespace, in order. */
  function NonSpace(s: string): string {
    if |s| == 0 then ""
    else if IsSpace(s[0]) then NonSpace(s[1..])
    else [s[0]] + NonSpace(s[1..])
  }

  function Concat(ws: seq<string>): string {
    if |ws| == 0 then "" else ws[0] + Concat(ws[1..])
  }

  /** `str.split()`: the maximal runs of non-whitespace characters of `s`, in order. */
  function Split(s: string): (r: seq<string>)
    ensures forall i :: 0 <= i < |r| ==> IsWord(r[i])
    decreases |s|
  {
    if |s| == 0 then []
    else if IsSpace(s[0]) then Split(s[1..])
    else
      var n := WordLength(s);
      [s[..n]] + Split(s[n..])
  }

  /** The tokens of `s` together hold every non-whitespace character of `s`, in order. */
  lemma {:induction false} SplitKeepsCharacters(s: string)
    ensures Concat(Split(s)) == NonSpace(s)
    decreases |s|
  {
    if |s| > 0 {
      if IsSpace(s[0]) {
        SplitKeepsCharacters(s[1..]);
      } else {
        var n := WordLength(s);
        NonSpaceOfWordPrefix(s, n);
        SplitKeepsCharacters(s[n..]);
        assert Split(s) == [s[..n]] + Split(s[n..]);
        assert Concat(Split(s)) == s[..n] + Concat(Split(s[n..]));
      }
    }
  }

  /** A word splits into itself. */
  lemma {:induction false} SplitOfWord(w: string)
    requires IsWord(w)
    ensures Split(w) == [w]
  {
    assert WordLength(w) == |w|;
    assert w[..|w|] == w && w[|w|..] == [];
  }

  /** Cutting `s` short after its first run keeps that run's length. */
  lemma {:induction false} WordLengthPrefix(s: string, k: nat)
    requires WordLength(s) <= k <= |s|
    ensures WordLength(s[..k]) == WordLength(s)
  {
    assert forall i :: 0 <= i < k ==> s[..k][i] == s[i];
  }

  /** Whitespace separates tokens: splitting at any whitespace character and
      splitting the two sides gives the tokens of the whole. Together with
      `SplitOfWord` this determines `Split` on every input. */
  lemma {:induction false} SplitAtSpace(s: string, k: nat)
    requires k < |s| && IsSpace(s[k])
    ensures Split(s) == Split(s[..k]) + Split(s[k + 1..])
    decreases |s|
  {
    if IsSpace(s[0]) {
      SplitAtSpaceAfterSpace(s, k);
    } else {
      SplitAtSpaceAfterWord(s, k);
    }
  }

  lemma {:induction false} SplitAtSpaceAfterSpace(s: string, k: nat)
    requires k < |s| && IsSpace(s[k]) && IsSpace(s[0])
    ensures Split(s) == Split(s[..k]) + Split(s[k + 1..])
    decreases |s|, 0
  {
    assert Split(s) == Split(s[1..]);
    if k > 0 {
      SplitAtSpace(s[1..], k - 1);
      assert s[1..][..k - 1] == s[..k][1..];
      assert s[1..][k..] == s[k + 1..];
      assert Split(s[..k]) == Split(s[..k][1..]);
    }
  }

  lemma {:induction false} SplitAtSpaceAfterWord(s: string, k: nat)
    requires k < |s| && IsSpace(s[k]) && !IsSpace(s[0])
    ensures Split(s) == Split(s[..k]) + Split(s[k + 1..])
    decreases |s|, 0
  {
    var n := WordLength(s);
    assert Split(s) == [s[..n]] + Split(s[n..]);
    SplitOfPrefix(s, k);
    if n < k {
      SplitAtSpace(s[n..], k - n);
      assert s[n..][..k - n] == s[n..k];
      assert s[n..][k - n + 1..] == s[k + 1..];
    } else {
      assert s[n..][1..] == s[k + 1..];
      assert Split(s[n..]) == Split(s[k + 1..]);
    }
  }

  /** Before the whitespace at `k`, the prefix starts with the same run as `s`. */
  lemma {:induction false} SplitOfPrefix(s: string, k: nat)
    requires k < |s| && IsSpace(s[k]) && !IsSpace(s[0])
    ensures WordLength(s) <= k
    ensures Split(s[..k]) == [s[..WordLength(s)]] + Split(s[WordLength(s)..k])
  {
    var n := WordLength(s);
    var p := s[..k];
    WordLengthPrefix(s, k);
    assert p[0] == s[0];
    assert p[..n] == s[..n];
    assert p[n..] == s[n..k];
  }

  lemma {:induction false} NonSpaceOfWordPrefix(s: string, n: nat)
    requires n <= |s|
    requires forall i :: 0 <= i < n ==> !IsSpace(s[i])
    ensures NonSpace(s) == s[..n] + NonSpace(s[n..])
    decreases n
  {
    if n > 0 {
      NonSpaceOfWordPrefix(s[1..], n - 1);
      assert s[1..][n - 1..] == s[n..];
      assert s[..n] == [s[0]] + s[1..][..n - 1];
    }
  }

  /** The tokens `graph_operations.py` derives from a text: `text.lower().split()`. */
  function Tokens(text: string): (r: seq<string>)
    ensures forall i :: 0 <= i < |r| ==> IsWord(r[i])
    ensures forall i, j :: 0 <= i < |r| && 0 <= j < |r[i]| ==> !IsUpper(r[i][j])
  {
    var r := Split(Lower(text));
    SplitKeepsLower(Lower(text));
    r
  }

  lemma {:induction false} SplitKeepsLower(s: string)
    requires forall i :: 0 <= i < |s| ==> !IsUpper(s[i])
    ensures forall i, j :: 0 <= i < |Split(s)| && 0 <= j < |Split(s)[i]| ==> !IsUpper(Split(s)[i][j])
    decreases |s|
  {
    if |s| > 0 {
      if IsSpace(s[0]) {
        SplitKeepsLower(s[1..]);
      } else {
        var n := WordLength(s);
        SplitKeepsLower(s[n..]);
        var r := Split(s);
        assert r == [s[..n]] + Split(s[n..]);
        forall i, j | 0 <= i < |r| && 0 <= j < |r[i]|
          ensures !IsUpper(r[i][j])
        {
          if i > 0 {
            assert r[i] == Split(s[n..])[i - 1];
          }
        }
      }
    }
  }

  /** Words joined by single spaces. */
  function Join(ws: seq<string>): string {
    if |ws| == 0 then ""
    else if |ws| == 1 then ws[0]
    else ws[0] + " " + Join(ws[1..])
  }

  lemma {:induction false} WordLengthOfWord(w: string, rest: string)
    requires IsWord(w)
    requires |rest| == 0 || IsSpace(rest[0])
    ensures WordLength(w + rest) == |w|
  {
    var s := w + rest;
    assert forall i :: 0 <= i < |w| ==> s[i] == w[i];
    assert |rest| > 0 ==> s[|w|] == rest[0];
  }

  /** Splitting words joined by single spaces gives the words back. */
  lemma {:induction false} SplitJoin(ws: seq<string>)
    requires forall i :: 0 <= i < |ws| ==> IsWord(ws[i])
    ensures Split(Join(ws)) == ws
    decreases |ws|
  {
    if |ws| > 0 {
      var w := ws[0];
      var rest := if |ws| == 1 then "" else " " + Join(ws[1..]);
      var s := w + rest;
      assert Join(ws) == s;
      WordLengthOfWord(w, rest);
      assert s[..|w|] == w;
      assert s[|w|..] == rest;
      assert s[0] == w[0];
      assert Split(s) == [w] + Split(rest);
      if |ws| == 1 {
        assert Split(rest) == [];
      } else {
        assert rest[1..] == Join(ws[1..]);
        assert Split(rest) == Split(Join(ws[1..]));
        SplitJoin(ws[1..]);
        assert ws == [w] + ws[1..];
      }
    }
  }
}
