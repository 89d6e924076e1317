/**
 * The static methods of `FuzzyMatcher`: Levenshtein distance with a rolling
 * row, the stop-word normaliser, the similarity score in [0, 100], the
 * substring-or-fuzzy test, keyword extraction and best-candidate search.
 * Scores are exact reals; the source computes them in floating point.
 */
module FuzzyMatcher {
  import opened Wrappers
  import opened Text
  import StableSort

  // ---------------------------------------------------------------------
  // Levenshtein distance
  // ---------------------------------------------------------------------

  function Min3(a: int, b: int, c: int): int {
    if a <= b && a <= c then a else if b <= c then b else c
  }

  /**
   * The textbook recurrence: the edit distance between the first `i`
   * characters of `a` and the first `j` characters of `b`, with unit cost
   * for insertion, deletion and substitution.
   */
  function Dist(a: string, b: string, i: nat, j: nat): int
    requires i <= |a| && j <= |b|
    decreases i + j
  {
    if i == 0 then j
    else if j == 0 then i
    else Min3(Dist(a, b, i - 1, j) + 1,
              Dist(a, b, i, j - 1) + 1,
              Dist(a, b, i - 1, j - 1) + (if a[i - 1] != b[j - 1] then 1 else 0))
  }

  /** The edit distance between `a` and `b`. */
  function Levenshtein(a: string, b: string): int {
    Dist(a, b, |a|, |b|)
  }

  lemma {:induction false} DistSymmetric(a: string, b: string, i: nat, j: nat)
    requires i <= |a| && j <= |b|
    ensures Dist(a, b, i, j) == Dist(b, a, j, i)
    decreases i + j
  {
    if i > 0 && j > 0 {
      DistSymmetric(a, b, i - 1, j);
      DistSymmetric(a, b, i, j - 1);
      DistSymmetric(a, b, i - 1, j - 1);
    }
  }

  lemma {:induction false} DistSelf(a: string, i: nat)
    requires i <= |a|
    ensures Dist(a, a, i, i) == 0
  {
    if i > 0 {
      DistSelf(a, i - 1);
      DistBounds(a, a, i - 1, i);
      DistBounds(a, a, i, i - 1);
    }
  }

  lemma {:induction false} DistBounds(a: string, b: string, i: nat, j: nat)
    requires i <= |a| && j <= |b|
    ensures (if i >= j then i - j else j - i) <= Dist(a, b, i, j) <= (if i >= j then i else j)
    decreases i + j
  {
    if i > 0 && j > 0 {
      DistBounds(a, b, i - 1, j);
      DistBounds(a, b, i, j - 1);
      DistBounds(a, b, i - 1, j - 1);
    }
  }

  lemma {:induction false} DistZero(a: string, b: string, i: nat, j: nat)
    requires i <= |a| && j <= |b|
    requires Dist(a, b, i, j) == 0
    ensures i == j && a[..i] == b[..j]
    decreases i + j
  {
    if i > 0 && j > 0 {
      DistBounds(a, b, i - 1, j);
      DistBounds(a, b, i, j - 1);
      assert Dist(a, b, i - 1, j - 1) == 0 && a[i - 1] == b[j - 1];
      DistZero(a, b, i - 1, j - 1);
      assert a[..i] == a[..i - 1] + [a[i - 1]];
      assert b[..j] == b[..j - 1] + [b[j - 1]];
    }
  }

  /** d(a, b) == d(b, a). */
  lemma LevenshteinSymmetric(a: string, b: string)
    ensures Levenshtein(a, b) == Levenshtein(b, a)
  {
    DistSymmetric(a, b, |a|, |b|);
  }

  /** d(a, b) == 0 exactly when a == b; in particular d(s, s) == 0. */
  lemma LevenshteinZero(a: string, b: string)
    ensures Levenshtein(a, b) == 0 <==> a == b
  {
    if a == b {
      DistSelf(a, |a|);
    }
    if Levenshtein(a, b) == 0 {
      DistZero(a, b, |a|, |b|);
      assert a == a[..|a|] && b == b[..|b|];
    }
  }

  /** | |a| - |b| | <= d(a, b) <= max(|a|, |b|), and d(a, "") == |a|. */
  lemma LevenshteinBounds(a: string, b: string)
    ensures (if |a| >= |b| then |a| - |b| else |b| - |a|) <= Levenshtein(a, b)
    ensures Levenshtein(a, b) <= (if |a| >= |b| then |a| else |b|)
    ensures Levenshtein(a, []) == |a|
  {
    DistBounds(a, b, |a|, |b|);
  }

  /**
   * `levenshtein_distance`: swaps so that the first string is the longer one,
   * then fills one row of the table at a time, keeping only the previous row.
   */
  method LevenshteinDistance(s1: string, s2: string) returns (d: int)
    ensures d == Levenshtein(s1, s2)
    decreases if |s1| < |s2| then 1 else 0
  {
    if |s1| < |s2| {
      d := LevenshteinDistance(s2, s1);
      LevenshteinSymmetric(s2, s1);
      return;
    }
    if |s2| == 0 {
      return |s1|;
    }
    var previousRow: seq<int> := seq(|s2| + 1, j => j);
    assert previousRow == Row(s1, s2, 0);
    var i := 0;
    while i < |s1|
      invariant 0 <= i <= |s1|
      invariant previousRow == Row(s1, s2, i)
    {
      previousRow := NextRow(s1, s2, i, previousRow);
      i := i + 1;
    }
    d := previousRow[|previousRow| - 1];
  }

  /** Row `i` of the table: the distances from `a[..i]` to every prefix of `b`. */
  function Row(a: string, b: string, i: nat): (r: seq<int>)
    requires i <= |a|
    ensures |r| == |b| + 1
  {
    seq(|b| + 1, j requires 0 <= j <= |b| => Dist(a, b, i, j))
  }

  /** One pass of the outer loop: row `i + 1` of the table from row `i`. */
  method NextRow(s1: string, s2: string, i: nat, previousRow: seq<int>) returns (currentRow: seq<int>)
    requires i < |s1| && previousRow == Row(s1, s2, i)
    ensures currentRow == Row(s1, s2, i + 1)
  {
    currentRow := [i + 1];
    var j := 0;
    while j < |s2|
      invariant 0 <= j <= |s2|
      invariant |currentRow| == j + 1
      invariant forall k :: 0 <= k <= j ==> currentRow[k] == Dist(s1, s2, i + 1, k)
    {
      var insertions := previousRow[j + 1] + 1;
      var deletions := currentRow[j] + 1;
      var substitutions := previousRow[j] + (if s1[i] != s2[j] then 1 else 0);
      assert Min3(insertions, deletions, substitutions) == Dist(s1, s2, i + 1, j + 1);
      currentRow := currentRow + [Min3(insertions, deletions, substitutions)];
      j := j + 1;
    }
  }

  // ---------------------------------------------------------------------
  // _clean_string
  // ---------------------------------------------------------------------

  /** The Spanish and English function words that `_clean_string` drops. */
  const StopWords: seq<string> :=
    ["el", "la", "los", "las", "un", "una", "de", "del", "en", "y", "o",
     "the", "a", "an", "and", "or", "in", "on", "at", "to", "for"]

  /** The list comprehension over any list of dropped words, keeping input order. */
  function Without(ws: seq<string>, drop: seq<string>): (r: seq<string>)
    ensures forall k :: 0 <= k < |r| ==> r[k] in ws && r[k] !in drop
    ensures (forall k :: 0 <= k < |ws| ==> ws[k] !in drop) ==> r == ws
  {
    if ws == [] then []
    else if ws[0] in drop then Without(ws[1..], drop)
    else [ws[0]] + Without(ws[1..], drop)
  }

  /** Every token outside `drop` is kept, as often as it occurs in the input. */
  lemma {:induction false} WithoutKeeps(ws: seq<string>, drop: seq<string>)
    ensures forall w :: w !in drop ==> multiset(Without(ws, drop))[w] == multiset(ws)[w]
  {
    if ws != [] {
      WithoutKeeps(ws[1..], drop);
      assert ws == [ws[0]] + ws[1..];
    }
  }

  /** `[w for w in words if w not in stop_words]`. */
  function RemoveStopWords(ws: seq<string>): (r: seq<string>)
    ensures forall k :: 0 <= k < |r| ==> r[k] in ws && r[k] !in StopWords
    ensures (forall k :: 0 <= k < |ws| ==> ws[k] !in StopWords) ==> r == ws
  {
    Without(ws, StopWords)
  }

  /** No token but a stop word is dropped: each other token is kept as often as it occurs. */
  lemma RemoveStopWordsKeeps(ws: seq<string>)
    ensures forall w :: w !in StopWords ==> multiset(RemoveStopWords(ws))[w] == multiset(ws)[w]
  {
    WithoutKeeps(ws, StopWords);
  }

  /** The tokens `_clean_string` keeps, before they are joined. */
  function CleanTokens(s: string): seq<string> {
    RemoveStopWords(Split(Strip(CollapseSpaces(Lower(s)))))
  }

  /**
   * `_clean_string`: lower-case, collapse whitespace runs to one space,
   * strip, split into tokens, drop stop words, join with single spaces.
   */
  function CleanString(s: string): string {
    Join(CleanTokens(s), " ")
  }

  /** Tokens of a cleaned string: words without upper-case letters that are not stop words. */
  predicate CleanWords(ws: seq<string>) {
    forall k :: 0 <= k < |ws| ==> IsWord(ws[k]) && NoUpper(ws[k]) && ws[k] !in StopWords
  }

  lemma CleanTokensAreClean(s: string)
    ensures CleanWords(CleanTokens(s))
  {
    var l := Lower(s);
    CollapseNoUpper(l);
    StripNoUpper(CollapseSpaces(l));
    SplitNoUpper(Strip(CollapseSpaces(l)));
  }

  /** A string built from clean tokens is its own normal form. */
  lemma CleanJoinFixed(ws: seq<string>)
    requires CleanWords(ws)
    ensures CleanString(Join(ws, " ")) == Join(ws, " ")
    ensures CleanTokens(Join(ws, " ")) == ws
  {
    var r := Join(ws, " ");
    JoinNoUpper(ws);
    LowerFixed(r);
    JoinWordsShape(ws);
    CollapseFixed(r);
    StripFixed(r);
    SplitJoin(ws);
  }

  /**
   * What `_clean_string` returns: lower-case, single spaces between tokens,
   * no whitespace at either end, no stop-word token; and cleaning it again
   * changes nothing.
   */
  lemma CleanStringLaws(s: string)
    ensures var r := CleanString(s);
      && NoUpper(r)
      && SingleSpaced(r)
      && (r == [] || (!IsSpace(r[0]) && !IsSpace(r[|r| - 1])))
      && (forall k :: 0 <= k < |Split(r)| ==> Split(r)[k] !in StopWords)
      && CleanString(r) == r
  {
    var ws := CleanTokens(s);
    CleanTokensAreClean(s);
    JoinNoUpper(ws);
    JoinWordsShape(ws);
    SplitJoin(ws);
    CleanJoinFixed(ws);
  }

  /** `_clean_string` is idempotent. */
  lemma CleanStringIdempotent(s: string)
    ensures CleanString(CleanString(s)) == CleanString(s)
  {
    CleanStringLaws(s);
  }

  // ---------------------------------------------------------------------
  // similarity_ratio
  // ---------------------------------------------------------------------

  /**
   * `similarity_ratio`: 0.0 when either cleaned string is empty, otherwise
   * `(max_len - d) / max_len * 100` over the cleaned strings.
   */
  function SimilarityRatio(s1: string, s2: string): real {
    CleanRatio(CleanString(s1), CleanString(s2))
  }

  /** The score `similarity_ratio` computes once both strings are cleaned. */
  function CleanRatio(c1: string, c2: string): real {
    if c1 == [] || c2 == [] then 0.0
    else
      var maxLen := if |c1| >= |c2| then |c1| else |c2|;
      if maxLen == 0 then 100.0
      else ((maxLen - Levenshtein(c1, c2)) as real / maxLen as real) * 100.0
  }

  lemma RatioBounds(n: int, m: int)
    requires 0 <= n <= m && 0 < m
    ensures 0.0 <= (n as real / m as real) * 100.0 <= 100.0
    ensures (n as real / m as real) * 100.0 == 100.0 <==> n == m
  {
    var q := n as real / m as real;
    assert q * m as real == n as real;
    if n == m {
      assert q == 1.0;
    }
    if q * 100.0 == 100.0 {
      assert q == 1.0;
    }
  }

  lemma CleanRatioLaws(c1: string, c2: string)
    ensures c1 == [] || c2 == [] ==> CleanRatio(c1, c2) == 0.0
    ensures 0.0 <= CleanRatio(c1, c2) <= 100.0
    ensures CleanRatio(c1, c2) == CleanRatio(c2, c1)
    ensures CleanRatio(c1, c2) == 100.0 <==> c1 == c2 != []
  {
    LevenshteinSymmetric(c1, c2);
    if c1 != [] && c2 != [] {
      var maxLen := if |c1| >= |c2| then |c1| else |c2|;
      LevenshteinBounds(c1, c2);
      LevenshteinZero(c1, c2);
      RatioBounds(maxLen - Levenshtein(c1, c2), maxLen);
    }
  }

  /**
   * The score is 0.0 when either cleaned string is empty, always lies in
   * [0, 100], is symmetric, and is 100 exactly when both cleaned strings are
   * equal and non-empty.
   */
  lemma SimilarityLaws(s1: string, s2: string)
    ensures CleanString(s1) == [] || CleanString(s2) == [] ==> SimilarityRatio(s1, s2) == 0.0
    ensures s1 == [] || s2 == [] ==> SimilarityRatio(s1, s2) == 0.0
    ensures 0.0 <= SimilarityRatio(s1, s2) <= 100.0
    ensures SimilarityRatio(s1, s2) == SimilarityRatio(s2, s1)
    ensures SimilarityRatio(s1, s2) == 100.0 <==> CleanString(s1) == CleanString(s2) != []
  {
    CleanRatioLaws(CleanString(s1), CleanString(s2));
    assert CleanString([]) == [];
  }

  /** Scoring cleaned strings gives the same score as scoring the originals. */
  lemma SimilarityOfCleaned(s1: string, s2: string)
    ensures SimilarityRatio(CleanString(s1), CleanString(s2)) == SimilarityRatio(s1, s2)
  {
    CleanStringIdempotent(s1);
    CleanStringIdempotent(s2);
  }

  // ---------------------------------------------------------------------
  // partial_match
  // ---------------------------------------------------------------------

  /** `partial_match`: substring containment either way between the cleaned strings, else a similarity test. */
  function PartialMatch(text: string, target: string, threshold: real): bool {
    var textClean := CleanString(text);
    var targetClean := CleanString(target);
    if Contains(textClean, targetClean) || Contains(targetClean, textClean) then true
    else SimilarityRatio(textClean, targetClean) >= threshold
  }

  /**
   * `partial_match` holds exactly when either cleaned string occurs in the
   * other or the similarity of the originals reaches `threshold`; in
   * particular it holds, whatever the threshold, when either string cleans
   * to nothing.
   */
  lemma PartialMatchLaws(text: string, target: string, threshold: real)
    ensures PartialMatch(text, target, threshold) <==>
              Contains(CleanString(text), CleanString(target))
              || Contains(CleanString(target), CleanString(text))
              || SimilarityRatio(text, target) >= threshold
    ensures CleanString(text) == [] || CleanString(target) == [] ==> PartialMatch(text, target, threshold)
  {
    SimilarityOfCleaned(text, target);
  }

  // ---------------------------------------------------------------------
  // find_best_match
  // ---------------------------------------------------------------------

  /** A score `find_best_match` may pick: above the running best (which starts at 0.0) and at least `threshold`. */
  predicate Eligible(score: real, threshold: real) {
    score > 0.0 && score >= threshold
  }

  /**
   * Candidate `k` is the one `find_best_match` keeps: eligible, scoring at
   * least as high as every candidate, and strictly higher than every
   * candidate before it (later ties do not replace it).
   */
  ghost predicate BestAt(text: string, candidates: seq<string>, threshold: real, k: int) {
    0 <= k < |candidates|
    && Eligible(SimilarityRatio(text, candidates[k]), threshold)
    && (forall m :: 0 <= m < |candidates| ==> SimilarityRatio(text, candidates[m]) <= SimilarityRatio(text, candidates[k]))
    && (forall m :: 0 <= m < k ==> SimilarityRatio(text, candidates[m]) < SimilarityRatio(text, candidates[k]))
  }

  /**
   * `find_best_match`: nothing for an empty text or no candidates, nothing
   * when no candidate is eligible, and otherwise the earliest candidate with
   * the highest score, paired with that score.
   */
  method FindBestMatch(text: string, candidates: seq<string>, threshold: real) returns (r: Option<(string, real)>)
    ensures text == [] || candidates == [] ==> r == None
    ensures r == None <==>
              text == [] || forall m :: 0 <= m < |candidates| ==> !Eligible(SimilarityRatio(text, candidates[m]), threshold)
    ensures r.Some? ==> exists k :: BestAt(text, candidates, threshold, k)
                                    && r.value == (candidates[k], SimilarityRatio(text, candidates[k]))
  {
    // The loop needs only the scores' values, not how they are computed.
    hide SimilarityRatio;
    if text == [] || candidates == [] {
      return None;
    }
    var bestMatch: Option<string> := None;
    var bestScore := 0.0;
    ghost var bestIndex := 0;
    var i := 0;
    while i < |candidates|
      invariant 0 <= i <= |candidates|
      invariant bestMatch.None? ==>
                  bestScore == 0.0 && forall m :: 0 <= m < i ==> !Eligible(SimilarityRatio(text, candidates[m]), threshold)
      invariant bestMatch.Some? ==>
                  bestIndex < i && bestMatch.value == candidates[bestIndex]
                  && bestScore == SimilarityRatio(text, candidates[bestIndex])
                  && Eligible(bestScore, threshold)
                  && (forall m :: 0 <= m < i ==> SimilarityRatio(text, candidates[m]) <= bestScore)
                  && (forall m :: 0 <= m < bestIndex ==> SimilarityRatio(text, candidates[m]) < bestScore)
    {
      var candidate := candidates[i];
      var score := SimilarityRatio(text, candidate);
      if score > bestScore && score >= threshold {
        bestScore := score;
        bestMatch := Some(candidate);
        bestIndex := i;
      }
      i := i + 1;
    }
    if bestMatch.Some? {
      // A positive score rules out an empty candidate, so `if best_match` sees the kept candidate.
      SimilarityLaws(text, bestMatch.value);
      assert BestAt(text, candidates, threshold, bestIndex);
    }
    r := if bestMatch.Some? && bestMatch.value != [] then Some((bestMatch.value, bestScore)) else None;
  }

  // ---------------------------------------------------------------------
  // extract_keywords
  // ---------------------------------------------------------------------

  /** `any(word in text_words for word in keyword_words)`. */
  predicate SharesWord(textWords: seq<string>, keywordWords: seq<string>) {
    exists k :: 0 <= k < |keywordWords| && keywordWords[k] in textWords
  }

  /** The update `if score > best_score: best_score = score`. */
  function MaxR(best: real, score: real): real {
    if score > best then score else best
  }

  /** The running best after scoring `textWord` against each of `keywordWords` in turn, starting from `start`. */
  function WordBest(start: real, textWord: string, keywordWords: seq<string>): real {
    if keywordWords == [] then start
    else MaxR(WordBest(start, textWord, keywordWords[..|keywordWords| - 1]),
              SimilarityRatio(textWord, keywordWords[|keywordWords| - 1]))
  }

  /** The `best_score` of the nested loops: every text word against every keyword word, starting from 0.0. */
  function PairBest(textWords: seq<string>, keywordWords: seq<string>): real {
    if textWords == [] then 0.0
    else WordBest(PairBest(textWords[..|textWords| - 1], keywordWords), textWords[|textWords| - 1], keywordWords)
  }

  lemma {:induction false} WordBestMeans(start: real, textWord: string, keywordWords: seq<string>)
    ensures start <= WordBest(start, textWord, keywordWords)
    ensures forall j :: 0 <= j < |keywordWords| ==>
              SimilarityRatio(textWord, keywordWords[j]) <= WordBest(start, textWord, keywordWords)
    ensures WordBest(start, textWord, keywordWords) == start
            || exists j :: 0 <= j < |keywordWords| && WordBest(start, textWord, keywordWords) == SimilarityRatio(textWord, keywordWords[j])
    decreases |keywordWords|
  {
    hide SimilarityRatio;
    if keywordWords != [] {
      var init := keywordWords[..|keywordWords| - 1];
      WordBestMeans(start, textWord, init);
      forall j | 0 <= j < |init| ensures init[j] == keywordWords[j] { }
    }
  }

  /**
   * The nested loops compute the maximum: `best_score` is at least every
   * pair's score and, unless it stayed at 0.0, equals one of them.
   */
  lemma {:induction false} PairBestMeans(textWords: seq<string>, keywordWords: seq<string>)
    ensures 0.0 <= PairBest(textWords, keywordWords)
    ensures forall i, j :: 0 <= i < |textWords| && 0 <= j < |keywordWords| ==>
              SimilarityRatio(textWords[i], keywordWords[j]) <= PairBest(textWords, keywordWords)
    ensures PairBest(textWords, keywordWords) == 0.0
            || exists i, j :: 0 <= i < |textWords| && 0 <= j < |keywordWords|
                              && PairBest(textWords, keywordWords) == SimilarityRatio(textWords[i], keywordWords[j])
    decreases |textWords|
  {
    hide SimilarityRatio;
    if textWords != [] {
      var init := textWords[..|textWords| - 1];
      var last := textWords[|textWords| - 1];
      PairBestMeans(init, keywordWords);
      WordBestMeans(PairBest(init, keywordWords), last, keywordWords);
      forall i | 0 <= i < |init| ensures init[i] == textWords[i] { }
    }
  }

  /** What `extract_keywords` records for one keyword, if anything. */
  function KeywordEntry(textWords: seq<string>, keyword: string, threshold: real): Option<(string, real)> {
    var keywordWords := Split(CleanString(keyword));
    if SharesWord(textWords, keywordWords) then Some((keyword, 100.0))
    else
      var best := PairBest(textWords, keywordWords);
      if best >= threshold then Some((keyword, best)) else None
  }

  /** The entries of the keywords, in keyword-list order (the list before sorting). */
  function Matches(textWords: seq<string>, keywords: seq<string>, threshold: real): seq<(string, real)> {
    if keywords == [] then []
    else
      Matches(textWords, keywords[..|keywords| - 1], threshold)
      + (match KeywordEntry(textWords, keywords[|keywords| - 1], threshold)
         case Some(m) => [m]
         case None => [])
  }

  /** The sort key of `matches.sort(key=lambda x: x[1], reverse=True)`. */
  function ScoreOf(m: (string, real)): real {
    m.1
  }

  /** What `extract_keywords` returns. */
  function KeywordMatches(text: string, keywordList: seq<string>, threshold: real): seq<(string, real)> {
    StableSort.SortDesc(Matches(Split(CleanString(text)), keywordList, threshold), ScoreOf)
  }

  /**
   * `extract_keywords`: one entry per keyword that shares a cleaned word with
   * the cleaned text (score 100.0) or whose best word-against-word score
   * reaches `threshold`, sorted by score, highest first, ties in keyword order.
   */
  method ExtractKeywords(text: string, keywordList: seq<string>, threshold: real) returns (matches: seq<(string, real)>)
    ensures matches == KeywordMatches(text, keywordList, threshold)
  {
    hide CleanString, PairBest;
    matches := [];
    var textWords := Split(CleanString(text));
    var i := 0;
    while i < |keywordList|
      invariant 0 <= i <= |keywordList|
      invariant matches == Matches(textWords, keywordList[..i], threshold)
    {
      var keyword := keywordList[i];
      var keywordClean := CleanString(keyword);
      var keywordWords := Split(keywordClean);
      assert keywordList[..i + 1][..i] == keywordList[..i];
      if SharesWord(textWords, keywordWords) {
        matches := matches + [(keyword, 100.0)];
      } else {
        var bestScore := BestPairScore(textWords, keywordWords);
        if bestScore >= threshold {
          matches := matches + [(keyword, bestScore)];
        }
      }
      i := i + 1;
    }
    assert keywordList[..|keywordList|] == keywordList;
    matches := StableSort.SortDesc(matches, ScoreOf);
  }

  /**
   * One keyword's entry: 100.0 when it shares a cleaned word with the text;
   * otherwise present exactly when the best word-against-word score reaches
   * `threshold` (the best starts at 0.0), carrying that best score, which is
   * at least every pair's score. Every score lies in [0, 100].
   */
  lemma KeywordEntryLaws(textWords: seq<string>, keyword: string, threshold: real)
    ensures var keywordWords := Split(CleanString(keyword));
      var e := KeywordEntry(textWords, keyword, threshold);
      && (SharesWord(textWords, keywordWords) ==> e == Some((keyword, 100.0)))
      && (!SharesWord(textWords, keywordWords) ==>
            && (e.Some? <==> threshold <= 0.0 || exists i, j :: 0 <= i < |textWords| && 0 <= j < |keywordWords|
                                                              && SimilarityRatio(textWords[i], keywordWords[j]) >= threshold)
            && (e.Some? ==> forall i, j :: 0 <= i < |textWords| && 0 <= j < |keywordWords| ==>
                                             SimilarityRatio(textWords[i], keywordWords[j]) <= e.value.1))
      && (e.Some? ==> e.value.0 == keyword && 0.0 <= e.value.1 <= 100.0 && (e.value.1 == 100.0 || e.value.1 >= threshold))
  {
    hide CleanString, SimilarityRatio;
    var keywordWords := Split(CleanString(keyword));
    PairBestMeans(textWords, keywordWords);
    var best := PairBest(textWords, keywordWords);
    if best != 0.0 {
      var i, j :| 0 <= i < |textWords| && 0 <= j < |keywordWords| && best == SimilarityRatio(textWords[i], keywordWords[j]);
      SimilarityLaws(textWords[i], keywordWords[j]);
    }
  }

  /** The unsorted list holds exactly the keywords' entries, at most one per keyword. */
  lemma {:induction false} MatchesLaws(textWords: seq<string>, keywords: seq<string>, threshold: real)
    ensures |Matches(textWords, keywords, threshold)| <= |keywords|
    ensures forall m :: m in Matches(textWords, keywords, threshold) <==>
              exists j :: 0 <= j < |keywords| && KeywordEntry(textWords, keywords[j], threshold) == Some(m)
    decreases |keywords|
  {
    hide KeywordEntry;
    if keywords != [] {
      var init := keywords[..|keywords| - 1];
      MatchesLaws(textWords, init, threshold);
      forall j | 0 <= j < |init| ensures init[j] == keywords[j] { }
    }
  }

  /**
   * `extract_keywords` returns its entries sorted by score, highest first, a
   * permutation of the unsorted list that keeps keyword order among equal
   * scores; a pair is in the result exactly when it is some keyword's entry,
   * and every score is 100.0 or at least `threshold`, within [0, 100].
   */
  lemma KeywordMatchesLaws(text: string, keywordList: seq<string>, threshold: real)
    ensures var r := KeywordMatches(text, keywordList, threshold);
      var unsorted := Matches(Split(CleanString(text)), keywordList, threshold);
      && StableSort.SortedDesc(r, ScoreOf)
      && multiset(r) == multiset(unsorted)
      && (forall v :: StableSort.WithKey(r, ScoreOf, v) == StableSort.WithKey(unsorted, ScoreOf, v))
      && |r| <= |keywordList|
      && (forall m :: m in r <==> exists j :: 0 <= j < |keywordList|
                                     && KeywordEntry(Split(CleanString(text)), keywordList[j], threshold) == Some(m))
      && (forall k :: 0 <= k < |r| ==> 0.0 <= r[k].1 <= 100.0 && (r[k].1 == 100.0 || r[k].1 >= threshold))
  {
    hide CleanString, KeywordEntry, Matches;
    var textWords := Split(CleanString(text));
    var unsorted := Matches(textWords, keywordList, threshold);
    var r := KeywordMatches(text, keywordList, threshold);
    StableSort.SortDescLaws(unsorted, ScoreOf);
    MatchesLaws(textWords, keywordList, threshold);
    assert |r| == |unsorted| by {
      assert |multiset(r)| == |multiset(unsorted)|;
    }
    forall m ensures m in r <==> m in unsorted {
      assert m in r <==> m in multiset(r);
      assert m in unsorted <==> m in multiset(unsorted);
    }
    forall k | 0 <= k < |r| ensures 0.0 <= r[k].1 <= 100.0 && (r[k].1 == 100.0 || r[k].1 >= threshold) {
      assert r[k] in multiset(unsorted);
      var j :| 0 <= j < |keywordList| && KeywordEntry(textWords, keywordList[j], threshold) == Some(r[k]);
      KeywordEntryLaws(textWords, keywordList[j], threshold);
    }
  }

  /** No two entries name the same keyword. */
  ghost predicate DistinctKeywords(ms: seq<(string, real)>) {
    forall i, j :: 0 <= i < j < |ms| ==> ms[i].0 != ms[j].0
  }

  /** Each entry names its own keyword, so a list without repeated keywords gives entries with distinct keywords. */
  lemma {:induction false} MatchesDistinct(textWords: seq<string>, keywords: seq<string>, threshold: real)
    requires StableSort.Distinct(keywords)
    ensures DistinctKeywords(Matches(textWords, keywords, threshold))
    decreases |keywords|
  {
    hide KeywordEntry;
    if keywords != [] {
      var init, last := keywords[..|keywords| - 1], keywords[|keywords| - 1];
      assert StableSort.Distinct(init) by {
        forall i, j | 0 <= i < j < |init| ensures init[i] != init[j] { assert init[i] == keywords[i] && init[j] == keywords[j]; }
      }
      MatchesDistinct(textWords, init, threshold);
      MatchesLaws(textWords, init, threshold);
      var prefix := Matches(textWords, init, threshold);
      forall p | 0 <= p < |prefix| ensures prefix[p].0 != last {
        assert prefix[p] in prefix;
        var j :| 0 <= j < |init| && KeywordEntry(textWords, init[j], threshold) == Some(prefix[p]);
        KeywordEntryLaws(textWords, init[j], threshold);
        assert init[j] == keywords[j];
      }
      KeywordEntryLaws(textWords, last, threshold);
    }
  }

  /** `extract_keywords` over a keyword list without repeats names each keyword at most once. */
  lemma KeywordMatchesDistinct(text: string, keywordList: seq<string>, threshold: real)
    requires StableSort.Distinct(keywordList)
    ensures DistinctKeywords(KeywordMatches(text, keywordList, threshold))
  {
    hide CleanString, KeywordEntry, Matches;
    var unsorted := Matches(Split(CleanString(text)), keywordList, threshold);
    var r := KeywordMatches(text, keywordList, threshold);
    MatchesDistinct(Split(CleanString(text)), keywordList, threshold);
    StableSort.SortDescDistinct(unsorted, ScoreOf);
    StableSort.SortDescLaws(unsorted, ScoreOf);
    forall i, j | 0 <= i < j < |r| ensures r[i].0 != r[j].0 {
      assert r[i] in multiset(unsorted) && r[j] in multiset(unsorted);
      var p :| 0 <= p < |unsorted| && unsorted[p] == r[i];
      var q :| 0 <= q < |unsorted| && unsorted[q] == r[j];
    }
  }

  /**
   * The head of `extract_keywords`' result: it is some keyword's entry, no
   * entry scores higher, and no entry before it in keyword-list order scores
   * as high (the earliest of equal scores comes first). The result is empty
   * exactly when no keyword has an entry.
   */
  lemma KeywordMatchesTop(text: string, keywordList: seq<string>, threshold: real)
    ensures var r := KeywordMatches(text, keywordList, threshold);
      var textWords := Split(CleanString(text));
      var unsorted := Matches(textWords, keywordList, threshold);
      && (r == [] <==> forall j :: 0 <= j < |keywordList| ==> KeywordEntry(textWords, keywordList[j], threshold).None?)
      && (r != [] ==>
            && (exists j :: 0 <= j < |keywordList| && KeywordEntry(textWords, keywordList[j], threshold) == Some(r[0]))
            && (forall j :: 0 <= j < |keywordList| && KeywordEntry(textWords, keywordList[j], threshold).Some? ==>
                              KeywordEntry(textWords, keywordList[j], threshold).value.1 <= r[0].1)
            && (exists p :: 0 <= p < |unsorted| && unsorted[p] == r[0]
                            && forall q :: 0 <= q < p ==> unsorted[q].1 < r[0].1))
  {
    hide CleanString, KeywordEntry, Matches;
    var textWords := Split(CleanString(text));
    var unsorted := Matches(textWords, keywordList, threshold);
    var r := KeywordMatches(text, keywordList, threshold);
    KeywordMatchesLaws(text, keywordList, threshold);
    MatchesLaws(textWords, keywordList, threshold);
    if r != [] {
      assert r[0] in r;
      forall j | 0 <= j < |keywordList| && KeywordEntry(textWords, keywordList[j], threshold).Some?
        ensures KeywordEntry(textWords, keywordList[j], threshold).value.1 <= r[0].1
      {
        var e := KeywordEntry(textWords, keywordList[j], threshold).value;
        assert e in r;
        var k :| 0 <= k < |r| && r[k] == e;
        if k > 0 { assert ScoreOf(r[0]) >= ScoreOf(r[k]); }
      }
      var v := r[0].1;
      assert StableSort.WithKey(r, ScoreOf, v)[0] == r[0];
      StableSort.WithKeyFirst(unsorted, ScoreOf, v);
      var p :| 0 <= p < |unsorted| && unsorted[p] == StableSort.WithKey(unsorted, ScoreOf, v)[0] && ScoreOf(unsorted[p]) == v
               && forall q :: 0 <= q < p ==> ScoreOf(unsorted[q]) != v;
      forall q | 0 <= q < p ensures unsorted[q].1 < v {
        assert unsorted[q] in unsorted;
        var j :| 0 <= j < |keywordList| && KeywordEntry(textWords, keywordList[j], threshold) == Some(unsorted[q]);
      }
    }
  }

  /** The nested `for text_word ... for keyword_word ...` loops of `extract_keywords`. */
  method BestPairScore(textWords: seq<string>, keywordWords: seq<string>) returns (bestScore: real)
    ensures bestScore == PairBest(textWords, keywordWords)
  {
    hide SimilarityRatio;
    bestScore := 0.0;
    var a := 0;
    while a < |textWords|
      invariant 0 <= a <= |textWords|
      invariant bestScore == PairBest(textWords[..a], keywordWords)
    {
      var textWord := textWords[a];
      ghost var start := bestScore;
      var b := 0;
      while b < |keywordWords|
        invariant 0 <= b <= |keywordWords|
        invariant bestScore == WordBest(start, textWord, keywordWords[..b])
      {
        var score := SimilarityRatio(textWord, keywordWords[b]);
        assert keywordWords[..b + 1][..b] == keywordWords[..b];
        if score > bestScore {
          bestScore := score;
        }
        b := b + 1;
      }
      assert keywordWords[..|keywordWords|] == keywordWords;
      assert textWords[..a + 1][..a] == textWords[..a];
      a := a + 1;
    }
    assert textWords[..|textWords|] == textWords;
  }
}
