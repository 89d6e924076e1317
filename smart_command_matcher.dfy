/**
 * `SmartCommandMatcher`: picks a command for a text in two phases (a
 * near-exact keyword match returns at once; otherwise the command whose top
 * keyword score is strictly highest, the earliest winning ties) and suggests
 * keywords for a text that matched nothing.
 *
 * A command is given by its keyword list, or by `None` when it has no
 * `keywords` attribute; a match names the command by its index.
 */
module SmartCommandMatcher {
  import opened Wrappers
  import opened Text
  import opened FuzzyMatcher

  /** The `partial_match` threshold of the first phase. */
  const ExactThreshold: real := 90.0
  /** The `extract_keywords` threshold of `suggest_corrections`. */
  const SuggestionThreshold: real := 30.0

  /** `(command_object, confidence_score, matched_keyword)`. */
  datatype CommandMatch = CommandMatch(command: nat, confidence: real, keyword: string)

  /** The keywords a command contributes: none when it lacks the attribute. */
  function Keywords(c: Option<seq<string>>): seq<string> {
    if c.Some? then c.value else []
  }

  // ---------------------------------------------------------------------
  // find_command_match
  // ---------------------------------------------------------------------

  /** Index of the first keyword, in list order, that `partial_match`es `text` at 90. */
  function FirstPartial(text: string, keywords: seq<string>): Option<nat>
    decreases |keywords|
  {
    if keywords == [] then None
    else if PartialMatch(text, keywords[0], ExactThreshold) then Some(0)
    else
      var rest := FirstPartial(text, keywords[1..]);
      if rest.None? then None else Some(rest.value + 1)
  }

  lemma {:induction false} FirstPartialMeans(text: string, keywords: seq<string>)
    ensures var r := FirstPartial(text, keywords);
      && (r.Some? ==> r.value < |keywords| && PartialMatch(text, keywords[r.value], ExactThreshold))
      && (r.Some? ==> forall j :: 0 <= j < r.value ==> !PartialMatch(text, keywords[j], ExactThreshold))
      && (r.None? <==> forall j :: 0 <= j < |keywords| ==> !PartialMatch(text, keywords[j], ExactThreshold))
    decreases |keywords|
  {
    hide PartialMatch;
    if keywords != [] && !PartialMatch(text, keywords[0], ExactThreshold) {
      FirstPartialMeans(text, keywords[1..]);
      assert forall j :: 0 < j < |keywords| ==> keywords[j] == keywords[1..][j - 1];
    }
  }

  /** Command `i` is the first whose keywords partially match, and its keyword `k` is the first that does. */
  ghost predicate ExactAt(text: string, commands: seq<Option<seq<string>>>, i: int, k: nat) {
    0 <= i < |commands| && k < |Keywords(commands[i])|
    && FirstPartial(text, Keywords(commands[i])) == Some(k)
    && forall m :: 0 <= m < i ==> FirstPartial(text, Keywords(commands[m])).None?
  }

  /** The `extract_keywords` result for a command's keywords at `threshold`. */
  function Ranked(text: string, c: Option<seq<string>>, threshold: real): seq<(string, real)> {
    if c.Some? then KeywordMatches(text, c.value, threshold) else []
  }

  /** The score of the command's top keyword match, 0.0 when it has none. */
  function TopScore(text: string, c: Option<seq<string>>, threshold: real): real {
    var ms := Ranked(text, c, threshold);
    if ms == [] then 0.0 else ms[0].1
  }

  /** The command's top matching keyword, "" when it has none. */
  function TopKeyword(text: string, c: Option<seq<string>>, threshold: real): string {
    var ms := Ranked(text, c, threshold);
    if ms == [] then "" else ms[0].0
  }

  /**
   * Command `i` wins the second phase: a top score above the starting 0.0,
   * no command scoring higher, and every earlier command scoring lower.
   */
  ghost predicate FuzzyBestAt(text: string, commands: seq<Option<seq<string>>>, threshold: real, i: int) {
    0 <= i < |commands|
    && TopScore(text, commands[i], threshold) > 0.0
    && (forall m :: 0 <= m < |commands| ==> TopScore(text, commands[m], threshold) <= TopScore(text, commands[i], threshold))
    && (forall m :: 0 <= m < i ==> TopScore(text, commands[m], threshold) < TopScore(text, commands[i], threshold))
  }

  /**
   * `find_command_match`: the first command with a keyword that partially
   * matches at 90, with confidence 100.0 and that keyword; failing that, the
   * earliest command with the strictly highest positive top score, with that
   * score and keyword; failing that, nothing.
   */
  method FindCommandMatch(text: string, commands: seq<Option<seq<string>>>, threshold: real)
    returns (r: Option<CommandMatch>)
    ensures (exists m :: 0 <= m < |commands| && FirstPartial(text, Keywords(commands[m])).Some?) ==>
              exists i, k: nat :: ExactAt(text, commands, i, k) && r == Some(CommandMatch(i, 100.0, Keywords(commands[i])[k]))
    ensures (forall m :: 0 <= m < |commands| ==> FirstPartial(text, Keywords(commands[m])).None?) ==>
              && (r == None <==> forall m :: 0 <= m < |commands| ==> TopScore(text, commands[m], threshold) <= 0.0)
              && (r.Some? ==> exists i :: FuzzyBestAt(text, commands, threshold, i)
                                          && r == Some(CommandMatch(i, TopScore(text, commands[i], threshold),
                                                                    TopKeyword(text, commands[i], threshold))))
  {
    // The loops need only the values of the scores and tests, not how they are computed.
    hide PartialMatch, KeywordMatches, CleanString, SimilarityRatio, FirstPartial;
    var bestCommand: Option<nat> := None;
    var bestScore := 0.0;
    var bestKeyword := "";
    var i := 0;
    while i < |commands|
      invariant 0 <= i <= |commands|
      invariant forall m :: 0 <= m < i ==> FirstPartial(text, Keywords(commands[m])).None?
      invariant bestCommand.None? ==>
                  bestScore == 0.0 && forall m :: 0 <= m < i ==> TopScore(text, commands[m], threshold) <= 0.0
      invariant bestCommand.Some? ==>
                  var b := bestCommand.value;
                  && b < i
                  && bestScore == TopScore(text, commands[b], threshold) > 0.0
                  && bestKeyword == TopKeyword(text, commands[b], threshold)
                  && (forall m :: 0 <= m < i ==> TopScore(text, commands[m], threshold) <= bestScore)
                  && (forall m :: 0 <= m < b ==> TopScore(text, commands[m], threshold) < bestScore)
    {
      FirstPartialMeans(text, Keywords(commands[i]));
      if commands[i].None? {
        i := i + 1;
        continue;
      }
      var keywords := commands[i].value;
      var k := 0;
      while k < |keywords|
        invariant 0 <= k <= |keywords|
        invariant forall j :: 0 <= j < k ==> !PartialMatch(text, keywords[j], ExactThreshold)
      {
        if PartialMatch(text, keywords[k], ExactThreshold) {
          assert ExactAt(text, commands, i, k);
          return Some(CommandMatch(i, 100.0, keywords[k]));
        }
        k := k + 1;
      }
      var keywordMatches := ExtractKeywords(text, keywords, threshold);
      if keywordMatches != [] {
        var topMatch := keywordMatches[0];
        if topMatch.1 > bestScore {
          bestScore := topMatch.1;
          bestCommand := Some(i);
          bestKeyword := topMatch.0;
        }
      }
      i := i + 1;
    }
    if bestCommand.Some? {
      assert FuzzyBestAt(text, commands, threshold, bestCommand.value);
      r := Some(CommandMatch(bestCommand.value, bestScore, bestKeyword));
    } else {
      r := None;
    }
  }

  /**
   * The top score of a command is the highest score among its keywords'
   * entries and is carried, with the top keyword, by one of those entries;
   * it lies in [0, 100] and is 0.0 when no keyword has an entry.
   */
  lemma TopScoreLaws(text: string, c: Option<seq<string>>, threshold: real)
    ensures 0.0 <= TopScore(text, c, threshold) <= 100.0
    ensures var keywords := Keywords(c);
      var textWords := Split(CleanString(text));
      && ((forall j :: 0 <= j < |keywords| ==> KeywordEntry(textWords, keywords[j], threshold).None?) ==>
            TopScore(text, c, threshold) == 0.0 && TopKeyword(text, c, threshold) == "")
      && (forall j :: 0 <= j < |keywords| && KeywordEntry(textWords, keywords[j], threshold).Some? ==>
            KeywordEntry(textWords, keywords[j], threshold).value.1 <= TopScore(text, c, threshold))
      && ((exists j :: 0 <= j < |keywords| && KeywordEntry(textWords, keywords[j], threshold).Some?) ==>
            exists j :: 0 <= j < |keywords|
                        && KeywordEntry(textWords, keywords[j], threshold) == Some((TopKeyword(text, c, threshold), TopScore(text, c, threshold))))
  {
    hide CleanString, KeywordEntry, KeywordMatches, Matches;
    if c.Some? {
      KeywordMatchesTop(text, c.value, threshold);
      KeywordMatchesLaws(text, c.value, threshold);
      var ms := KeywordMatches(text, c.value, threshold);
      if ms != [] {
        assert 0.0 <= ms[0].1 <= 100.0;
      }
    }
  }

  /**
   * A text that cleans to nothing (empty, only whitespace or only stop
   * words) partially matches every keyword, so the first phase picks the
   * first command that has a keyword, with its first keyword.
   */
  lemma {:induction false} EmptyTextMatchesFirstKeyword(text: string, keywords: seq<string>)
    requires CleanString(text) == []
    ensures FirstPartial(text, keywords) == if keywords == [] then None else Some(0)
  {
    if keywords != [] {
      PartialMatchLaws(text, keywords[0], ExactThreshold);
    }
  }

  // ---------------------------------------------------------------------
  // suggest_corrections
  // ---------------------------------------------------------------------

  /** All commands' keywords, concatenated in command order. */
  function AllKeywords(commands: seq<Option<seq<string>>>): seq<string> {
    if commands == [] then []
    else AllKeywords(commands[..|commands| - 1]) + Keywords(commands[|commands| - 1])
  }

  lemma {:induction false} AllKeywordsMember(commands: seq<Option<seq<string>>>, w: string)
    ensures w in AllKeywords(commands) <==> exists i :: 0 <= i < |commands| && w in Keywords(commands[i])
    decreases |commands|
  {
    if commands != [] {
      var init := commands[..|commands| - 1];
      AllKeywordsMember(init, w);
      forall i | 0 <= i < |init| ensures init[i] == commands[i] { }
    }
  }

  /**
   * The end of Python's slice `[:n]` on a list of length `len`: a
   * non-negative `n` keeps the first `n` items, or all when there are fewer;
   * a negative `n` drops the last `-n` items, or all when there are fewer.
   */
  function SliceEnd(len: nat, n: int): (e: nat)
    ensures e <= len
    ensures n >= 0 ==> e <= n && (e < n ==> e == len)
    ensures n < 0 ==> len - e <= -n && (len - e < -n ==> e == 0)
  {
    if n >= 0 then (if n <= len then n else len)
    else if len + n >= 0 then len + n else 0
  }

  /**
   * `suggest_corrections`: the keywords of the leading `max_suggestions`
   * entries of `extract_keywords` at 30 over every command's keywords in
   * command order.
   */
  method SuggestCorrections(text: string, commands: seq<Option<seq<string>>>, maxSuggestions: int)
    returns (suggestions: seq<string>)
    ensures var ms := KeywordMatches(text, AllKeywords(commands), SuggestionThreshold);
      && |suggestions| == SliceEnd(|ms|, maxSuggestions)
      && forall k :: 0 <= k < |suggestions| ==> suggestions[k] == ms[k].0
  {
    hide KeywordMatches;
    var allKeywords: seq<string> := [];
    var i := 0;
    while i < |commands|
      invariant 0 <= i <= |commands|
      invariant allKeywords == AllKeywords(commands[..i])
    {
      assert commands[..i + 1][..i] == commands[..i];
      if commands[i].Some? {
        allKeywords := allKeywords + commands[i].value;
      }
      i := i + 1;
    }
    assert commands[..|commands|] == commands;
    var matches := ExtractKeywords(text, allKeywords, SuggestionThreshold);
    var top := matches[..SliceEnd(|matches|, maxSuggestions)];
    suggestions := seq(|top|, k requires 0 <= k < |top| => top[k].0);
  }

  /**
   * Every suggestion is a keyword of some command, there are at most
   * `max_suggestions` of them when that is not negative, and they score
   * non-increasingly in the order given.
   */
  lemma SuggestionsLaws(text: string, commands: seq<Option<seq<string>>>, maxSuggestions: int, k: nat)
    requires var ms := KeywordMatches(text, AllKeywords(commands), SuggestionThreshold);
      k < SliceEnd(|ms|, maxSuggestions)
    ensures var ms := KeywordMatches(text, AllKeywords(commands), SuggestionThreshold);
      && (maxSuggestions >= 0 ==> SliceEnd(|ms|, maxSuggestions) <= maxSuggestions)
      && (exists i :: 0 <= i < |commands| && ms[k].0 in Keywords(commands[i]))
      && (ms[k].1 == 100.0 || ms[k].1 >= SuggestionThreshold)
      && forall j :: 0 <= j < k ==> ms[j].1 >= ms[k].1
  {
    hide CleanString, KeywordEntry, KeywordMatches;
    var all := AllKeywords(commands);
    var ms := KeywordMatches(text, all, SuggestionThreshold);
    KeywordMatchesLaws(text, all, SuggestionThreshold);
    assert ms[k] in ms;
    var j :| 0 <= j < |all| && KeywordEntry(Split(CleanString(text)), all[j], SuggestionThreshold) == Some(ms[k]);
    KeywordEntryLaws(Split(CleanString(text)), all[j], SuggestionThreshold);
    AllKeywordsMember(commands, all[j]);
    forall j' | 0 <= j' < k ensures ms[j'].1 >= ms[k].1 {
      assert ScoreOf(ms[j']) >= ScoreOf(ms[k]);
    }
  }
}
