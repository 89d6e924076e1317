/**
 * `StatsCommand`'s guards and report, the `format_timedelta` helper of
 * `UptimeCommand`, and `TestFuzzyCommand`'s fixed reply.
 */
module SystemInfoCommands {
  import opened Text
  import opened CommandBase

  // ---------------------------------------------------------------------
  // StatsCommand
  // ---------------------------------------------------------------------

  const StatsKeywords: Command :=
    Command(["estadísticas", "stats", "statistics", "rendimiento", "performance"], "Shows assistant usage statistics")

  /** The four counters `execute` reads from the processor's `get_stats()`. */
  datatype Stats = Stats(totalCommands: nat, exactMatches: nat, fuzzyMatches: nat, failedMatches: nat)

  const StatsUnavailableReply: string := "Statistics not available"
  const NothingProcessedReply: string := "No commands processed yet"
  const StatsHeader: string := "=== Assistant Statistics ===\n"

  /** `count / total * 100`, as an exact real. */
  function Percent(count: nat, total: nat): real
    requires total > 0
  {
    (count as real / total as real) * 100.0
  }

  /** The report `execute` builds for counters with a positive total; `format1` renders `:.1f`. */
  function StatsText(stats: Stats, format1: real -> string): string
    requires stats.totalCommands > 0
  {
    StatsHeader + "Total commands: " + NatToString(stats.totalCommands) + "\n" + MatchLines(stats, format1)
  }

  /** The report's lines after the total: each count with its percentage, then the success rate. */
  function MatchLines(stats: Stats, format1: real -> string): string
    requires stats.totalCommands > 0
  {
    var total := stats.totalCommands;
    CountLine("Exact matches: ", stats.exactMatches, total, format1)
    + CountLine("Fuzzy matches: ", stats.fuzzyMatches, total, format1)
    + CountLine("Failed matches: ", stats.failedMatches, total, format1)
    + SuccessLine(stats.failedMatches, total, format1)
  }

  /** One count line: the caption, the count and its percentage of the total. */
  function CountLine(caption: string, count: nat, total: nat, format1: real -> string): string
    requires total > 0
  {
    caption + NatToString(count) + " (" + format1(Percent(count, total)) + "%)\n"
  }

  /** The closing line: the share of commands that did not fail. */
  function SuccessLine(failed: nat, total: nat, format1: real -> string): string
    requires total > 0
  {
    "Success rate: " + format1(100.0 - Percent(failed, total)) + "%"
  }

  lemma PercentBounds(count: nat, total: nat)
    requires 0 < total && count <= total
    ensures 0.0 <= Percent(count, total) <= 100.0
  {
    var c, t := count as real, total as real;
    assert c / t <= t / t;
  }

  lemma PercentSum(a: nat, b: nat, c: nat, total: nat)
    requires 0 < total && a + b + c == total
    ensures Percent(a, total) + Percent(b, total) + Percent(c, total) == 100.0
  {
    var t := total as real;
    assert a as real / t + b as real / t + c as real / t == (a + b + c) as real / t;
  }

  /**
   * A count no larger than the total is between 0 and 100 percent; when the
   * exact, fuzzy and failed counts make up the total, their percentages sum
   * to 100 and the success rate is the exact plus the fuzzy percentage.
   */
  lemma PercentLaws(stats: Stats)
    requires stats.totalCommands > 0
    ensures var total := stats.totalCommands;
      && (stats.exactMatches <= total ==> 0.0 <= Percent(stats.exactMatches, total) <= 100.0)
      && (stats.failedMatches <= total ==> 0.0 <= 100.0 - Percent(stats.failedMatches, total) <= 100.0)
      && (stats.exactMatches + stats.fuzzyMatches + stats.failedMatches == total ==>
            && Percent(stats.exactMatches, total) + Percent(stats.fuzzyMatches, total)
               + Percent(stats.failedMatches, total) == 100.0
            && 100.0 - Percent(stats.failedMatches, total)
               == Percent(stats.exactMatches, total) + Percent(stats.fuzzyMatches, total))
  {
    hide Percent;
    var total := stats.totalCommands;
    if stats.exactMatches <= total {
      PercentBounds(stats.exactMatches, total);
    }
    if stats.failedMatches <= total {
      PercentBounds(stats.failedMatches, total);
    }
    if stats.exactMatches + stats.fuzzyMatches + stats.failedMatches == total {
      PercentSum(stats.exactMatches, stats.fuzzyMatches, stats.failedMatches, total);
    }
  }

  /** The report opens with the header and the total, which reads back from the text. */
  lemma StatsTextLaws(stats: Stats, format1: real -> string)
    requires stats.totalCommands > 0
    ensures var text := StatsText(stats, format1);
      var digits := NatToString(stats.totalCommands);
      var head := StatsHeader + "Total commands: ";
      && |text| > |head| + |digits|
      && text[..|head|] == head
      && text[|head|..|head| + |digits|] == digits
      && DigitsValue(digits) == stats.totalCommands
      && text != NothingProcessedReply && text != StatsUnavailableReply
  {
    hide NatToString, MatchLines;
    var text := StatsText(stats, format1);
    var digits := NatToString(stats.totalCommands);
    var head := StatsHeader + "Total commands: ";
    var rest := text[|head| + |digits|..];
    assert text == head + digits + rest;
    assert text[..|head|] == head;
    assert text[|head|..|head| + |digits|] == digits;
    assert text[0] == '=';
    NatToStringValue(stats.totalCommands);
  }

  /**
   * After the total, the report holds one line per count, in the order exact,
   * fuzzy, failed, and it ends with the success rate, which is the exact plus
   * the fuzzy percentage whenever the three counts make up the total.
   */
  lemma StatsLinesLaws(stats: Stats, format1: real -> string)
    requires stats.totalCommands > 0
    ensures var text := StatsText(stats, format1);
      var total := stats.totalCommands;
      var success := SuccessLine(stats.failedMatches, total, format1);
      && Contains(text, CountLine("Exact matches: ", stats.exactMatches, total, format1))
      && Contains(text, CountLine("Fuzzy matches: ", stats.fuzzyMatches, total, format1))
      && Contains(text, CountLine("Failed matches: ", stats.failedMatches, total, format1))
      && |success| <= |text| && text[|text| - |success|..] == success
      && (stats.exactMatches + stats.fuzzyMatches + stats.failedMatches == total ==>
            success == "Success rate: "
                       + format1(Percent(stats.exactMatches, total) + Percent(stats.fuzzyMatches, total)) + "%")
  {
    PercentLaws(stats);
    hide NatToString, Percent, Contains, CountLine, SuccessLine;
    var total := stats.totalCommands;
    var head := StatsHeader + "Total commands: " + NatToString(total) + "\n";
    var exact := CountLine("Exact matches: ", stats.exactMatches, total, format1);
    var fuzzy := CountLine("Fuzzy matches: ", stats.fuzzyMatches, total, format1);
    var failed := CountLine("Failed matches: ", stats.failedMatches, total, format1);
    var success := SuccessLine(stats.failedMatches, total, format1);
    assert StatsText(stats, format1) == head + (exact + fuzzy + failed + success);
    LinesIn(head, exact, fuzzy, failed, success);
  }

  /** Each middle line of a report occurs in it, and the report ends with its last line. */
  lemma LinesIn(head: string, a: string, b: string, c: string, last: string)
    ensures var text := head + (a + b + c + last);
      && Contains(text, a) && Contains(text, b) && Contains(text, c)
      && |last| <= |text| && text[|text| - |last|..] == last
  {
    var text := head + (a + b + c + last);
    var i := |head|;
    assert text[i..i + |a|] == a;
    OccursContains(text, a, i);
    i := i + |a|;
    assert text[i..i + |b|] == b;
    OccursContains(text, b, i);
    i := i + |b|;
    assert text[i..i + |c|] == c;
    OccursContains(text, c, i);
    assert text[|text| - |last|..] == last;
  }

  /** `StatsCommand`: holds the processor whose counters it reports, which may be missing. */
  class StatsCommand {
    var commandProcessor: CommandProcessor?

    constructor(commandProcessor: CommandProcessor?)
      ensures this.commandProcessor == commandProcessor
    {
      this.commandProcessor := commandProcessor;
    }

    /** `set_processor`. */
    method SetProcessor(processor: CommandProcessor?)
      modifies this
      ensures commandProcessor == processor
    {
      commandProcessor := processor;
    }

    /**
     * `execute`: without a processor, the unavailable notice; with a zero
     * total, the nothing-yet notice (so no percentage divides by zero);
     * otherwise the report. `stats` is what the processor's `get_stats()`
     * returns.
     */
    method Execute(commandText: string, stats: Stats, format1: real -> string) returns (result: string)
      ensures commandProcessor == null ==> result == StatsUnavailableReply
      ensures commandProcessor != null && stats.totalCommands == 0 ==> result == NothingProcessedReply
      ensures commandProcessor != null && stats.totalCommands > 0 ==> result == StatsText(stats, format1)
    {
      hide NatToString, Percent;
      if commandProcessor == null {
        return StatsUnavailableReply;
      }
      var total := stats.totalCommands;
      if total == 0 {
        return NothingProcessedReply;
      }
      var exactPercent := Percent(stats.exactMatches, total);
      var fuzzyPercent := Percent(stats.fuzzyMatches, total);
      var failedPercent := Percent(stats.failedMatches, total);
      result := StatsHeader;
      result := result + "Total commands: " + NatToString(total) + "\n";
      result := result + "Exact matches: " + NatToString(stats.exactMatches) + " (" + format1(exactPercent) + "%)\n";
      result := result + "Fuzzy matches: " + NatToString(stats.fuzzyMatches) + " (" + format1(fuzzyPercent) + "%)\n";
      result := result + "Failed matches: " + NatToString(stats.failedMatches) + " (" + format1(failedPercent) + "%)\n";
      result := result + "Success rate: " + format1(100.0 - failedPercent) + "%";
    }
  }

  // ---------------------------------------------------------------------
  // format_timedelta
  // ---------------------------------------------------------------------

  /** Hours, minutes and seconds of a second count within one day, as `divmod` gives them. */
  function Clock(seconds: nat): (r: (nat, nat, nat))
    requires seconds < 86400
    ensures r.0 * 3600 + r.1 * 60 + r.2 == seconds
    ensures r.0 < 24 && r.1 < 60 && r.2 < 60
  {
    (seconds / 3600, (seconds % 3600) / 60, (seconds % 3600) % 60)
  }

  datatype TimeUnit = Day | Hour | Minute | Second

  function UnitWord(u: TimeUnit): string {
    match u
    case Day => "day"
    case Hour => "hour"
    case Minute => "minute"
    case Second => "second"
  }

  function Rank(u: TimeUnit): nat {
    match u
    case Day => 0
    case Hour => 1
    case Minute => 2
    case Second => 3
  }

  /** One shown part: a positive amount of a unit. */
  datatype Part = Part(value: nat, unit: TimeUnit)

  /** `f"{value} {unit}{'s' if value != 1 else ''}"`. */
  function Render(p: Part): string {
    NatToString(p.value) + " " + UnitWord(p.unit) + (if p.value != 1 then "s" else "")
  }

  /** The parts `format_timedelta` shows for a `timedelta` of `days` and `seconds`. */
  function Parts(days: int, seconds: nat): seq<Part>
    requires seconds < 86400
  {
    var (hours, minutes, secs) := Clock(seconds);
    var parts := (if days > 0 then [Part(days, Day)] else [])
                 + (if hours > 0 then [Part(hours, Hour)] else [])
                 + (if minutes > 0 then [Part(minutes, Minute)] else []);
    if parts == [] && secs > 0 then [Part(secs, Second)] else parts
  }

  /** The rendered parts joined by ", ", or "less than a minute" when there are none. */
  function TimedeltaText(days: int, seconds: nat): string
    requires seconds < 86400
  {
    var parts := Parts(days, seconds);
    if parts == [] then "less than a minute" else Join(seq(|parts|, i requires 0 <= i < |parts| => Render(parts[i])), ", ")
  }

  /**
   * The parts are in day, hour, minute, second order, each unit at most
   * once and each amount positive. A day part appears exactly when `days`
   * is positive, hour and minute parts exactly when those amounts are, and
   * a seconds part exactly when nothing else is shown and seconds remain.
   * Only a zero duration (or a non-positive day count with no seconds)
   * gives no parts.
   */
  lemma PartsLaws(days: int, seconds: nat)
    requires seconds < 86400
    ensures var ps := Parts(days, seconds);
      var (hours, minutes, secs) := Clock(seconds);
      && |ps| <= 3
      && (forall i, j :: 0 <= i < j < |ps| ==> Rank(ps[i].unit) < Rank(ps[j].unit))
      && (forall i :: 0 <= i < |ps| ==> ps[i].value > 0)
      && ((exists i :: 0 <= i < |ps| && ps[i].unit == Day) <==> days > 0)
      && ((exists i :: 0 <= i < |ps| && ps[i].unit == Hour) <==> hours > 0)
      && ((exists i :: 0 <= i < |ps| && ps[i].unit == Minute) <==> minutes > 0)
      && ((exists i :: 0 <= i < |ps| && ps[i].unit == Second) <==> days <= 0 && hours == 0 && minutes == 0 && secs > 0)
      && (forall i :: 0 <= i < |ps| ==>
            ps[i].value == match ps[i].unit
                           case Day => days
                           case Hour => hours
                           case Minute => minutes
                           case Second => secs)
      && (ps == [] <==> days <= 0 && seconds == 0)
  {
    hide Clock, NatToString;
    var (hours, minutes, secs) := Clock(seconds);
    var ps := Parts(days, seconds);
    if days > 0 {
      assert ps[0] == Part(days, Day);
    }
    if hours > 0 {
      assert ps[if days > 0 then 1 else 0] == Part(hours, Hour);
    }
    if minutes > 0 {
      assert ps[|ps| - 1] == Part(minutes, Minute);
    }
  }

  /** A rendered part starts with its amount, which reads back, and ends in "s" exactly when the amount is not 1. */
  lemma RenderLaws(p: Part)
    ensures var r := Render(p);
      var digits := NatToString(p.value);
      && r[..|digits|] == digits && DigitsValue(digits) == p.value
      && (r[|r| - 1] == 's' <==> p.value != 1)
  {
    NatToStringValue(p.value);
    var r := Render(p);
    var w := UnitWord(p.unit);
    assert w[|w| - 1] != 's';
    if p.value == 1 {
      assert r[|r| - 1] == w[|w| - 1];
    }
  }

  /** `format_timedelta(td)` for `td.days == days` and `td.seconds == seconds`. */
  method FormatTimedelta(days: int, seconds: int) returns (text: string)
    requires 0 <= seconds < 86400
    ensures text == TimedeltaText(days, seconds)
  {
    var hours, remainder := seconds / 3600, seconds % 3600;
    var minutes, secs := remainder / 60, remainder % 60;
    ghost var shown: seq<Part> := [];
    var parts: seq<string> := [];
    if days > 0 {
      parts := parts + [Render(Part(days, Day))];
      shown := shown + [Part(days, Day)];
    }
    if hours > 0 {
      parts := parts + [Render(Part(hours, Hour))];
      shown := shown + [Part(hours, Hour)];
    }
    if minutes > 0 {
      parts := parts + [Render(Part(minutes, Minute))];
      shown := shown + [Part(minutes, Minute)];
    }
    if parts == [] && secs > 0 {
      parts := parts + [Render(Part(secs, Second))];
      shown := shown + [Part(secs, Second)];
    }
    assert shown == Parts(days, seconds);
    assert parts == seq(|shown|, i requires 0 <= i < |shown| => Render(shown[i]));
    text := if parts != [] then Join(parts, ", ") else "less than a minute";
  }

  // ---------------------------------------------------------------------
  // TestFuzzyCommand
  // ---------------------------------------------------------------------

  const FuzzyExamples: seq<string> := [
    "Try saying these with intentional errors:",
    "• 'abre navgador' (instead of 'navegador')",
    "• 'que ora es' (instead of 'qué hora es')",
    "• 'calculaora' (instead of 'calculadora')",
    "• 'subr volumen' (instead of 'subir volumen')",
    "• 'ayua' (instead of 'ayuda')"
  ]

  /** `TestFuzzyCommand.execute`: the example lines joined by newlines. */
  function TestFuzzyReply(commandText: string): string {
    Join(FuzzyExamples, "\n")
  }

  /** The reply is the same for every input and holds every example line. */
  lemma TestFuzzyLaws(a: string, b: string, i: nat)
    requires i < |FuzzyExamples|
    ensures TestFuzzyReply(a) == TestFuzzyReply(b)
    ensures Contains(TestFuzzyReply(a), FuzzyExamples[i])
  {
    JoinContainsEach(FuzzyExamples, "\n", i);
  }
}
