/**
 * `HelpCommand` renders the processor's activation words and command list;
 * `GreetingCommand` picks a reply by the first greeting group whose words
 * occur in the text.
 */
module HelpCommands {
  import opened Text
  import opened CommandBase

  // ---------------------------------------------------------------------
  // HelpCommand
  // ---------------------------------------------------------------------

  const Help: Command :=
    Command(["ayuda", "help", "comandos", "commands", "qué puedes hacer", "what can you do"],
            "Shows available commands and how to use them")

  const NotInitializedReply: string := "Help system not properly initialized"
  const Banner: string := "=== Available Commands ===\n"
  const Examples: string :=
    "Examples:\n"
    + "- 'Furina, qué hora es' - Get current time\n"
    + "- 'Furina, abre navegador' - Open browser\n"
    + "- 'Furina, fecha de hoy' - Get current date\n"
    + "- 'Furina, subir volumen' - Increase volume\n"

  /** The line naming the activation words. */
  function ActivationLine(activationWords: seq<string>): string {
    "Activation words: " + Join(activationWords, ", ") + "\n\n"
  }

  /** At most the first three keywords, joined, with "..." when there are more. */
  function KeywordSummary(keywords: seq<string>): string {
    Join(keywords[..if |keywords| < 3 then |keywords| else 3], ", ") + (if |keywords| > 3 then "..." else "")
  }

  /** The entry for command number `n` (counting from 1). */
  function Entry(n: nat, info: CommandInfo): string {
    NatToString(n) + ". Keywords: " + KeywordSummary(info.keywords) + "\n"
    + "   Description: " + info.description + "\n\n"
  }

  /** The strings of `parts`, one after another. */
  function Concat(parts: seq<string>): string {
    if parts == [] then [] else Concat(parts[..|parts| - 1]) + parts[|parts| - 1]
  }

  /** The entries of the first `n` commands, numbered from 1 in list order. */
  function Entries(infos: seq<CommandInfo>, n: nat): (r: seq<string>)
    requires n <= |infos|
    ensures |r| == n && forall i :: 0 <= i < n ==> r[i] == Entry(i + 1, infos[i])
  {
    seq(n, i requires 0 <= i < n => Entry(i + 1, infos[i]))
  }

  /** What `HelpCommand.execute` returns once a processor is set. */
  function HelpText(activationWords: seq<string>, infos: seq<CommandInfo>): string {
    Banner + ActivationLine(activationWords) + Concat(Entries(infos, |infos|)) + Examples
  }

  /**
   * The text opens with the banner and the activation words, and always
   * ends with the fixed examples block.
   */
  lemma HelpTextShape(activationWords: seq<string>, infos: seq<CommandInfo>)
    ensures var t := HelpText(activationWords, infos);
      var head := Banner + ActivationLine(activationWords);
      && |t| >= |head| + |Examples|
      && t[..|head|] == head
      && t[|t| - |Examples|..] == Examples
  {
    var head := Banner + ActivationLine(activationWords);
    var body := Concat(Entries(infos, |infos|));
    assert HelpText(activationWords, infos) == head + (body + Examples);
    assert HelpText(activationWords, infos) == (head + body) + Examples;
  }

  /**
   * Each entry starts with its number, which reads back as that number, and
   * shows the keywords in full when there are at most three, the first three
   * and "..." otherwise.
   */
  lemma EntryLaws(n: nat, info: CommandInfo)
    ensures var digits := NatToString(n);
      var e := Entry(n, info);
      && e[..|digits|] == digits && DigitsValue(digits) == n
      && (|info.keywords| <= 3 ==> KeywordSummary(info.keywords) == Join(info.keywords, ", "))
      && (|info.keywords| > 3 ==>
            var s := KeywordSummary(info.keywords);
            |s| >= 3 && s[|s| - 3..] == "..." && s[..|s| - 3] == Join(info.keywords[..3], ", "))
  {
    NatToStringValue(n);
    assert info.keywords[..|info.keywords|] == info.keywords;
  }

  lemma ConcatAppend(parts: seq<string>, last: string)
    ensures Concat(parts + [last]) == Concat(parts) + last
  {
    assert (parts + [last])[..|parts|] == parts;
  }

  /** One more entry extends the accumulated text by that entry. */
  lemma AppendEntry(head: string, acc: string, infos: seq<CommandInfo>, i: nat)
    requires i < |infos| && acc == head + Concat(Entries(infos, i))
    ensures acc + Entry(i + 1, infos[i]) == head + Concat(Entries(infos, i + 1))
  {
    hide Entry, Concat;
    assert Entries(infos, i + 1) == Entries(infos, i) + [Entry(i + 1, infos[i])];
    ConcatAppend(Entries(infos, i), Entry(i + 1, infos[i]));
  }

  /** `HelpCommand`: holds the processor it describes, which may be missing. */
  class HelpCommand {
    var commandProcessor: CommandProcessor?

    constructor(commandProcessor: CommandProcessor?)
      ensures this.commandProcessor == commandProcessor
    {
      this.commandProcessor := commandProcessor;
    }

    /** `set_processor`. */
    method SetProcessor(processor: CommandProcessor?)
      modifies this
      ensures commandProcessor == processor
    {
      commandProcessor := processor;
    }

    /**
     * `execute`: without a processor, the not-initialised reply; otherwise the
     * banner, the activation words, one entry per listed command numbered from
     * 1, and the examples block.
     */
    method Execute(commandText: string) returns (helpText: string)
      ensures commandProcessor == null ==> helpText == NotInitializedReply
      ensures commandProcessor != null ==>
                helpText == HelpText(commandProcessor.activationWords, commandProcessor.ListCommands())
    {
      hide Join, NatToString;
      if commandProcessor == null {
        return NotInitializedReply;
      }
      var commandsInfo := commandProcessor.ListCommands();
      helpText := Banner;
      helpText := helpText + ActivationLine(commandProcessor.activationWords);
      ghost var head := helpText;
      assert Entries(commandsInfo, 0) == [];
      var i := 0;
      while i < |commandsInfo|
        invariant 0 <= i <= |commandsInfo|
        invariant helpText == head + Concat(Entries(commandsInfo, i))
      {
        var cmdInfo := commandsInfo[i];
        var keywords := Join(cmdInfo.keywords[..if |cmdInfo.keywords| < 3 then |cmdInfo.keywords| else 3], ", ");
        if |cmdInfo.keywords| > 3 {
          keywords := keywords + "...";
        }
        assert keywords == KeywordSummary(cmdInfo.keywords);
        var entry := NatToString(i + 1) + ". Keywords: " + keywords + "\n" + "   Description: " + cmdInfo.description + "\n\n";
        assert entry == Entry(i + 1, cmdInfo);
        AppendEntry(head, helpText, commandsInfo, i);
        helpText := helpText + entry;
        i := i + 1;
      }
      helpText := helpText + Examples;
    }
  }

  // ---------------------------------------------------------------------
  // GreetingCommand
  // ---------------------------------------------------------------------

  const Greeting: Command :=
    Command(["hola", "hello", "hi", "buenos días", "good morning", "buenas tardes", "good afternoon",
             "buenas noches", "good evening"], "Responds to greetings")

  const HelloWords: seq<string> := ["hola", "hello", "hi"]
  const MorningWords: seq<string> := ["buenos días", "good morning"]
  const AfternoonWords: seq<string> := ["buenas tardes", "good afternoon"]
  const EveningWords: seq<string> := ["buenas noches", "good evening"]

  const HelloReply: string := "¡Hola! I'm your voice assistant. Say 'ayuda' or 'help' to see available commands."
  const MorningReply: string := "¡Buenos días! How can I help you today?"
  const AfternoonReply: string := "¡Buenas tardes! What can I do for you?"
  const EveningReply: string := "¡Buenas noches! How may I assist you this evening?"
  const DefaultGreetingReply: string := "Hello! I'm here to help. Try saying 'help' to see what I can do."

  /** `GreetingCommand.execute`. */
  function GreetingReply(commandText: string): string {
    var lower := Lower(commandText);
    if ContainsAny(lower, HelloWords) then HelloReply
    else if ContainsAny(lower, MorningWords) then MorningReply
    else if ContainsAny(lower, AfternoonWords) then AfternoonReply
    else if ContainsAny(lower, EveningWords) then EveningReply
    else DefaultGreetingReply
  }

  /**
   * Each reply is given exactly when its group's words occur and no earlier
   * group's do: hello, then morning, then afternoon, then evening, then the
   * default.
   */
  lemma GreetingLaws(commandText: string)
    ensures var lower := Lower(commandText);
      var hello := ContainsAny(lower, HelloWords);
      var morning := ContainsAny(lower, MorningWords);
      var afternoon := ContainsAny(lower, AfternoonWords);
      var evening := ContainsAny(lower, EveningWords);
      var r := GreetingReply(commandText);
      && (r == HelloReply <==> hello)
      && (r == MorningReply <==> !hello && morning)
      && (r == AfternoonReply <==> !hello && !morning && afternoon)
      && (r == EveningReply <==> !hello && !morning && !afternoon && evening)
      && (r == DefaultGreetingReply <==> !hello && !morning && !afternoon && !evening)
  {
    hide ContainsAny, Lower;
  }

  /**
   * The hello test looks for "hi" anywhere, also inside other words: any text
   * holding "hi" ("this", "nothing", "good morning, this is me") gets the
   * hello reply, whatever other greeting it holds.
   */
  lemma HiInsideWords(commandText: string)
    requires Contains(Lower(commandText), "hi")
    ensures GreetingReply(commandText) == HelloReply
  {
    hide ContainsAny, Lower;
    ContainsAnyMeans(Lower(commandText), HelloWords);
    assert Contains(Lower(commandText), HelloWords[2]);
  }
}
