/**
 * `BaseCommand` and `CommandProcessor`: keyword tests on a command, and the
 * plain dispatcher that checks for an activation word, strips it, and runs
 * the first registered command whose keywords occur in what remains.
 *
 * A command's `execute` is supplied to the dispatcher as a function of the
 * command's registration index and the cleaned text.
 */
module CommandBase {
  import opened Wrappers
  import opened Text

  /** A command's keyword phrases and description (what `BaseCommand.__init__` stores). */
  datatype Command = Command(keywords: seq<string>, description: string)

  /** `can_execute`: some keyword, as given, occurs in the lower-cased text. */
  function CanExecute(c: Command, text: string): (r: bool)
    ensures r <==> exists k :: 0 <= k < |c.keywords| && Contains(Lower(text), c.keywords[k])
  {
    ContainsAny(Lower(text), c.keywords)
  }

  /**
   * The shape shared by `extract_parameters` and `_clean_activation`: take
   * the first word, in list order, that occurs in the lower-cased text,
   * delete every occurrence of it from the lower-cased text and strip;
   * when none occurs, strip the original text.
   */
  function RemoveFirstFound(text: string, words: seq<string>): string {
    var lower := Lower(text);
    match FindFirst(lower, words)
    case Some(k) => Strip(RemoveAll(lower, words[k]))
    case None => Strip(text)
  }

  /**
   * With no word present the text is only stripped, its case kept; otherwise
   * the earliest word present is removed everywhere from the lower-cased text,
   * and the result has no upper-case letter. Either way nothing is left at
   * the ends to strip.
   */
  lemma RemoveFirstFoundLaws(text: string, words: seq<string>)
    ensures var r := RemoveFirstFound(text, words);
      && ((forall k :: 0 <= k < |words| ==> !Contains(Lower(text), words[k])) ==> r == Strip(text))
      && (forall k :: (0 <= k < |words| && Contains(Lower(text), words[k])
                       && forall j :: 0 <= j < k ==> !Contains(Lower(text), words[j])) ==>
                        r == Strip(RemoveAll(Lower(text), words[k])) && NoUpper(r))
      && (r == [] || (!IsSpace(r[0]) && !IsSpace(r[|r| - 1])))
  {
    var lower := Lower(text);
    StripSlice(text);
    match FindFirst(lower, words)
    case Some(k) =>
      RemoveAllNoUpper(lower, words[k]);
      StripNoUpper(RemoveAll(lower, words[k]));
      StripSlice(RemoveAll(lower, words[k]));
    case None =>
  }

  /** `extract_parameters`: the text without the command's first present keyword. */
  function ExtractParameters(c: Command, text: string): string {
    RemoveFirstFound(text, c.keywords)
  }

  /** Text that holds none of the command's keywords comes back stripped, with its case kept. */
  lemma ExtractParametersLaws(c: Command, text: string)
    ensures !CanExecute(c, text) ==> ExtractParameters(c, text) == Strip(text)
    ensures CanExecute(c, text) ==>
              exists k :: 0 <= k < |c.keywords| && Contains(Lower(text), c.keywords[k])
                          && (forall j :: 0 <= j < k ==> !Contains(Lower(text), c.keywords[j]))
                          && ExtractParameters(c, text) == Strip(RemoveAll(Lower(text), c.keywords[k]))
  {
    RemoveFirstFoundLaws(text, c.keywords);
    var f := FindFirst(Lower(text), c.keywords);
    if f.Some? {
      assert Contains(Lower(text), c.keywords[f.value]);
    }
  }

  /** Index of the first command, in registration order, that can execute `text`. */
  function FirstCapable(commands: seq<Command>, text: string): (r: Option<nat>)
    ensures r.Some? ==> r.value < |commands| && CanExecute(commands[r.value], text)
    ensures r.Some? ==> forall j :: 0 <= j < r.value ==> !CanExecute(commands[j], text)
    ensures r.None? <==> forall j :: 0 <= j < |commands| ==> !CanExecute(commands[j], text)
    decreases |commands|
  {
    hide CanExecute;
    if commands == [] then None
    else if CanExecute(commands[0], text) then Some(0)
    else
      match FirstCapable(commands[1..], text)
      case None => None
      case Some(k) => Some(k + 1)
  }

  /** What `list_commands` returns for one command. */
  datatype CommandInfo = CommandInfo(keywords: seq<string>, description: string)

  const NoActivationReply: string := "No activation keyword found."
  const NotRecognizedPrefix: string := "Command not recognized: "

  /** `CommandProcessor`: the activation words, fixed at construction, and the commands in registration order. */
  class CommandProcessor {
    const activationWords: seq<string>
    var commands: seq<Command>

    constructor(activationWords: seq<string>)
      ensures this.activationWords == activationWords && commands == []
    {
      this.activationWords := activationWords;
      commands := [];
    }

    /** `register_command`: appends; earlier commands keep their places. */
    method RegisterCommand(command: Command)
      modifies this
      ensures commands == old(commands) + [command]
      ensures ListCommands() == old(ListCommands()) + [CommandInfo(command.keywords, command.description)]
    {
      commands := commands + [command];
    }

    /** `_is_valid_activation`: some activation word occurs in the lower-cased text. */
    predicate IsValidActivation(text: string) {
      ContainsAny(Lower(text), activationWords)
    }

    /** `_clean_activation`. */
    function CleanActivation(text: string): string {
      RemoveFirstFound(text, activationWords)
    }

    /**
     * A valid activation always takes the removal branch: the first activation
     * word present is removed everywhere from the lower-cased text, which is
     * then stripped; without one, the text is only stripped.
     */
    lemma CleanActivationLaws(text: string)
      ensures IsValidActivation(text) ==>
                exists k :: 0 <= k < |activationWords| && Contains(Lower(text), activationWords[k])
                            && (forall j :: 0 <= j < k ==> !Contains(Lower(text), activationWords[j]))
                            && CleanActivation(text) == Strip(RemoveAll(Lower(text), activationWords[k]))
                            && NoUpper(CleanActivation(text))
      ensures !IsValidActivation(text) ==> CleanActivation(text) == Strip(text)
    {
      RemoveFirstFoundLaws(text, activationWords);
      ContainsAnyMeans(Lower(text), activationWords);
      var f := FindFirst(Lower(text), activationWords);
      if f.Some? {
        assert Contains(Lower(text), activationWords[f.value]);
      }
    }

    /**
     * `process_text`: without an activation word, the fixed rejection and no
     * command runs; otherwise the first registered command that can execute
     * the cleaned text runs on it and its reply is returned as is; if none
     * can, "Command not recognized: " and the cleaned text. `executed` names
     * the command whose `execute` ran, if any.
     */
    method ProcessText(text: string, execute: (nat, string) -> string) returns (response: string, executed: Option<nat>)
      ensures !IsValidActivation(text) ==> response == NoActivationReply && executed == None
      ensures IsValidActivation(text) ==>
                var clean := CleanActivation(text);
                && executed == FirstCapable(commands, clean)
                && (executed.Some? ==> response == execute(executed.value, clean))
                && (executed.None? ==> response == NotRecognizedPrefix + clean)
    {
      // The loop needs only the tests' values, not how they are computed.
      hide RemoveFirstFound, CanExecute, ContainsAny, Lower;
      if !IsValidActivation(text) {
        return NoActivationReply, None;
      }
      var cleanCommand := CleanActivation(text);
      var i := 0;
      while i < |commands|
        invariant 0 <= i <= |commands|
        invariant forall j :: 0 <= j < i ==> !CanExecute(commands[j], cleanCommand)
      {
        if CanExecute(commands[i], cleanCommand) {
          var result := execute(i, cleanCommand);
          return result, Some(i);
        }
        i := i + 1;
      }
      return NotRecognizedPrefix + cleanCommand, None;
    }

    /** `list_commands`: one entry per command, in registration order, with its keywords and description. */
    function ListCommands(): (r: seq<CommandInfo>)
      reads this
      ensures |r| == |commands|
      ensures forall i :: 0 <= i < |r| ==> r[i].keywords == commands[i].keywords && r[i].description == commands[i].description
    {
      seq(|commands|, i requires 0 <= i < |commands| reads this => CommandInfo(commands[i].keywords, commands[i].description))
    }
  }

  /**
   * An empty remainder is never recognised when every keyword is non-empty:
   * only the empty string occurs in the empty string.
   */
  lemma EmptyRemainderNotRecognized(commands: seq<Command>)
    requires forall i, k :: 0 <= i < |commands| && 0 <= k < |commands[i].keywords| ==> commands[i].keywords[k] != []
    ensures FirstCapable(commands, []) == None
  {
    forall i, k | 0 <= i < |commands| && 0 <= k < |commands[i].keywords|
      ensures !Contains(Lower([]), commands[i].keywords[k])
    {
      ContainsInEmpty(commands[i].keywords[k]);
    }
  }
}
