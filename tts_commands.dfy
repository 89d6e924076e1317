/**
 * `TTSControlCommand`, which switches voice output on and off through the
 * engine's `toggle`, and `RepeatCommand`, which keeps the last response.
 */
module TtsCommands {
  import opened Wrappers
  import opened Text
  import opened CommandBase
  import opened Tts

  // ---------------------------------------------------------------------
  // TTSControlCommand
  // ---------------------------------------------------------------------

  const TtsControl: Command :=
    Command(["voz", "voice", "hablar", "speak", "silenciar voz", "mute voice", "activar voz", "enable voice"],
            "Controls text-to-speech voice output")

  const MuteWords: seq<string> := ["silenciar", "mute", "desactivar", "disable"]
  const EnableWords: seq<string> := ["activar", "enable", "encender", "turn on"]
  const StatusWords: seq<string> := ["estado", "status", "info"]
  const TestWords: seq<string> := ["prueba", "test"]

  const TestPhrase: string := "This is a voice test." + " TTS is working correctly."

  const EngineMissingReply: string := "TTS engine not available"
  const DisabledReply: string := "Voice output disabled"
  const AlreadyDisabledReply: string := "Voice output is already disabled"
  const EnabledReply: string := "Voice output enabled"
  const AlreadyEnabledReply: string := "Voice output is already enabled"
  const TestCompletedReply: string := "Voice test completed"
  const TestFailedReply: string := "Voice test failed"
  const VoiceUnrecognizedReply: string :=
    "Voice command not recognized. Try: 'activar voz', 'silenciar voz', 'estado voz', or 'prueba voz'"

  /** Which branch of `execute` a text takes. */
  datatype TtsAction = Mute | Enable | Status | Test | Unknown

  /** The first group, in the order mute, enable, status, test, whose words occur. */
  function ActionOf(commandText: string): TtsAction {
    var lower := Lower(commandText);
    if ContainsAny(lower, MuteWords) then Mute
    else if ContainsAny(lower, EnableWords) then Enable
    else if ContainsAny(lower, StatusWords) then Status
    else if ContainsAny(lower, TestWords) then Test
    else Unknown
  }

  /** Each branch is taken exactly when its words occur and no earlier group's do. */
  lemma ActionOfLaws(commandText: string)
    ensures var lower := Lower(commandText);
      var mute := ContainsAny(lower, MuteWords);
      var enable := ContainsAny(lower, EnableWords);
      var status := ContainsAny(lower, StatusWords);
      var test := ContainsAny(lower, TestWords);
      var a := ActionOf(commandText);
      && (a == Mute <==> mute)
      && (a == Enable <==> !mute && enable)
      && (a == Status <==> !mute && !enable && status)
      && (a == Test <==> !mute && !enable && !status && test)
      && (a == Unknown <==> !mute && !enable && !status && !test)
  {
    hide ContainsAny, Lower;
  }

  /** The flag after a branch that started with the flag `was`. */
  function EnabledAfter(action: TtsAction, was: bool): bool {
    match action
    case Mute => false
    case Enable => true
    case _ => was
  }

  /** The reply of a branch, given the engine's state before it ran. */
  function ControlReply(action: TtsAction, was: bool, engine: Option<string>, engineSucceeds: bool): string {
    match action
    case Mute => if was then DisabledReply else AlreadyDisabledReply
    case Enable => if !was then EnabledReply else AlreadyEnabledReply
    case Status => EngineInfoText(engine, was)
    case Test => if was && engine.Some? && engineSucceeds then TestCompletedReply else TestFailedReply
    case Unknown => VoiceUnrecognizedReply
  }

  /**
   * Muting leaves voice output off and enabling leaves it on; the flag
   * changes (a `toggle` call) exactly when it was in the other state, and the
   * reply tells the two cases apart ("... disabled" versus "... already
   * disabled", and the same for enabling). Status, test and unrecognised
   * text leave it as it was: status reports the engine information, a test
   * completes exactly when voice output is on, an engine is present and it
   * speaks, and anything else gets the usage reply.
   */
  lemma ControlLaws(action: TtsAction, was: bool, engine: Option<string>, engineSucceeds: bool)
    ensures action == Mute ==> !EnabledAfter(action, was)
    ensures action == Enable ==> EnabledAfter(action, was)
    ensures EnabledAfter(action, was) != was <==> (action == Mute && was) || (action == Enable && !was)
    ensures action == Mute ==> (ControlReply(action, was, engine, engineSucceeds) == DisabledReply <==> was)
    ensures action == Enable ==> (ControlReply(action, was, engine, engineSucceeds) == EnabledReply <==> !was)
    ensures action in {Status, Test, Unknown} ==> EnabledAfter(action, was) == was
    ensures action == Test && !was ==> ControlReply(action, was, engine, engineSucceeds) == TestFailedReply
    ensures action == Mute && !was ==> ControlReply(action, was, engine, engineSucceeds) == AlreadyDisabledReply
    ensures action == Enable && was ==> ControlReply(action, was, engine, engineSucceeds) == AlreadyEnabledReply
    ensures action == Status ==> ControlReply(action, was, engine, engineSucceeds) == EngineInfoText(engine, was)
    ensures action == Test && was ==>
              (ControlReply(action, was, engine, engineSucceeds) == TestCompletedReply <==> engine.Some? && engineSucceeds)
    ensures action == Test ==>
              ControlReply(action, was, engine, engineSucceeds) in {TestCompletedReply, TestFailedReply}
    ensures action == Unknown ==> ControlReply(action, was, engine, engineSucceeds) == VoiceUnrecognizedReply
  {
  }

  /** The test phrase is not blank, so `speak` attempts it whenever voice output is on. */
  lemma TestPhraseNotBlank()
    ensures Strip(TestPhrase) != []
  {
    var first, second := "This is a voice test.", " TTS is working correctly.";
    assert first[0] == 'T' && second[|second| - 1] == '.';
    assert TestPhrase[0] == first[0] && TestPhrase[|TestPhrase| - 1] == second[|second| - 1];
    StripFixed(TestPhrase);
  }

  /** `TTSControlCommand`: holds the engine it controls, which may be missing. */
  class TTSControlCommand {
    var ttsEngine: TextToSpeech?

    constructor(ttsEngine: TextToSpeech?)
      ensures this.ttsEngine == ttsEngine
    {
      this.ttsEngine := ttsEngine;
    }

    /** `set_tts_engine`. */
    method SetTtsEngine(ttsEngine: TextToSpeech?)
      modifies this
      ensures this.ttsEngine == ttsEngine
    {
      this.ttsEngine := ttsEngine;
    }

    /**
     * `execute`: without an engine, the fixed reply and nothing changes;
     * otherwise the branch is `ActionOf(commandText)`, the flag becomes
     * `EnabledAfter` of the old flag, the selected engine is kept, and the
     * reply is `ControlReply` of the old state. `engineSucceeds` is what the
     * engines report when the test phrase is spoken.
     */
    method Execute(commandText: string, engineSucceeds: bool) returns (response: string)
      modifies ttsEngine
      ensures ttsEngine == null ==> response == EngineMissingReply
      ensures ttsEngine != null ==>
                && ttsEngine.enabled == EnabledAfter(ActionOf(commandText), old(ttsEngine.enabled))
                && ttsEngine.currentEngine == old(ttsEngine.currentEngine)
                && response == ControlReply(ActionOf(commandText), old(ttsEngine.enabled),
                                            old(ttsEngine.currentEngine), engineSucceeds)
    {
      hide ContainsAny;
      if ttsEngine == null {
        return EngineMissingReply;
      }
      var commandLower := Lower(commandText);
      if ContainsAny(commandLower, MuteWords) {
        if ttsEngine.enabled {
          var _ := ttsEngine.Toggle();
          return DisabledReply;
        } else {
          return AlreadyDisabledReply;
        }
      } else if ContainsAny(commandLower, EnableWords) {
        if !ttsEngine.enabled {
          var _ := ttsEngine.Toggle();
          return EnabledReply;
        } else {
          return AlreadyEnabledReply;
        }
      } else if ContainsAny(commandLower, StatusWords) {
        return ttsEngine.EngineInfo();
      } else if ContainsAny(commandLower, TestWords) {
        TestPhraseNotBlank();
        var success := ttsEngine.Speak(TestPhrase, engineSucceeds);
        if success {
          return TestCompletedReply;
        } else {
          return TestFailedReply;
        }
      }
      return VoiceUnrecognizedReply;
    }
  }

  // ---------------------------------------------------------------------
  // RepeatCommand
  // ---------------------------------------------------------------------

  const Repeat: Command := Command(["repite", "repeat", "di otra vez", "say again"], "Repeats the last response")

  const NoPreviousReply: string := "No previous response to repeat"
  const RepeatingPrefix: string := "Repeating: "

  /** The reply of `RepeatCommand.execute` for a stored response. */
  function RepeatReply(lastResponse: string): string {
    if lastResponse == [] then NoPreviousReply else RepeatingPrefix + lastResponse
  }

  /**
   * The stored response reads back from the reply after "Repeating: ", and
   * the reply is the no-previous notice exactly when nothing is stored.
   */
  lemma RepeatReplyLaws(lastResponse: string)
    ensures RepeatReply(lastResponse) == NoPreviousReply <==> lastResponse == []
    ensures lastResponse != [] ==>
              var r := RepeatReply(lastResponse);
              && |r| == |RepeatingPrefix| + |lastResponse|
              && r[..|RepeatingPrefix|] == RepeatingPrefix
              && r[|RepeatingPrefix|..] == lastResponse
  {
    if lastResponse != [] {
      var r := RepeatReply(lastResponse);
      assert r[1] == 'e' != NoPreviousReply[1];
    }
  }

  /** `RepeatCommand`: an optional engine and the last response, initially empty. */
  class RepeatCommand {
    var ttsEngine: TextToSpeech?
    var lastResponse: string

    constructor(ttsEngine: TextToSpeech?)
      ensures this.ttsEngine == ttsEngine && lastResponse == []
    {
      this.ttsEngine := ttsEngine;
      lastResponse := [];
    }

    /** `set_tts_engine`. */
    method SetTtsEngine(ttsEngine: TextToSpeech?)
      modifies this
      ensures this.ttsEngine == ttsEngine && lastResponse == old(lastResponse)
    {
      this.ttsEngine := ttsEngine;
    }

    /** `set_last_response`: stores its argument. */
    method SetLastResponse(response: string)
      modifies this
      ensures lastResponse == response && ttsEngine == old(ttsEngine)
    {
      lastResponse := response;
    }

    /**
     * `execute`: replies with `RepeatReply` of the stored response, changes
     * nothing, and hands the stored response to `speak` (`spoken`) exactly
     * when one is stored and an enabled engine is present.
     */
    method Execute(commandText: string, engineSucceeds: bool) returns (response: string, spoken: Option<string>)
      ensures response == RepeatReply(lastResponse)
      ensures spoken == (if lastResponse != [] && ttsEngine != null && ttsEngine.IsEnabled()
                         then Some(lastResponse) else None)
    {
      if lastResponse == [] {
        return NoPreviousReply, None;
      }
      spoken := None;
      if ttsEngine != null && ttsEngine.IsEnabled() {
        var _ := ttsEngine.Speak(lastResponse, engineSucceeds);
        spoken := Some(lastResponse);
      }
      response := RepeatingPrefix + lastResponse;
    }
  }
}
