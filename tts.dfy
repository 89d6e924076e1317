/**
 * The `TextToSpeech` front end as the commands see it: an on/off flag, the
 * selected engine (if any was available) and the guard in front of speaking.
 * Which engine gets selected, and the engines themselves, are parameters.
 */
module Tts {
  import opened Wrappers
  import opened Text

  /** Python's `str(bool)`. */
  function BoolText(b: bool): string {
    if b then "True" else "False"
  }

  const NoEngineInfo: string := "No TTS engine available"

  /** `get_engine_info` for a selected engine's class name and flag. */
  function EngineInfoText(engine: Option<string>, enabled: bool): string {
    match engine
    case None => NoEngineInfo
    case Some(name) => "Engine: " + name + ", Enabled: " + BoolText(enabled)
  }

  /**
   * Without an engine the info is the fixed notice; with one it names the
   * engine after "Engine: " and ends with the flag, "True" exactly when on.
   */
  lemma EngineInfoLaws(engine: Option<string>, enabled: bool)
    ensures engine.None? ==> EngineInfoText(engine, enabled) == NoEngineInfo
    ensures engine.Some? ==>
              var info := EngineInfoText(engine, enabled);
              var prefix := "Engine: " + engine.value + ", Enabled: ";
              && |info| > |prefix| && info[..|prefix|] == prefix
              && (info[|prefix|..] == "True" <==> enabled)
              && info != NoEngineInfo
  {
    if engine.Some? {
      var info := EngineInfoText(engine, enabled);
      var prefix := "Engine: " + engine.value + ", Enabled: ";
      assert info == prefix + BoolText(enabled);
      assert info[|prefix|..] == BoolText(enabled);
      assert info[0] == 'E' != NoEngineInfo[0];
    }
  }

  /** `TextToSpeech`: `enabled` and the selected engine's class name. */
  class TextToSpeech {
    var enabled: bool
    var currentEngine: Option<string>

    /**
     * `__init__` after engine selection: starts enabled, and is switched off
     * when no engine was available.
     */
    constructor(selected: Option<string>)
      ensures currentEngine == selected
      ensures enabled <==> selected.Some?
    {
      currentEngine := selected;
      enabled := selected.Some?;
    }

    /** `toggle`: flips the flag, returns the new state, and keeps the engine. */
    method Toggle() returns (state: bool)
      modifies this
      ensures enabled == !old(enabled) && state == enabled
      ensures currentEngine == old(currentEngine)
    {
      enabled := !enabled;
      return enabled;
    }

    /** `is_enabled`: on, and an engine is selected. */
    predicate IsEnabled()
      reads this
    {
      enabled && currentEngine.Some?
    }

    /** `get_engine_info`. */
    function EngineInfo(): string
      reads this
    {
      EngineInfoText(currentEngine, enabled)
    }

    /**
     * `speak`: nothing is attempted while off, without an engine, or for
     * blank text; otherwise the result is what the engines report
     * (`engineSucceeds`).
     */
    method Speak(text: string, engineSucceeds: bool) returns (ok: bool)
      ensures ok <==> IsEnabled() && Strip(text) != [] && engineSucceeds
      ensures !IsEnabled() ==> !ok
    {
      if !enabled || currentEngine.None? {
        return false;
      }
      if Strip(text) == [] {
        return false;
      }
      return engineSucceeds;
    }
  }
}
