/**
 * `SystemCommand` and `VolumeCommand`: word tests on the lower-cased text
 * choose a branch; a branch may ask for one process to be run, whose outcome
 * is supplied.
 */
module SystemCommands {
  import opened Wrappers
  import opened Text
  import opened CommandBase
  import opened OsProcess

  // ---------------------------------------------------------------------
  // SystemCommand
  // ---------------------------------------------------------------------

  const SystemControl: Command :=
    Command(["apaga", "apagar", "shutdown", "reinicia", "reiniciar", "restart", "suspender", "sleep"],
            "System operations (shutdown, restart, sleep)")

  /** Words that ask for a shutdown or a restart. */
  const DestructiveWords: seq<string> := ["apaga", "apagar", "shutdown", "reinicia", "reiniciar", "restart"]
  /** Words that ask for sleep. */
  const SleepWords: seq<string> := ["suspender", "sleep"]

  const SafetyReply: string := "System operations disabled for safety. Enable in system_commands.py if needed."
  const SleepReply: string := "Putting system to sleep..."
  const SystemUnrecognizedReply: string := "System command not recognized or not available."

  /** The sleep command for an OS; an OS outside the three has none. */
  function SleepInvocation(osName: string): Option<Invocation> {
    if osName == "Windows" then Some(Argv(["rundll32.exe", "powrprof.dll,SetSuspendState", "0,1,0"]))
    else if osName == "Darwin" then Some(Argv(["pmset", "sleepnow"]))
    else if osName == "Linux" then Some(Argv(["systemctl", "suspend"]))
    else None
  }

  /** What `SystemCommand.execute` decides before anything runs. */
  datatype SystemPlan = Refuse | Sleep(run: Option<Invocation>) | Unrecognized

  function PlanSystem(osName: string, commandText: string): SystemPlan {
    var lower := Lower(commandText);
    if ContainsAny(lower, DestructiveWords) then Refuse
    else if ContainsAny(lower, SleepWords) then Sleep(SleepInvocation(osName))
    else Unrecognized
  }

  /** `SystemCommand.execute`, with `run` standing for `subprocess.run`. */
  function ExecuteSystem(osName: string, commandText: string, run: Invocation -> Outcome): string {
    match PlanSystem(osName, commandText)
    case Refuse => SafetyReply
    case Unrecognized => SystemUnrecognizedReply
    case Sleep(None) => SleepReply
    case Sleep(Some(invocation)) =>
      match run(invocation)
      case Completed => SleepReply
      case CalledProcessError(message) => "Error executing sleep command: " + message
      case OtherError(message) => "Unexpected error: " + message
  }

  /**
   * The safety gate comes first: a shutdown or restart word gives the safety
   * reply and runs nothing, even beside a sleep word. A sleep word alone
   * runs the OS's sleep command on Windows, Darwin and Linux, and the reply
   * follows how that run ended; on an OS outside the three nothing runs and
   * the reply still says the system is going to sleep. Neither kind of word
   * gives the not-recognised reply.
   */
  lemma SystemLaws(osName: string, commandText: string, run: Invocation -> Outcome)
    ensures var lower := Lower(commandText);
      var plan := PlanSystem(osName, commandText);
      && ((exists k :: 0 <= k < |DestructiveWords| && Contains(lower, DestructiveWords[k])) <==> plan == Refuse)
      && (plan == Refuse ==> ExecuteSystem(osName, commandText, run) == SafetyReply)
      && (plan.Sleep? <==> (forall k :: 0 <= k < |DestructiveWords| ==> !Contains(lower, DestructiveWords[k]))
                           && exists k :: 0 <= k < |SleepWords| && Contains(lower, SleepWords[k]))
      && (plan.Sleep? ==> plan.run == SleepInvocation(osName))
      && (plan.Sleep? && (osName == "Windows" || osName == "Darwin" || osName == "Linux") ==>
            plan.run.Some?
            && var outcome := run(plan.run.value);
               var reply := ExecuteSystem(osName, commandText, run);
               && (outcome == Completed ==> reply == SleepReply)
               && (outcome.CalledProcessError? ==> reply == "Error executing sleep command: " + outcome.message)
               && (outcome.OtherError? ==> reply == "Unexpected error: " + outcome.message))
      && (plan.Sleep? && osName != "Windows" && osName != "Darwin" && osName != "Linux" ==>
            plan.run == None && ExecuteSystem(osName, commandText, run) == SleepReply)
      && (plan == Unrecognized <==> (forall k :: 0 <= k < |DestructiveWords| ==> !Contains(lower, DestructiveWords[k]))
                                    && (forall k :: 0 <= k < |SleepWords| ==> !Contains(lower, SleepWords[k])))
      && (plan == Unrecognized ==> ExecuteSystem(osName, commandText, run) == SystemUnrecognizedReply)
  {
    hide Lower, ContainsAny;
    ContainsAnyMeans(Lower(commandText), DestructiveWords);
    ContainsAnyMeans(Lower(commandText), SleepWords);
  }

  // ---------------------------------------------------------------------
  // VolumeCommand
  // ---------------------------------------------------------------------

  const VolumeControl: Command :=
    Command(["volumen", "volume", "subir volumen", "bajar volumen", "silencio", "mute"], "Controls system volume")

  /** Which way the volume should go, by the first branch whose words occur. */
  datatype VolumeAction = Up | Down | Mute

  function VolumeActionOf(commandText: string): Option<VolumeAction> {
    var lower := Lower(commandText);
    if Contains(lower, "subir") || Contains(lower, "up") then Some(Up)
    else if Contains(lower, "bajar") || Contains(lower, "down") then Some(Down)
    else if Contains(lower, "silencio") || Contains(lower, "mute") then Some(Mute)
    else None
  }

  /** What `VolumeCommand.execute` decides before anything runs. */
  datatype VolumePlan = NotImplemented(reply: string) | Adjust(run: Invocation, reply: string) | VolumeUnrecognized

  const VolumeUnrecognizedReply: string := "Volume command not recognized"

  /** The branch for an action on an OS; an OS outside the three matches no inner branch and falls through. */
  function PlanVolume(osName: string, commandText: string): VolumePlan {
    match VolumeActionOf(commandText)
    case None => VolumeUnrecognized
    case Some(Up) =>
      if osName == "Windows" then NotImplemented("Volume control not implemented for Windows yet")
      else if osName == "Darwin" then
        Adjust(Argv(["osascript", "-e", "set volume output volume (output volume of (get volume settings) + 10)"]), "Volume increased")
      else if osName == "Linux" then Adjust(Argv(["amixer", "set", "Master", "10%+"]), "Volume increased")
      else VolumeUnrecognized
    case Some(Down) =>
      if osName == "Windows" then NotImplemented("Volume control not implemented for Windows yet")
      else if osName == "Darwin" then
        Adjust(Argv(["osascript", "-e", "set volume output volume (output volume of (get volume settings) - 10)"]), "Volume decreased")
      else if osName == "Linux" then Adjust(Argv(["amixer", "set", "Master", "10%-"]), "Volume decreased")
      else VolumeUnrecognized
    case Some(Mute) =>
      if osName == "Windows" then NotImplemented("Mute control not implemented for Windows yet")
      else if osName == "Darwin" then Adjust(Argv(["osascript", "-e", "set volume with output muted"]), "Audio muted")
      else if osName == "Linux" then Adjust(Argv(["amixer", "set", "Master", "toggle"]), "Audio toggled")
      else VolumeUnrecognized
  }

  /** `VolumeCommand.execute`, with `run` standing for `subprocess.run`. */
  function ExecuteVolume(osName: string, commandText: string, run: Invocation -> Outcome): string {
    match PlanVolume(osName, commandText)
    case NotImplemented(reply) => reply
    case VolumeUnrecognized => VolumeUnrecognizedReply
    case Adjust(invocation, reply) =>
      match run(invocation)
      case Completed => reply
      case CalledProcessError(message) => "Error controlling volume: " + message
      case OtherError(message) => "Unexpected error: " + message
  }

  /**
   * Branch precedence is up, then down, then mute: an "up" (or "subir")
   * anywhere wins over the others, and so on.
   */
  lemma VolumeActionLaws(commandText: string)
    ensures var lower := Lower(commandText);
      var up := Contains(lower, "subir") || Contains(lower, "up");
      var down := Contains(lower, "bajar") || Contains(lower, "down");
      var mute := Contains(lower, "silencio") || Contains(lower, "mute");
      && (VolumeActionOf(commandText) == Some(Up) <==> up)
      && (VolumeActionOf(commandText) == Some(Down) <==> !up && down)
      && (VolumeActionOf(commandText) == Some(Mute) <==> !up && !down && mute)
      && (VolumeActionOf(commandText) == None <==> !up && !down && !mute)
  {
  }

  /**
   * Without a volume word the reply is "not recognised". On Windows every
   * branch is a "not implemented" reply and nothing runs; processes run only
   * on Darwin and Linux; on an OS outside the three every branch falls
   * through to "not recognised" and nothing runs.
   */
  lemma VolumePlanLaws(osName: string, commandText: string, run: Invocation -> Outcome)
    ensures var plan := PlanVolume(osName, commandText);
      var action := VolumeActionOf(commandText);
      var reply := ExecuteVolume(osName, commandText, run);
      && (action.None? ==> plan == VolumeUnrecognized && reply == VolumeUnrecognizedReply)
      && (osName == "Windows" && action.Some? ==>
            plan.NotImplemented?
            && reply == (if action.value == Mute then "Mute control not implemented for Windows yet"
                         else "Volume control not implemented for Windows yet"))
      && (osName != "Windows" && osName != "Darwin" && osName != "Linux" ==>
            plan == VolumeUnrecognized && reply == VolumeUnrecognizedReply)
      && (plan.Adjust? ==> osName in {"Darwin", "Linux"} && action.Some?)
  {
    hide VolumeActionOf;
  }

  /**
   * On Darwin and Linux every branch runs a process, and the reply follows
   * how it ended: the branch's own reply on success, the volume error for a
   * failed process, the unexpected-error reply otherwise.
   */
  lemma VolumeReplyLaws(osName: string, commandText: string, run: Invocation -> Outcome)
    requires osName == "Darwin" || osName == "Linux"
    requires VolumeActionOf(commandText).Some?
    ensures var plan := PlanVolume(osName, commandText);
      var reply := ExecuteVolume(osName, commandText, run);
      && plan.Adjust?
      && (run(plan.run) == Completed ==>
            reply == match VolumeActionOf(commandText).value
                     case Up => "Volume increased"
                     case Down => "Volume decreased"
                     case Mute => if osName == "Darwin" then "Audio muted" else "Audio toggled")
      && (run(plan.run).CalledProcessError? ==> reply == "Error controlling volume: " + run(plan.run).message)
      && (run(plan.run).OtherError? ==> reply == "Unexpected error: " + run(plan.run).message)
  {
    hide VolumeActionOf;
    if osName == "Darwin" {
    }
  }
}
