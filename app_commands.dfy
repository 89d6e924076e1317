/**
 * `AppLauncherCommand`: the application name is what remains of the command
 * text once a launch keyword is removed; the first table key, in table order,
 * that occurs in it selects the command line to run for the current OS.
 */
module AppCommands {
  import opened Wrappers
  import opened Text
  import opened CommandBase
  import opened OsProcess

  const AppLauncher: Command :=
    Command(["abre", "abrir", "open", "launch", "ejecuta", "execute"],
            "Opens applications (browser, calculator, notepad, etc.)")

  /** The per-OS tables, as (application key, command line) pairs in insertion order. */
  const WindowsApps: seq<(string, string)> :=
    [("navegador", "start chrome"), ("browser", "start chrome"),
     ("calculadora", "calc"), ("calculator", "calc"),
     ("notepad", "notepad"), ("bloc de notas", "notepad"),
     ("explorador", "explorer"), ("explorer", "explorer"),
     ("paint", "mspaint"), ("cmd", "cmd"), ("terminal", "cmd")]

  const DarwinApps: seq<(string, string)> :=
    [("navegador", "open -a Safari"), ("browser", "open -a Safari"),
     ("calculadora", "open -a Calculator"), ("calculator", "open -a Calculator"),
     ("notepad", "open -a TextEdit"), ("bloc de notas", "open -a TextEdit"),
     ("explorador", "open ."), ("explorer", "open ."),
     ("terminal", "open -a Terminal")]

  const LinuxApps: seq<(string, string)> :=
    [("navegador", "firefox"), ("browser", "firefox"),
     ("calculadora", "gnome-calculator"), ("calculator", "gnome-calculator"),
     ("notepad", "gedit"), ("bloc de notas", "gedit"),
     ("explorador", "nautilus"), ("explorer", "nautilus"),
     ("terminal", "gnome-terminal")]

  /** `self.apps.get(os_name, {})`, where `os_name` is what `platform.system()` reported. */
  function AppsFor(osName: string): seq<(string, string)> {
    if osName == "Windows" then WindowsApps
    else if osName == "Darwin" then DarwinApps
    else if osName == "Linux" then LinuxApps
    else []
  }

  /** The keys of a table, in its order (`apps_for_os.keys()`). */
  function Keys(table: seq<(string, string)>): (r: seq<string>)
    ensures |r| == |table| && forall i :: 0 <= i < |table| ==> r[i] == table[i].0
  {
    seq(|table|, i requires 0 <= i < |table| => table[i].0)
  }

  /** What `execute` decides before anything runs. */
  datatype AppPlan =
    | AskForApp(available: string)
    | NotFound(appName: string, available: string)
    | Launch(appName: string, run: Invocation)

  /**
   * `execute` up to the launch: an empty name asks for one, listing the keys;
   * a name holding no key is not found; otherwise the first key in table
   * order that occurs in the name gives the command line, run through the
   * shell on Windows and split into arguments elsewhere.
   */
  function PlanApp(osName: string, commandText: string): AppPlan {
    var apps := AppsFor(osName);
    var available := Join(Keys(apps), ", ");
    var appName := Lower(ExtractParameters(AppLauncher, commandText));
    if appName == [] then AskForApp(available)
    else
      match FindFirst(appName, Keys(apps))
      case None => NotFound(appName, available)
      case Some(i) =>
        Launch(appName, if osName == "Windows" then Shell(apps[i].1) else Argv(Split(apps[i].1)))
  }

  /** The reply for a plan, given what the launch (if any) came to. */
  function AppReply(plan: AppPlan, outcome: Outcome): string {
    match plan
    case AskForApp(available) => "Please specify an application. Available: " + available
    case NotFound(appName, available) => "Application '" + appName + "' not found. Available: " + available
    case Launch(appName, _) =>
      match outcome
      case Completed => "Opening " + appName + "..."
      case CalledProcessError(message) => "Error opening " + appName + ": " + message
      case OtherError(message) => "Unexpected error: " + message
  }

  /** `AppLauncherCommand.execute`, with `run` standing for `subprocess.run`. */
  function ExecuteApp(osName: string, commandText: string, run: Invocation -> Outcome): string {
    var plan := PlanApp(osName, commandText);
    AppReply(plan, if plan.Launch? then run(plan.run) else Completed)
  }

  /**
   * The decision in full: with the name `ExtractParameters(...).lower()`, an
   * empty name asks for one; otherwise a launch happens exactly when some
   * key occurs in the name, and it runs the command line of the first such
   * key; when none occurs, the name is reported as not found. Keys are
   * listed in table order.
   */
  lemma PlanAppLaws(osName: string, commandText: string)
    ensures var apps := AppsFor(osName);
      var appName := Lower(ExtractParameters(AppLauncher, commandText));
      var plan := PlanApp(osName, commandText);
      && (appName == [] ==> plan == AskForApp(Join(Keys(apps), ", ")))
      && (appName != [] && (forall i :: 0 <= i < |apps| ==> !Contains(appName, apps[i].0)) ==>
            plan == NotFound(appName, Join(Keys(apps), ", ")))
      && (plan.Launch? <==> appName != [] && exists i :: 0 <= i < |apps| && Contains(appName, apps[i].0))
      && (plan.Launch? ==>
            plan.appName == appName
            && exists i :: 0 <= i < |apps| && Contains(appName, apps[i].0)
                           && (forall j :: 0 <= j < i ==> !Contains(appName, apps[j].0))
                           && plan.run == (if osName == "Windows" then Shell(apps[i].1) else Argv(Split(apps[i].1))))
  {
    // Only the shape of `PlanApp` matters here, not the tables or the text functions.
    hide AppsFor, ExtractParameters, Lower, Join, Split;
    var apps := AppsFor(osName);
    var appName := Lower(ExtractParameters(AppLauncher, commandText));
    var keys := Keys(apps);
    var f := FindFirst(appName, keys);
    if appName != [] {
      if f.Some? {
        assert Contains(appName, apps[f.value].0);
      } else {
        forall i | 0 <= i < |apps| ensures !Contains(appName, apps[i].0) {
          assert keys[i] == apps[i].0;
        }
      }
    }
  }

  /** On an OS without a table nothing is launched: every non-empty name is not found, with an empty list. */
  lemma UnknownOsLaunchesNothing(osName: string, commandText: string)
    requires osName != "Windows" && osName != "Darwin" && osName != "Linux"
    ensures var appName := Lower(ExtractParameters(AppLauncher, commandText));
      PlanApp(osName, commandText) == if appName == [] then AskForApp("") else NotFound(appName, "")
  {
    assert Keys([]) == [];
  }

  /**
   * After a launch the reply reports the outcome: "Opening <name>..."
   * exactly when the process completed, "Error opening <name>: ..." for a
   * failed process and "Unexpected error: ..." for any other error.
   */
  lemma LaunchReplyLaws(osName: string, commandText: string, run: Invocation -> Outcome)
    requires PlanApp(osName, commandText).Launch?
    ensures var plan := PlanApp(osName, commandText);
      var reply := ExecuteApp(osName, commandText, run);
      var outcome := run(plan.run);
      && (reply == "Opening " + plan.appName + "..." <==> outcome == Completed)
      && (outcome.CalledProcessError? ==> reply == "Error opening " + plan.appName + ": " + outcome.message)
      && (outcome.OtherError? ==> reply == "Unexpected error: " + outcome.message)
  {
    hide PlanApp;
    var plan := PlanApp(osName, commandText);
    var reply := ExecuteApp(osName, commandText, run);
    var opening := "Opening " + plan.appName + "...";
    assert opening[0] == 'O';
    match run(plan.run)
    case Completed =>
    case CalledProcessError(message) =>
      assert reply[0] == 'E';
    case OtherError(message) =>
      assert reply[0] == 'U';
  }

  /**
   * The two replies without a launch: an empty name asks for an application
   * and lists the table's keys; a name holding no key is reported as not
   * found, with the same list.
   */
  lemma NoLaunchReplies(osName: string, commandText: string, run: Invocation -> Outcome)
    ensures var apps := AppsFor(osName);
      var appName := Lower(ExtractParameters(AppLauncher, commandText));
      var available := Join(Keys(apps), ", ");
      var reply := ExecuteApp(osName, commandText, run);
      && (appName == [] ==> reply == "Please specify an application. Available: " + available)
      && (appName != [] && (forall i :: 0 <= i < |apps| ==> !Contains(appName, apps[i].0)) ==>
            reply == "Application '" + appName + "' not found. Available: " + available)
  {
    hide PlanApp, AppsFor, ExtractParameters, Lower, Join;
    PlanAppLaws(osName, commandText);
  }

  /**
   * Without a launch the outcome of `run` is never consulted: the reply is
   * the same whatever the process would have done.
   */
  lemma NoLaunchIgnoresRun(osName: string, commandText: string, run: Invocation -> Outcome, other: Invocation -> Outcome)
    requires !PlanApp(osName, commandText).Launch?
    ensures ExecuteApp(osName, commandText, run) == ExecuteApp(osName, commandText, other)
  {
    hide PlanApp;
  }
}
