/** The pure state logic of `App::Application`: command-line argument
    storage, the window-event transitions on the `running` and `minimized`
    flags, and the early return of `Run` after a failed construction. */
module Application {

  datatype ExitStatus = Success | Failure

  datatype State = State(running: bool, minimized: bool, showSomePanel: bool, showInGameBrowserWindow: bool)

  datatype App = App(exitStatus: ExitStatus, state: State, argCount: int, args: seq<string>)

  /** The member initialisers of `Application::State`. */
  const InitialState: State := State(false, false, true, false)

  /** An application as its constructor leaves it; whether SDL started is
      decided outside this model and arrives as `exitStatus`. */
  function Fresh(exitStatus: ExitStatus): App {
    App(exitStatus, InitialState, 0, [])
  }

  // -----------------------------------------------------------------------
  // Command-line arguments.

  /** The stored vector is long enough for every index the count admits. */
  predicate ArgsValid(a: App) {
    a.argCount <= |a.args|
  }

  datatype SetArgsOutcome =
    | Stored(app: App)
      /** Constructing a vector of negative size throws `std::length_error`
          after the count has been assigned. */
    | LengthError(app: App)

  function Blanks(n: nat): (v: seq<string>)
    ensures |v| == n
    ensures forall i :: 0 <= i < n ==> v[i] == ""
  {
    seq(n, i => "")
  }

  /** `emplace_back` of `argv[0]`, ..., `argv[n-1]` onto `v`. */
  function AppendArgs(v: seq<string>, argv: seq<string>, n: nat): (w: seq<string>)
    requires n <= |argv|
    ensures |w| == |v| + n
    ensures forall i :: 0 <= i < |v| ==> w[i] == v[i]
    ensures forall i :: 0 <= i < n ==> w[|v| + i] == argv[i]
    decreases n
  {
    if n == 0 then v else AppendArgs(v, argv, n - 1) + [argv[n - 1]]
  }

  /** `SetCommandLineArgs` as written: the vector is constructed with
      `argc` empty strings and the arguments are appended after them. */
  function SetCommandLineArgs(a: App, argc: int, argv: seq<string>): (o: SetArgsOutcome)
    requires argc <= |argv|
    ensures o.app.argCount == argc
    ensures o.app.exitStatus == a.exitStatus && o.app.state == a.state
    ensures o.LengthError? <==> argc < 0
    ensures o.LengthError? ==> o.app.args == a.args
    ensures o.Stored? ==>
      && |o.app.args| == 2 * argc
      && (forall i :: 0 <= i < argc ==> o.app.args[i] == "")
      && (forall i :: 0 <= i < argc ==> o.app.args[argc + i] == argv[i])
  {
    var counted := a.(argCount := argc);
    if argc < 0 then LengthError(counted)
    else Stored(counted.(args := AppendArgs(Blanks(argc), argv, argc)))
  }

  /** The evident intent: reserve room for `argc` strings, then append. */
  function SetCommandLineArgsIntended(a: App, argc: int, argv: seq<string>): (o: SetArgsOutcome)
    requires argc <= |argv|
    ensures o.app.argCount == argc
    ensures o.app.exitStatus == a.exitStatus && o.app.state == a.state
    ensures o.LengthError? <==> argc < 0
    ensures o.Stored? ==> o.app.args == argv[..argc]
  {
    var counted := a.(argCount := argc);
    if argc < 0 then LengthError(counted)
    else Stored(counted.(args := AppendArgs([], argv, argc)))
  }

  function GetCommandLineArgCount(a: App): int {
    a.argCount
  }

  /** The source asserts the index is within the count. */
  function GetCommandLineArg(a: App, index: int): string
    requires ArgsValid(a)
    requires 0 <= index < a.argCount
  {
    a.args[index]
  }

  function GetCommandLineArgs(a: App): seq<string> {
    a.args
  }

  /** Both versions of argument storage keep the stored vector at least as
      long as the count, so every assert-admitted index is in range. */
  lemma SetArgsKeepsValid(a: App, argc: int, argv: seq<string>)
    requires ArgsValid(a)
    requires argc <= |argv|
    ensures ArgsValid(SetCommandLineArgs(a, argc, argv).app)
    ensures ArgsValid(SetCommandLineArgsIntended(a, argc, argv).app)
  {
  }

  /** After storing, the count getter returns `argc`, and the vector getter
      returns `argc` empty strings followed by the arguments in order. */
  lemma StoredArgsLayout(a: App, argc: nat, argv: seq<string>)
    requires argc <= |argv|
    ensures SetCommandLineArgs(a, argc, argv).Stored?
    ensures GetCommandLineArgCount(SetCommandLineArgs(a, argc, argv).app) == argc
    ensures GetCommandLineArgs(SetCommandLineArgs(a, argc, argv).app) == Blanks(argc) + argv[..argc]
  {
    var v := GetCommandLineArgs(SetCommandLineArgs(a, argc, argv).app);
    assert forall i :: 0 <= i < 2 * argc ==> v[i] == (Blanks(argc) + argv[..argc])[i];
  }

  /** As written, every admitted index reads an empty string, whatever the
      arguments were. */
  lemma ArgLookupIsBlank(a: App, argc: nat, argv: seq<string>, index: int)
    requires argc <= |argv|
    requires 0 <= index < argc
    ensures SetCommandLineArgs(a, argc, argv).Stored?
    ensures ArgsValid(SetCommandLineArgs(a, argc, argv).app)
    ensures GetCommandLineArg(SetCommandLineArgs(a, argc, argv).app, index) == ""
  {
  }

  /** A concrete run of the program name alone: the lookup of index 0
      returns "" instead of "app". */
  lemma ArgLookupCounterexample()
    ensures GetCommandLineArg(SetCommandLineArgs(Fresh(Success), 1, ["app"]).app, 0) == ""
    ensures GetCommandLineArg(SetCommandLineArgsIntended(Fresh(Success), 1, ["app"]).app, 0) == "app"
  {
    ArgLookupIsBlank(Fresh(Success), 1, ["app"], 0);
    IntendedArgLookup(Fresh(Success), 1, ["app"], 0);
  }

  /** With the corrected storage every admitted index reads its argument. */
  lemma IntendedArgLookup(a: App, argc: nat, argv: seq<string>, index: int)
    requires argc <= |argv|
    requires 0 <= index < argc
    ensures SetCommandLineArgsIntended(a, argc, argv).Stored?
    ensures ArgsValid(SetCommandLineArgsIntended(a, argc, argv).app)
    ensures GetCommandLineArg(SetCommandLineArgsIntended(a, argc, argv).app, index) == argv[index]
  {
  }

  // -----------------------------------------------------------------------
  // Window events.

  /** The window events `OnEvent` tells apart; every other event type
      arrives as `OtherEvent`. */
  datatype WindowEvent =
    | CloseEvent
    | MinimizedEvent
    | ShownEvent
    | ResizedEvent(width: int, height: int)
    | OtherEvent(code: int)

  function Stop(a: App): (a': App)
    ensures !a'.state.running
    ensures a'.state.minimized == a.state.minimized
    ensures a'.state.showSomePanel == a.state.showSomePanel
    ensures a'.state.showInGameBrowserWindow == a.state.showInGameBrowserWindow
    ensures a'.exitStatus == a.exitStatus && a'.argCount == a.argCount && a'.args == a.args
  {
    a.(state := a.state.(running := false))
  }

  function OnMinimized(a: App): App {
    a.(state := a.state.(minimized := true))
  }

  function OnShown(a: App): App {
    a.(state := a.state.(minimized := false))
  }

  function OnClose(a: App): App {
    Stop(a)
  }

  /** Only logs the new size. */
  function OnResized(a: App, width: int, height: int): App {
    a
  }

  function OnEvent(a: App, e: WindowEvent): (a': App)
    ensures a'.exitStatus == a.exitStatus && a'.argCount == a.argCount && a'.args == a.args
    ensures a'.state.showSomePanel == a.state.showSomePanel
    ensures a'.state.showInGameBrowserWindow == a.state.showInGameBrowserWindow
    ensures a'.state.running == (a.state.running && !e.CloseEvent?)
    ensures a'.state.minimized == if e.MinimizedEvent? then true else if e.ShownEvent? then false else a.state.minimized
  {
    match e
    case CloseEvent => OnClose(a)
    case MinimizedEvent => OnMinimized(a)
    case ShownEvent => OnShown(a)
    case ResizedEvent(width, height) => OnResized(a, width, height)
    case OtherEvent(_) => a
  }

  lemma StopIdempotent(a: App)
    ensures Stop(Stop(a)) == Stop(a)
  {
  }

  /** Repeating an event has no further effect. */
  lemma OnEventIdempotent(a: App, e: WindowEvent)
    ensures OnEvent(OnEvent(a, e), e) == OnEvent(a, e)
  {
  }

  /** Resizes and unrecognised events change nothing. */
  lemma IgnoredEvents(a: App, e: WindowEvent)
    requires e.ResizedEvent? || e.OtherEvent?
    ensures OnEvent(a, e) == a
  {
  }

  /** Showing the window undoes minimising it. */
  lemma ShownUndoesMinimized(a: App)
    requires !a.state.minimized
    ensures OnEvent(OnEvent(a, MinimizedEvent), ShownEvent) == a
  {
  }

  // -----------------------------------------------------------------------
  // Run.

  /** The part of `Run` before the main loop: after a failed construction
      it returns at once; otherwise the library smoke tests run (not part of
      this model), `running` is set and the main loop is entered. */
  datatype RunOutcome = Returned(status: ExitStatus, app: App) | EntersMainLoop(app: App)

  function Run(a: App): (o: RunOutcome)
    ensures o.Returned? <==> a.exitStatus == Failure
    ensures o.Returned? ==> o.status == Failure && o.app == a
    ensures o.EntersMainLoop? ==> o.app == a.(state := a.state.(running := true))
  {
    if a.exitStatus == Failure then Returned(a.exitStatus, a)
    else EntersMainLoop(a.(state := a.state.(running := true)))
  }

  /** A freshly constructed application whose construction failed returns
      `FAILURE` from `Run` and is left not running. */
  lemma RunAfterFailedConstruction()
    ensures Run(Fresh(Failure)).Returned?
    ensures Run(Fresh(Failure)).status == Failure
    ensures !Run(Fresh(Failure)).app.state.running
  {
  }
}
