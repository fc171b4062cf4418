/**
 * The Electron main process of frontend/electron/main.js: choosing how to
 * launch the backend engine, its environment and handle, the window with
 * its file-dialog bridge and quit shortcut, and the quit paths that send
 * the engine its termination signal. Operating-system effects (spawning, windows, dialogs) are
 * recorded as actions in a trace; their outcomes arrive as events.
 */
module Supervisor {
  import opened Wrappers
  import opened Paths

  const StartUrlVar := "ELECTRON_START_URL"
  const SilentVar := "PYTHON_SILENT"
  const PathVar := "PYTHONPATH"

  /** The executable, arguments and working directory the engine is spawned with. */
  datatype Launch = Launch(exe: string, args: seq<string>, cwd: string)

  /** `!!process.env.ELECTRON_START_URL`: set and non-empty. */
  predicate IsDev(env: map<string, string>) {
    StartUrlVar in env && env[StartUrlVar] != ""
  }

  /** The page the window loads: the dev server's URL, else the built `index.html`. */
  function StartUrl(env: map<string, string>, indexHtml: string): (url: string)
    ensures IsDev(env) ==> url == env[StartUrlVar]
    ensures !IsDev(env) ==> url == "file://" + indexHtml
  {
    if IsDev(env) then env[StartUrlVar] else "file://" + indexHtml
  }

  /** The engine binary bundled with a packaged app. */
  function Bundled(resourcesPath: string): string {
    Join(resourcesPath, "VisagerEngine")
  }

  /** The engine binary of a local build, under the project root. */
  function LocalBuild(projectRoot: string): string {
    Join(projectRoot, "backend/dist/VisagerEngine")
  }

  /**
   * `startBackend`'s choice of launch: the virtualenv's Python on
   * `backend/main.py` in development (nothing is checked), else the bundled
   * binary when it exists and the local build otherwise, with no arguments
   * and the binary's directory as working directory.
   */
  function Resolve(env: map<string, string>, projectRoot: string, resourcesPath: string, bundledExists: bool): Launch {
    if IsDev(env) then
      Launch(Join(projectRoot, "venv312/bin/python3"), [Join(projectRoot, "backend/main.py")], Join(projectRoot, "backend"))
    else
      var exe := if bundledExists then Bundled(resourcesPath) else LocalBuild(projectRoot);
      Launch(exe, [], Dirname(exe))
  }

  /**
   * The launch triple in each mode: development ignores whether a bundled
   * binary exists; otherwise the bundled binary is taken exactly when it
   * exists, no argument is passed, and the working directory is the
   * directory holding the binary.
   */
  lemma ResolveSpec(env: map<string, string>, projectRoot: string, resourcesPath: string, bundledExists: bool)
    requires projectRoot != "" && resourcesPath != ""
    ensures var l := Resolve(env, projectRoot, resourcesPath, bundledExists);
      && (IsDev(env) ==> l == Launch(Join(projectRoot, "venv312/bin/python3"), [Join(projectRoot, "backend/main.py")], Join(projectRoot, "backend")))
      && (IsDev(env) ==> l == Resolve(env, projectRoot, resourcesPath, !bundledExists))
      && (!IsDev(env) ==> l.args == [] && l.cwd == Dirname(l.exe))
      && (!IsDev(env) && bundledExists ==> l.exe == Bundled(resourcesPath) && l.cwd == resourcesPath)
      && (!IsDev(env) && !bundledExists ==> l.exe == LocalBuild(projectRoot) && l.cwd == Join(projectRoot, "backend/dist"))
  {
    DirnameOfJoin(resourcesPath, "VisagerEngine");
    var dist := Join(projectRoot, "backend/dist");
    assert LocalBuild(projectRoot) == Join(dist, "VisagerEngine");
    DirnameOfJoin(dist, "VisagerEngine");
  }

  /**
   * The engine's environment: the inherited one with `PYTHON_SILENT` set to
   * "1" and `PYTHONPATH` to the working directory; nothing else changes.
   */
  function ChildEnv(env: map<string, string>, cwd: string): (r: map<string, string>)
    ensures SilentVar in r && r[SilentVar] == "1"
    ensures PathVar in r && r[PathVar] == cwd
    ensures r.Keys == env.Keys + {SilentVar, PathVar}
    ensures forall k :: k in env && k != SilentVar && k != PathVar ==> r[k] == env[k]
  {
    env[SilentVar := "1"][PathVar := cwd]
  }

  /**
   * The life of the spawned engine, as the supervisor can know it:
   * `Signalled` means SIGTERM was sent; nothing waits for the engine to exit.
   */
  datatype ChildStatus = Running | Failed | Exited(code: Option<int>) | Signalled

  /** `backendProcess`: nothing before `ready`, then the spawned engine. */
  datatype Child = NoChild | Spawned(launch: Launch, env: map<string, string>, status: ChildStatus)

  /**
   * `ChildProcess.kill()`: sends SIGTERM to an engine not yet known to have
   * stopped, and does nothing to one that has.
   */
  function Kill(c: Child): (r: Child)
    ensures r.Spawned? <==> c.Spawned?
    ensures r.Spawned? ==> r.launch == c.launch && r.env == c.env && !r.status.Running?
    ensures c.Spawned? && !c.status.Running? ==> r == c
  {
    if c.Spawned? && c.status.Running? then c.(status := Signalled) else c
  }

  /** Asking twice is the same as asking once. */
  lemma KillIdempotent(c: Child)
    ensures Kill(Kill(c)) == Kill(c)
  {
  }

  /**
   * `mainWindow`: none, a live window (`loaded` when its page was requested,
   * `hooked` when its `closed` listener was attached), or a closed window
   * still referenced because no listener cleared the reference.
   */
  datatype Window = NoWindow | Live(loaded: bool, hooked: bool) | Stale

  /** What the main process asks of the operating system, in order. */
  datatype Action = Spawn(launch: Launch) | OpenWindow | LoadPage(url: string) | RegisterShortcut | UnregisterShortcuts | KillChild

  /** The console errors the main process reports. */
  datatype Diagnostic = SpawnError | UnexpectedExit(code: int) | HandlerTwice

  /** The main process's module state and what it has done so far. */
  datatype Shell = Shell(
    child: Child,
    window: Window,
    dialogHandler: bool,
    shortcut: bool,
    quitting: bool,
    actions: seq<Action>,
    diagnostics: seq<Diagnostic>)

  const Initial := Shell(NoChild, NoWindow, false, false, false, [], [])

  /** `startBackend`: spawns the engine and keeps its handle. */
  function LaunchStep(s: Shell, env: map<string, string>, projectRoot: string, resourcesPath: string, bundledExists: bool): Shell {
    var l := Resolve(env, projectRoot, resourcesPath, bundledExists);
    s.(child := Spawned(l, ChildEnv(env, l.cwd), Running), actions := s.actions + [Spawn(l)])
  }

  /**
   * `createWindow`: the window is created and assigned first; registering
   * the dialog handler again throws (Electron accepts one handler per
   * channel), which abandons the rest: no page, no `closed` listener, no
   * shortcut.
   */
  function WindowStep(s: Shell, url: string): Shell {
    var created := s.(window := Live(false, false), actions := s.actions + [OpenWindow]);
    if s.dialogHandler then created.(diagnostics := s.diagnostics + [HandlerTwice])
    else created.(
      window := Live(true, true),
      dialogHandler := true,
      shortcut := true,
      actions := created.actions + [LoadPage(url), RegisterShortcut])
  }

  /** `ready`: the engine is spawned, then the window created. */
  function ReadyStep(s: Shell, env: map<string, string>, projectRoot: string, resourcesPath: string, bundledExists: bool, indexHtml: string): Shell {
    WindowStep(LaunchStep(s, env, projectRoot, resourcesPath, bundledExists), StartUrl(env, indexHtml))
  }

  /** The window's `closed` event: clears the reference only if the listener was attached. */
  function ClosedStep(s: Shell): Shell {
    match s.window
    case Live(_, hooked) => s.(window := if hooked then NoWindow else Stale)
    case _ => s
  }

  /** `activate`: a window is created only when no window is referenced. */
  function ActivateStep(s: Shell, env: map<string, string>, indexHtml: string): Shell {
    if s.window.NoWindow? then WindowStep(s, StartUrl(env, indexHtml)) else s
  }

  /** One `will-quit` listener that kills the engine when there is a handle. */
  function KillStep(s: Shell): Shell {
    if s.child.Spawned? then s.(child := Kill(s.child), actions := s.actions + [KillChild]) else s
  }

  /**
   * `app.quit()`: the open window closes, then both `will-quit` listeners
   * run in registration order: the first kills the engine, the second
   * unregisters the shortcuts and kills again.
   */
  function QuitStep(s: Shell): Shell {
    var closed := ClosedStep(s).(quitting := true);
    var first := KillStep(closed);
    KillStep(first.(shortcut := false, actions := first.actions + [UnregisterShortcuts]))
  }

  /** `window-all-closed`. */
  function AllClosedStep(s: Shell): Shell {
    QuitStep(s)
  }

  /** Cmd/Ctrl+Q: only delivered while the shortcut is registered. */
  function ShortcutStep(s: Shell): Shell {
    if s.shortcut then QuitStep(s) else s
  }

  /** The engine's `exit` event: reported when the code is neither null nor 0. */
  function ExitStep(s: Shell, code: Option<int>): Shell {
    if !s.child.Spawned? then s
    else
      var logged := if code.Some? && code.value != 0 then s.diagnostics + [UnexpectedExit(code.value)] else s.diagnostics;
      s.(child := s.child.(status := Exited(code)), diagnostics := logged)
  }

  /** The engine's `error` event: logged, never rethrown. */
  function ErrorStep(s: Shell): Shell {
    if !s.child.Spawned? then s
    else
      var status := if s.child.status.Running? then Failed else s.child.status;
      s.(child := s.child.(status := status), diagnostics := s.diagnostics + [SpawnError])
  }

  /** What the native dialog answers. */
  datatype DialogResult = DialogResult(canceled: bool, filePaths: seq<string>)

  /** The `select-files-dialog` handler's answer. */
  function SelectedPaths(r: DialogResult): (paths: seq<string>)
    ensures r.canceled ==> paths == []
    ensures !r.canceled ==> paths == r.filePaths
  {
    if r.canceled then [] else r.filePaths
  }

  /** Invoking `select-files-dialog`: answered only once a handler is registered. */
  function InvokeDialog(s: Shell, r: DialogResult): Option<seq<string>> {
    if s.dialogHandler then Some(SelectedPaths(r)) else None
  }

  /**
   * `ready` spawns the resolved engine with the silent environment before
   * it opens the window and loads the start page.
   */
  lemma ReadySpec(env: map<string, string>, projectRoot: string, resourcesPath: string, bundledExists: bool, indexHtml: string)
    ensures var l := Resolve(env, projectRoot, resourcesPath, bundledExists);
      var s := ReadyStep(Initial, env, projectRoot, resourcesPath, bundledExists, indexHtml);
      && s.actions == [Spawn(l), OpenWindow, LoadPage(StartUrl(env, indexHtml)), RegisterShortcut]
      && s.child == Spawned(l, ChildEnv(env, l.cwd), Running)
      && s.window == Live(true, true) && s.dialogHandler && s.shortcut
      && s.diagnostics == []
  {
  }

  /**
   * Every quit path ends in the same teardown: the shortcuts are
   * unregistered and, when there is a handle, kill is requested twice, once
   * by each listener, so the engine has been signalled and none is left
   * without one.
   */
  lemma QuitSpec(s: Shell)
    ensures var q := QuitStep(s);
      && q.quitting && !q.shortcut
      && !q.window.Live?
      && (s.child.Spawned? ==> q.actions == s.actions + [KillChild, UnregisterShortcuts, KillChild])
      && (s.child.NoChild? ==> q.actions == s.actions + [UnregisterShortcuts] && q.child == NoChild)
      && (q.child.Spawned? ==> !q.child.status.Running? && q.child.launch == s.child.launch)
      && q.diagnostics == s.diagnostics && q.dialogHandler == s.dialogHandler
    ensures s.shortcut ==> ShortcutStep(s) == AllClosedStep(s)
    ensures !s.shortcut ==> ShortcutStep(s) == s
  {
  }

  /** The exit diagnostic appears exactly for a non-null, non-zero code. */
  lemma ExitSpec(s: Shell, code: Option<int>)
    requires s.child.Spawned?
    ensures var e := ExitStep(s, code);
      && e.child.status == Exited(code)
      && (code.Some? && code.value != 0 ==> e.diagnostics == s.diagnostics + [UnexpectedExit(code.value)])
      && (code.None? || code.value == 0 ==> e.diagnostics == s.diagnostics)
      && e.window == s.window && e.actions == s.actions
  {
  }

  /** A spawn error is only logged: nothing else about the main process changes. */
  lemma ErrorSpec(s: Shell)
    requires s.child.Spawned?
    ensures var e := ErrorStep(s);
      && e.diagnostics == s.diagnostics + [SpawnError]
      && e == s.(child := e.child, diagnostics := e.diagnostics)
      && !e.child.status.Running?
      && e.child.launch == s.child.launch
  {
  }

  /** The dialog bridge exists from `ready` on and answers `[]` to a cancelled dialog. */
  lemma DialogSpec(env: map<string, string>, projectRoot: string, resourcesPath: string, bundledExists: bool, indexHtml: string, r: DialogResult)
    ensures var s := ReadyStep(Initial, env, projectRoot, resourcesPath, bundledExists, indexHtml);
      && InvokeDialog(Initial, r).None?
      && InvokeDialog(s, r) == Some(if r.canceled then [] else r.filePaths)
  {
  }

  /**
   * Closing the only window also ends the application: `window-all-closed`
   * follows `closed` and quits, so the engine is sent its termination signal.
   */
  lemma {:induction false} ClosingQuits(env: map<string, string>, projectRoot: string, resourcesPath: string, bundledExists: bool, indexHtml: string)
    ensures var s := ReadyStep(Initial, env, projectRoot, resourcesPath, bundledExists, indexHtml);
      var q := AllClosedStep(ClosedStep(s));
      && q.quitting && q.child.Spawned? && q.child.status == Signalled
  {
    var s := ReadyStep(Initial, env, projectRoot, resourcesPath, bundledExists, indexHtml);
    assert s.child.Spawned? && s.child.status == Running;
    assert s.window == Live(true, true);
  }

  /**
   * Were `activate` to arrive after `closed`, `createWindow` would register
   * the dialog handler a second time: Electron rejects it, so the new
   * window stays blank, gets no `closed` listener, and once closed it can
   * never be replaced.
   */
  lemma {:induction false} ReopenRegistersTwice(env: map<string, string>, projectRoot: string, resourcesPath: string, bundledExists: bool, indexHtml: string)
    ensures var s := ReadyStep(Initial, env, projectRoot, resourcesPath, bundledExists, indexHtml);
      var r := ActivateStep(ClosedStep(s), env, indexHtml);
      && r.window == Live(false, false)
      && r.diagnostics == [HandlerTwice]
      && ClosedStep(r).window == Stale
      && ActivateStep(ClosedStep(r), env, indexHtml) == ClosedStep(r)
  {
    var s := ReadyStep(Initial, env, projectRoot, resourcesPath, bundledExists, indexHtml);
    assert s.window == Live(true, true) && s.dialogHandler;
    assert ClosedStep(s).window == NoWindow;
  }

  /** The main process, its module variables as fields. */
  class Main {
    var child: Child
    var window: Window
    var dialogHandler: bool
    var shortcut: bool
    var quitting: bool
    var actions: seq<Action>
    var diagnostics: seq<Diagnostic>

    function State(): Shell
      reads this
    {
      Shell(child, window, dialogHandler, shortcut, quitting, actions, diagnostics)
    }

    constructor ()
      ensures State() == Initial
    {
      child := NoChild;
      window := NoWindow;
      dialogHandler := false;
      shortcut := false;
      quitting := false;
      actions := [];
      diagnostics := [];
    }

    /** `startBackend`. */
    method StartBackend(env: map<string, string>, projectRoot: string, resourcesPath: string, bundledExists: bool)
      modifies this
      ensures State() == LaunchStep(old(State()), env, projectRoot, resourcesPath, bundledExists)
    {
      var l := Resolve(env, projectRoot, resourcesPath, bundledExists);
      actions := actions + [Spawn(l)];
      child := Spawned(l, ChildEnv(env, l.cwd), Running);
    }

    /** `createWindow`. */
    method CreateWindow(url: string)
      modifies this
      ensures State() == WindowStep(old(State()), url)
    {
      window := Live(false, false);
      actions := actions + [OpenWindow];
      if dialogHandler {
        diagnostics := diagnostics + [HandlerTwice];
        return;
      }
      dialogHandler := true;
      actions := actions + [LoadPage(url)];
      window := Live(true, true);
      actions := actions + [RegisterShortcut];
      shortcut := true;
    }

    /** `app.on('ready')`. */
    method OnReady(env: map<string, string>, projectRoot: string, resourcesPath: string, bundledExists: bool, indexHtml: string)
      modifies this
      ensures State() == ReadyStep(old(State()), env, projectRoot, resourcesPath, bundledExists, indexHtml)
    {
      StartBackend(env, projectRoot, resourcesPath, bundledExists);
      CreateWindow(StartUrl(env, indexHtml));
    }

    /** `mainWindow.on('closed')`. */
    method OnClosed()
      modifies this
      ensures State() == ClosedStep(old(State()))
    {
      if window.Live? {
        window := if window.hooked then NoWindow else Stale;
      }
    }

    /** `app.on('activate')`. */
    method OnActivate(env: map<string, string>, indexHtml: string)
      modifies this
      ensures State() == ActivateStep(old(State()), env, indexHtml)
    {
      if window.NoWindow? {
        CreateWindow(StartUrl(env, indexHtml));
      }
    }

    /** One `will-quit` listener's `if (backendProcess) backendProcess.kill()`. */
    method KillIfAny()
      modifies this
      ensures State() == KillStep(old(State()))
    {
      if child.Spawned? {
        child := Kill(child);
        actions := actions + [KillChild];
      }
    }

    /** `app.quit()` and the two `will-quit` listeners. */
    method Quit()
      modifies this
      ensures State() == QuitStep(old(State()))
    {
      OnClosed();
      quitting := true;
      KillIfAny();
      shortcut := false;
      actions := actions + [UnregisterShortcuts];
      KillIfAny();
    }

    /** `app.on('window-all-closed')`. */
    method OnWindowAllClosed()
      modifies this
      ensures State() == AllClosedStep(old(State()))
    {
      Quit();
    }

    /** The CommandOrControl+Q accelerator. */
    method OnShortcut()
      modifies this
      ensures State() == ShortcutStep(old(State()))
    {
      if shortcut {
        Quit();
      }
    }

    /** `backendProcess.on('exit')`. */
    method OnChildExit(code: Option<int>)
      modifies this
      ensures State() == ExitStep(old(State()), code)
    {
      if child.Spawned? {
        if code.Some? && code.value != 0 {
          diagnostics := diagnostics + [UnexpectedExit(code.value)];
        }
        child := child.(status := Exited(code));
      }
    }

    /** `backendProcess.on('error')`. */
    method OnChildError()
      modifies this
      ensures State() == ErrorStep(old(State()))
    {
      if child.Spawned? {
        diagnostics := diagnostics + [SpawnError];
        if child.status.Running? {
          child := child.(status := Failed);
        }
      }
    }

    /** `ipcRenderer.invoke('select-files-dialog')`, given what the dialog answers. */
    method SelectFilesDialog(r: DialogResult) returns (paths: Option<seq<string>>)
      ensures paths == InvokeDialog(State(), r)
    {
      if !dialogHandler {
        return None;
      }
      if r.canceled {
        return Some([]);
      }
      return Some(r.filePaths);
    }
  }
}
