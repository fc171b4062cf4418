/**
 * How the pieces meet: the supervisor's environment and the backend's log
 * level, the dialog bridge and the client's picker, and the backend's
 * progress counters as the client displays them.
 */
module Wiring {
  import opened Wrappers
  import opened Protocol
  import Supervisor
  import Server
  import Client

  /** The engine the supervisor spawns always runs with the "critical" log level. */
  lemma {:induction false} SpawnedEngineIsSilent(env: map<string, string>, cwd: string)
    ensures Server.LogLevel(Supervisor.ChildEnv(env, cwd)) == "critical"
  {
    var e := Supervisor.ChildEnv(env, cwd);
    assert Supervisor.SilentVar in e && e[Supervisor.SilentVar] == "1";
  }

  /** A cancelled dialog answers `[]`, which the picker ignores: nothing is submitted. */
  lemma CancelledDialogSubmitsNothing(s: Supervisor.Shell, c: Client.AppState, paths: seq<string>, outcome: Client.SubmitOutcome)
    ensures Client.NativePick(c, true, Supervisor.InvokeDialog(s, Supervisor.DialogResult(true, paths)), outcome) == c
  {
  }

  /**
   * While the backend keeps the accounting of a non-empty batch, the
   * client's percentage of what it reports lies in [0, 100].
   */
  lemma {:induction false} ShownPercentInRange(s: Server.ServerState)
    requires Server.Accounting(s) && s.progress.totalQueued > 0
    ensures Client.RoundPercent(s.progress.processedCount, s.progress.totalQueued).Pct?
    ensures Client.RoundPercent(s.progress.processedCount, s.progress.totalQueued).n <= 100
  {
    Client.RoundPercentSpec(s.progress.processedCount, s.progress.totalQueued);
  }

  /**
   * A batch with a missing path never lets the client finish: however many
   * worker iterations have run, each poll of `/status` keeps the client
   * uploading with its one poll chain alive.
   */
  lemma {:induction false} MissingPathKeepsClientPolling(s: Server.ServerState, root: string, paths: seq<string>, onDisk: set<string>,
                                                         mtime: string -> nat, k: nat, c: Client.AppState, refresh: Option<seq<Photo>>)
    requires s.queue == [] && c.polls == 1 && c.uploading
    requires exists p :: p in paths && p !in onDisk
    ensures var st := Server.Steps(Server.Index(s, root, paths, onDisk, mtime).0, k).progress;
      var r := Client.Poll(c, Client.Polled(st, refresh));
      r.uploading && r.polls == 1 && r.proc == st
  {
    Server.MissingPathNeverIdle(s, root, paths, onDisk, mtime, k);
  }

  /** An `/index` call with no paths reports 0 of 0, which the client shows as "NaN%". */
  lemma {:induction false} EmptyBatchShowsNaN(s: Server.ServerState, root: string, onDisk: set<string>, mtime: string -> nat, c: Client.AppState)
    requires c.polls > 0
    ensures Client.Poll(c, Client.Polled(Server.Index(s, root, [], onDisk, mtime).0.progress, None)).progress == Client.NotANumber
  {
    Server.IndexSpec(s, root, [], onDisk, mtime);
  }
}
