/**
 * The client of frontend/src/App.jsx: submitting paths to `/index`, the
 * self-rescheduling `/status` poll that drives the progress display, the
 * native file picker, and stepping through the photo viewer. Each response
 * or timer firing is one event; what the network answers is a parameter.
 */
module Client {
  import opened Wrappers
  import opened Paths
  import opened Protocol

  /** The word the upload panel looks for to colour a status as an error. */
  const ErrorWord := "Error"
  /** The word the upload panel looks for to colour a status as a success. */
  const SuccessWord := "Success"

  const NoPathsError := ErrorWord + ": No file paths found. Please use the selection button."
  const NetworkError := ErrorWord + ": Network Request Failed"
  const BridgeError := ErrorWord + ": Native file picker only available in Visager Desktop app."
  const IndexingStatus := "Indexing..."
  const SuccessStatus := SuccessWord + ": Library Updated"

  /**
   * `Math.round((p / t) * 100)` as JavaScript numbers: NaN for 0/0 and
   * Infinity for p/0 with p > 0.
   */
  datatype Percent = Pct(n: nat) | NotANumber | Infinite

  /** The progress percentage, rounding halves up; never clamped. */
  function RoundPercent(p: nat, t: nat): Percent {
    if t == 0 then (if p == 0 then NotANumber else Infinite)
    else Pct((200 * p + t) / (2 * t))
  }

  /**
   * For a non-empty batch the percentage is the integer nearest to
   * 100·p/t, halves rounded up; it lies in [0, 100] when p <= t.
   */
  lemma RoundPercentSpec(p: nat, t: nat)
    requires t > 0
    ensures RoundPercent(p, t).Pct?
    ensures var n := RoundPercent(p, t).n;
      && Nearest(t, 200 * p, n)
      && (forall m: int :: Nearest(t, 200 * p, m) ==> m == n)
      && (p <= t ==> n <= 100)
      && (p == t ==> n == 100)
      && (p == 0 ==> n == 0)
  {
    var n: int := RoundPercent(p, t).n;
    RoundIsNearest(p, t);
    forall m: int | Nearest(t, 200 * p, m) ensures m == n {
      NearestUnique(t, 200 * p, m, n);
    }
    if p <= t {
      assert t * (2 * n - 1) <= 200 * p <= t * 200;
      MonotoneFactor(t, 2 * n - 1, 201);
    }
    if p == t {
      NearestUnique(t, 200 * p, 100, n);
    }
    if p == 0 {
      NearestUnique(t, 200 * p, 0, n);
    }
  }

  /** `n` is a nearest integer to x/(2t), halves rounded up: t(2n-1) <= x < t(2n+1). */
  predicate Nearest(t: int, x: int, n: int) {
    t * (2 * n - 1) <= x < t * (2 * n + 1)
  }

  /** The rounded quotient brackets 100·p/t. */
  lemma RoundIsNearest(p: nat, t: nat)
    requires t > 0
    ensures RoundPercent(p, t).Pct? && Nearest(t, 200 * p, RoundPercent(p, t).n)
  {
    var q := 200 * p + t;
    var n := q / (2 * t);
    DivBracket(q, 2 * t);
    Distribute(t, n);
  }

  /** Euclidean division brackets its dividend. */
  lemma DivBracket(q: int, d: int)
    requires d > 0
    ensures d * (q / d) <= q < d * (q / d) + d
  {
  }

  lemma Distribute(t: int, n: int)
    ensures 2 * t * n == 2 * (t * n)
    ensures t * (2 * n - 1) == 2 * (t * n) - t
    ensures t * (2 * n + 1) == 2 * (t * n) + t
  {
  }

  /** At most one integer brackets x/(2t). */
  lemma NearestUnique(t: int, x: int, m: int, n: int)
    requires t > 0 && Nearest(t, x, m) && Nearest(t, x, n)
    ensures m == n
  {
    MonotoneFactor(t, 2 * m - 1, 2 * n + 1);
    MonotoneFactor(t, 2 * n - 1, 2 * m + 1);
  }

  /** Multiplying by a positive factor preserves strict order, read backwards. */
  lemma MonotoneFactor(t: int, a: int, b: int)
    requires t > 0 && t * a < t * b
    ensures a < b
  {
  }

  /** The two worked examples: 4 of 10 shows 40, 2 of 3 shows 67. */
  lemma PercentExamples()
    ensures RoundPercent(4, 10) == Pct(40)
    ensures RoundPercent(2, 3) == Pct(67)
    ensures RoundPercent(0, 0) == NotANumber
  {
  }

  /** A dropped file; `path` is only set by Electron. */
  datatype DroppedFile = DroppedFile(path: Option<string>)

  /** `Array.from(files).map(f => f.path).filter(p => !!p)`. */
  function DroppedPaths(files: seq<DroppedFile>): (r: seq<string>)
    ensures forall p :: p in r <==> p != "" && exists i :: 0 <= i < |files| && files[i].path == Some(p)
    ensures |r| <= |files|
    decreases |files|
  {
    if files == [] then []
    else
      var init := files[..|files| - 1];
      var f := files[|files| - 1];
      var r := DroppedPaths(init) + (if f.path.Some? && f.path.value != "" then [f.path.value] else []);
      assert forall i :: 0 <= i < |init| ==> init[i] == files[i];
      r
  }

  /** The filter keeps order: the paths of two batches are the paths of each, in turn. */
  lemma {:induction false} DroppedPathsAppend(a: seq<DroppedFile>, b: seq<DroppedFile>)
    ensures DroppedPaths(a + b) == DroppedPaths(a) + DroppedPaths(b)
    decreases |b|
  {
    if b == [] {
      assert a + b == a;
    } else {
      var n := |b| - 1;
      assert (a + b)[..|a + b| - 1] == a + b[..n];
      assert (a + b)[|a + b| - 1] == b[n];
      DroppedPathsAppend(a, b[..n]);
    }
  }

  /**
   * The paths `handleFiles` submits: the picker's paths when given (an
   * empty list counts: it is truthy), else those of the dropped files.
   */
  function CandidatePaths(files: Option<seq<DroppedFile>>, direct: Option<seq<string>>): Option<seq<string>> {
    if direct.Some? then direct
    else if files.Some? then Some(DroppedPaths(files.value))
    else None
  }

  /** How the `/index` request ends. */
  datatype SubmitOutcome = Responded(code: nat) | RequestFailed

  /** `response.ok`. */
  predicate Ok(code: nat) {
    200 <= code <= 299
  }

  /** How one `/status` poll ends; `refresh` is the `/photos` answer fetched when idle, None when that fetch fails. */
  datatype PollOutcome = PollFailed | Polled(state: ProcState, refresh: Option<seq<Photo>>)

  /**
   * The App component's state. `polls` counts poll chains alive (a request
   * in flight or a follow-up scheduled), `clearTimers` the pending
   * status-clearing timers, `sent` the bodies posted to `/index`.
   */
  datatype AppState = AppState(
    uploading: bool,
    progress: Percent,
    status: Option<string>,
    proc: ProcState,
    photos: seq<Photo>,
    selected: Option<Photo>,
    polls: nat,
    clearTimers: nat,
    sent: seq<seq<string>>)

  const Initial := AppState(false, Pct(0), None, InitialProcState, [], None, 0, 0, [])

  /**
   * `handleFiles` together with the answer to its `/index` request: without
   * paths only the status changes; otherwise the batch is announced, posted,
   * and a poll chain starts when the response is ok.
   */
  function Submit(c: AppState, files: Option<seq<DroppedFile>>, direct: Option<seq<string>>, outcome: SubmitOutcome): AppState {
    var paths := CandidatePaths(files, direct);
    if paths.None? || paths.value == [] then c.(status := Some(NoPathsError))
    else
      var started := c.(
        uploading := true,
        progress := Pct(0),
        status := Some(IndexingStatus),
        proc := ProcState(Indexing, |paths.value|, 0, ""),
        sent := c.sent + [paths.value]);
      match outcome
      case Responded(code) =>
        if Ok(code) then started.(polls := c.polls + 1)
        else started.(status := Some(ErrorWord + ": " + NatToString(code)), uploading := false)
      case RequestFailed => started.(status := Some(NetworkError), uploading := false)
  }

  /**
   * One `pollStatus` completing: a failure ends the chain and leaves the
   * status alone; a busy backend updates the progress and schedules exactly
   * one follow-up; an idle backend ends the chain, reports success, arms the
   * clearing timer and replaces the photos with what `/photos` returns.
   */
  function Poll(c: AppState, outcome: PollOutcome): AppState
    requires c.polls > 0
  {
    match outcome
    case PollFailed => c.(uploading := false, polls := c.polls - 1)
    case Polled(st, refresh) =>
      if st.status != Idle then c.(proc := st, progress := RoundPercent(st.processedCount, st.totalQueued))
      else
        var done := c.(proc := st, uploading := false, status := Some(SuccessStatus), clearTimers := c.clearTimers + 1, polls := c.polls - 1);
        if refresh.Some? then done.(photos := refresh.value) else done
  }

  /** The 5-second timer: clears whatever status is showing. */
  function ClearStatus(c: AppState): AppState
    requires c.clearTimers > 0
  {
    c.(status := None, clearTimers := c.clearTimers - 1)
  }

  /**
   * `handleNativePick`: outside Electron only an error status; a null or
   * empty selection changes nothing; otherwise the selection is submitted.
   */
  function NativePick(c: AppState, bridge: bool, selection: Option<seq<string>>, outcome: SubmitOutcome): AppState {
    if !bridge then c.(status := Some(BridgeError))
    else if selection.None? || selection.value == [] then c
    else Submit(c, None, selection, outcome)
  }

  /** `photos.findIndex(p => p.id === id)`. */
  function FindIndex(ps: seq<Photo>, id: string): (k: int)
    ensures -1 <= k < |ps|
    ensures k >= 0 ==> ps[k].id == id && forall j :: 0 <= j < k ==> ps[j].id != id
    ensures k < 0 ==> forall j :: 0 <= j < |ps| ==> ps[j].id != id
  {
    if ps == [] then -1
    else if ps[0].id == id then 0
    else
      var k := FindIndex(ps[1..], id);
      if k < 0 then -1 else k + 1
  }

  /** The viewer's next button. */
  function Next(c: AppState): AppState {
    if c.selected.None? then c
    else
      var idx := FindIndex(c.photos, c.selected.value.id);
      if idx < |c.photos| - 1 then c.(selected := Some(c.photos[idx + 1])) else c
  }

  /** The viewer's previous button. */
  function Prev(c: AppState): AppState {
    if c.selected.None? then c
    else
      var idx := FindIndex(c.photos, c.selected.value.id);
      if idx > 0 then c.(selected := Some(c.photos[idx - 1])) else c
  }

  /**
   * A submission without paths only shows the error; one with paths posts
   * exactly them and announces the batch, and is still uploading afterwards
   * exactly when the response is ok, which starts one poll chain.
   */
  lemma SubmitSpec(c: AppState, files: Option<seq<DroppedFile>>, direct: Option<seq<string>>, outcome: SubmitOutcome)
    ensures var paths := CandidatePaths(files, direct);
      var r := Submit(c, files, direct, outcome);
      && (paths.None? || paths.value == [] ==> r == c.(status := Some(NoPathsError)))
      && (paths.Some? && paths.value != [] ==>
          && r.sent == c.sent + [paths.value]
          && r.proc == ProcState(Indexing, |paths.value|, 0, "")
          && r.progress == Pct(0)
          && (r.uploading <==> outcome.Responded? && Ok(outcome.code))
          && (r.uploading ==> r.polls == c.polls + 1 && r.status == Some(IndexingStatus))
          && (!r.uploading ==>
                r.polls == c.polls
                && r.status == Some(if outcome.RequestFailed? then NetworkError else ErrorWord + ": " + NatToString(outcome.code)))
          && r.photos == c.photos && r.clearTimers == c.clearTimers)
  {
  }

  /** The picker's paths win over dropped files, and dropped paths keep their order. */
  lemma CandidatePathsSpec(files: Option<seq<DroppedFile>>, direct: Option<seq<string>>)
    ensures direct.Some? ==> CandidatePaths(files, direct) == direct
    ensures direct.None? && files.Some? ==> CandidatePaths(files, direct) == Some(DroppedPaths(files.value))
    ensures direct.None? && files.None? ==> CandidatePaths(files, direct).None?
    ensures direct == Some([]) ==> Submit(Initial, files, direct, RequestFailed) == Initial.(status := Some(NoPathsError))
  {
  }

  /**
   * Poll outcomes: a failure stops polling without touching the status; a
   * busy backend keeps the one chain alive; an idle one ends it.
   */
  lemma PollSpec(c: AppState, outcome: PollOutcome)
    requires c.polls > 0
    ensures var r := Poll(c, outcome);
      && (outcome.PollFailed? ==> !r.uploading && r.polls == c.polls - 1 && r.status == c.status && r.proc == c.proc)
      && (outcome.Polled? && outcome.state.status != Idle ==>
          r.polls == c.polls && r.proc == outcome.state && r.uploading == c.uploading && r.status == c.status
          && r.progress == RoundPercent(outcome.state.processedCount, outcome.state.totalQueued))
      && (outcome.Polled? && outcome.state.status == Idle ==>
          && !r.uploading && r.polls == c.polls - 1 && r.status == Some(SuccessStatus)
          && r.clearTimers == c.clearTimers + 1
          && r.photos == (if outcome.refresh.Some? then outcome.refresh.value else c.photos))
  {
  }

  /**
   * Outside Electron no dialog result is used; an empty or null selection
   * does nothing; a selection is submitted as the picker's paths.
   */
  lemma NativePickSpec(c: AppState, bridge: bool, selection: Option<seq<string>>, outcome: SubmitOutcome)
    ensures !bridge ==> NativePick(c, bridge, selection, outcome) == c.(status := Some(BridgeError))
    ensures bridge && (selection.None? || selection.value == []) ==> NativePick(c, bridge, selection, outcome) == c
    ensures bridge && selection.Some? && selection.value != [] ==>
      NativePick(c, bridge, selection, outcome).sent == c.sent + [selection.value]
  {
  }

  /**
   * The viewer moves by one within bounds: next from the last photo and
   * previous from the first do nothing, next from a photo not in the list
   * opens the first one, previous from it does nothing.
   */
  lemma NavigationSpec(c: AppState)
    requires c.selected.Some?
    ensures var idx := FindIndex(c.photos, c.selected.value.id);
      && (idx < 0 && c.photos != [] ==> Next(c).selected == Some(c.photos[0]))
      && (idx < 0 ==> Prev(c) == c)
      && (idx == |c.photos| - 1 ==> Next(c) == c)
      && (idx == 0 ==> Prev(c) == c)
      && (0 <= idx < |c.photos| - 1 ==> Next(c).selected == Some(c.photos[idx + 1]))
      && (0 < idx ==> Prev(c).selected == Some(c.photos[idx - 1]))
  {
  }

  /** With unique ids, previous undoes next from any photo but the last. */
  lemma PrevUndoesNext(c: AppState, i: int)
    requires forall j, k :: 0 <= j < k < |c.photos| ==> c.photos[j].id != c.photos[k].id
    requires 0 <= i < |c.photos| - 1 && c.selected == Some(c.photos[i])
    ensures Prev(Next(c)) == c
  {
    FindIndexIs(c.photos, i);
    FindIndexIs(c.photos, i + 1);
  }

  /** With unique ids, a photo is found at its own position. */
  lemma FindIndexIs(ps: seq<Photo>, i: int)
    requires 0 <= i < |ps|
    requires forall j, k :: 0 <= j < k < |ps| ==> ps[j].id != ps[k].id
    ensures FindIndex(ps, ps[i].id) == i
  {
  }

  /**
   * A clearing timer armed by one batch can blank the status of the next:
   * after a success, a new submission shows "Indexing..." and the old
   * timer then clears it while the batch is still running.
   */
  lemma StaleClearBlanksStatus(c: AppState, paths: seq<string>, code: nat)
    requires c.polls == 1 && paths != [] && Ok(code)
    ensures var idle := Poll(c, Polled(InitialProcState, None));
      var busy := Submit(idle, None, Some(paths), Responded(code));
      && busy.uploading && busy.status == Some(IndexingStatus) && busy.clearTimers > 0
      && ClearStatus(busy).status.None? && ClearStatus(busy).uploading
  {
  }

  /** The App component, its React state as fields. */
  class App {
    var uploading: bool
    var progress: Percent
    var status: Option<string>
    var proc: ProcState
    var photos: seq<Photo>
    var selected: Option<Photo>
    var polls: nat
    var clearTimers: nat
    var sent: seq<seq<string>>

    function State(): AppState
      reads this
    {
      AppState(uploading, progress, status, proc, photos, selected, polls, clearTimers, sent)
    }

    constructor ()
      ensures State() == Initial
    {
      uploading := false;
      progress := Pct(0);
      status := None;
      proc := InitialProcState;
      photos := [];
      selected := None;
      polls := 0;
      clearTimers := 0;
      sent := [];
    }

    /** `handleFiles(files, directPaths)` and its `/index` response. */
    method HandleFiles(files: Option<seq<DroppedFile>>, direct: Option<seq<string>>, outcome: SubmitOutcome)
      modifies this
      ensures State() == Submit(old(State()), files, direct, outcome)
    {
      var paths := direct;
      if paths.None? && files.Some? {
        paths := Some(DroppedPaths(files.value));
      }
      if paths.None? || paths.value == [] {
        status := Some(NoPathsError);
        return;
      }
      uploading := true;
      progress := Pct(0);
      status := Some(IndexingStatus);
      proc := ProcState(Indexing, |paths.value|, 0, "");
      sent := sent + [paths.value];
      match outcome {
        case Responded(code) =>
          if Ok(code) {
            polls := polls + 1;
          } else {
            status := Some(ErrorWord + ": " + NatToString(code));
            uploading := false;
          }
        case RequestFailed =>
          status := Some(NetworkError);
          uploading := false;
      }
    }

    /** One `pollStatus` completing. */
    method PollStatus(outcome: PollOutcome)
      requires polls > 0
      modifies this
      ensures State() == Poll(old(State()), outcome)
    {
      match outcome {
        case PollFailed =>
          uploading := false;
          polls := polls - 1;
        case Polled(st, refresh) =>
          proc := st;
          if st.status != Idle {
            progress := RoundPercent(st.processedCount, st.totalQueued);
          } else {
            uploading := false;
            status := Some(SuccessStatus);
            clearTimers := clearTimers + 1;
            polls := polls - 1;
            if refresh.Some? {
              photos := refresh.value;
            }
          }
      }
    }

    /** The status-clearing timer firing. */
    method OnClearTimer()
      requires clearTimers > 0
      modifies this
      ensures State() == ClearStatus(old(State()))
    {
      status := None;
      clearTimers := clearTimers - 1;
    }

    /** `handleNativePick`, given whether the bridge exists and what the dialog returned. */
    method HandleNativePick(bridge: bool, selection: Option<seq<string>>, outcome: SubmitOutcome)
      modifies this
      ensures State() == NativePick(old(State()), bridge, selection, outcome)
    {
      if !bridge {
        status := Some(BridgeError);
        return;
      }
      if selection.Some? && selection.value != [] {
        HandleFiles(None, selection, outcome);
      }
    }

    /** The viewer's `onNext`. */
    method OnNext()
      modifies this
      ensures State() == Next(old(State()))
    {
      if selected.Some? {
        var idx := FindIndex(photos, selected.value.id);
        if idx < |photos| - 1 {
          selected := Some(photos[idx + 1]);
        }
      }
    }

    /** The viewer's `onPrev`. */
    method OnPrev()
      modifies this
      ensures State() == Prev(old(State()))
    {
      if selected.Some? {
        var idx := FindIndex(photos, selected.value.id);
        if idx > 0 {
          selected := Some(photos[idx - 1]);
        }
      }
    }
  }
}
