/**
 * The upload panel of frontend/src/components/UploadZone.jsx: the drag-over
 * highlight, the click and drop callbacks that are ignored while a batch is
 * uploading, the error/success colouring of the status, and the labels of
 * the busy view.
 */
module UploadZone {
  import opened Wrappers
  import opened Paths
  import opened Protocol
  import opened Client

  /** `status && status.includes('Error')`. */
  predicate IsError(status: Option<string>) {
    status.Some? && Contains(status.value, ErrorWord)
  }

  /** `status && status.includes('Success')`. */
  predicate IsSuccess(status: Option<string>) {
    status.Some? && Contains(status.value, SuccessWord)
  }

  /** Every failure message the App shows is coloured as an error. */
  lemma FailuresAreErrors(code: nat)
    ensures IsError(Some(NoPathsError)) && IsError(Some(NetworkError)) && IsError(Some(BridgeError))
    ensures IsError(Some(ErrorWord + ": " + NatToString(code)))
  {
    ContainsPrefix(ErrorWord, ": No file paths found. Please use the selection button.");
    ContainsPrefix(ErrorWord, ": Network Request Failed");
    ContainsPrefix(ErrorWord, ": Native file picker only available in Visager Desktop app.");
    ContainsPrefix(ErrorWord, ": " + NatToString(code));
    assert ErrorWord + ": " + NatToString(code) == ErrorWord + (": " + NatToString(code));
  }

  /** The success message is coloured as a success and not as an error. */
  lemma SuccessIsSuccess()
    ensures IsSuccess(Some(SuccessStatus)) && !IsError(Some(SuccessStatus))
  {
    ContainsPrefix(SuccessWord, ": Library Updated");
    assert 'E' !in SuccessStatus;
    NotContainsWithoutHead(SuccessStatus, ErrorWord);
  }

  /** The in-progress message is coloured as neither, and so is no status. */
  lemma IndexingIsNeither()
    ensures !IsError(Some(IndexingStatus)) && !IsSuccess(Some(IndexingStatus))
    ensures !IsError(None) && !IsSuccess(None)
  {
    assert 'E' !in IndexingStatus && 'S' !in IndexingStatus;
    NotContainsWithoutHead(IndexingStatus, ErrorWord);
    NotContainsWithoutHead(IndexingStatus, SuccessWord);
  }

  /** How a JavaScript number prints. */
  function PercentText(p: Percent): (r: string)
    ensures 'Q' !in r
  {
    match p
    case Pct(n) => NatToString(n)
    case NotANumber => "NaN"
    case Infinite => "Infinity"
  }

  /** The large label of the busy view. */
  function Headline(progress: Percent, proc: ProcState): string {
    if proc.status == Analyzing then "Queued (" + NatToString(proc.processedCount) + "/" + NatToString(proc.totalQueued) + ")"
    else PercentText(progress) + "%"
  }

  /** The small label of the busy view. */
  function SubLabel(proc: ProcState): string {
    if proc.status == Indexing then "Indexing..." else "Analyzing faces..."
  }

  /** The busy view's three lines; the file line only when a file is named. */
  datatype Busy = Busy(headline: string, subLabel: string, file: Option<string>)

  /** What the panel shows inside the drop area: the busy view while uploading. */
  function BusyView(uploading: bool, progress: Percent, proc: ProcState): Option<Busy> {
    if !uploading then None
    else Some(Busy(Headline(progress, proc), SubLabel(proc), if proc.currentFile != "" then Some(proc.currentFile) else None))
  }

  /**
   * While uploading, the headline is the queue count exactly when the
   * backend is analyzing and the percentage otherwise; the sub-label says
   * "Indexing..." exactly while indexing; the file line appears exactly for
   * a non-empty file name.
   */
  lemma BusyViewSpec(uploading: bool, progress: Percent, proc: ProcState)
    ensures BusyView(uploading, progress, proc).Some? <==> uploading
    ensures uploading ==>
      var b := BusyView(uploading, progress, proc).value;
      && (Contains(b.headline, "Queued") <==> proc.status == Analyzing)
      && (proc.status != Analyzing ==> b.headline == PercentText(progress) + "%")
      && (b.subLabel == "Indexing..." <==> proc.status == Indexing)
      && (b.file.Some? <==> proc.currentFile != "")
      && (b.file.Some? ==> b.file.value == proc.currentFile)
  {
    if uploading {
      var h := Headline(progress, proc);
      if proc.status == Analyzing {
        var rest := " (" + NatToString(proc.processedCount) + "/" + NatToString(proc.totalQueued) + ")";
        assert h == "Queued" + rest;
        ContainsPrefix("Queued", rest);
      } else {
        assert 'Q' !in h;
        NotContainsWithoutHead(h, "Queued");
      }
    }
  }

  /** A drop while not uploading submits the dropped files; otherwise nothing happens. */
  function GatedDrop(c: AppState, files: seq<DroppedFile>, outcome: SubmitOutcome): AppState {
    if c.uploading then c else Submit(c, Some(files), None, outcome)
  }

  /** A click while not uploading opens the native picker; otherwise nothing happens. */
  function GatedClick(c: AppState, bridge: bool, selection: Option<seq<string>>, outcome: SubmitOutcome): AppState {
    if c.uploading then c else NativePick(c, bridge, selection, outcome)
  }

  /** At most one poll chain, and one exactly while uploading. */
  predicate OneChain(c: AppState) {
    c.polls <= 1 && (c.polls == 1 <==> c.uploading)
  }

  /**
   * With the gates in place every event keeps at most one poll chain
   * alive, and one exactly while a batch is uploading.
   */
  lemma GatesKeepOneChain(c: AppState, files: seq<DroppedFile>, bridge: bool, selection: Option<seq<string>>,
                          outcome: SubmitOutcome, poll: PollOutcome)
    requires OneChain(c)
    ensures OneChain(Client.Initial)
    ensures OneChain(GatedDrop(c, files, outcome))
    ensures OneChain(GatedClick(c, bridge, selection, outcome))
    ensures c.polls > 0 ==> OneChain(Poll(c, poll))
    ensures c.clearTimers > 0 ==> OneChain(ClearStatus(c))
    ensures OneChain(Next(c)) && OneChain(Prev(c))
  {
  }

  /**
   * Without the gates, a second batch submitted while the first is still
   * polling starts a second poll chain.
   */
  lemma UngatedDropDoublesPolling(c: AppState, files: seq<DroppedFile>, code: nat)
    requires OneChain(c) && c.uploading && Ok(code) && DroppedPaths(files) != []
    ensures Submit(c, Some(files), None, Responded(code)).polls == 2
    ensures !OneChain(Submit(c, Some(files), None, Responded(code)))
    ensures GatedDrop(c, files, Responded(code)) == c
  {
  }

  /** The panel's own state. */
  class Zone {
    var dragOver: bool

    constructor ()
      ensures !dragOver
    {
      dragOver := false;
    }

    method OnDragOver()
      modifies this
      ensures dragOver
    {
      dragOver := true;
    }

    method OnDragLeave()
      modifies this
      ensures !dragOver
    {
      dragOver := false;
    }

    /** `onDrop`: the highlight goes off either way; the files go to `onUpload` only when idle. */
    method OnDrop(app: App, files: seq<DroppedFile>, outcome: SubmitOutcome)
      modifies this, app
      ensures !dragOver
      ensures app.State() == GatedDrop(old(app.State()), files, outcome)
    {
      dragOver := false;
      if !app.uploading {
        app.HandleFiles(Some(files), None, outcome);
      }
    }

    /** `onClick`: calls `onNativePick` only when idle. */
    method OnClick(app: App, bridge: bool, selection: Option<seq<string>>, outcome: SubmitOutcome)
      modifies app
      ensures app.State() == GatedClick(old(app.State()), bridge, selection, outcome)
    {
      if !app.uploading {
        app.HandleNativePick(bridge, selection, outcome);
      }
    }
  }
}
