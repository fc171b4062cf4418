/**
 * The backend of backend/main.py: the `progress_state` dictionary and the
 * FIFO photo queue driven by `/index` and the worker, the listing endpoints
 * over the photo root, the review-item and assignment endpoints, and the
 * log-level choice at start-up.
 */
module Server {
  import opened Wrappers
  import opened Paths
  import opened Protocol
  import opened Library
  import opened Seqs
  import Engine

  const InboxName := "Inbox"

  /** `file.lower().endswith(('.png', '.jpg', '.jpeg'))`. */
  predicate IsImage(name: string) {
    var n := ToLower(name);
    EndsWith(n, ".png") || EndsWith(n, ".jpg") || EndsWith(n, ".jpeg")
  }

  /**
   * A name with an extension ends in `x` (a "." and then no other ".") after
   * lower-casing exactly when its extension does.
   */
  lemma ExtEnding(s: string, x: string)
    requires |x| > 0 && x[0] == '.' && '.' !in x[1..]
    requires SplitExt(s).1 != ""
    ensures EndsWith(ToLower(s), x) <==> EndsWith(ToLower(SplitExt(s).1), x)
  {
    var (b, e) := SplitExt(s);
    SplitExtSpec(s);
    ToLowerAppend(b, e);
    if |x| <= |e| {
      EndsWithAppend(ToLower(b), ToLower(e), x);
    }
  }

  /** With an extension, being an image is a property of the extension alone. */
  lemma ImageByExt(s: string)
    requires SplitExt(s).1 != ""
    ensures IsImage(s) <==> IsImage(SplitExt(s).1)
  {
    ExtEnding(s, ".png");
    ExtEnding(s, ".jpg");
    ExtEnding(s, ".jpeg");
  }

  /** A collision name of an image with an extension is still an image, and conversely. */
  lemma SuffixedImage(name: string, n: nat)
    requires SplitExt(name).1 != ""
    ensures IsImage(Suffixed(name, n)) <==> IsImage(name)
  {
    SplitExtOfSuffixed(name, n);
    ImageByExt(name);
    ImageByExt(Suffixed(name, n));
  }

  /** A name ending in a digit is not an image. */
  lemma DigitEndIsNoImage(r: string)
    requires |r| > 0 && '0' <= r[|r| - 1] <= '9'
    ensures !IsImage(r)
  {
    var lr := ToLower(r);
    assert lr[|r| - 1] == r[|r| - 1];
  }

  /**
   * `splitext` gives a dotfile such as ".png" no extension, so its collision
   * name ".png_n" is no longer an image.
   */
  lemma DotfileLosesImage(n: nat)
    ensures IsImage(".png") && !IsImage(Suffixed(".png", n))
  {
    assert LastIndexOf(".png", '.') == 0 by {
      assert ".png"[..3] == ".pn" && ".pn"[..2] == ".p" && ".p"[..1] == ".";
    }
    assert ToLower(".png") == ".png";
    var d := NatToString(n);
    var r := Suffixed(".png", n);
    assert r == ".png" + "_" + d;
    assert r[|r| - 1] == d[|d| - 1];
    DigitEndIsNoImage(r);
  }

  /** The image files of a listing, in listing order. */
  function Images(files: seq<string>): (r: seq<string>)
    ensures |r| <= |files|
    decreases |files|
  {
    if files == [] then []
    else
      var last := files[|files| - 1];
      Images(files[..|files| - 1]) + (if IsImage(last) then [last] else [])
  }

  /** A file is listed as an image exactly when it is in the listing and is an image. */
  lemma {:induction false} ImagesSpec(files: seq<string>, f: string)
    ensures f in Images(files) <==> f in files && IsImage(f)
    decreases |files|
  {
    if files != [] {
      var init := files[..|files| - 1];
      ImagesSpec(init, f);
      assert files == init + [files[|files| - 1]];
    }
  }

  // ---------------------------------------------------------------------
  // Progress accounting: `progress_state`, the queue, `/index`, the worker
  // ---------------------------------------------------------------------

  /** Everything `/index` and the worker read and write. */
  datatype ServerState = ServerState(progress: ProcState, queue: seq<string>, tree: Tree)

  /** The Inbox listing and the names queued so far by one `/index` call. */
  datatype Admission = Admission(inbox: seq<string>, names: seq<string>)

  /**
   * The name an existing path is copied in under: its own basename, or
   * `base_mtime.ext` when the Inbox already holds that name.
   */
  function DestName(inbox: seq<string>, path: string, mtime: string -> nat): string {
    var name := Basename(path);
    if name in inbox then Suffixed(name, mtime(path)) else name
  }

  /** One path of an `/index` request: copied into the Inbox and queued only if it exists. */
  function AdmitOne(a: Admission, path: string, onDisk: set<string>, mtime: string -> nat): Admission
  {
    if path !in onDisk then a
    else
      var dest := DestName(a.inbox, path, mtime);
      Admission(With(a.inbox, dest), a.names + [dest])
  }

  /** The paths of an `/index` request, one after the other, in input order. */
  function AdmitAll(a: Admission, paths: seq<string>, onDisk: set<string>, mtime: string -> nat): Admission
    decreases |paths|
  {
    if paths == [] then a
    else AdmitOne(AdmitAll(a, paths[..|paths| - 1], onDisk, mtime), paths[|paths| - 1], onDisk, mtime)
  }

  /** The queue entries for names copied into the Inbox directory `inboxDir`. */
  function InboxPaths(inboxDir: string, names: seq<string>): (r: seq<string>)
    ensures |r| == |names|
  {
    seq(|names|, i requires 0 <= i < |names| => Join(inboxDir, names[i]))
  }

  /** Admitting one more path extends the admission of the earlier ones. */
  lemma AdmitAllSnoc(a: Admission, paths: seq<string>, i: nat, onDisk: set<string>, mtime: string -> nat)
    requires i < |paths|
    ensures AdmitAll(a, paths[..i + 1], onDisk, mtime) == AdmitOne(AdmitAll(a, paths[..i], onDisk, mtime), paths[i], onDisk, mtime)
  {
    assert paths[..i + 1][..i] == paths[..i];
  }

  lemma InboxPathsSnoc(inboxDir: string, names: seq<string>, name: string)
    ensures InboxPaths(inboxDir, names + [name]) == InboxPaths(inboxDir, names) + [Join(inboxDir, name)]
  {
  }

  /**
   * The copy loop of `/index` over an Inbox listing `inbox`: each existing
   * path is copied in, under `base_mtime.ext` when its own name is taken,
   * and its Inbox path is queued; returns the new listing, the new queue
   * and how many paths were queued.
   */
  method AdmitPaths(inboxDir: string, inbox: seq<string>, queue: seq<string>, paths: seq<string>, onDisk: set<string>, mtime: string -> nat)
    returns (inbox': seq<string>, queue': seq<string>, queued: nat)
    ensures var a := AdmitAll(Admission(inbox, []), paths, onDisk, mtime);
      && inbox' == a.inbox
      && queue' == queue + InboxPaths(inboxDir, a.names)
      && queued == |a.names|
  {
    inbox' := inbox;
    queue' := queue;
    queued := 0;
    ghost var added: seq<string> := [];
    var i := 0;
    while i < |paths|
      invariant 0 <= i <= |paths|
      invariant Admission(inbox', added) == AdmitAll(Admission(inbox, []), paths[..i], onDisk, mtime)
      invariant queue' == queue + InboxPaths(inboxDir, added)
      invariant queued == |added|
    {
      var p := paths[i];
      AdmitAllSnoc(Admission(inbox, []), paths, i, onDisk, mtime);
      if p in onDisk {
        var name := Basename(p);
        var dest := if name in inbox' then Suffixed(name, mtime(p)) else name;
        inbox' := With(inbox', dest);
        InboxPathsSnoc(inboxDir, added, dest);
        queue' := queue' + [Join(inboxDir, dest)];
        added := added + [dest];
        queued := queued + 1;
      }
      i := i + 1;
    }
    assert paths[..i] == paths;
  }

  /** How many of `paths` exist. */
  function CountExisting(paths: seq<string>, onDisk: set<string>): (n: nat)
    ensures n <= |paths|
    decreases |paths|
  {
    if paths == [] then 0
    else CountExisting(paths[..|paths| - 1], onDisk) + (if paths[|paths| - 1] in onDisk then 1 else 0)
  }

  /** The paths of a request that exist, in request order. */
  function Existing(paths: seq<string>, onDisk: set<string>): seq<string>
    decreases |paths|
  {
    if paths == [] then []
    else
      var last := paths[|paths| - 1];
      Existing(paths[..|paths| - 1], onDisk) + (if last in onDisk then [last] else [])
  }

  /** The existing paths are as many as counted, and each is a path of the request that exists. */
  lemma {:induction false} ExistingSpec(paths: seq<string>, onDisk: set<string>)
    ensures |Existing(paths, onDisk)| == CountExisting(paths, onDisk)
    ensures forall p :: p in Existing(paths, onDisk) <==> p in paths && p in onDisk
    decreases |paths|
  {
    if paths != [] {
      var init := paths[..|paths| - 1];
      ExistingSpec(init, onDisk);
      assert paths == init + [paths[|paths| - 1]];
    }
  }

  /** Missing paths leave the admission alone: admitting a request is admitting its existing paths. */
  lemma {:induction false} AdmitAllExisting(a: Admission, paths: seq<string>, onDisk: set<string>, mtime: string -> nat)
    ensures AdmitAll(a, paths, onDisk, mtime) == AdmitAll(a, Existing(paths, onDisk), onDisk, mtime)
    decreases |paths|
  {
    if paths != [] {
      var init := paths[..|paths| - 1];
      var last := paths[|paths| - 1];
      AdmitAllExisting(a, init, onDisk, mtime);
      var e := Existing(init, onDisk);
      if last in onDisk {
        assert Existing(paths, onDisk) == e + [last];
        assert (e + [last])[..|e|] == e;
      } else {
        assert Existing(paths, onDisk) == e;
      }
    }
  }

  /** Admitting existing paths keeps the names already queued and adds one per path. */
  lemma {:induction false} AdmitExistingLength(a: Admission, e: seq<string>, onDisk: set<string>, mtime: string -> nat)
    requires forall i :: 0 <= i < |e| ==> e[i] in onDisk
    ensures |AdmitAll(a, e, onDisk, mtime).names| == |a.names| + |e|
    ensures AdmitAll(a, e, onDisk, mtime).names[..|a.names|] == a.names
    decreases |e|
  {
    if e != [] {
      var init := e[..|e| - 1];
      AdmitExistingLength(a, init, onDisk, mtime);
      var b := AdmitAll(a, init, onDisk, mtime);
      assert AdmitAll(a, e, onDisk, mtime).names[..|a.names|] == b.names[..|a.names|];
    }
  }

  /** Admitting one more existing path queues one more name, the one `DestName` gives it. */
  lemma AdmitExistingSnoc(a: Admission, e: seq<string>, onDisk: set<string>, mtime: string -> nat)
    requires e != [] && e[|e| - 1] in onDisk
    ensures var b := AdmitAll(a, e[..|e| - 1], onDisk, mtime);
      AdmitAll(a, e, onDisk, mtime).names == b.names + [DestName(b.inbox, e[|e| - 1], mtime)]
  {
  }

  /** The names queued for the first `k` existing paths are the first `k` new names. */
  lemma {:induction false} AdmitExistingPrefix(a: Admission, e: seq<string>, onDisk: set<string>, mtime: string -> nat, k: nat)
    requires forall i :: 0 <= i < |e| ==> e[i] in onDisk
    requires k <= |e|
    ensures |a.names| + k <= |AdmitAll(a, e, onDisk, mtime).names|
    ensures AdmitAll(a, e, onDisk, mtime).names[..|a.names| + k] == AdmitAll(a, e[..k], onDisk, mtime).names
    decreases |e|
  {
    AdmitExistingLength(a, e, onDisk, mtime);
    if k < |e| {
      var n := |e| - 1;
      var init := e[..n];
      AdmitExistingLength(a, init, onDisk, mtime);
      AdmitExistingSnoc(a, e, onDisk, mtime);
      AdmitExistingPrefix(a, init, onDisk, mtime, k);
      var x := AdmitAll(a, init, onDisk, mtime).names;
      var d := DestName(AdmitAll(a, init, onDisk, mtime).inbox, e[n], mtime);
      assert (x + [d])[..|a.names| + k] == x[..|a.names| + k];
      assert init[..k] == e[..k];
    } else {
      assert e[..k] == e;
    }
  }

  /**
   * The `j`-th existing path is queued under the name `DestName` gives it
   * against the Inbox as the earlier paths left it.
   */
  lemma AdmitExistingNameAt(a: Admission, e: seq<string>, onDisk: set<string>, mtime: string -> nat, j: nat)
    requires forall i :: 0 <= i < |e| ==> e[i] in onDisk
    requires j < |e|
    ensures |a.names| + j < |AdmitAll(a, e, onDisk, mtime).names|
    ensures AdmitAll(a, e, onDisk, mtime).names[|a.names| + j] == DestName(AdmitAll(a, e[..j], onDisk, mtime).inbox, e[j], mtime)
  {
    var p := e[..j + 1];
    var b := AdmitAll(a, e[..j], onDisk, mtime);
    var d := DestName(b.inbox, e[j], mtime);
    assert |b.names| == |a.names| + j by {
      AdmitExistingLength(a, e[..j], onDisk, mtime);
    }
    var r := AdmitAll(a, e, onDisk, mtime).names;
    assert r[..|a.names| + j + 1] == b.names + [d] by {
      AdmitExistingPrefix(a, e, onDisk, mtime, j + 1);
      assert AdmitAll(a, p, onDisk, mtime).names == b.names + [d] by {
        AdmitExistingSnoc(a, p, onDisk, mtime);
        assert p[..j] == e[..j] && p[j] == e[j];
      }
    }
    assert r[|a.names| + j] == r[..|a.names| + j + 1][|a.names| + j];
  }

  /** The names admitted for a request: one per existing path, in request order, renamed on collision. */
  lemma AdmitAllOrder(a: Admission, paths: seq<string>, onDisk: set<string>, mtime: string -> nat)
    ensures var e := Existing(paths, onDisk);
      var r := AdmitAll(a, paths, onDisk, mtime);
      && |r.names| == |a.names| + |e|
      && r.names[..|a.names|] == a.names
      && (forall j :: 0 <= j < |e| ==>
            var inbox := AdmitAll(a, e[..j], onDisk, mtime).inbox;
            var name := Basename(e[j]);
            r.names[|a.names| + j] == (if name in inbox then Suffixed(name, mtime(e[j])) else name))
  {
    ExistingSpec(paths, onDisk);
    AdmitAllExisting(a, paths, onDisk, mtime);
    var e := Existing(paths, onDisk);
    assert forall i :: 0 <= i < |e| ==> e[i] in onDisk;
    AdmitExistingLength(a, e, onDisk, mtime);
    forall j | 0 <= j < |e|
      ensures var inbox := AdmitAll(a, e[..j], onDisk, mtime).inbox;
        var name := Basename(e[j]);
        AdmitAll(a, e, onDisk, mtime).names[|a.names| + j] == (if name in inbox then Suffixed(name, mtime(e[j])) else name)
    {
      AdmitExistingNameAt(a, e, onDisk, mtime, j);
    }
  }

  /** Every path exists exactly when the count of existing paths is the number of paths. */
  lemma {:induction false} CountExistingAll(paths: seq<string>, onDisk: set<string>)
    ensures CountExisting(paths, onDisk) == |paths| <==> forall p :: p in paths ==> p in onDisk
  {
    if paths != [] {
      var init := paths[..|paths| - 1];
      CountExistingAll(init, onDisk);
      assert paths == init + [paths[|paths| - 1]];
    }
  }

  /**
   * Admission keeps the names already queued, adds one per existing path,
   * keeps every file already in the Inbox, and every queued name is a plain
   * name now in the Inbox.
   */
  lemma {:induction false} AdmitAllSpec(a: Admission, paths: seq<string>, onDisk: set<string>, mtime: string -> nat)
    requires forall i :: 0 <= i < |a.names| ==> a.names[i] in a.inbox && '/' !in a.names[i]
    ensures var r := AdmitAll(a, paths, onDisk, mtime);
      && |r.names| == |a.names| + CountExisting(paths, onDisk)
      && r.names[..|a.names|] == a.names
      && (forall x :: x in a.inbox ==> x in r.inbox)
      && (forall i :: 0 <= i < |r.names| ==> r.names[i] in r.inbox && '/' !in r.names[i])
    decreases |paths|
  {
    if paths != [] {
      var init := paths[..|paths| - 1];
      AdmitAllSpec(a, init, onDisk, mtime);
      var b := AdmitAll(a, init, onDisk, mtime);
      var p := paths[|paths| - 1];
      if p in onDisk {
        var r := AdmitOne(b, p, onDisk, mtime);
        WithSpec(b.inbox, r.names[|r.names| - 1]);
        assert r.names[..|a.names|] == b.names[..|a.names|];
      }
    }
  }

  /**
   * `/index`: status 'indexing', `total_queued` the number of paths given
   * (missing ones included), `processed_count` 0; existing paths are copied
   * into the Inbox and queued in input order. Returns the state and the
   * `total` of the response.
   */
  function Index(s: ServerState, root: string, paths: seq<string>, onDisk: set<string>, mtime: string -> nat): (ServerState, nat)
  {
    var t1 := MakeDirs(s.tree, Sub(InboxName));
    var a := AdmitAll(Admission(Files(t1, Sub(InboxName)).value, []), paths, onDisk, mtime);
    var p := ProcState(Indexing, |paths|, 0, s.progress.currentFile);
    (ServerState(p, s.queue + InboxPaths(Join(root, InboxName), a.names), SetFiles(t1, Sub(InboxName), a.inbox)), |a.names|)
  }

  /**
   * What `/index` promises: the counters are reset, the returned total is
   * the number of existing paths, the new entries follow the old queue, and
   * each new entry names a file that is now in the Inbox.
   */
  lemma IndexSpec(s: ServerState, root: string, paths: seq<string>, onDisk: set<string>, mtime: string -> nat)
    ensures var (r, total) := Index(s, root, paths, onDisk, mtime);
      && r.progress == ProcState(Indexing, |paths|, 0, s.progress.currentFile)
      && total == CountExisting(paths, onDisk) <= |paths|
      && |r.queue| == |s.queue| + total
      && r.queue[..|s.queue|] == s.queue
      && (forall i :: |s.queue| <= i < |r.queue| ==> HasFile(r.tree, Sub(InboxName), Basename(r.queue[i])))
  {
    var t1 := MakeDirs(s.tree, Sub(InboxName));
    var a0 := Admission(Files(t1, Sub(InboxName)).value, []);
    var a := AdmitAll(a0, paths, onDisk, mtime);
    AdmitAllSpec(a0, paths, onDisk, mtime);
    var r := Index(s, root, paths, onDisk, mtime).0;
    FilesAfterSet(t1, Sub(InboxName), a.inbox, Sub(InboxName));
    var dir := Join(root, InboxName);
    var q := InboxPaths(dir, a.names);
    assert r.queue == s.queue + q;
    assert Files(r.tree, Sub(InboxName)) == Some(a.inbox);
    forall i | |s.queue| <= i < |r.queue| ensures HasFile(r.tree, Sub(InboxName), Basename(r.queue[i])) {
      var j := i - |s.queue|;
      assert r.queue[i] == q[j] == Join(dir, a.names[j]);
      BasenameOfJoin(dir, a.names[j]);
    }
  }

  /** The j-th entry `/index` queues: the Inbox path of the j-th existing request path, under its admitted name. */
  lemma IndexEntryAt(s: ServerState, root: string, paths: seq<string>, onDisk: set<string>, mtime: string -> nat, j: nat)
    requires j < |Existing(paths, onDisk)|
    ensures var r := Index(s, root, paths, onDisk, mtime).0;
      var e := Existing(paths, onDisk);
      var a0 := Admission(Files(s.tree, Sub(InboxName)).GetOr([]), []);
      && |s.queue| + j < |r.queue|
      && r.queue[|s.queue| + j] == Join(Join(root, InboxName), DestName(AdmitAll(a0, e[..j], onDisk, mtime).inbox, e[j], mtime))
  {
    var t1 := MakeDirs(s.tree, Sub(InboxName));
    var a0 := Admission(Files(t1, Sub(InboxName)).value, []);
    assert a0 == Admission(Files(s.tree, Sub(InboxName)).GetOr([]), []);
    var a := AdmitAll(a0, paths, onDisk, mtime);
    var e := Existing(paths, onDisk);
    var d := DestName(AdmitAll(a0, e[..j], onDisk, mtime).inbox, e[j], mtime);
    assert j < |a.names| && a.names[j] == d by {
      ExistingSpec(paths, onDisk);
      AdmitAllExisting(a0, paths, onDisk, mtime);
      assert forall i :: 0 <= i < |e| ==> e[i] in onDisk;
      AdmitExistingNameAt(a0, e, onDisk, mtime, j);
    }
    var dir := Join(root, InboxName);
    var q := InboxPaths(dir, a.names);
    assert q[j] == Join(dir, d);
    var rq := Index(s, root, paths, onDisk, mtime).0.queue;
    assert rq == s.queue + q;
    assert rq[|s.queue| + j] == q[j];
  }

  /**
   * The order `/index` queues in: the j-th new entry is the Inbox path of the
   * j-th existing request path, under its own basename, or under
   * `base_mtime.ext` when the Inbox already holds that name (from before the
   * request or from an earlier path of it).
   */
  lemma IndexQueueOrder(s: ServerState, root: string, paths: seq<string>, onDisk: set<string>, mtime: string -> nat)
    ensures var (r, total) := Index(s, root, paths, onDisk, mtime);
      var e := Existing(paths, onDisk);
      var a0 := Admission(Files(s.tree, Sub(InboxName)).GetOr([]), []);
      && total == |e|
      && (forall j :: 0 <= j < |e| ==>
            var inbox := AdmitAll(a0, e[..j], onDisk, mtime).inbox;
            var name := Basename(e[j]);
            r.queue[|s.queue| + j] == Join(Join(root, InboxName), if name in inbox then Suffixed(name, mtime(e[j])) else name))
  {
    var e := Existing(paths, onDisk);
    assert Index(s, root, paths, onDisk, mtime).1 == |e| by {
      IndexSpec(s, root, paths, onDisk, mtime);
      ExistingSpec(paths, onDisk);
    }
    forall j | 0 <= j < |e| {
      IndexEntryAt(s, root, paths, onDisk, mtime, j);
    }
  }

  /** `/index` writes only into the Inbox: every other directory keeps its listing. */
  lemma IndexKeepsOtherDirs(s: ServerState, root: string, paths: seq<string>, onDisk: set<string>, mtime: string -> nat, d: Dir)
    requires d != Sub(InboxName)
    ensures Files(Index(s, root, paths, onDisk, mtime).0.tree, d) == Files(s.tree, d)
  {
    var t1 := MakeDirs(s.tree, Sub(InboxName));
    var a := AdmitAll(Admission(Files(t1, Sub(InboxName)).value, []), paths, onDisk, mtime);
    FilesAfterSet(t1, Sub(InboxName), a.inbox, d);
  }

  /**
   * One worker iteration: take the head of the queue, report it as the
   * current file, count it processed whatever the engine did, and go idle
   * once the count reaches `total_queued`. The worker blocks on an empty queue.
   */
  function Step(s: ServerState): ServerState {
    if s.queue == [] then s
    else
      var done := s.progress.processedCount + 1;
      var idle := done >= s.progress.totalQueued;
      ServerState(
        ProcState(if idle then Idle else Analyzing, s.progress.totalQueued, done, if idle then "" else Basename(s.queue[0])),
        s.queue[1..],
        s.tree)
  }

  /** `k` worker iterations. */
  function Steps(s: ServerState, k: nat): ServerState {
    if k == 0 then s else Step(Steps(s, k - 1))
  }

  /**
   * The accounting a single batch keeps: what was processed plus what is
   * still queued never exceeds `total_queued`, and 'idle' means the queue is empty.
   */
  ghost predicate Accounting(s: ServerState) {
    && s.progress.processedCount + |s.queue| <= s.progress.totalQueued
    && (s.progress.status == Idle ==> s.queue == [])
  }

  /** A worker iteration preserves the accounting and counts exactly one item. */
  lemma StepKeepsAccounting(s: ServerState)
    requires Accounting(s)
    ensures Accounting(Step(s))
    ensures s.queue != [] ==> Step(s).progress.processedCount == s.progress.processedCount + 1
    ensures Step(s).progress.processedCount <= Step(s).progress.totalQueued
  {
  }

  /** An `/index` call made while nothing is queued starts a batch with sound accounting. */
  lemma IndexKeepsAccounting(s: ServerState, root: string, paths: seq<string>, onDisk: set<string>, mtime: string -> nat)
    requires s.queue == []
    ensures Accounting(Index(s, root, paths, onDisk, mtime).0)
  {
    IndexSpec(s, root, paths, onDisk, mtime);
  }

  /**
   * An `/index` call made while items are still queued resets
   * `processed_count`: with one new existing path, the very next worker
   * iteration reports 'idle' although items remain queued.
   */
  lemma OverlapReportsIdleEarly(s: ServerState, root: string, p: string, onDisk: set<string>, mtime: string -> nat)
    requires s.queue != [] && p in onDisk
    ensures var r := Step(Index(s, root, [p], onDisk, mtime).0);
      r.progress.status == Idle && r.queue != [] && !Accounting(r)
  {
    IndexSpec(s, root, [p], onDisk, mtime);
    assert [p][..0] == [];
  }

  /**
   * A batch whose every path exists runs to completion: after `k` of its `n`
   * worker iterations `k` items are processed, the status is 'analyzing'
   * until the last one and 'idle', with no current file, after it.
   */
  lemma {:induction false} BatchProgress(s: ServerState, k: nat)
    requires s.progress.processedCount + |s.queue| == s.progress.totalQueued
    requires s.progress.processedCount < s.progress.totalQueued
    requires k <= |s.queue|
    ensures var r := Steps(s, k);
      && r.progress.processedCount == s.progress.processedCount + k
      && r.queue == s.queue[k..]
      && r.progress.totalQueued == s.progress.totalQueued
      && (0 < k < |s.queue| ==> r.progress.status == Analyzing && r.progress.currentFile == Basename(s.queue[k - 1]))
      && (k == |s.queue| ==> r.progress.status == Idle && r.progress.currentFile == "")
  {
    if k > 0 {
      BatchProgress(s, k - 1);
      assert s.queue[k - 1..][1..] == s.queue[k..];
    }
  }

  /** A batch of existing paths submitted to an empty queue ends 'idle' after exactly one iteration per path. */
  lemma BatchCompletes(s: ServerState, root: string, paths: seq<string>, onDisk: set<string>, mtime: string -> nat)
    requires s.queue == [] && paths != []
    requires forall p :: p in paths ==> p in onDisk
    ensures var r := Steps(Index(s, root, paths, onDisk, mtime).0, |paths|);
      r.progress == ProcState(Idle, |paths|, |paths|, "") && r.queue == []
  {
    IndexSpec(s, root, paths, onDisk, mtime);
    CountExistingAll(paths, onDisk);
    var s1 := Index(s, root, paths, onDisk, mtime).0;
    BatchProgress(s1, |paths|);
  }

  /** While fewer items are queued than remain to be counted, no worker iteration reaches 'idle'. */
  lemma {:induction false} ShortBatchNeverIdle(s: ServerState, k: nat)
    requires s.progress.processedCount + |s.queue| < s.progress.totalQueued
    requires s.progress.status != Idle
    ensures Steps(s, k).progress.status != Idle
    ensures Steps(s, k).progress.processedCount + |Steps(s, k).queue| < Steps(s, k).progress.totalQueued
  {
    if k > 0 {
      ShortBatchNeverIdle(s, k - 1);
    }
  }

  /** A batch with a missing path, submitted to an empty queue, never returns to 'idle'. */
  lemma MissingPathNeverIdle(s: ServerState, root: string, paths: seq<string>, onDisk: set<string>, mtime: string -> nat, k: nat)
    requires s.queue == []
    requires exists p :: p in paths && p !in onDisk
    ensures Steps(Index(s, root, paths, onDisk, mtime).0, k).progress.status != Idle
  {
    IndexSpec(s, root, paths, onDisk, mtime);
    CountExistingAll(paths, onDisk);
    ShortBatchNeverIdle(Index(s, root, paths, onDisk, mtime).0, k);
  }

  // ---------------------------------------------------------------------
  // `/photos`: walk the photo root, skip Inbox roots, sort by name descending
  // ---------------------------------------------------------------------

  /** One step of `os.walk`: a directory and its file listing. */
  datatype Entry = Entry(dir: Dir, files: seq<string>)

  /** The walk of the photo root: the root first, then every sub-folder in listing order. */
  function Walk(t: Tree): (r: seq<Entry>)
    ensures |r| == |t.folders| + 1
  {
    [Entry(Root, t.rootFiles)] + seq(|t.folders|, i requires 0 <= i < |t.folders| => Entry(Sub(t.folders[i].name), t.folders[i].files))
  }

  /** The full path of a walked directory. */
  function DirPath(root: string, d: Dir): string {
    match d
    case Root => root
    case Sub(n) => Join(root, n)
  }

  /** `"Inbox" in root`: a substring test on the full path. */
  predicate Skipped(root: string, d: Dir) {
    Contains(DirPath(root, d), InboxName)
  }

  /** The album of a walked directory: its last component, with the root shown as "Library". */
  function AlbumName(root: string, d: Dir): string {
    var b := Basename(DirPath(root, d));
    if b == "OrganizedPhotos" then "Library" else b
  }

  /** `os.path.relpath(os.path.join(dir, file), UPLOAD_DIR)`. */
  function RelPath(d: Dir, file: string): string {
    match d
    case Root => file
    case Sub(n) => Join(n, file)
  }

  /** The descriptor of one image file. */
  function PhotoOf(root: string, d: Dir, file: string): (p: Photo)
    ensures p.name == file && p.id == p.album + "-" + file
  {
    var album := AlbumName(root, d);
    Photo(album + "-" + file, file, "http://localhost:8000/images/" + RelPath(d, file), album)
  }

  /**
   * A descriptor's album is the folder's own name, or "Library" for a folder
   * named OrganizedPhotos (the photo root), and its source is the file's path
   * under the `/images` mount.
   */
  lemma PhotoOfAlbum(root: string, d: Dir, file: string)
    ensures var p := PhotoOf(root, d, file);
      && (d.Sub? && '/' !in d.name ==> p.album == (if d.name == "OrganizedPhotos" then "Library" else d.name))
      && (d.Root? ==> p.album == (if Basename(root) == "OrganizedPhotos" then "Library" else Basename(root)))
      && p.src == "http://localhost:8000/images/" + (if d.Root? then file else d.name + "/" + file)
  {
    if d.Sub? && '/' !in d.name {
      BasenameOfJoin(root, d.name);
    }
  }

  /** The descriptors of the image files of one directory, in listing order. */
  function PhotosIn(root: string, d: Dir, files: seq<string>): seq<Photo> {
    Flatten(PhotoMaker(root, d), files)
  }

  /** The descriptor list one file of directory `d` contributes: its own if it is an image. */
  function PhotoMaker(root: string, d: Dir): string -> seq<Photo> {
    f => if IsImage(f) then [PhotoOf(root, d, f)] else []
  }

  /** The descriptors one walked directory contributes: none for an Inbox root. */
  function Kept(root: string, e: Entry): seq<Photo> {
    if Skipped(root, e.dir) then [] else PhotosIn(root, e.dir, e.files)
  }

  /** `Kept` for the photo root `root`, as a function of the walked entry. */
  function Keeper(root: string): Entry -> seq<Photo> {
    e => Kept(root, e)
  }

  /** The descriptors gathered over walked directories, in walk order. */
  function Collect(root: string, walk: seq<Entry>): seq<Photo> {
    Flatten(Keeper(root), walk)
  }

  /** A descriptor is listed for a directory exactly when it describes one of its image files. */
  lemma PhotosInSpec(root: string, d: Dir, files: seq<string>, p: Photo)
    ensures p in PhotosIn(root, d, files) <==> p.name in files && IsImage(p.name) && p == PhotoOf(root, d, p.name)
  {
    FlattenMember(PhotoMaker(root, d), files, p);
    if p in PhotosIn(root, d, files) {
      var k :| 0 <= k < |files| && p in PhotoMaker(root, d)(files[k]);
      PhotoMakerSpec(root, d, files[k], p);
    }
    if p.name in files && IsImage(p.name) && p == PhotoOf(root, d, p.name) {
      var k :| 0 <= k < |files| && files[k] == p.name;
      PhotoMakerSpec(root, d, files[k], p);
    }
  }

  /** A file contributes exactly its own descriptor, and only when it is an image. */
  lemma PhotoMakerSpec(root: string, d: Dir, f: string, p: Photo)
    ensures p in PhotoMaker(root, d)(f) <==> IsImage(f) && p == PhotoOf(root, d, f)
  {
  }

  /** Entry `k` of the walk is kept and `p` is among its descriptors (see PhotosInSpec). */
  ghost predicate ListedAt(root: string, walk: seq<Entry>, k: int, p: Photo) {
    0 <= k < |walk| && p in Kept(root, walk[k])
  }

  /**
   * `/photos` before sorting lists exactly the image files of the walked
   * directories whose path does not contain "Inbox".
   */
  lemma CollectSpec(root: string, walk: seq<Entry>, p: Photo)
    ensures p in Collect(root, walk) <==> exists k :: ListedAt(root, walk, k, p)
  {
    FlattenMember(Keeper(root), walk, p);
    if p in Collect(root, walk) {
      var k :| 0 <= k < |walk| && p in Keeper(root)(walk[k]);
      assert ListedAt(root, walk, k, p);
    }
    if k :| ListedAt(root, walk, k, p) {
      assert p in Keeper(root)(walk[k]);
    }
  }

  /** Python's `<` on strings: code-point lexicographic order. */
  predicate StrLess(a: string, b: string)
    decreases |a|
  {
    if |a| == 0 then |b| > 0
    else if |b| == 0 then false
    else if a[0] != b[0] then a[0] < b[0]
    else StrLess(a[1..], b[1..])
  }

  lemma {:induction false} StrLessAsymmetric(a: string, b: string)
    ensures !(StrLess(a, b) && StrLess(b, a))
    decreases |a|
  {
    if |a| > 0 && |b| > 0 && a[0] == b[0] {
      StrLessAsymmetric(a[1..], b[1..]);
    }
  }

  lemma {:induction false} StrLessTransitive(a: string, b: string, c: string)
    requires StrLess(a, b) && StrLess(b, c)
    ensures StrLess(a, c)
    decreases |a|
  {
    if |a| > 0 && a[0] == b[0] && b[0] == c[0] {
      StrLessTransitive(a[1..], b[1..], c[1..]);
    }
  }

  lemma {:induction false} StrLessTotal(a: string, b: string)
    ensures a == b || StrLess(a, b) || StrLess(b, a)
    decreases |a|
  {
    if |a| > 0 && |b| > 0 && a[0] == b[0] {
      StrLessTotal(a[1..], b[1..]);
      if a[1..] == b[1..] {
        assert a == [a[0]] + a[1..] && b == [b[0]] + b[1..];
      }
    }
  }

  /** No descriptor is followed by one with a greater name. */
  ghost predicate SortedDesc(ps: seq<Photo>) {
    forall i, j :: 0 <= i < j < |ps| ==> !StrLess(ps[i].name, ps[j].name)
  }

  /** Places `x` after every descriptor whose name is not smaller (equal names keep their order). */
  function InsertDesc(x: Photo, ps: seq<Photo>): (r: seq<Photo>)
    ensures |r| == |ps| + 1
    decreases |ps|
  {
    if ps == [] then [x]
    else if StrLess(ps[0].name, x.name) then [x] + ps
    else [ps[0]] + InsertDesc(x, ps[1..])
  }

  /** Inserting adds `x` and keeps every other descriptor. */
  lemma {:induction false} InsertDescPerm(x: Photo, ps: seq<Photo>)
    ensures multiset(InsertDesc(x, ps)) == multiset(ps) + multiset{x}
    decreases |ps|
  {
    if ps != [] && !StrLess(ps[0].name, x.name) {
      InsertDescPerm(x, ps[1..]);
      assert ps == [ps[0]] + ps[1..];
    }
  }

  lemma {:induction false} InsertDescSorted(x: Photo, ps: seq<Photo>)
    requires SortedDesc(ps)
    ensures SortedDesc(InsertDesc(x, ps))
    decreases |ps|
  {
    if ps == [] {
    } else if StrLess(ps[0].name, x.name) {
      var r := [x] + ps;
      forall j | 1 <= j < |r| ensures !StrLess(x.name, r[j].name) {
        var y := r[j].name;
        if j > 1 {
          assert !StrLess(ps[0].name, y);
        }
        StrLessTotal(ps[0].name, y);
        if StrLess(x.name, y) {
          if y != ps[0].name {
            StrLessTransitive(x.name, y, ps[0].name);
          }
          StrLessAsymmetric(x.name, ps[0].name);
        }
      }
    } else {
      var tail := InsertDesc(x, ps[1..]);
      InsertDescSorted(x, ps[1..]);
      InsertDescPerm(x, ps[1..]);
      var r := [ps[0]] + tail;
      forall j | 1 <= j < |r| ensures !StrLess(ps[0].name, r[j].name) {
        assert r[j] in multiset(tail);
        assert r[j] == x || r[j] in ps[1..];
      }
    }
  }

  /** `sorted(photos, key=name, reverse=True)`: a stable insertion sort. */
  function SortByNameDesc(ps: seq<Photo>): seq<Photo>
    decreases |ps|
  {
    if ps == [] then [] else InsertDesc(ps[|ps| - 1], SortByNameDesc(ps[..|ps| - 1]))
  }

  /** The sort returns the same descriptors, ordered by name descending. */
  lemma {:induction false} SortByNameDescSpec(ps: seq<Photo>)
    ensures SortedDesc(SortByNameDesc(ps))
    ensures multiset(SortByNameDesc(ps)) == multiset(ps)
    decreases |ps|
  {
    if ps != [] {
      var init := ps[..|ps| - 1];
      var x := ps[|ps| - 1];
      SortByNameDescSpec(init);
      InsertDescSorted(x, SortByNameDesc(init));
      InsertDescPerm(x, SortByNameDesc(init));
      assert ps == init + [x];
    }
  }

  /** The descriptors called `n`, in their order. */
  function Named(ps: seq<Photo>, n: string): seq<Photo>
    decreases |ps|
  {
    if ps == [] then [] else (if ps[0].name == n then [ps[0]] else []) + Named(ps[1..], n)
  }

  lemma {:induction false} NamedAppend(ps: seq<Photo>, qs: seq<Photo>, n: string)
    ensures Named(ps + qs, n) == Named(ps, n) + Named(qs, n)
    decreases |ps|
  {
    if ps == [] {
      assert ps + qs == qs;
    } else {
      var h := if ps[0].name == n then [ps[0]] else [];
      assert (ps + qs)[0] == ps[0] && (ps + qs)[1..] == ps[1..] + qs;
      assert Named(ps + qs, n) == h + Named(ps[1..] + qs, n);
      NamedAppend(ps[1..], qs, n);
      assert Named(ps, n) == h + Named(ps[1..], n);
    }
  }

  lemma {:induction false} NamedNone(ps: seq<Photo>, n: string)
    requires forall i :: 0 <= i < |ps| ==> ps[i].name != n
    ensures Named(ps, n) == []
    decreases |ps|
  {
    if ps != [] {
      NamedNone(ps[1..], n);
    }
  }

  /** Inserting into a sorted listing puts `x` after every descriptor of the same name. */
  lemma {:induction false} InsertDescNamed(x: Photo, ps: seq<Photo>, n: string)
    requires SortedDesc(ps)
    ensures Named(InsertDesc(x, ps), n) == Named(ps, n) + (if x.name == n then [x] else [])
    decreases |ps|
  {
    var hx := if x.name == n then [x] else [];
    if ps == [] {
      assert Named([x], n) == hx + Named([], n);
    } else if StrLess(ps[0].name, x.name) {
      var r := [x] + ps;
      assert InsertDesc(x, ps) == r;
      assert r[0] == x && r[1..] == ps;
      assert Named(r, n) == hx + Named(ps, n);
      if x.name == n {
        assert Named(ps, n) == [] by {
          forall i | 0 <= i < |ps| ensures ps[i].name != n {
            if i == 0 {
              StrLessAsymmetric(n, n);
            } else {
              assert !StrLess(ps[0].name, ps[i].name);
            }
          }
          NamedNone(ps, n);
        }
      }
    } else {
      var tail := InsertDesc(x, ps[1..]);
      var r := [ps[0]] + tail;
      var h := if ps[0].name == n then [ps[0]] else [];
      assert InsertDesc(x, ps) == r;
      assert r[0] == ps[0] && r[1..] == tail;
      assert Named(r, n) == h + Named(tail, n);
      assert Named(tail, n) == Named(ps[1..], n) + hx by {
        SortedDescTail(ps);
        InsertDescNamed(x, ps[1..], n);
      }
      assert Named(ps, n) == h + Named(ps[1..], n);
    }
  }

  lemma SortedDescTail(ps: seq<Photo>)
    requires ps != [] && SortedDesc(ps)
    ensures SortedDesc(ps[1..])
  {
    assert forall i :: 0 <= i < |ps| - 1 ==> ps[1..][i] == ps[i + 1];
  }

  /**
   * The sort is stable: the descriptors of any one name keep their input
   * order, as Python's `sorted` keeps them with `reverse=True`.
   */
  lemma {:induction false} SortByNameDescStable(ps: seq<Photo>, n: string)
    ensures Named(SortByNameDesc(ps), n) == Named(ps, n)
    decreases |ps|
  {
    if ps != [] {
      var init := ps[..|ps| - 1];
      var x := ps[|ps| - 1];
      var hx := if x.name == n then [x] else [];
      var sorted := SortByNameDesc(init);
      assert SortByNameDesc(ps) == InsertDesc(x, sorted);
      assert SortedDesc(sorted) by {
        SortByNameDescSpec(init);
      }
      assert Named(SortByNameDesc(ps), n) == Named(init, n) + hx by {
        InsertDescNamed(x, sorted, n);
        SortByNameDescStable(init, n);
      }
      assert Named(ps, n) == Named(init, n) + hx by {
        NamedAppend(init, [x], n);
        assert Named([x], n) == hx + Named([], n);
        assert ps == init + [x];
      }
    }
  }

  /** `GET /photos`. */
  function AllPhotos(rootExists: bool, root: string, t: Tree): seq<Photo> {
    if !rootExists then [] else SortByNameDesc(Collect(root, Walk(t)))
  }

  /**
   * `/photos` returns, sorted by name descending, exactly the image files of
   * the root and of every sub-folder whose path does not contain "Inbox",
   * each with id `album-file`.
   */
  lemma AllPhotosSpec(rootExists: bool, root: string, t: Tree)
    ensures SortedDesc(AllPhotos(rootExists, root, t))
    ensures !rootExists ==> AllPhotos(rootExists, root, t) == []
    ensures rootExists ==> forall p :: p in AllPhotos(rootExists, root, t) <==> exists k :: ListedAt(root, Walk(t), k, p)
  {
    if rootExists {
      var c := Collect(root, Walk(t));
      SortByNameDescSpec(c);
      forall p ensures p in AllPhotos(rootExists, root, t) <==> p in c {
        assert p in AllPhotos(rootExists, root, t) <==> p in multiset(c);
      }
      forall p ensures p in c <==> exists k :: ListedAt(root, Walk(t), k, p) {
        CollectSpec(root, Walk(t), p);
      }
    }
  }

  /** `/photos` lists descriptors of the same name (one file name in several albums) in walk order. */
  lemma AllPhotosStable(root: string, t: Tree, n: string)
    ensures Named(AllPhotos(true, root, t), n) == Named(Collect(root, Walk(t)), n)
  {
    SortByNameDescStable(Collect(root, Walk(t)), n);
  }

  /** The inner loop of `/photos`: appends the descriptors of one directory's image files. */
  method AppendPhotosIn(root: string, d: Dir, files: seq<string>, acc: seq<Photo>) returns (all: seq<Photo>)
    ensures all == acc + PhotosIn(root, d, files)
  {
    all := acc;
    var j := 0;
    while j < |files|
      invariant 0 <= j <= |files|
      invariant all == acc + PhotosIn(root, d, files[..j])
    {
      var f := files[j];
      FlattenSnoc(PhotoMaker(root, d), files, j);
      AppendAssoc(acc, PhotosIn(root, d, files[..j]), PhotoMaker(root, d)(f));
      if IsImage(f) {
        all := all + [PhotoOf(root, d, f)];
      }
      j := j + 1;
    }
    assert files[..j] == files;
  }

  /** Visiting one more walked directory appends what it contributes. */
  lemma CollectSnoc(root: string, walk: seq<Entry>, i: nat)
    requires i < |walk|
    ensures Collect(root, walk[..i + 1]) == Collect(root, walk[..i]) + Kept(root, walk[i])
  {
    FlattenSnoc(Keeper(root), walk, i);
  }

  /** The outer loop of `GET /photos`: every walked directory outside an Inbox, in walk order. */
  method CollectWalk(root: string, walk: seq<Entry>) returns (all: seq<Photo>)
    ensures all == Collect(root, walk)
  {
    all := [];
    var i := 0;
    while i < |walk|
      invariant 0 <= i <= |walk|
      invariant all == Collect(root, walk[..i])
    {
      var e := walk[i];
      CollectSnoc(root, walk, i);
      if !Skipped(root, e.dir) {
        all := AppendPhotosIn(root, e.dir, e.files, all);
      }
      i := i + 1;
    }
    assert walk[..i] == walk;
  }

  /** `GET /photos` as the endpoint computes it, appending in two nested loops. */
  method GetAllPhotos(rootExists: bool, root: string, t: Tree) returns (photos: seq<Photo>)
    ensures photos == AllPhotos(rootExists, root, t)
  {
    if !rootExists {
      return [];
    }
    var all := CollectWalk(root, Walk(t));
    photos := SortByNameDesc(all);
  }

  // ---------------------------------------------------------------------
  // `/albums` and `/review`
  // ---------------------------------------------------------------------

  /** The working folders that are not albums. */
  const NotAlbums := [InboxName, Engine.Unsorted, "Needs_Review", Engine.NeedsName, Engine.GroupPhotos]

  datatype Album = Album(name: string, cover: string, count: nat)

  /** The album entry of one folder: its image count and the first image as cover, or "". */
  function AlbumOf(f: Folder): (a: Album)
    ensures a.name == f.name
    ensures a.count == |Images(f.files)|
    ensures a.cover == "" <==> a.count == 0
  {
    var imgs := Images(f.files);
    Album(f.name, if imgs == [] then "" else "/images/" + f.name + "/" + imgs[0], |imgs|)
  }

  /** The first image of a listing is its first image file in listing order. */
  lemma {:induction false} ImagesFirst(files: seq<string>)
    requires Images(files) != []
    ensures exists k :: 0 <= k < |files| && IsImage(files[k]) && (forall i :: 0 <= i < k ==> !IsImage(files[i])) && Images(files)[0] == files[k]
    decreases |files|
  {
    var init := files[..|files| - 1];
    var last := files[|files| - 1];
    var tail := if IsImage(last) then [last] else [];
    assert Images(files) == Images(init) + tail;
    if Images(init) != [] {
      ImagesFirst(init);
      var k :| 0 <= k < |init| && IsImage(init[k]) && (forall i :: 0 <= i < k ==> !IsImage(init[i])) && Images(init)[0] == init[k];
      assert Images(files)[0] == Images(init)[0];
      assert forall i :: 0 <= i <= k ==> files[i] == init[i];
    } else {
      assert IsImage(last) && Images(files) == [last];
      forall i | 0 <= i < |init| ensures !IsImage(files[i]) {
        ImagesSpec(init, init[i]);
      }
      assert files[|files| - 1] == last;
    }
  }

  /**
   * An album's cover is `/images/<folder>/<file>` for the folder's first
   * image file in listing order, when it has one.
   */
  lemma AlbumCover(f: Folder)
    requires AlbumOf(f).count > 0
    ensures exists k ::
              && 0 <= k < |f.files| && IsImage(f.files[k]) && (forall i :: 0 <= i < k ==> !IsImage(f.files[i]))
              && AlbumOf(f).cover == "/images/" + f.name + "/" + f.files[k]
  {
    ImagesFirst(f.files);
  }

  /** The album entry a folder contributes: none for a working folder. */
  function AlbumsOf(f: Folder): seq<Album> {
    if f.name in NotAlbums then [] else [AlbumOf(f)]
  }

  /** The album entries of the folders listed so far, in listing order. */
  function Albums(folders: seq<Folder>): seq<Album> {
    Flatten(AlbumsOf, folders)
  }

  /** Folder `i` is an album and `a` is its entry. */
  ghost predicate AlbumAt(folders: seq<Folder>, i: int, a: Album) {
    0 <= i < |folders| && a in AlbumsOf(folders[i])
  }

  /**
   * Every folder outside the working folders is listed as an album, and
   * nothing else is.
   */
  lemma AlbumsSpec(folders: seq<Folder>, a: Album)
    ensures a in Albums(folders) <==> exists i :: AlbumAt(folders, i, a)
    ensures a in Albums(folders) ==> a.name !in NotAlbums
  {
    FlattenMember(AlbumsOf, folders, a);
    if a in Albums(folders) {
      var i :| 0 <= i < |folders| && a in AlbumsOf(folders[i]);
      assert AlbumAt(folders, i, a);
    }
  }

  /** An album entry is the entry of a folder outside the working folders. */
  lemma AlbumAtSpec(folders: seq<Folder>, i: int, a: Album)
    ensures AlbumAt(folders, i, a) <==> 0 <= i < |folders| && folders[i].name !in NotAlbums && a == AlbumOf(folders[i])
  {
  }

  /** `GET /albums`: an empty list when the root is missing. */
  method GetAlbums(rootExists: bool, t: Tree) returns (albums: seq<Album>)
    ensures albums == if rootExists then Albums(t.folders) else []
  {
    albums := [];
    if !rootExists {
      return;
    }
    var i := 0;
    while i < |t.folders|
      invariant 0 <= i <= |t.folders|
      invariant albums == Albums(t.folders[..i])
    {
      var f := t.folders[i];
      FlattenSnoc(AlbumsOf, t.folders, i);
      if f.name !in NotAlbums {
        albums := albums + [AlbumOf(f)];
      }
      i := i + 1;
    }
    assert t.folders[..i] == t.folders;
  }

  datatype Kind = Single | Group

  datatype ReviewItem = ReviewItem(src: string, kind: Kind)

  /** The review items of one listing: one per image, in listing order. */
  function ItemsOf(folder: string, kind: Kind, files: seq<string>): (r: seq<ReviewItem>)
    ensures |r| == |Images(files)|
  {
    var imgs := Images(files);
    seq(|imgs|, i requires 0 <= i < |imgs| => ReviewItem("/images/" + folder + "/" + imgs[i], kind))
  }

  /** The review items of a folder, none when it does not exist. */
  function ItemsIn(t: Tree, folder: string, kind: Kind): seq<ReviewItem> {
    match Files(t, Sub(folder))
    case None => []
    case Some(files) => ItemsOf(folder, kind, files)
  }

  /** `GET /review`: the unnamed single faces, then the group photos. */
  function ReviewItems(t: Tree): seq<ReviewItem> {
    ItemsIn(t, Engine.NeedsName, Single) + ItemsIn(t, Engine.GroupPhotos, Group)
  }

  /** An item names exactly one file of its listing, which is an image. */
  lemma ItemsOfSpec(folder: string, kind: Kind, files: seq<string>, f: string)
    ensures ReviewItem("/images/" + folder + "/" + f, kind) in ItemsOf(folder, kind, files) <==> f in files && IsImage(f)
    ensures forall x :: x in ItemsOf(folder, kind, files) ==> x.kind == kind
  {
    var imgs := Images(files);
    ImagesSpec(files, f);
    var prefix := "/images/" + folder + "/";
    var x := ReviewItem(prefix + f, kind);
    if x in ItemsOf(folder, kind, files) {
      var i :| 0 <= i < |imgs| && ItemsOf(folder, kind, files)[i] == x;
      assert prefix + imgs[i] == prefix + f;
      assert (prefix + imgs[i])[|prefix|..] == imgs[i];
      assert (prefix + f)[|prefix|..] == f;
    }
    if f in files && IsImage(f) {
      var i :| 0 <= i < |imgs| && imgs[i] == f;
      assert ItemsOf(folder, kind, files)[i] == x;
    }
  }

  /**
   * The review list holds the images of Needs_Name as single items and
   * those of Group_Photos as group items, and every single comes before
   * every group.
   */
  lemma ReviewItemsSpec(t: Tree, f: string)
    ensures ReviewItem("/images/Needs_Name/" + f, Single) in ReviewItems(t) <==> HasFile(t, Sub(Engine.NeedsName), f) && IsImage(f)
    ensures ReviewItem("/images/Group_Photos/" + f, Group) in ReviewItems(t) <==> HasFile(t, Sub(Engine.GroupPhotos), f) && IsImage(f)
    ensures forall i, j :: 0 <= i < j < |ReviewItems(t)| && ReviewItems(t)[i].kind == Group ==> ReviewItems(t)[j].kind == Group
  {
    assert "/images/Needs_Name/" == "/images/" + Engine.NeedsName + "/";
    assert "/images/Group_Photos/" == "/images/" + Engine.GroupPhotos + "/";
    var singles := ItemsIn(t, Engine.NeedsName, Single);
    var groups := ItemsIn(t, Engine.GroupPhotos, Group);
    if Files(t, Sub(Engine.NeedsName)).Some? {
      ItemsOfSpec(Engine.NeedsName, Single, Files(t, Sub(Engine.NeedsName)).value, f);
    }
    if Files(t, Sub(Engine.GroupPhotos)).Some? {
      ItemsOfSpec(Engine.GroupPhotos, Group, Files(t, Sub(Engine.GroupPhotos)).value, f);
    }
    assert forall x :: x in singles ==> x.kind == Single;
    assert forall x :: x in groups ==> x.kind == Group;
    assert ReviewItem("/images/Needs_Name/" + f, Single) !in groups;
    assert ReviewItem("/images/Group_Photos/" + f, Group) !in singles;
    forall i, j | 0 <= i < j < |ReviewItems(t)| && ReviewItems(t)[i].kind == Group
      ensures ReviewItems(t)[j].kind == Group
    {
      assert ReviewItems(t) == singles + groups;
      assert ReviewItems(t)[j] == groups[j - |singles|];
      assert groups[j - |singles|] in groups;
    }
  }

  /** Review items of a longer listing extend those of its prefix. */
  lemma ItemsOfSnoc(folder: string, kind: Kind, files: seq<string>, i: nat)
    requires i < |files|
    ensures ItemsOf(folder, kind, files[..i + 1])
      == ItemsOf(folder, kind, files[..i]) + (if IsImage(files[i]) then [ReviewItem("/images/" + folder + "/" + files[i], kind)] else [])
  {
    assert files[..i + 1][..i] == files[..i];
  }

  /** The listing loop of `/review` over one folder. */
  method AppendItems(acc: seq<ReviewItem>, folder: string, kind: Kind, files: seq<string>) returns (all: seq<ReviewItem>)
    ensures all == acc + ItemsOf(folder, kind, files)
  {
    all := acc;
    var i := 0;
    while i < |files|
      invariant 0 <= i <= |files|
      invariant all == acc + ItemsOf(folder, kind, files[..i])
    {
      ItemsOfSnoc(folder, kind, files, i);
      if IsImage(files[i]) {
        all := all + [ReviewItem("/images/" + folder + "/" + files[i], kind)];
      }
      i := i + 1;
    }
    assert files[..i] == files;
  }

  /** `GET /review`. */
  method GetReviewItems(t: Tree) returns (items: seq<ReviewItem>)
    ensures items == ReviewItems(t)
  {
    items := [];
    var names := Files(t, Sub(Engine.NeedsName));
    if names.Some? {
      items := AppendItems(items, Engine.NeedsName, Single, names.value);
    }
    var groups := Files(t, Sub(Engine.GroupPhotos));
    if groups.Some? {
      items := AppendItems(items, Engine.GroupPhotos, Group, groups.value);
    }
  }

  // ---------------------------------------------------------------------
  // `/assign` and the log level
  // ---------------------------------------------------------------------

  /**
   * The folder `assign_name` takes the image from, by substring tests on
   * the requested path in this order.
   */
  function SourceFolder(imagePath: string): (r: string)
    ensures Contains(imagePath, Engine.NeedsName) ==> r == Engine.NeedsName
    ensures !Contains(imagePath, Engine.NeedsName) && Contains(imagePath, Engine.GroupPhotos) ==> r == Engine.GroupPhotos
    ensures !Contains(imagePath, Engine.NeedsName) && !Contains(imagePath, Engine.GroupPhotos) ==> r == "Needs_Review"
  {
    if Contains(imagePath, Engine.NeedsName) then Engine.NeedsName
    else if Contains(imagePath, Engine.GroupPhotos) then Engine.GroupPhotos
    else "Needs_Review"
  }

  /** The response of `/assign`; `Failed` is an exception out of the registration. */
  datatype AssignStatus = Assigned | SourceNotFound | Failed

  /**
   * `POST /assign`: the person's folder is created first; when the source
   * file exists it is moved there under its own name and the face is
   * registered under `name`. `face` is what the detector extracts from the
   * moved image, `w` how the database write ends.
   */
  function AssignName(t: Tree, s: Engine.Stored, imagePath: string, name: string, face: Option<Engine.Embedding>, w: Engine.Write)
    : (AssignStatus, Tree, Engine.Stored)
    requires '/' !in name && name != ".." && Basename(imagePath) != ""
  {
    var file := Basename(imagePath);
    var src := Sub(SourceFolder(imagePath));
    var t1 := MakeDirs(t, NamedDir(name));
    if !HasFile(t1, src, file) then (SourceNotFound, t1, s)
    else
      var t2 := Move(t1, src, file, NamedDir(name), file);
      match Engine.RegisterNewPerson(s, name, face, w)
      case None => (Failed, t2, s)
      case Some(s') => (Assigned, t2, s')
  }

  /**
   * `/assign` succeeds only when the source file exists; the image then sits
   * in the person's folder and has left its review folder, and the database
   * is the one `register_new_person` leaves; with a face, a parallel database
   * and a successful write the person is then known. Without the source
   * only the person's folder appears.
   */
  lemma AssignNameSpec(t: Tree, s: Engine.Stored, imagePath: string, name: string, face: Option<Engine.Embedding>, w: Engine.Write)
    requires '/' !in name && name != ".." && Basename(imagePath) != ""
    ensures var (status, t', s') := AssignName(t, s, imagePath, name, face, w);
      var src := Sub(SourceFolder(imagePath));
      var file := Basename(imagePath);
      && (status == Assigned ==> HasFile(t, src, file))
      && (status != SourceNotFound <==> HasFile(t, src, file))
      && Files(t', NamedDir(name)).Some?
      && (status == SourceNotFound ==> t' == MakeDirs(t, NamedDir(name)) && s' == s)
      && (status != SourceNotFound ==> HasFile(t', NamedDir(name), file))
      && (status != SourceNotFound && src != NamedDir(name) ==> !HasFile(t', src, file))
      && (status == Assigned ==> Some(s') == Engine.RegisterNewPerson(s, name, face, w))
      && (status == Failed <==> HasFile(t, src, file) && Engine.RegisterNewPerson(s, name, face, w).None?)
      && (status == Failed ==> s' == s)
      && (face.None? ==> s' == s && status != Failed)
      && (face.Some? && Engine.Parallel(Engine.LoadDb(s)) && HasFile(t, src, file) ==> status == Assigned)
      && (face.Some? && w == Engine.Written && Engine.Parallel(Engine.LoadDb(s)) && HasFile(t, src, file) ==> name in Engine.LoadDb(s').names)
      && (WellFormed(t) ==> WellFormed(t'))
  {
    var file := Basename(imagePath);
    var src := Sub(SourceFolder(imagePath));
    var t1 := MakeDirs(t, NamedDir(name));
    assert HasFile(t1, src, file) <==> HasFile(t, src, file);
    if HasFile(t1, src, file) {
      MoveSpec(t1, src, file, NamedDir(name), file);
      Engine.RegisterNewPersonSpec(s, name, face, w);
    }
  }

  /** The uvicorn log level: "critical" exactly when `PYTHON_SILENT` is "1". */
  function LogLevel(env: map<string, string>): (level: string)
    ensures level == "critical" <==> "PYTHON_SILENT" in env && env["PYTHON_SILENT"] == "1"
    ensures level == "critical" || level == "info"
  {
    if "PYTHON_SILENT" in env && env["PYTHON_SILENT"] == "1" then "critical" else "info"
  }

  /** The backend process: `progress_state`, the queue and the photo root it writes. */
  class Backend {
    const root: string
    var progress: ProcState
    var queue: seq<string>
    var tree: Tree

    function State(): ServerState
      reads this
    {
      ServerState(progress, queue, tree)
    }

    constructor (root: string, tree: Tree)
      ensures this.root == root
      ensures State() == ServerState(InitialProcState, [], tree)
    {
      this.root := root;
      progress := InitialProcState;
      queue := [];
      this.tree := tree;
    }

    /** `POST /index`. */
    method IndexPhotos(paths: seq<string>, onDisk: set<string>, mtime: string -> nat) returns (total: nat)
      modifies this
      ensures (State(), total) == Index(old(State()), root, paths, onDisk, mtime)
    {
      progress := progress.(status := Indexing, totalQueued := |paths|, processedCount := 0);
      tree := MakeDirs(tree, Sub(InboxName));
      var inbox;
      inbox, queue, total := AdmitPaths(Join(root, InboxName), Files(tree, Sub(InboxName)).value, queue, paths, onDisk, mtime);
      // the copies of the loop land in the Inbox listing
      tree := SetFiles(tree, Sub(InboxName), inbox);
    }

    /** One iteration of `worker`; returns the path handed to the engine, if any. */
    method WorkerStep() returns (handed: Option<string>)
      modifies this
      ensures State() == Step(old(State()))
      ensures handed == if old(queue) == [] then None else Some(old(queue)[0])
    {
      if queue == [] {
        return None;
      }
      var file := queue[0];
      queue := queue[1..];
      progress := progress.(status := Analyzing, currentFile := Basename(file));
      // the engine runs here; its outcome does not affect the counters
      progress := progress.(processedCount := progress.processedCount + 1);
      if progress.processedCount >= progress.totalQueued {
        progress := progress.(status := Idle, currentFile := "");
      }
      handed := Some(file);
    }
  }
}
