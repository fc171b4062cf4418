# Visager in Dafny

Visager is a desktop photo organiser. It has three parts:

- An Electron main process launches a local Python engine and opens the window.
- A React front end submits file paths for indexing, then polls the engine's progress.
- A FastAPI backend copies each submitted file into an Inbox and queues it. A single worker hands each file to a face engine. The engine routes the photo into a folder: Unsorted when it finds no face, Group_Photos for several faces, the folder of a known person when one face matches, and Needs_Name otherwise.

This project models that core and proves what it promises.

| file | models |
|---|---|
| `paths.dfy` | substring and suffix tests, `basename`, `dirname`, `splitext` and decimal printing, as the source uses them on paths |
| `library.dfy` | the photo root as an abstract tree one level deep: `makedirs`, `shutil.move` and overwriting copies |
| `protocol.dfy` | the `/status` JSON shared by the backend and the client, and the photo descriptor |
| `engine.py` → `engine.dfy` | the face database (`load_db`, `save_db`, `register_new_person`) and `process_image`: classification by face count, the nearest-match loop under the 0.6 threshold, and the move with its collision suffix |
| `main.py` → `server.dfy` | `progress_state` and the FIFO queue driven by `/index` and the worker, plus `/photos`, `/albums`, `/review`, `/assign` and the log level |
| `electron/main.js` → `supervisor.dfy` | how the engine's launch is resolved, its environment, and the window with its dialog bridge and quit shortcut; the quit paths are a trace of actions over a `Shell` state |
| `App.jsx` → `client.dfy` | `handleFiles`, the self-rescheduling `pollStatus`, the status-clearing timer, `handleNativePick` and the viewer's next/previous buttons |
| `UploadZone.jsx` → `upload_zone.dfy` | the drag highlight, the drop and click gates, the error/success colouring and the busy view's labels |
| `wiring.dfy` | lemmas that join the parts, such as the spawned engine always logging at "critical" and a batch with a missing path never letting the client finish |

The source changes state in four places, each modelled as a class:

- the backend's `progress_state` and queue: `Server.Backend`;
- the Electron module variables: `Supervisor.Main`;
- the App component's React state: `Client.App`;
- the upload panel's drag flag: `UploadZone.Zone`.

Every method of these classes is proved equal to a pure step function of the old state. The invariants and lemmas are stated about those functions. The loops are methods proved against recursive specification functions:

- the face-matching loop;
- the nested walk of `/photos`;
- the listing loops of `/albums` and `/review`;
- the Inbox admission of `/index`.

Several numbers follow the code exactly:

- **Rounding.** The percentage is JavaScript's `Math.round`, so 2 of 3 shows 67, not 66.
- **No clamping.** The percentage is never clamped to [0, 100]. For a batch whose accounting holds it stays in range anyway (`Wiring.ShownPercentInRange`), and 0 of 0 shows "NaN%".
- **Engine resolution.** Development mode uses the virtualenv interpreter without checking that it exists. A packaged app takes the bundled binary when it exists and the local build otherwise, also unchecked.

## Model

| member | source | states |
|---|---|---|
| Paths.Contains | backend/main.py:98 | the substring test is true exactly when the needle occurs at some index |
| Paths.ToLower | backend/main.py:104 | lower-casing keeps the length and maps every character through the ASCII lower-case map |
| Paths.Basename | backend/main.py:134 | the last path component contains no "/" and is no longer than the path |
| Paths.BasenameSpec | backend/main.py:134 | the basename is the part of the path after its last "/", and the whole path when it has none |
| Paths.BasenameOfJoin | backend/main.py:134-135 | the basename of a directory joined with a plain name is that name |
| Paths.DirnameOfJoin | frontend/electron/main.js:81 | the dirname of a directory joined with a plain name is the directory |
| Paths.SplitExtSpec | backend/main.py:139 | base and extension concatenate to the name; the extension is non-empty exactly when the name has a last "." with some non-"." character before it, and then it is the name from that "." on; a non-empty extension contains no other "."; a name without "." has no extension |
| Paths.NatToString | frontend/src/components/UploadZone.jsx:77 | a counter prints as a non-empty string of decimal digits |
| Paths.NatToStringValue | backend/main.py:140 | the decimal string reads back as the number and has no leading zero |
| Paths.Suffixed | backend/main.py:139-140 | the collision name `base_n.ext` is strictly longer than the original name, so never equal to it, and adds no "/" |
| Paths.SplitExtOfSuffixed | backend/main.py:139-140 | the collision name keeps the base and the extension: it splits into `base_n` and the original extension |
| Library.MakeDirs | backend/engine.py:146 | `makedirs(exist_ok=True)` makes the directory exist, creates it empty only when it was missing and otherwise keeps its listing, changes no other directory, and keeps names unique |
| Library.WithSpec | backend/main.py:142 | a copy adds the name to the listing (replacing a file of that name) and keeps it duplicate-free |
| Library.WithoutSpec | backend/engine.py:155 | a move removes exactly that name from the source listing |
| Library.MoveSpec | backend/engine.py:155 | after `shutil.move` the file is in the destination, which keeps its other files and gains only that name; a different source loses exactly that file; every other directory is untouched, and names stay unique |
| Library.MoveIntoMadeDir | backend/engine.py:146-155 | a move into a directory made just before, stated against the tree before `makedirs`: the same guarantees as a plain move, a new directory holding only the moved file |
| Engine.LoadDbSpec | backend/engine.py:35-48 | `load_db` never fails: stored lists (missing keys empty) when the pickle is stamped ArcFace, else the empty default |
| Engine.LoadAfterSave | backend/engine.py:50-56 | a database that was saved loads back unchanged |
| Engine.SaveFailures | backend/engine.py:50-56 | after a failed `open` the old database still loads; after a failed dump, which follows the truncating `open(..., "wb")`, loading gives the empty default |
| Engine.IndexOf | backend/engine.py:76 | `list.index`: the first position holding the name, and -1 exactly when it is absent |
| Engine.RegisteredSpec | backend/engine.py:74-80 | registering keeps names and encodings parallel; a known name gets the embedding appended to its first entry, a new name is appended with a one-element list; nothing else changes; the IndexError case happens exactly when the name is known and its first position is at or past the end of the encodings list |
| Engine.RegisterThenLoad | backend/engine.py:65-85 | after a registration that was written, loading finds the person with the new embedding as the last of their list |
| Engine.RegisterNewPersonSpec | backend/engine.py:65-85 | without a face nothing changes; with a face and a parallel database registration does not raise, and once written the person is known |
| Engine.RegisterWriteFails | backend/engine.py:65-85 | a registration whose `open` fails leaves the stored file as it was; one whose dump fails leaves a file that loads as the empty database, losing every known person |
| Engine.RegisterWithoutFace | backend/engine.py:84-85 | without a detected face the stored database is left as it was |
| Engine.MatchingSpec | backend/engine.py:121-135 | the loop raises exactly when some person has no embeddings; otherwise it finds a name exactly when a distance is below 0.6, the name found has the smallest distance, and ties keep the earlier name |
| Engine.MatchFace | backend/engine.py:121-135 | the matching loop computes the matching function over `zip(names, encodings)` |
| Engine.ZipLength | backend/engine.py:126 | `zip` runs to the shorter of the two lists |
| Engine.Target | backend/engine.py:113-142 | no face goes to Unsorted, several go to Group_Photos, one goes to the matched name when it is non-empty and to Needs_Name otherwise |
| Engine.ProcessImage | backend/engine.py:106-156 | `process_image` computes the routing and the new tree that the specification function gives |
| Engine.ProcessedMissing | backend/engine.py:108-109 | a missing file answers "Error" and nothing moves |
| Engine.ProcessedTarget | backend/engine.py:113-142 | an existing image is routed by face count to the closest known name under the threshold, or else Needs_Name; the exception happens exactly for a single face and an empty embedding list, and then the tree is unchanged |
| Engine.MoveToTarget | backend/engine.py:144-155 | the move step creates the target folder and moves the file there under its final name, as the routing function says |
| Engine.ProcessedMoves | backend/engine.py:144-155 | a routed file sits in its target folder (the photo root itself for the names "" and ".") under its final name next to the files already there; a different source loses exactly that file; every other folder is untouched, and names stay unique |
| Server.ImagesSpec | backend/main.py:202 | the image filter keeps exactly the .png/.jpg/.jpeg names, case-insensitively |
| Server.SuffixedImage | backend/main.py:139-140 | a collision name of a file with an extension is an image exactly when the original is |
| Server.DotfileLosesImage | backend/main.py:139-140 | a file named ".png" is an image, but its collision name ".png_n" is not, since `splitext` gives it no extension |
| Server.ExistingSpec | backend/main.py:131-132 | the existing paths of a request keep request order, number as many as the count of existing paths, and are exactly the request paths that exist |
| Server.AdmitAllExisting | backend/main.py:131-132 | a path that does not exist leaves the admission unchanged |
| Server.AdmitAllOrder | backend/main.py:131-144 | the j-th name admitted is the basename of the j-th existing path, or `base_mtime.ext` when the Inbox already holds that name from before the request or from an earlier path of it; earlier names are kept |
| Server.CountExistingAll | backend/main.py:131-132 | every path exists exactly when the count of existing paths equals the number of paths |
| Server.AdmitPaths | backend/main.py:131-144 | the copy loop copies each existing path into the Inbox, suffixed when its name is taken, queues its Inbox path, and computes the admission specification |
| Server.AdmitAllSpec | backend/main.py:131-144 | admission queues one plain name per existing path, keeps earlier entries and existing Inbox files, and every queued name is in the Inbox |
| Server.IndexSpec | backend/main.py:117-146 | `/index` sets status indexing, total to the number of paths given and processed to 0; it returns the number of existing paths; the new queue entries follow the old ones and name files now in the Inbox |
| Server.IndexEntryAt | backend/main.py:131-143 | the j-th new queue entry is the Inbox path of the j-th existing request path under its admitted name |
| Server.IndexQueueOrder | backend/main.py:117-146 | `/index` returns the number of existing paths and queues `Inbox/<name>` for each existing path in request order, `<name>` being its basename or, when that name is already in the Inbox, `base_mtime.ext` |
| Server.IndexKeepsOtherDirs | backend/main.py:127-142 | `/index` writes only into the Inbox: every other directory keeps its listing |
| Server.StepKeepsAccounting | backend/main.py:34-49 | a worker iteration counts one item and keeps processed + queued ≤ total, with idle only when the queue is empty |
| Server.IndexKeepsAccounting | backend/main.py:122-124 | an `/index` call on an empty queue starts a batch whose accounting holds |
| Server.OverlapReportsIdleEarly | backend/main.py:122-124 | an `/index` call while items remain queued resets the count, and the next iteration reports idle with items still queued |
| Server.BatchProgress | backend/main.py:34-49 | after k of the batch's iterations, k items are processed and the status is analyzing with the current file named, until the last iteration makes it idle with no file |
| Server.BatchCompletes | backend/main.py:46-49 | a batch whose every path exists ends idle with total = processed after exactly one iteration per path |
| Server.ShortBatchNeverIdle | backend/main.py:47-48 | while fewer items are queued than remain to count, no iteration reaches idle |
| Server.MissingPathNeverIdle | backend/main.py:123-132 | a batch with a missing path never returns to idle |
| Server.Walk | backend/main.py:96 | the walk visits the root and then every sub-folder |
| Server.PhotoOf | backend/main.py:107-112 | a descriptor is named after its file and its id is `album-file` |
| Server.PhotoOfAlbum | backend/main.py:100-112 | a descriptor's album is its folder's name, or "Library" for the root named OrganizedPhotos (or a folder of that name), and its source is the file's path under the `/images` mount |
| Server.PhotosInSpec | backend/main.py:103-112 | a directory lists a descriptor exactly for each of its image files |
| Server.CollectSpec | backend/main.py:96-112 | before sorting, `/photos` holds exactly the image files of the walked directories whose path does not contain "Inbox" |
| Server.SortByNameDescSpec | backend/main.py:115 | the sort is a permutation ordered by name, descending |
| Server.SortByNameDescStable | backend/main.py:115 | the sort is stable: the descriptors of any one name keep their input order |
| Server.AllPhotosSpec | backend/main.py:89-115 | `/photos` is [] without a root; otherwise it holds exactly the images outside Inbox directories, sorted by name descending |
| Server.AllPhotosStable | backend/main.py:96-115 | descriptors of the same name, such as one file name in two albums, keep their walk order in `/photos` |
| Server.AppendPhotosIn | backend/main.py:103-112 | the inner loop appends one directory's descriptors |
| Server.CollectWalk | backend/main.py:96-112 | the outer `os.walk` loop gathers, in walk order, the descriptors of every directory whose path does not contain "Inbox" |
| Server.GetAllPhotos | backend/main.py:89-115 | the nested loops compute the `/photos` specification |
| Server.AlbumOf | backend/main.py:202-204 | an album's count is its image count, and its cover is empty exactly when it has no image |
| Server.ImagesFirst | backend/main.py:202-203 | the first image of a listing is its first image file in listing order |
| Server.AlbumCover | backend/main.py:202-203 | an album with images has as cover `/images/<folder>/<file>` for its first image file in listing order |
| Server.AlbumsSpec | backend/main.py:195-205 | an entry is listed exactly for each folder outside Inbox, Unsorted, Needs_Review, Needs_Name and Group_Photos |
| Server.AlbumAtSpec | backend/main.py:201-204 | an album entry is the entry of a non-working folder |
| Server.GetAlbums | backend/main.py:195-205 | the listing loop computes the `/albums` specification, [] without a root |
| Server.ItemsOf | backend/main.py:214-216 | a review listing has one item per image |
| Server.ItemsOfSpec | backend/main.py:214-223 | an item is listed exactly for each image of the folder, with the folder's kind |
| Server.ReviewItemsSpec | backend/main.py:207-225 | Needs_Name images are listed as singles and Group_Photos images as groups, exactly, and every single precedes every group |
| Server.AppendItems | backend/main.py:214-216 | the listing loop appends one folder's items |
| Server.GetReviewItems | backend/main.py:207-225 | the loops compute the `/review` specification |
| Server.SourceFolder | backend/main.py:234-240 | the review folder is chosen by substring: Needs_Name first, then Group_Photos, else Needs_Review |
| Server.AssignNameSpec | backend/main.py:227-250 | `/assign` creates the person's folder; it gets past the move exactly when the source exists, then moves the image there and leaves the database `register_new_person` gives, failing exactly when that raises; with a face, a parallel database and a successful write the person is known afterwards; without the source only the folder appears |
| Server.LogLevel | backend/main.py:263-264 | the log level is "critical" exactly when PYTHON_SILENT is "1", else "info" |
| Server.Backend.constructor | backend/main.py:20-25 | the backend starts idle with 0 of 0 and an empty queue |
| Server.Backend.IndexPhotos | backend/main.py:117-146 | the `/index` handler updates the progress, queue and Inbox as the specification function says |
| Server.Backend.WorkerStep | backend/main.py:33-51 | one worker iteration takes the head of the queue and updates the progress as the step function says |
| Supervisor.StartUrl | frontend/electron/main.js:42 | the window loads the dev URL when it is set, else the built index.html |
| Supervisor.ResolveSpec | frontend/electron/main.js:56-82 | dev mode spawns the venv python on backend/main.py in backend; otherwise the bundled binary exactly when it exists, else the local build, with no arguments and the binary's directory as cwd |
| Supervisor.ChildEnv | frontend/electron/main.js:90-94 | the engine inherits the environment with PYTHON_SILENT = "1" and PYTHONPATH = cwd, and nothing else changes |
| Supervisor.Kill | frontend/electron/main.js:114-117 | `kill()` marks a running engine as sent SIGTERM and leaves a stopped one as it is |
| Supervisor.KillIdempotent | frontend/electron/main.js:130-135 | a second kill changes nothing |
| Supervisor.SelectedPaths | frontend/electron/main.js:38-39 | a cancelled dialog answers [], otherwise its file paths |
| Supervisor.ReadySpec | frontend/electron/main.js:108-111 | `ready` spawns the resolved engine with the silent environment, then opens the window, loads the page and registers the shortcut |
| Supervisor.QuitSpec | frontend/electron/main.js:113-135 | quitting closes the window, unregisters the shortcuts and requests a kill once per listener, leaving no engine marked running; the shortcut quits only while registered |
| Supervisor.ExitSpec | frontend/electron/main.js:101-105 | an exit is reported exactly for a non-null, non-zero code |
| Supervisor.ErrorSpec | frontend/electron/main.js:97-99 | a spawn error is only logged; nothing else changes |
| Supervisor.DialogSpec | frontend/electron/main.js:30-40 | the dialog bridge answers from `ready` on, with [] for a cancelled dialog |
| Supervisor.ClosingQuits | frontend/electron/main.js:120-122 | closing the only window quits the app and sends the engine SIGTERM |
| Supervisor.ReopenRegistersTwice | frontend/electron/main.js:124-128 | a window re-created after `closed` registers the dialog handler twice; Electron rejects it and the new window stays blank and can never be replaced |
| Supervisor.Main.constructor | frontend/electron/main.js:10-11 | no window and no engine yet |
| Supervisor.Main.StartBackend | frontend/electron/main.js:56-106 | `startBackend` spawns the resolved launch |
| Supervisor.Main.CreateWindow | frontend/electron/main.js:13-54 | `createWindow` as its step function |
| Supervisor.Main.OnReady | frontend/electron/main.js:108-111 | the `ready` handler as its step function |
| Supervisor.Main.OnClosed | frontend/electron/main.js:46-48 | the `closed` listener clears the window reference |
| Supervisor.Main.OnActivate | frontend/electron/main.js:124-128 | `activate` creates a window only when none is referenced |
| Supervisor.Main.KillIfAny | frontend/electron/main.js:113-118 | one `will-quit` listener kills the engine when there is a handle |
| Supervisor.Main.Quit | frontend/electron/main.js:113-135 | `app.quit()` runs both `will-quit` listeners in order |
| Supervisor.Main.OnWindowAllClosed | frontend/electron/main.js:120-122 | `window-all-closed` quits |
| Supervisor.Main.OnShortcut | frontend/electron/main.js:51-53 | Cmd/Ctrl+Q quits while registered |
| Supervisor.Main.OnChildExit | frontend/electron/main.js:101-105 | the engine's `exit` event as its step function |
| Supervisor.Main.OnChildError | frontend/electron/main.js:97-99 | the engine's `error` event as its step function |
| Supervisor.Main.SelectFilesDialog | frontend/electron/main.js:30-40 | the dialog invocation answers what the registered handler returns |
| Client.RoundPercentSpec | frontend/src/App.jsx:42 | for t > 0 the percentage is the unique integer nearest to 100·p/t with halves up; it is at most 100 when p ≤ t, 100 when p = t, and 0 when p = 0 |
| Client.PercentExamples | frontend/src/App.jsx:42 | 4 of 10 shows 40, 2 of 3 shows 67, and 0 of 0 shows NaN |
| Client.DroppedPaths | frontend/src/App.jsx:76 | dropped files yield exactly their non-empty paths, no more of them than files |
| Client.DroppedPathsAppend | frontend/src/App.jsx:76 | the path filter keeps order across concatenation |
| Client.CandidatePathsSpec | frontend/src/App.jsx:72-77 | the picker's paths win over dropped files; an empty pick is only an error status |
| Client.SubmitSpec | frontend/src/App.jsx:71-106 | without paths only the error shows; with paths exactly they are posted and the batch announced; it keeps uploading exactly on an ok response, which starts one poll chain, and the other responses show their errors |
| Client.PollSpec | frontend/src/App.jsx:35-58 | a failed poll stops polling and keeps the status; a busy backend updates the percentage and keeps the chain; an idle one ends it, reports success, arms the clearing timer and refreshes the photos |
| Client.NativePickSpec | frontend/src/App.jsx:60-69 | outside Electron only an error shows; an empty or null selection does nothing; a selection is submitted |
| Client.FindIndex | frontend/src/App.jsx:252 | `findIndex` gives the first position with the id, and -1 exactly when no photo has it |
| Client.NavigationSpec | frontend/src/App.jsx:251-258 | next and previous move by one within bounds and stop at the ends; next from an unlisted photo opens the first, previous from it does nothing |
| Client.PrevUndoesNext | frontend/src/App.jsx:251-258 | with unique ids, previous undoes next from any photo but the last |
| Client.StaleClearBlanksStatus | frontend/src/App.jsx:47-48 | the clearing timer of one batch blanks the "Indexing..." status of the next while it runs |
| Client.App.constructor | frontend/src/App.jsx:19-32 | the component's initial state |
| Client.App.HandleFiles | frontend/src/App.jsx:71-106 | `handleFiles` with its response as the submission function |
| Client.App.PollStatus | frontend/src/App.jsx:35-58 | one poll completing as the poll function |
| Client.App.OnClearTimer | frontend/src/App.jsx:48 | the timer clears the status |
| Client.App.HandleNativePick | frontend/src/App.jsx:60-69 | `handleNativePick` as the picker function |
| Client.App.OnNext | frontend/src/App.jsx:251-254 | the viewer's next button |
| Client.App.OnPrev | frontend/src/App.jsx:255-258 | the viewer's previous button |
| UploadZone.FailuresAreErrors | frontend/src/components/UploadZone.jsx:9 | every failure message the App shows is coloured as an error |
| UploadZone.SuccessIsSuccess | frontend/src/components/UploadZone.jsx:10 | the success message is coloured as a success and not as an error |
| UploadZone.IndexingIsNeither | frontend/src/components/UploadZone.jsx:9-10 | "Indexing..." and no status are coloured as neither |
| UploadZone.BusyViewSpec | frontend/src/components/UploadZone.jsx:59-87 | the busy view shows exactly while uploading: the queue count exactly while analyzing, else the percentage; "Indexing..." exactly while indexing; the file line exactly for a non-empty name |
| UploadZone.GatesKeepOneChain | frontend/src/components/UploadZone.jsx:48-55 | with the gates, every event keeps at most one poll chain alive, and one exactly while uploading |
| UploadZone.UngatedDropDoublesPolling | frontend/src/components/UploadZone.jsx:51-55 | without the gate, a drop while uploading starts a second chain; with it, the drop is ignored |
| UploadZone.Zone.constructor | frontend/src/components/UploadZone.jsx:7 | no drag highlight at first |
| UploadZone.Zone.OnDragOver | frontend/src/components/UploadZone.jsx:49 | drag-over turns the highlight on |
| UploadZone.Zone.OnDragLeave | frontend/src/components/UploadZone.jsx:50 | drag-leave turns it off |
| UploadZone.Zone.OnDrop | frontend/src/components/UploadZone.jsx:51-55 | a drop clears the highlight and submits the files only when idle |
| UploadZone.Zone.OnClick | frontend/src/components/UploadZone.jsx:48 | a click opens the picker only when idle |
| Wiring.SpawnedEngineIsSilent | frontend/electron/main.js:90-94 | the engine the supervisor spawns always runs at log level "critical" |
| Wiring.CancelledDialogSubmitsNothing | frontend/src/App.jsx:65-68 | a cancelled dialog leaves the App unchanged |
| Wiring.ShownPercentInRange | frontend/src/App.jsx:42 | while the backend's accounting holds for a non-empty batch, the shown percentage is in [0, 100] |
| Wiring.MissingPathKeepsClientPolling | frontend/src/App.jsx:41-44 | with a missing path in the batch, every poll keeps the client uploading with one chain |
| Wiring.EmptyBatchShowsNaN | frontend/src/App.jsx:42 | an `/index` call with no paths reports 0 of 0, which the client shows as NaN% |

## Left out

- Face detection, ArcFace embeddings and the cosine distance: the detected embeddings are a parameter and the distance is an uninterpreted function. A NaN distance is not modelled.
- `np.random.randint(1000)` and `os.path.getmtime`: the suffix and the modification time are parameters. The modification time is taken as a natural number: a file dated before 1970 has a negative time, which the source would print as `base_-N.ext`.
- Real file-system I/O, pickling and `os.walk`'s order: the photo root is an abstract tree one level deep with its listings in a fixed order. Deeper folders and symbolic links are not modelled.
- Paths are joined with one "/" and never normalised, so `path.join(__dirname, '../..')` stays literal. Lower-casing covers ASCII letters only.
- Server.AssignName: requires a person name without "/" and other than "..", and an image path whose basename is not empty, because the tree is one level deep and holds files only. For a name with "/" the source would create a nested folder, for ".." a folder beside the photo root, and for a path ending in "/" it would move the whole review folder. The names "" and "." name the photo root itself and are modelled.
- Engine.Processed: a matched name containing "/" or equal to ".." is treated as one folder of the photo root, because the tree is one level deep; names registered through `/assign` in this model never have that form.
- Server.IndexKeepsAccounting: its empty-queue requirement stands for "the worker holds no item", because a worker iteration is one atomic step here. In the source the worker may have taken an item and not yet counted it when `/index` arrives; that item is then counted against the new batch.
- Server.Index: a failing `shutil.copy2` in `/index` is not modelled. In the source the request then answers 500 after the counters were reset and the earlier paths were already queued.
- `/upload`, `/health`, `/` and the `/images` static mount: they are outside the indexing core.
- The CORS middleware and the startup and shutdown hooks: these are framework wiring.
- asyncio and the process pool run the worker concurrently with requests; the model interleaves whole steps only. The worker hands the file to the engine; the engine's effect on the tree is modelled by `Engine.ProcessImage` and not composed into `Server.Step`.
- Timers are counters of pending firings, and their delays are not modelled. React rendering, animation and Framer Motion are left out.
- `pollStatus`'s idle branch and its `/photos` fetch form one step. `handleFiles` is one step together with its `/index` response. Interleavings between those awaits are not modelled.
- `Math.round` is computed exactly on rationals. Floating-point inexactness of `p / t * 100` is not modelled.
- Supervisor.Kill: `kill()` only sends SIGTERM and nothing waits for the engine; the engine's own shutdown, which waits for a running analysis (`executor.shutdown(wait=True)`), and its exit after the signal are not modelled.
- Electron's window options, preload script, and the OS dialog's enforcement of its extension filter are left out.
- PhotoDetail, Showroom, ReviewInterface and the engine's tests are not part of this model.
