/**
 * The face engine of backend/engine.py: the pickled face database with its
 * parallel `names`/`encodings` lists, registration of a named face, and the
 * routing of one image into a folder of the photo root by face count and
 * nearest match. Face detection and the cosine distance are inputs: the
 * detected embeddings are a parameter and the distance is an uninterpreted
 * function of a person's known embeddings and the probe.
 */
module Engine {
  import opened Wrappers
  import opened Paths
  import opened Library

  /** An ArcFace embedding; its numbers are never inspected here. */
  type Embedding = seq<real>

  /** `min_dist`'s starting value: a match must be strictly closer than this. */
  const Threshold: real := 0.6

  const ModelName := "ArcFace"

  const Unsorted := "Unsorted"
  const GroupPhotos := "Group_Photos"
  const NeedsName := "Needs_Name"

  /** The face database once loaded: `names[i]` owns the embeddings `encodings[i]`. */
  datatype Db = Db(names: seq<string>, encodings: seq<seq<Embedding>>)

  /** `default_db` without its model key. */
  const EmptyDb := Db([], [])

  /** What `db.pkl` holds: nothing, something that fails to unpickle, or a dictionary whose keys may be absent. */
  datatype Stored =
    | Missing
    | Unreadable
    | Pickled(names: Option<seq<string>>, encodings: Option<seq<seq<Embedding>>>, model: Option<string>)

  /** The two lists agree in length, as every save by this engine keeps them. */
  predicate Parallel(db: Db) {
    |db.names| == |db.encodings|
  }

  /**
   * `load_db`: absent keys become empty lists; a missing or unreadable file,
   * or a database built with another model, yields the empty default.
   */
  function LoadDb(s: Stored): Db {
    match s
    case Pickled(names, encodings, model) =>
      if model == Some(ModelName) then Db(names.GetOr([]), encodings.GetOr([])) else EmptyDb
    case _ => EmptyDb
  }

  /**
   * How the write of `save_db` ends: the file is written; `open` fails and the
   * file is untouched; or `open(..., "wb")` has already emptied the file when
   * `pickle.dump` fails, leaving an empty or partial pickle.
   */
  datatype Write = Written | OpenFailed | DumpFailed

  /**
   * `save_db`: stamps the model and writes the database. A failure is only
   * logged: after a failed `open` the file stays as it was, after a failed
   * dump it no longer unpickles.
   */
  function SaveDb(s: Stored, db: Db, w: Write): Stored {
    match w
    case Written => Pickled(Some(db.names), Some(db.encodings), Some(ModelName))
    case OpenFailed => s
    case DumpFailed => Unreadable
  }

  /** Loading what was just saved gives back the saved database. */
  lemma LoadAfterSave(s: Stored, db: Db)
    ensures LoadDb(SaveDb(s, db, Written)) == db
  {
  }

  /**
   * A failed save: after a failed `open` the old database still loads, after
   * a failed dump loading gives the empty default, whatever was stored.
   */
  lemma SaveFailures(s: Stored, db: Db)
    ensures LoadDb(SaveDb(s, db, OpenFailed)) == LoadDb(s)
    ensures LoadDb(SaveDb(s, db, DumpFailed)) == EmptyDb
  {
  }

  /**
   * Loading never fails: whatever the file holds, the result is the stored
   * lists (absent ones empty) exactly when the file is a dictionary stamped
   * with ArcFace, and the empty default otherwise.
   */
  lemma LoadDbSpec(s: Stored)
    ensures s.Pickled? && s.model == Some(ModelName) ==>
      LoadDb(s).names == (if s.names.Some? then s.names.value else [])
      && LoadDb(s).encodings == (if s.encodings.Some? then s.encodings.value else [])
    ensures !(s.Pickled? && s.model == Some(ModelName)) ==> LoadDb(s) == EmptyDb
    ensures s.Pickled? && s.model == Some(ModelName) && s.names.None? && s.encodings.None? ==> Parallel(LoadDb(s))
  {
  }

  /** `list.index`: the position of the first occurrence of `x`, or -1. */
  function IndexOf(s: seq<string>, x: string): (k: int)
    ensures -1 <= k < |s|
    ensures k >= 0 ==> s[k] == x && forall j :: 0 <= j < k ==> s[j] != x
    ensures k < 0 <==> x !in s
  {
    if s == [] then -1
    else if s[0] == x then 0
    else
      var k := IndexOf(s[1..], x);
      if k < 0 then -1 else k + 1
  }

  /**
   * The update `register_new_person` makes to a loaded database: an existing
   * name gets `vec` appended to the embeddings at its first occurrence (None
   * when that list is missing, where the source raises IndexError); a new
   * name is appended with a one-element list.
   */
  function Registered(db: Db, name: string, vec: Embedding): Option<Db> {
    var k := IndexOf(db.names, name);
    if k < 0 then Some(Db(db.names + [name], db.encodings + [[vec]]))
    else if k < |db.encodings| then Some(Db(db.names, db.encodings[k := db.encodings[k] + [vec]]))
    else None
  }

  /**
   * Registration keeps the lists parallel, leaves the names alone for a
   * known person, and afterwards `vec` is among the embeddings of the first
   * entry called `name`; nothing else changes.
   */
  lemma RegisteredSpec(db: Db, name: string, vec: Embedding)
    ensures Parallel(db) ==> Registered(db, name, vec).Some? && Parallel(Registered(db, name, vec).value)
    ensures Registered(db, name, vec).None? <==> name in db.names && |db.encodings| <= IndexOf(db.names, name)
    ensures name in db.names && Registered(db, name, vec).Some? ==> Registered(db, name, vec).value.names == db.names
    ensures name !in db.names ==> Registered(db, name, vec).value.names == db.names + [name]
    ensures Parallel(db) ==>
      var r := Registered(db, name, vec).value;
      var k := IndexOf(r.names, name);
      && 0 <= k < |r.encodings|
      && r.encodings[k] == (if name in db.names then db.encodings[k] else []) + [vec]
      && |r.encodings| == |db.encodings| + (if name in db.names then 0 else 1)
      && (forall j :: 0 <= j < |db.encodings| && j != k ==> r.encodings[j] == db.encodings[j])
  {
    var k := IndexOf(db.names, name);
    if k < 0 {
      var r := Db(db.names + [name], db.encodings + [[vec]]);
      assert r.names[|db.names|] == name;
      assert forall j :: 0 <= j < |db.names| ==> r.names[j] != name;
      assert IndexOf(r.names, name) == |db.names| by {
        IndexOfIs(r.names, name, |db.names|);
      }
    }
  }

  /** The first position holding `x` is the one `IndexOf` reports. */
  lemma IndexOfIs(s: seq<string>, x: string, k: int)
    requires 0 <= k < |s| && s[k] == x
    requires forall j :: 0 <= j < k ==> s[j] != x
    ensures IndexOf(s, x) == k
  {
  }

  /**
   * `register_new_person` over the stored database, given the embedding the
   * detector extracts from the image (None when it finds no face). Without a
   * face nothing is loaded or saved. None stands for the IndexError.
   */
  function RegisterNewPerson(s: Stored, name: string, face: Option<Embedding>, w: Write): Option<Stored> {
    match face
    case None => Some(s)
    case Some(vec) =>
      match Registered(LoadDb(s), name, vec)
      case None => None
      case Some(db) => Some(SaveDb(s, db, w))
  }

  /**
   * A registration that is written can be read back: the person is known
   * and the new embedding is the last of their first entry.
   */
  lemma RegisterThenLoad(s: Stored, name: string, vec: Embedding)
    requires Parallel(LoadDb(s))
    ensures RegisterNewPerson(s, name, Some(vec), Written).Some?
    ensures
      var db := LoadDb(RegisterNewPerson(s, name, Some(vec), Written).value);
      var k := IndexOf(db.names, name);
      && Parallel(db) && 0 <= k && db.encodings[k][|db.encodings[k]| - 1] == vec
  {
    RegisteredSpec(LoadDb(s), name, vec);
    LoadAfterSave(s, Registered(LoadDb(s), name, vec).value);
  }

  /**
   * A registration whose write fails: after a failed `open` the database
   * loads as before, without the new face; after a failed dump every known
   * person is lost and loading gives the empty default.
   */
  lemma RegisterWriteFails(s: Stored, name: string, vec: Embedding)
    requires Parallel(LoadDb(s))
    ensures RegisterNewPerson(s, name, Some(vec), OpenFailed) == Some(s)
    ensures RegisterNewPerson(s, name, Some(vec), DumpFailed) == Some(Unreadable)
    ensures LoadDb(RegisterNewPerson(s, name, Some(vec), DumpFailed).value) == EmptyDb
  {
    RegisteredSpec(LoadDb(s), name, vec);
  }

  /**
   * `register_new_person` in summary: without a face it changes nothing; with
   * one and a parallel database it does not raise, and once written the
   * person is known.
   */
  lemma RegisterNewPersonSpec(s: Stored, name: string, face: Option<Embedding>, w: Write)
    ensures face.None? ==> RegisterNewPerson(s, name, face, w) == Some(s)
    ensures face.Some? && Parallel(LoadDb(s)) ==> RegisterNewPerson(s, name, face, w).Some?
    ensures face.Some? && w == Written && Parallel(LoadDb(s)) ==> name in LoadDb(RegisterNewPerson(s, name, face, w).value).names
  {
    if face.Some? && Parallel(LoadDb(s)) {
      RegisteredSpec(LoadDb(s), name, face.value);
      if w == Written {
        RegisterThenLoad(s, name, face.value);
      }
    }
  }

  /** Nothing is written when the detector finds no face. */
  lemma RegisterWithoutFace(s: Stored, name: string, w: Write)
    ensures RegisterNewPerson(s, name, None, w) == Some(s)
  {
  }

  /** The outcome of the matching loop: an exception, or the index of the best name (-1 for none). */
  datatype Match = Raises | Best(k: int)

  /**
   * The matching loop over the first `n` (name, known embeddings) pairs:
   * a person with no embeddings makes the distance computation raise, and
   * otherwise a pair replaces the current best only when its distance is
   * strictly below the running minimum, which starts at the threshold.
   */
  function Matching(encs: seq<seq<Embedding>>, vec: Embedding, dist: (seq<Embedding>, Embedding) -> real, n: nat): Match
    requires n <= |encs|
  {
    if n == 0 then Best(-1)
    else
      match Matching(encs, vec, dist, n - 1)
      case Raises => Raises
      case Best(k) =>
        if encs[n - 1] == [] then Raises
        else if dist(encs[n - 1], vec) < (if 0 <= k < n - 1 then dist(encs[k], vec) else Threshold) then Best(n - 1)
        else Best(k)
  }

  /**
   * What the matching loop computes. It raises exactly when some person
   * among the first `n` has no embeddings. Otherwise it finds a name exactly
   * when some distance is below the threshold; the name found is at a
   * smallest such distance, and strictly closer than every earlier pair, so
   * ties keep the earlier name.
   */
  lemma {:induction false} MatchingSpec(encs: seq<seq<Embedding>>, vec: Embedding, dist: (seq<Embedding>, Embedding) -> real, n: nat)
    requires n <= |encs|
    ensures Matching(encs, vec, dist, n).Raises? <==> exists i :: 0 <= i < n && encs[i] == []
    ensures Matching(encs, vec, dist, n).Best? ==>
      var k := Matching(encs, vec, dist, n).k;
      && -1 <= k < n
      && (k < 0 <==> forall i :: 0 <= i < n ==> Threshold <= dist(encs[i], vec))
      && (k >= 0 ==> dist(encs[k], vec) < Threshold)
      && (k >= 0 ==> forall i :: 0 <= i < n ==> dist(encs[k], vec) <= dist(encs[i], vec))
      && (k >= 0 ==> forall i :: 0 <= i < k ==> dist(encs[k], vec) < dist(encs[i], vec))
  {
    if n > 0 {
      MatchingSpec(encs, vec, dist, n - 1);
      if Matching(encs, vec, dist, n - 1).Raises? {
        var i :| 0 <= i < n - 1 && encs[i] == [];
        assert 0 <= i < n && encs[i] == [];
      }
    }
  }

  /** Once the loop has raised, later pairs do not matter. */
  lemma {:induction false} RaisesPersists(encs: seq<seq<Embedding>>, vec: Embedding, dist: (seq<Embedding>, Embedding) -> real, i: nat, n: nat)
    requires i <= n <= |encs| && Matching(encs, vec, dist, i).Raises?
    ensures Matching(encs, vec, dist, n).Raises?
    decreases n - i
  {
    if i < n {
      RaisesPersists(encs, vec, dist, i + 1, n);
    }
  }

  /**
   * The single-face loop of `process_image` over `zip(names, encodings)`:
   * it stops at the first person with no embeddings, and otherwise keeps the
   * closest name strictly under the threshold.
   */
  method MatchFace(db: Db, vec: Embedding, dist: (seq<Embedding>, Embedding) -> real) returns (m: Match)
    ensures m == Matching(db.encodings, vec, dist, ZipLength(db))
  {
    var n := ZipLength(db);
    var best := -1;
    var minDist := Threshold;
    var i := 0;
    while i < n
      invariant 0 <= i <= n
      invariant Matching(db.encodings, vec, dist, i) == Best(best)
      invariant -1 <= best < i
      invariant minDist == if 0 <= best then dist(db.encodings[best], vec) else Threshold
    {
      if db.encodings[i] == [] {
        RaisesPersists(db.encodings, vec, dist, i + 1, n);
        return Raises;
      }
      var d := dist(db.encodings[i], vec);
      if d < minDist {
        minDist := d;
        best := i;
      }
      i := i + 1;
    }
    m := Best(best);
  }

  /** `zip` stops at the shorter list. */
  function ZipLength(db: Db): (n: nat)
    ensures n <= |db.names| && n <= |db.encodings|
    ensures n == |db.names| || n == |db.encodings|
  {
    if |db.names| <= |db.encodings| then |db.names| else |db.encodings|
  }

  /**
   * The target folder for an image with the detected `faces`: none go to
   * Unsorted, several to Group_Photos, and one to the matched name when it
   * is non-empty (Python treats "" as false), else to Needs_Name.
   */
  function Target(faces: nat, matched: Option<string>): (target: string)
    ensures target != ""
    ensures faces == 0 ==> target == Unsorted
    ensures faces > 1 ==> target == GroupPhotos
    ensures faces == 1 ==> target == (if matched.Some? && matched.value != "" then matched.value else NeedsName)
  {
    if faces == 0 then Unsorted
    else if faces > 1 then GroupPhotos
    else if matched.Some? && matched.value != "" then matched.value
    else NeedsName
  }

  /** What `process_image` returns: "Error" for a missing file, the target folder, or an exception. */
  datatype Routing = Error | Raised | Routed(target: string)

  /**
   * The name the file gets in its target folder: its own, or
   * `base_<suffix>ext` when that name is taken.
   */
  function FinalName(t: Tree, target: string, file: string, suffix: nat): string {
    if HasFile(t, NamedDir(target), file) then Suffixed(file, suffix) else file
  }

  /** The match an image with `faces` gets against the stored database. */
  function MatchOf(faces: seq<Embedding>, s: Stored, dist: (seq<Embedding>, Embedding) -> real): Match {
    if |faces| == 1 then
      var db := LoadDb(s);
      Matching(db.encodings, faces[0], dist, ZipLength(db))
    else Best(-1)
  }

  /**
   * `process_image` on the file `file` of `src`: the routing it returns and
   * the tree after it, with `suffix` the value `np.random.randint(1000)`
   * would draw. The target folder is created, then the file is moved there.
   */
  function Processed(t: Tree, src: Dir, file: string, faces: seq<Embedding>, s: Stored,
                     dist: (seq<Embedding>, Embedding) -> real, suffix: nat): (Routing, Tree)
  {
    if !HasFile(t, src, file) then (Error, t)
    else
      match MatchOf(faces, s, dist)
      case Raises => (Raised, t)
      case Best(k) =>
        var names := LoadDb(s).names;
        var target := Target(|faces|, if 0 <= k < |names| then Some(names[k]) else None);
        var t1 := MakeDirs(t, NamedDir(target));
        (Routed(target), Move(t1, src, file, NamedDir(target), FinalName(t1, target, file, suffix)))
  }

  /**
   * `process_image`: classification by face count, the matching loop for a
   * single face, then the move into the target folder.
   */
  method ProcessImage(t: Tree, src: Dir, file: string, faces: seq<Embedding>, s: Stored,
                      dist: (seq<Embedding>, Embedding) -> real, suffix: nat)
    returns (r: Routing, t': Tree)
    requires suffix < 1000
    ensures (r, t') == Processed(t, src, file, faces, s, dist, suffix)
  {
    if !HasFile(t, src, file) {
      return Error, t;
    }
    var matched: Option<string> := None;
    if |faces| == 1 {
      var db := LoadDb(s);
      var m := MatchFace(db, faces[0], dist);
      if m.Raises? {
        return Raised, t;
      }
      if 0 <= m.k < |db.names| {
        matched := Some(db.names[m.k]);
      }
    }
    var target := Target(|faces|, matched);
    t' := MoveToTarget(t, src, file, target, suffix);
    r := Routed(target);
  }

  /**
   * The end of `process_image`: create the target folder, then move the file
   * there under its own name, or `base_<suffix>ext` when that name is taken.
   */
  method MoveToTarget(t: Tree, src: Dir, file: string, target: string, suffix: nat) returns (t': Tree)
    requires HasFile(t, src, file)
    ensures var t1 := MakeDirs(t, NamedDir(target));
      && HasFile(t1, src, file)
      && t' == Move(t1, src, file, NamedDir(target), FinalName(t1, target, file, suffix))
  {
    var dir := NamedDir(target);
    t' := MakeDirs(t, dir);
    var name := file;
    if HasFile(t', dir, file) {
      name := Suffixed(file, suffix);
    }
    t' := Move(t', src, file, dir, name);
  }

  /** A missing file is reported as "Error" and nothing moves. */
  lemma ProcessedMissing(t: Tree, src: Dir, file: string, faces: seq<Embedding>, s: Stored,
                         dist: (seq<Embedding>, Embedding) -> real, suffix: nat)
    requires !HasFile(t, src, file)
    ensures Processed(t, src, file, faces, s, dist, suffix) == (Error, t)
  {
  }

  /**
   * Where an existing image goes: no face to Unsorted, several to
   * Group_Photos, one to the closest known name under the threshold, and to
   * Needs_Name when no name is under the threshold or the name is empty.
   * An exception leaves the tree as it was.
   */
  lemma {:induction false} ProcessedTarget(t: Tree, src: Dir, file: string, faces: seq<Embedding>, s: Stored,
                                            dist: (seq<Embedding>, Embedding) -> real, suffix: nat)
    requires HasFile(t, src, file)
    ensures var (r, t') := Processed(t, src, file, faces, s, dist, suffix);
      && (r.Raised? <==> |faces| == 1 && exists i :: 0 <= i < ZipLength(LoadDb(s)) && LoadDb(s).encodings[i] == [])
      && (r.Raised? ==> t' == t)
      && (!r.Raised? ==> r.Routed?)
      && (|faces| == 0 ==> r == Routed(Unsorted))
      && (|faces| > 1 ==> r == Routed(GroupPhotos))
      && (r.Routed? && |faces| == 1 ==>
          var db := LoadDb(s);
          var k := MatchOf(faces, s, dist).k;
          && (k < 0 ==> r.target == NeedsName)
          && (k >= 0 ==> k < ZipLength(db) && r.target == (if db.names[k] != "" then db.names[k] else NeedsName))
          && (k >= 0 ==> k < ZipLength(db) && dist(db.encodings[k], faces[0]) < Threshold)
          && (0 <= k < ZipLength(db) ==> forall i :: 0 <= i < ZipLength(db) ==> dist(db.encodings[k], faces[0]) <= dist(db.encodings[i], faces[0]))
          && (k < 0 ==> forall i :: 0 <= i < ZipLength(db) ==> Threshold <= dist(db.encodings[i], faces[0])))
  {
    if |faces| == 1 {
      var db := LoadDb(s);
      MatchingSpec(db.encodings, faces[0], dist, ZipLength(db));
    }
  }

  /**
   * A routed file ends up in its target folder under its final name, next
   * to the files already there; when the two folders differ the source loses
   * exactly that file; every other folder is untouched and names stay unique.
   */
  lemma ProcessedMoves(t: Tree, src: Dir, file: string, faces: seq<Embedding>, s: Stored,
                       dist: (seq<Embedding>, Embedding) -> real, suffix: nat)
    requires Processed(t, src, file, faces, s, dist, suffix).0.Routed?
    ensures var (r, t') := Processed(t, src, file, faces, s, dist, suffix);
      var t1 := MakeDirs(t, NamedDir(r.target));
      && HasFile(t', NamedDir(r.target), FinalName(t1, r.target, file, suffix))
      && (src != NamedDir(r.target) ==> !HasFile(t', src, file))
      && (src != NamedDir(r.target) ==> forall h :: HasFile(t', NamedDir(r.target), h) <==> HasFile(t, NamedDir(r.target), h) || h == FinalName(t1, r.target, file, suffix))
      && (src != NamedDir(r.target) ==> forall h :: HasFile(t', src, h) <==> HasFile(t, src, h) && h != file)
      && (forall e :: e != src && e != NamedDir(r.target) ==> Files(t', e) == Files(t, e))
      && (WellFormed(t) ==> WellFormed(t'))
  {
    var (r, t') := Processed(t, src, file, faces, s, dist, suffix);
    var dst := NamedDir(r.target);
    var t1 := MakeDirs(t, dst);
    ProcessedRouted(t, src, file, faces, s, dist, suffix);
    MoveIntoMadeDir(t, src, file, dst, FinalName(t1, r.target, file, suffix));
  }

  /** A routed file is moved out of a tree in which its target folder exists. */
  lemma ProcessedRouted(t: Tree, src: Dir, file: string, faces: seq<Embedding>, s: Stored,
                        dist: (seq<Embedding>, Embedding) -> real, suffix: nat)
    requires Processed(t, src, file, faces, s, dist, suffix).0.Routed?
    ensures var (r, t') := Processed(t, src, file, faces, s, dist, suffix);
      var t1 := MakeDirs(t, NamedDir(r.target));
      && HasFile(t1, src, file)
      && t' == Move(t1, src, file, NamedDir(r.target), FinalName(t1, r.target, file, suffix))
  {
  }
}
