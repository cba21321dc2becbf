/** The search for the nearest folder holding a given file
    (`find_parent_dir_where_exists_file`, powercicd/powerbi/file_utils.py).
    Paths are POSIX paths split at `/`; whether a file exists is a parameter. */
module FileUtils {
  import opened Results

  /** A path: whether it starts with `/`, and its components between slashes.
      The relative path without components is `.`. */
  datatype Path = Path(absolute: bool, parts: seq<string>)

  // ---------------------------------------------------------------------
  // os.path.normpath
  // ---------------------------------------------------------------------

  /** One component of `normpath`: empty and `.` components vanish, `..`
      removes the previous component, except where there is nothing to remove
      (kept on a relative path, dropped at the root of an absolute one). */
  function NormStep(acc: seq<string>, absolute: bool, comp: string): seq<string>
  {
    if comp == "" || comp == "." then acc
    else if comp != ".." || (!absolute && acc == []) || (acc != [] && acc[|acc| - 1] == "..") then acc + [comp]
    else if acc != [] then acc[..|acc| - 1]
    else acc
  }

  function NormParts(absolute: bool, comps: seq<string>): seq<string>
    decreases |comps|
  {
    if comps == [] then [] else NormStep(NormParts(absolute, comps[..|comps| - 1]), absolute, comps[|comps| - 1])
  }

  function Normpath(p: Path): Path
  {
    Path(p.absolute, NormParts(p.absolute, p.parts))
  }

  /** A normal path: no empty or `.` components, and `..` only in a leading
      run of a relative path. */
  predicate Normal(p: Path)
  {
    forall i :: 0 <= i < |p.parts| ==>
      p.parts[i] != "" && p.parts[i] != "." &&
      (p.parts[i] == ".." ==> !p.absolute && forall j :: 0 <= j < i ==> p.parts[j] == "..")
  }

  lemma NormStepNormal(acc: seq<string>, absolute: bool, comp: string)
    requires Normal(Path(absolute, acc))
    ensures Normal(Path(absolute, NormStep(acc, absolute, comp)))
  {
    var r := NormStep(acc, absolute, comp);
    if r == acc + [comp] && comp == ".." && acc != [] {
      assert acc[|acc| - 1] == "..";
      assert forall j :: 0 <= j < |acc| ==> acc[j] == ".." by {
        assert forall j :: 0 <= j < |acc| - 1 ==> acc[j] == "..";
      }
    }
  }

  /** `normpath` gives a normal path. */
  lemma {:induction false} NormpathNormal(p: Path)
    ensures Normal(Normpath(p))
    decreases |p.parts|
  {
    if p.parts != [] {
      var init := Path(p.absolute, p.parts[..|p.parts| - 1]);
      NormpathNormal(init);
      NormStepNormal(NormParts(p.absolute, init.parts), p.absolute, p.parts[|p.parts| - 1]);
    }
  }

  /** `normpath` leaves a normal path as it is. */
  lemma {:induction false} NormpathOfNormal(p: Path)
    requires Normal(p)
    ensures Normpath(p) == p
    decreases |p.parts|
  {
    if p.parts != [] {
      var init := p.parts[..|p.parts| - 1];
      var comp := p.parts[|p.parts| - 1];
      assert Normal(Path(p.absolute, init));
      NormpathOfNormal(Path(p.absolute, init));
      assert NormParts(p.absolute, init) == init;
      if comp == ".." && init != [] {
        assert init[|init| - 1] == "..";
      }
      assert NormStep(init, p.absolute, comp) == init + [comp];
      assert init + [comp] == p.parts;
    }
  }

  lemma NormpathIdempotent(p: Path)
    ensures Normpath(Normpath(p)) == Normpath(p)
  {
    NormpathNormal(p);
    NormpathOfNormal(Normpath(p));
  }

  // ---------------------------------------------------------------------
  // os.path.dirname and the chain of folders
  // ---------------------------------------------------------------------

  /** `os.path.dirname` of a normal path; `None` stands for the empty string.
      The dirname of `/` is `/` itself. */
  function Dirname(p: Path): Option<Path>
  {
    if p.parts == [] then (if p.absolute then Some(p) else None)
    else if !p.absolute && |p.parts| == 1 then None
    else Some(Path(p.absolute, p.parts[..|p.parts| - 1]))
  }

  /** The folder searched after `p`: its dirname, except that the search ends
      at the root instead of searching `/` again. */
  function Parent(p: Path): Option<Path>
  {
    var d := Dirname(p);
    if d == Some(p) then None else d
  }

  /** The folder made of the first `k` components of `p`. */
  function Prefix(p: Path, k: nat): Path
    requires k <= |p.parts|
  {
    Path(p.absolute, p.parts[..k])
  }

  /** Fewest components a searched folder has: the root, `.`, or the first
      component of a relative path. */
  function Floor(p: Path): nat
  {
    if p.absolute || p.parts == [] then 0 else 1
  }

  /** The folders searched are the prefixes of the start path, longest first,
      down to the floor. */
  lemma ParentOfPrefix(p: Path, k: nat)
    requires Floor(p) <= k <= |p.parts|
    ensures k > Floor(p) ==> Parent(Prefix(p, k)) == Some(Prefix(p, k - 1))
    ensures k == Floor(p) ==> Parent(Prefix(p, k)) == None
  {
    if k > 0 {
      assert p.parts[..k][..k - 1] == p.parts[..k - 1];
    }
  }

  /** Below the root, the search steps to the dirname as the source does. */
  lemma ParentIsDirnameBelowRoot(p: Path)
    requires !(p.absolute && p.parts == [])
    ensures Parent(p) == Dirname(p)
  {
  }

  // ---------------------------------------------------------------------
  // The search
  // ---------------------------------------------------------------------

  function NotFoundError(file: string): Error
  {
    NotFound(file + " not found in any parent directory")
  }

  /** The search from the folder `Prefix(n, k)` up: the first folder holding
      the file, or the error once the floor has been searched. */
  function Search(n: Path, k: nat, file: string, present: (Path, string) -> bool): Result<Path>
    requires Floor(n) <= k <= |n.parts|
    decreases k
  {
    if present(Prefix(n, k), file) then Ok(Prefix(n, k))
    else if k == Floor(n) then Err(NotFoundError(file))
    else Search(n, k - 1, file, present)
  }

  /** The search finds the deepest folder holding the file, and fails exactly
      when no folder from `Prefix(n, k)` up to the floor holds it. */
  lemma {:induction false} SearchFindsDeepest(n: Path, k: nat, file: string, present: (Path, string) -> bool)
    requires Floor(n) <= k <= |n.parts|
    ensures var r := Search(n, k, file, present);
      (r.Ok? ==>
        Floor(n) <= |r.value.parts| <= k && r.value == Prefix(n, |r.value.parts|) && present(r.value, file) &&
        forall j :: |r.value.parts| < j <= k ==> !present(Prefix(n, j), file)) &&
      (r.Err? <==> forall j :: Floor(n) <= j <= k ==> !present(Prefix(n, j), file)) &&
      (r.Err? ==> r.error == NotFoundError(file))
    decreases k
  {
    if !present(Prefix(n, k), file) && k > Floor(n) {
      SearchFindsDeepest(n, k - 1, file, present);
    }
  }

  /** `find_parent_dir_where_exists_file`: the deepest folder, from the
      normalised start path up, for which `present(folder, file)` holds (the
      source tests `os.path.exists(os.path.join(folder, file))`). */
  method FindParentDir(start: Path, file: string, present: (Path, string) -> bool) returns (r: Result<Path>)
    ensures r == Search(Normpath(start), |Normpath(start).parts|, file, present)
  {
    var n := Normpath(start);
    var folder: Option<Path> := Some(n);
    ghost var k: int := |n.parts|;
    assert n.parts[..k] == n.parts;
    while folder.Some?
      invariant folder.Some? ==> Floor(n) <= k <= |n.parts| && folder.value == Prefix(n, k)
      invariant folder.Some? ==> Search(n, |n.parts|, file, present) == Search(n, k, file, present)
      invariant folder.None? ==> Search(n, |n.parts|, file, present) == Err(NotFoundError(file))
      decreases if folder.Some? then k + 1 else 0
    {
      if present(folder.value, file) {
        break;
      }
      ParentOfPrefix(n, k);
      folder := Parent(folder.value);
      k := k - 1;
    }
    if folder.None? {
      return Err(NotFoundError(file));
    }
    return Ok(folder.value);
  }

  // ---------------------------------------------------------------------
  // The loop as written
  // ---------------------------------------------------------------------

  /** At most `fuel` further passes of the loop as written, which steps to
      the dirname unconditionally; `None` when it has not ended by then. */
  function WalkAsWritten(folder: Option<Path>, file: string, present: (Path, string) -> bool, fuel: nat): Option<Result<Path>>
    decreases fuel
  {
    match folder
    case None => Some(Err(NotFoundError(file)))
    case Some(f) =>
      if present(f, file) then Some(Ok(f))
      else if fuel == 0 then None
      else WalkAsWritten(Dirname(f), file, present, fuel - 1)
  }

  /** On an absolute path whose folders all lack the file, the loop as
      written never ends: `dirname("/")` is `/`, so it tests the root again
      and again. */
  lemma {:induction false} AsWrittenLoopsOnAbsolute(n: Path, k: nat, file: string, present: (Path, string) -> bool, fuel: nat)
    requires n.absolute && k <= |n.parts|
    requires forall j :: 0 <= j <= k ==> !present(Prefix(n, j), file)
    ensures WalkAsWritten(Some(Prefix(n, k)), file, present, fuel) == None
    decreases fuel
  {
    if fuel > 0 {
      if k > 0 {
        assert n.parts[..k][..k - 1] == n.parts[..k - 1];
        assert Dirname(Prefix(n, k)) == Some(Prefix(n, k - 1));
        AsWrittenLoopsOnAbsolute(n, k - 1, file, present, fuel - 1);
      } else {
        AsWrittenLoopsOnAbsolute(n, 0, file, present, fuel - 1);
      }
    }
  }

  /** The smallest instance: searching from `/` for a file that is nowhere. */
  lemma AsWrittenLoopsFromRoot(file: string, fuel: nat)
    ensures WalkAsWritten(Some(Path(true, [])), file, (p: Path, f: string) => false, fuel) == None
  {
    var root := Path(true, []);
    assert Prefix(root, 0) == root;
    AsWrittenLoopsOnAbsolute(root, 0, file, (p: Path, f: string) => false, fuel);
  }

  /** On a relative path the loop as written ends, after at most one pass
      per component, with the result of the corrected search. */
  lemma {:induction false} AsWrittenAgreesOnRelative(n: Path, k: nat, file: string, present: (Path, string) -> bool, fuel: nat)
    requires !n.absolute && Floor(n) <= k <= |n.parts| && fuel > k
    ensures WalkAsWritten(Some(Prefix(n, k)), file, present, fuel) == Some(Search(n, k, file, present))
    decreases k
  {
    ParentOfPrefix(n, k);
    ParentIsDirnameBelowRoot(Prefix(n, k));
    if !present(Prefix(n, k), file) && k > Floor(n) {
      AsWrittenAgreesOnRelative(n, k - 1, file, present, fuel - 1);
    }
  }
}
