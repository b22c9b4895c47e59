/** Canonicalising a path inside a root, and which paths that accepts. */
module PathSandbox {
  import opened Paths
  import opened Wrappers

  /** What the file system says about a path, without following it. */
  datatype Meta = Symlink | Other | NotFound | Failed(code: int)

  type FileSystem = Path -> Meta

  datatype PathError = Escapes(path: Path) | SymlinkAt(path: Path) | Io(code: int)

  const ALLOWED_SYSTEM_SYMLINKS: seq<Path> := [
    [RootDir, Normal("bin")],
    [RootDir, Normal("sbin")],
    [RootDir, Normal("lib")],
    [RootDir, Normal("lib64")],
    [RootDir, Normal("usr"), Normal("bin")],
    [RootDir, Normal("usr"), Normal("sbin")],
    [RootDir, Normal("usr"), Normal("lib")],
    [RootDir, Normal("usr"), Normal("lib64")],
    [RootDir, Normal("opt")],
    [RootDir, Normal("var"), Normal("lock")],
    [RootDir, Normal("var"), Normal("run")],
    [RootDir, Normal("run")],
    [RootDir, Normal("dev"), Normal("stdin")],
    [RootDir, Normal("dev"), Normal("stdout")],
    [RootDir, Normal("dev"), Normal("stderr")]
  ]

  predicate IsAllowedSystemSymlink(p: Path) {
    p in ALLOWED_SYSTEM_SYMLINKS
  }

  // ---- the walk along the target -------------------------------------------

  /** What is wrong with standing at `current` after this component. */
  function ErrorAt(fs: FileSystem, root: Path, c: Component, current: Path): Option<PathError> {
    if c.RootDir? then None
    else if !StartsWith(current, root) then Some(Escapes(current))
    else
      match fs(current)
      case Symlink => if IsAllowedSystemSymlink(current) then None else Some(SymlinkAt(current))
      case Failed(code) => Some(Io(code))
      case _ => None
  }

  function FirstError(fs: FileSystem, root: Path, target: Path): Option<PathError> {
    if target == [] then None
    else
      var n := |target| - 1;
      var earlier := FirstError(fs, root, target[..n]);
      if earlier.Some? then earlier else ErrorAt(fs, root, target[n], Walk(target))
  }

  method EnforceNoSymlinks(fs: FileSystem, root: Path, target: Path) returns (error: Option<PathError>)
    ensures error == FirstError(fs, root, target)
  {
    var current: Path := [];
    for i := 0 to |target|
      invariant current == Walk(target[..i]) && FirstError(fs, root, target[..i]) == None
    {
      assert target[..i + 1][..i] == target[..i];
      FirstErrorStays(fs, root, target, i + 1);
      var component := target[i];
      current := PushComponent(current, component);
      if component.RootDir? {
        continue;
      }
      if !StartsWith(current, root) {
        return Some(Escapes(current));
      }
      match fs(current) {
        case Symlink =>
          if !StartsWith(current, root) || IsAllowedSystemSymlink(current) {
            continue;
          }
          return Some(SymlinkAt(current));
        case Other =>
        case NotFound =>
          continue;
        case Failed(code) =>
          return Some(Io(code));
      }
    }
    assert target[..|target|] == target;
    error := None;
  }

  lemma {:induction false} FirstErrorStays(fs: FileSystem, root: Path, target: Path, n: nat)
    requires n <= |target|
    ensures FirstError(fs, root, target[..n]).Some? ==>
              FirstError(fs, root, target) == FirstError(fs, root, target[..n])
  {
    if n == |target| {
      assert target[..n] == target;
    } else {
      var m := |target| - 1;
      FirstErrorStays(fs, root, target[..m], n);
      assert target[..m][..n] == target[..n];
    }
  }

  // ---- canonicalising ------------------------------------------------------

  function Combined(root: Path, candidate: Path): Path {
    if IsAbsolute(candidate) then Norm(candidate) else Norm(JoinPaths(Norm(root), candidate))
  }

  function Enforced(fs: FileSystem, root: Path, target: Path): Result<Path, PathError> {
    match FirstError(fs, root, target)
    case None => Ok(target)
    case Some(error) => Err(error)
  }

  function WithinRoot(fs: FileSystem, root: Path, candidate: Path): Result<Path, PathError> {
    var combined := Combined(root, candidate);
    if StartsWith(combined, Norm(root)) then Enforced(fs, Norm(root), combined) else Err(Escapes(combined))
  }

  method CanonicalizeWithinRoot(fs: FileSystem, root: Path, candidate: Path) returns (r: Result<Path, PathError>)
    ensures r == WithinRoot(fs, root, candidate)
  {
    var rootNorm := NormalizePath(root);
    var combined;
    if IsAbsolute(candidate) {
      combined := NormalizePath(candidate);
    } else {
      combined := NormalizePath(JoinPaths(rootNorm, candidate));
    }
    if !StartsWith(combined, rootNorm) {
      return Err(Escapes(combined));
    }
    var error := EnforceNoSymlinks(fs, rootNorm, combined);
    if error.Some? {
      return Err(error.value);
    }
    r := Ok(combined);
  }

  /** The daemon's copy takes a relative path to start at the root. */
  method DaemonNofollow(fs: FileSystem, path: Path) returns (r: Result<Path, PathError>)
    ensures r == WithinRoot(fs, ROOT, path)
  {
    r := CanonicalizeWithinRoot(fs, ROOT, path);
  }

  /** The common crate's copy takes it as it is. */
  method CommonNofollow(fs: FileSystem, path: Path) returns (r: Result<Path, PathError>)
    ensures r == Enforced(fs, ROOT, Norm(path))
  {
    var normalized := NormalizeLoop(path);
    var error := EnforceNoSymlinks(fs, ROOT, normalized);
    if error.Some? {
      return Err(error.value);
    }
    r := Ok(normalized);
  }

  // ---- what is accepted ----------------------------------------------------

  /** Not a symlink, unless one of the system's, and no failure to find out. */
  predicate Harmless(fs: FileSystem, p: Path) {
    match fs(p)
    case Symlink => IsAllowedSystemSymlink(p)
    case Failed(_) => false
    case _ => true
  }

  /** Every place on the way to the path, but for the root itself, is harmless. */
  ghost predicate HarmlessWay(fs: FileSystem, p: Path) {
    forall n :: 0 < n <= |p| && p[..n] != ROOT ==> Harmless(fs, p[..n])
  }

  /** The root directory, one directory below it, or one directory below here. */
  predicate Usable(root: Path) {
    (|root| == 1 && !root[0].CurDir?) || (|root| == 2 && root[0].RootDir?)
  }

  /** No error at the place `n` components along the target. */
  ghost predicate PassesAt(fs: FileSystem, root: Path, target: Path, n: nat)
    requires 0 < n <= |target|
  {
    target[..n] == ROOT || (StartsWith(target[..n], root) && Harmless(fs, target[..n]))
  }

  lemma {:induction false} NoErrorOnThePlainWay(fs: FileSystem, root: Path, target: Path)
    requires IsPlain(target)
    ensures FirstError(fs, root, target) == None <==> forall n :: 0 < n <= |target| ==> PassesAt(fs, root, target, n)
  {
    if target != [] {
      var m := |target| - 1;
      NoErrorOnThePlainWay(fs, root, target[..m]);
      LastStepPasses(fs, root, target);
      assert forall n :: 0 < n <= m ==> PassesAt(fs, root, target[..m], n) == PassesAt(fs, root, target, n) by {
        assert forall n :: 0 < n <= m ==> target[..m][..n] == target[..n];
      }
    }
  }

  lemma LastStepPasses(fs: FileSystem, root: Path, target: Path)
    requires IsPlain(target) && target != []
    ensures var m := |target| - 1;
            ErrorAt(fs, root, target[m], Walk(target)) == None <==> PassesAt(fs, root, target, m + 1)
  {
    var m := |target| - 1;
    WalkOfPlain(target);
    assert target[..m + 1] == target;
    assert target[m].RootDir? <==> target == ROOT;
  }

  /** A target that has the root in front is refused along the way unless the root is short enough. */
  lemma WayStartsWith(fs: FileSystem, root: Path, target: Path)
    requires IsPlain(target) && IsPlain(root) && root != [] && root <= target
    ensures (forall n :: 0 < n <= |target| ==> PassesAt(fs, root, target, n)) <==> Usable(root) && HarmlessWay(fs, target)
  {
    if Usable(root) {
      forall n | 0 < n <= |target| && target[..n] != ROOT
        ensures root <= target[..n]
      {
        assert n == 1 ==> target[..1] == [root[0]];
      }
      assert forall n :: 0 < n <= |target| ==>
               (PassesAt(fs, root, target, n) <==> target[..n] == ROOT || Harmless(fs, target[..n]));
    } else {
      var n := if root[0].RootDir? then 2 else 1;
      assert n < |root| && target[..n] != ROOT;
      assert |target[..n]| < |root|;
      assert !PassesAt(fs, root, target, n);
    }
  }

  /**
   A path is accepted exactly when, resolved lexically, it has the resolved root in
   front, that root is usable, and the way to the path is harmless.
   */
  lemma AcceptedExactly(fs: FileSystem, root: Path, candidate: Path)
    requires IsPath(root) && IsPath(candidate)
    ensures var p := Combined(root, candidate);
            && (WithinRoot(fs, root, candidate).Ok? ==> WithinRoot(fs, root, candidate) == Ok(p))
            && (WithinRoot(fs, root, candidate).Ok? <==>
                Norm(root) <= p && Usable(Norm(root)) && HarmlessWay(fs, p))
  {
    var p, r := Combined(root, candidate), Norm(root);
    NormalizedIsPlain(root);
    CombinedIsNormal(root, candidate);
    if r <= p {
      if r == HERE {
        assert p == HERE;
        assert HERE[..0] == [];
        assert FirstError(fs, r, p).Some?;
      } else {
        NoErrorOnThePlainWay(fs, r, p);
        WayStartsWith(fs, r, p);
      }
    }
  }

  lemma CombinedIsNormal(root: Path, candidate: Path)
    requires IsPath(root) && IsPath(candidate)
    ensures var p := Combined(root, candidate);
            && (p == HERE || (p != [] && IsPlain(p)))
            && (IsAbsolute(p) <==> IsAbsolute(candidate) || IsAbsolute(root))
  {
    NormalizedIsPlain(root);
    if IsAbsolute(candidate) {
      NormalizedIsPlain(candidate);
    } else {
      NormalizedIsPlain(JoinPaths(Norm(root), candidate));
    }
  }

  /** What is wrong at a place: outside the root, or a symlink that is not the system's, or not to be examined. */
  ghost predicate IsOffence(fs: FileSystem, root: Path, place: Path, error: PathError) {
    && (!(root <= place) ==> error == Escapes(place))
    && (root <= place && fs(place).Symlink? ==> error == SymlinkAt(place))
    && (root <= place && fs(place).Failed? ==> error == Io(fs(place).code))
    && (root <= place ==> (fs(place).Symlink? && !IsSystemPlace(place)) || fs(place).Failed?)
  }

  lemma OffenceAtTheEnd(fs: FileSystem, root: Path, target: Path)
    requires IsPlain(target) && target != [] && !PassesAt(fs, root, target, |target|)
    ensures var error := ErrorAt(fs, root, target[|target| - 1], Walk(target));
            target != ROOT && error.Some? && IsOffence(fs, root, target, error.value)
  {
    assert target[..|target|] == target;
    WalkOfPlain(target);
    AllowedAreSystemPlaces(target);
    assert target[|target| - 1].RootDir? ==> target == ROOT;
  }

  lemma {:induction false} FirstOffence(fs: FileSystem, root: Path, target: Path, n: nat)
    requires IsPlain(target) && 0 < n <= |target| && !PassesAt(fs, root, target, n)
    requires forall m :: 0 < m < n ==> PassesAt(fs, root, target, m)
    ensures FirstError(fs, root, target).Some?
    ensures target[..n] != ROOT && IsOffence(fs, root, target[..n], FirstError(fs, root, target).value)
  {
    var upTo := target[..n];
    assert upTo[..|upTo|] == upTo;
    OffenceAtTheEnd(fs, root, upTo);
    NothingBefore(fs, root, target, n);
    assert upTo[..|upTo| - 1] == target[..n - 1];
    assert FirstError(fs, root, upTo) == ErrorAt(fs, root, upTo[|upTo| - 1], Walk(upTo));
    FirstErrorStays(fs, root, target, n);
  }

  lemma NothingBefore(fs: FileSystem, root: Path, target: Path, n: nat)
    requires IsPlain(target) && 0 < n <= |target| && forall m :: 0 < m < n ==> PassesAt(fs, root, target, m)
    ensures FirstError(fs, root, target[..n - 1]) == None
  {
    var earlier := target[..n - 1];
    forall m | 0 < m <= |earlier|
      ensures PassesAt(fs, root, earlier, m)
    {
      assert earlier[..m] == target[..m];
      assert PassesAt(fs, root, target, m);
    }
    NoErrorOnThePlainWay(fs, root, earlier);
  }

  lemma HereIsRefused(fs: FileSystem)
    ensures FirstError(fs, HERE, HERE) == Some(Escapes([]))
  {
    assert HERE[..0] == [];
    assert FirstError(fs, HERE, HERE[..0]) == None;
    assert Walk(HERE[..0]) == [];
    assert Walk(HERE) == [];
  }

  lemma {:induction false} FirstFailing(fs: FileSystem, root: Path, target: Path, k: nat) returns (n: nat)
    requires k <= |target| && exists m :: 0 < m <= k && !PassesAt(fs, root, target, m)
    ensures 0 < n <= k && !PassesAt(fs, root, target, n) && forall m :: 0 < m < n ==> PassesAt(fs, root, target, m)
  {
    if exists m :: 0 < m <= k - 1 && !PassesAt(fs, root, target, m) {
      n := FirstFailing(fs, root, target, k - 1);
    } else {
      n := k;
    }
  }

  lemma SafeSoFar(fs: FileSystem, root: Path, target: Path, n: nat)
    requires n <= |target| && forall m :: 0 < m < n ==> PassesAt(fs, root, target, m)
    ensures forall m :: 0 < m < n && target[..m] != ROOT ==> root <= target[..m] && Harmless(fs, target[..m])
  {
    forall m | 0 < m < n && target[..m] != ROOT
      ensures root <= target[..m] && Harmless(fs, target[..m])
    {
      assert PassesAt(fs, root, target, m);
    }
  }

  /**
   A path that is refused is refused for the first thing wrong with it: it leaves the
   root, or it or the root is the current directory, or the first place on the way
   that has an offence, which the error names.
   */
  lemma RefusedForTheFirstOffence(fs: FileSystem, root: Path, candidate: Path) returns (n: nat)
    requires IsPath(root) && IsPath(candidate) && WithinRoot(fs, root, candidate).Err?
    ensures var p, r, error := Combined(root, candidate), Norm(root), WithinRoot(fs, root, candidate).error;
            if !(r <= p) then error == Escapes(p)
            else if p == HERE then error == Escapes([])
            else && 0 < n <= |p| && p[..n] != ROOT && IsOffence(fs, r, p[..n], error)
                 && forall m :: 0 < m < n && p[..m] != ROOT ==> r <= p[..m] && Harmless(fs, p[..m])
  {
    var p, r := Combined(root, candidate), Norm(root);
    n := 0;
    CombinedIsNormal(root, candidate);
    NormalizedIsPlain(root);
    if r <= p {
      if p == HERE {
        assert r == HERE;
        HereIsRefused(fs);
      } else {
        NoErrorOnThePlainWay(fs, r, p);
        n := FirstFailing(fs, r, p, |p|);
        FirstOffence(fs, r, p, n);
        SafeSoFar(fs, r, p, n);
      }
    }
  }

  /** An absolute path stands for itself; a relative one starts from the root, climbs no higher than `/`, and goes down. */
  lemma {:induction false} CombinedMeaning(root: Path, candidate: Path)
    requires IsPath(root) && IsPath(candidate)
    ensures IsAbsolute(candidate) ==> Combined(root, candidate) == Norm(candidate)
    ensures IsAbsolute(root) && !IsAbsolute(candidate) ==>
              Combined(root, candidate) == Up(Norm(root), Climb(candidate)) + Walk(candidate)
  {
    if IsAbsolute(root) && !IsAbsolute(candidate) {
      NormalizedIsPlain(root);
      WalkOfJoin(Norm(root), candidate);
      WalkOfPlain(Norm(root));
      RelativeMeaning(Norm(root), candidate);
      CombinedIsNormal(root, candidate);
    }
  }

  /** Where the system keeps symlinks of its own: directly below the root, or below `usr`, `var` and `dev`. */
  predicate IsSystemPlace(p: Path) {
    && 2 <= |p| <= 3 && p[0].RootDir? && (forall i :: 0 < i < |p| ==> p[i].Normal?)
    && (|p| == 2 ==> p[1].name in {"bin", "sbin", "lib", "lib64", "opt", "run"})
    && (|p| == 3 ==> || (p[1].name == "usr" && p[2].name in {"bin", "sbin", "lib", "lib64"})
                     || (p[1].name == "var" && p[2].name in {"lock", "run"})
                     || (p[1].name == "dev" && p[2].name in {"stdin", "stdout", "stderr"}))
  }

  lemma AllowedAreSystemPlaces(p: Path)
    ensures IsAllowedSystemSymlink(p) <==> IsSystemPlace(p)
  {
    if IsSystemPlace(p) {
      if |p| == 2 {
        assert p == [RootDir, Normal(p[1].name)];
      } else {
        assert p == [RootDir, Normal(p[1].name), Normal(p[2].name)];
      }
    }
  }

  /** On the way to an accepted path every symlink is one of the system's, so none is three or more directories deep. */
  lemma SymlinksOnTheWay(fs: FileSystem, root: Path, candidate: Path, n: nat)
    requires IsPath(root) && IsPath(candidate) && WithinRoot(fs, root, candidate).Ok?
    requires 0 < n <= |Combined(root, candidate)| && fs(Combined(root, candidate)[..n]).Symlink?
    ensures var place := Combined(root, candidate)[..n]; place == ROOT || (IsSystemPlace(place) && n <= 3)
  {
    var p := Combined(root, candidate);
    AcceptedExactly(fs, root, candidate);
    assert p[..n] != ROOT ==> Harmless(fs, p[..n]);
    AllowedAreSystemPlaces(p[..n]);
  }

  /** For the root directory this leaves the way alone to decide. */
  lemma RootAcceptsTheHarmless(fs: FileSystem, candidate: Path)
    requires IsPath(candidate)
    ensures WithinRoot(fs, ROOT, candidate).Ok? <==> HarmlessWay(fs, Combined(ROOT, candidate))
  {
    AcceptedExactly(fs, ROOT, candidate);
    NormalizingTwice(ROOT);
    CombinedIsNormal(ROOT, candidate);
  }

  /** A root two or more directories deep accepts nothing, nor does the current directory. */
  lemma DeepRootsRefuseEverything(fs: FileSystem, root: Path, candidate: Path)
    requires IsPath(root) && IsPath(candidate)
    requires Norm(root) == HERE || |Norm(root)| > (if IsAbsolute(root) then 2 else 1)
    ensures WithinRoot(fs, root, candidate).Err?
  {
    AcceptedExactly(fs, root, candidate);
    NormalizedIsPlain(root);
  }

  /** The copies agree on absolute paths; a relative one the common crate's copy always refuses, at its first name. */
  lemma CopiesAgreeOnAbsolutePaths(fs: FileSystem, path: Path)
    requires IsPath(path)
    ensures IsAbsolute(path) ==> Enforced(fs, ROOT, Norm(path)) == WithinRoot(fs, ROOT, path)
    ensures !IsAbsolute(path) ==>
              Enforced(fs, ROOT, Norm(path)) == Err(Escapes(if Norm(path) == HERE then [] else Norm(path)[..1]))
  {
    NormalizingTwice(ROOT);
    NormalizedIsPlain(path);
    var p := Norm(path);
    if !IsAbsolute(path) {
      RelativeEscapes(fs, p[0]);
      assert p[..1] == [p[0]];
      FirstErrorStays(fs, ROOT, p, 1);
    }
  }

  lemma RelativeEscapes(fs: FileSystem, c: Component)
    requires c.CurDir? || c.Normal?
    ensures FirstError(fs, ROOT, [c]) == Some(Escapes(if c.CurDir? then [] else [c]))
  {
    var p: Path := [c];
    assert p[..|p| - 1] == [];
    assert WalkFrom([], p[..|p| - 1]) == [];
    assert WalkFrom([], p) == PushComponent([], c);
    var current := PushComponent([], c);
    if c.Normal? {
      assert current == [] + [c] == [c];
    } else {
      assert current == [];
    }
    assert !StartsWith(current, ROOT);
    assert FirstError(fs, ROOT, []) == None;
  }

  /** So they accept the same paths, but for relative ones the daemon's copy accepts. */
  lemma CopiesAcceptTheSame(fs: FileSystem, path: Path)
    requires IsPath(path)
    ensures (Enforced(fs, ROOT, Norm(path)).Ok? <==> WithinRoot(fs, ROOT, path).Ok?)
            <==> IsAbsolute(path) || !HarmlessWay(fs, Norm(JoinPaths(ROOT, path)))
  {
    CopiesAgreeOnAbsolutePaths(fs, path);
    RootAcceptsTheHarmless(fs, path);
    NormalizingTwice(ROOT);
  }
}
