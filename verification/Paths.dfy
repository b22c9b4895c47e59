/**
 Lexical path canonicalisation, as the daemon and the common crate each have it.
 A path is the list of components the standard library splits it into; what the
 file system answers about a path is a parameter.
 */
module Paths {
  datatype Component = RootDir | CurDir | ParentDir | Normal(name: string)

  type Path = seq<Component>

  const ROOT: Path := [RootDir]
  const HERE: Path := [CurDir]

  /** What splitting a path can give: a root or a current-directory component only in front. */
  predicate IsPath(p: Path) {
    forall i :: 0 < i < |p| ==> p[i].ParentDir? || p[i].Normal?
  }

  predicate IsAbsolute(p: Path) {
    p != [] && p[0].RootDir?
  }

  predicate StartsWith(p: Path, prefix: Path) {
    prefix <= p
  }

  /** `PathBuf::pop`: the root and the empty path have no parent. */
  function Pop(p: Path): Path {
    if p == [] || p == ROOT then p else p[..|p| - 1]
  }

  /** `PathBuf::push` of a path: an absolute one replaces, a leading `.` disappears into the middle. */
  function JoinPaths(base: Path, p: Path): Path {
    if IsAbsolute(p) then p
    else if p != [] && p[0].CurDir? && base != [] then base + p[1..]
    else base + p
  }

  /** `push_component`, and the body of the normalising loop. */
  function PushComponent(p: Path, c: Component): Path {
    match c
    case RootDir => ROOT
    case CurDir => p
    case ParentDir => Pop(p)
    case Normal(_) => p + [c]
  }

  /** Where the components lead from a given place. */
  function WalkFrom(base: Path, p: Path): Path {
    if p == [] then base else PushComponent(WalkFrom(base, p[..|p| - 1]), p[|p| - 1])
  }

  function Walk(p: Path): Path {
    WalkFrom([], p)
  }

  function OrHere(p: Path): Path {
    if p == [] then HERE else p
  }

  function Norm(p: Path): Path {
    OrHere(Walk(p))
  }

  // ---- normalising ---------------------------------------------------------

  method NormalizeLoop(path: Path) returns (normalized: Path)
    ensures normalized == Norm(path)
  {
    normalized := [];
    for i := 0 to |path|
      invariant normalized == Walk(path[..i])
    {
      assert path[..i + 1][..i] == path[..i];
      match path[i]
      case RootDir => normalized := ROOT;
      case CurDir =>
      case ParentDir => normalized := Pop(normalized);
      case Normal(_) => normalized := normalized + [path[i]];
    }
    assert path[..|path|] == path;
    if normalized == [] {
      normalized := HERE;
    }
  }

  /** The daemon's copy looks at the empty path first. */
  method NormalizePath(path: Path) returns (normalized: Path)
    ensures normalized == Norm(path)
  {
    if path == [] {
      return HERE;
    }
    normalized := NormalizeLoop(path);
  }

  /** A root, perhaps, and then names only. */
  predicate IsPlain(p: Path) {
    && (p != [] ==> p[0].RootDir? || p[0].Normal?)
    && forall i :: 0 < i < |p| ==> p[i].Normal?
  }

  lemma {:induction false} WalkIsPlain(base: Path, p: Path)
    requires IsPlain(base) && IsPath(p)
    ensures IsPlain(WalkFrom(base, p))
    ensures IsAbsolute(base) ==> IsAbsolute(WalkFrom(base, p))
    ensures IsAbsolute(p) ==> IsAbsolute(WalkFrom(base, p))
    ensures !IsAbsolute(base) && !IsAbsolute(p) ==> !IsAbsolute(WalkFrom(base, p))
  {
    if p != [] {
      WalkIsPlain(base, p[..|p| - 1]);
    }
  }

  lemma {:induction false} WalkOfPlain(p: Path)
    requires IsPlain(p)
    ensures Walk(p) == p
  {
    if p != [] {
      WalkOfPlain(p[..|p| - 1]);
    }
  }

  lemma {:induction false} WalkAppends(base: Path, p: Path, q: Path)
    ensures WalkFrom(base, p + q) == WalkFrom(WalkFrom(base, p), q)
  {
    if q == [] {
      assert p + q == p;
    } else {
      WalkAppends(base, p, q[..|q| - 1]);
      assert (p + q)[..|p + q| - 1] == p + q[..|q| - 1];
    }
  }

  /** Normal paths: names below the root or below here, and nothing left to resolve. */
  lemma NormalizedIsPlain(p: Path)
    requires IsPath(p)
    ensures Norm(p) == HERE || (Norm(p) != [] && IsPlain(Norm(p)))
    ensures IsAbsolute(Norm(p)) <==> IsAbsolute(p)
    ensures ParentDir !in Norm(p)
    ensures Walk(Norm(p)) == Walk(p)
  {
    WalkIsPlain([], p);
    WalkOfPlain(Walk(p));
    assert HERE[..0] == [];
  }

  /** Normalising is idempotent, and the only paths it leaves alone are the normal ones. */
  lemma NormalizingTwice(p: Path)
    requires IsPath(p)
    ensures Norm(Norm(p)) == Norm(p)
    ensures Norm(p) == p <==> p == HERE || (p != [] && IsPlain(p))
  {
    NormalizedIsPlain(p);
    if p != [] && IsPlain(p) {
      WalkOfPlain(p);
    }
    assert HERE[..0] == [];
  }

  // ---- what a relative path means ------------------------------------------

  /** How often the path asks for the parent of the place it started from. */
  function Climb(p: Path): nat {
    if p == [] then 0
    else
      var n := |p| - 1;
      Climb(p[..n]) + if p[n].ParentDir? && Walk(p[..n]) == [] then 1 else 0
  }

  function Up(base: Path, n: nat): Path {
    if n == 0 then base else Pop(Up(base, n - 1))
  }

  lemma PopOfAppended(base: Path, rest: Path)
    requires rest != [] && IsPlain(rest) && !IsAbsolute(rest)
    ensures Pop(base + rest) == base + Pop(rest)
  {
    assert (base + rest)[|base| + |rest| - 1] == rest[|rest| - 1];
    assert (base + rest)[..|base + rest| - 1] == base + rest[..|rest| - 1];
  }

  lemma PushOntoRest(up: Path, rest: Path, c: Component)
    requires IsPlain(rest) && !IsAbsolute(rest) && !c.RootDir? && (c.ParentDir? ==> rest != [])
    ensures PushComponent(up + rest, c) == up + PushComponent(rest, c)
  {
    if c.ParentDir? {
      PopOfAppended(up, rest);
    } else if c.Normal? {
      assert up + rest + [c] == up + (rest + [c]);
    }
  }

  /** From any place it goes up that often, stopping at the root, and then down to where it leads from nowhere. */
  lemma {:induction false} RelativeMeaning(base: Path, p: Path)
    requires IsPath(p) && !IsAbsolute(p)
    ensures WalkFrom(base, p) == Up(base, Climb(p)) + Walk(p)
  {
    if p == [] {
      assert base + [] == base;
    } else {
      var n := |p| - 1;
      RelativeMeaning(base, p[..n]);
      WalkIsPlain([], p[..n]);
      var up, rest := Up(base, Climb(p[..n])), Walk(p[..n]);
      if p[n].ParentDir? && rest == [] {
        assert up + [] == up && Pop(up) + [] == Pop(up);
      } else {
        PushOntoRest(up, rest, p[n]);
      }
    }
  }

  lemma {:induction false} UpShrinks(base: Path, n: nat)
    ensures |Up(base, n)| <= |base|
    ensures n > 0 ==> (|Up(base, n)| == |base| <==> base == [] || base == ROOT)
    ensures (base == [] || base == ROOT) ==> Up(base, n) == base
  {
    if n > 0 {
      UpShrinks(base, n - 1);
    }
  }

  /** What is in front may be normalised first. */
  lemma NormalizingTheFront(base: Path, p: Path)
    requires IsPath(base) && IsPath(p) && !IsAbsolute(p)
    ensures Norm(JoinPaths(Norm(base), p)) == Norm(JoinPaths(base, p))
  {
    NormalizedIsPlain(base);
    WalkOfJoin(Norm(base), p);
    WalkOfJoin(base, p);
  }

  lemma {:induction false} WalkOfJoin(base: Path, p: Path)
    requires IsPath(p) && !IsAbsolute(p)
    ensures Walk(JoinPaths(base, p)) == WalkFrom(Walk(base), p)
  {
    WalkAppends([], base, p);
    if p != [] && p[0].CurDir? && base != [] {
      WalkAppends([], base, p[1..]);
      WalkAppends(Walk(base), HERE, p[1..]);
      assert HERE + p[1..] == p;
      assert HERE[..0] == [];
    }
  }

  /** What follows may not: it loses how far it climbs, so this is right only where that makes no difference. */
  lemma {:induction false} NormalizingTheRest(base: Path, p: Path)
    requires IsPath(base) && IsPath(p) && !IsAbsolute(p)
    ensures Norm(JoinPaths(base, Norm(p))) == Norm(JoinPaths(base, p)) <==>
            Climb(p) == 0 || Norm(base) == ROOT || Norm(base) == HERE
  {
    NormalizedIsPlain(p);
    NormalizedIsPlain(base);
    WalkIsPlain([], p);
    WalkIsPlain([], base);
    WalkOfPlain(Walk(p));
    WalkOfJoin(base, p);
    WalkOfJoin(base, Norm(p));
    var from := Walk(base);
    RelativeMeaning(from, p);
    RelativeMeaning(from, Norm(p));
    PlainNeverClimbs(Norm(p));
    UpShrinks(from, Climb(p));
    var up := Up(from, Climb(p));
    if up != from {
      assert |up + Walk(p)| < |from + Walk(p)|;
    }
  }

  lemma {:induction false} PlainNeverClimbs(p: Path)
    requires IsPlain(p) || p == HERE
    ensures Climb(p) == 0
  {
    if p != [] {
      PlainNeverClimbs(p[..|p| - 1]);
    }
  }

  /** Joining: an absolute path replaces what it is joined to, a relative one is followed from there. */
  lemma {:induction false} JoiningMeaning(base: Path, p: Path)
    requires IsPath(p)
    ensures Norm(JoinPaths(base, p)) == if IsAbsolute(p) then Norm(p) else OrHere(Up(Walk(base), Climb(p)) + Walk(p))
  {
    if !IsAbsolute(p) {
      WalkOfJoin(base, p);
      RelativeMeaning(Walk(base), p);
    }
  }
}
