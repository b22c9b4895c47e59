/** Which directories the listing visits, how often, and when it fails. */
module DirectoryReach {
  import opened DirectoryWalk
  import Paths
  import opened Wrappers

  /** Following these names from a directory always leads to a directory. */
  ghost predicate Leads(fs: FileSystem, dir: Path, names: Path)
    decreases |names|
  {
    names == []
    || (&& names[0].Normal? && fs(dir).Items? && Item(names[0].name, true) in fs(dir).items
        && Leads(fs, Inside(dir, names[0].name), names[1..]))
  }

  /** `p` is the directory itself or a directory below it, nested less deeply than the bound. */
  ghost predicate Reached(fs: FileSystem, maxDepth: nat, dir: Path, depth: nat, p: Path) {
    && dir <= p
    && Leads(fs, dir, p[|dir|..])
    && (p == dir || depth + |p| - |dir| < maxDepth)
  }

  ghost predicate ReachedFromAny(fs: FileSystem, maxDepth: nat, dirs: seq<Path>, depth: nat, p: Path) {
    exists j :: 0 <= j < |dirs| && Reached(fs, maxDepth, dirs[j], depth, p)
  }

  lemma {:induction false} SubDirsAre(dir: Path, items: seq<Item>, p: Path)
    ensures p in SubDirs(dir, items) <==>
            |p| == |dir| + 1 && dir <= p && p[|dir|].Normal? && Item(p[|dir|].name, true) in items
  {
    if items != [] {
      var n := |items| - 1;
      SubDirsAre(dir, items[..n], p);
      assert items == items[..n] + [items[n]];
      assert dir <= p && |p| == |dir| + 1 ==> p == dir + [p[|dir|]];
    }
  }

  lemma ReachedBelow(fs: FileSystem, maxDepth: nat, dir: Path, depth: nat, p: Path)
    requires fs(dir).Items? && p != dir
    ensures Reached(fs, maxDepth, dir, depth, p) <==>
            ReachedFromAny(fs, maxDepth, Below(fs, maxDepth, dir, depth), depth + 1, p)
  {
    var items, below := fs(dir).items, Below(fs, maxDepth, dir, depth);
    if Reached(fs, maxDepth, dir, depth, p) {
      var names := p[|dir|..];
      assert names != [] by { assert p == dir + names; }
      var sub := dir + [names[0]];
      assert sub == Inside(dir, names[0].name);
      SubDirsAre(dir, items, sub);
      assert p[|sub|..] == names[1..] && sub <= p;
      assert Reached(fs, maxDepth, sub, depth + 1, p);
      var j :| 0 <= j < |below| && below[j] == sub;
      assert Reached(fs, maxDepth, below[j], depth + 1, p);
    }
    if ReachedFromAny(fs, maxDepth, below, depth + 1, p) {
      var j :| 0 <= j < |below| && Reached(fs, maxDepth, below[j], depth + 1, p);
      var sub := below[j];
      SubDirsAre(dir, items, sub);
      var names := p[|dir|..];
      assert names[0] == sub[|dir|] && names[1..] == p[|sub|..] && sub == dir + [names[0]];
    }
  }

  lemma ReachedFromLast(fs: FileSystem, maxDepth: nat, dirs: seq<Path>, depth: nat, p: Path)
    requires dirs != []
    ensures var n := |dirs| - 1;
            ReachedFromAny(fs, maxDepth, dirs, depth, p) <==>
            Reached(fs, maxDepth, dirs[n], depth, p) || ReachedFromAny(fs, maxDepth, dirs[..n], depth, p)
  {
    var n := |dirs| - 1;
    if ReachedFromAny(fs, maxDepth, dirs[..n], depth, p) {
      var j :| 0 <= j < n && Reached(fs, maxDepth, dirs[..n][j], depth, p);
      assert Reached(fs, maxDepth, dirs[j], depth, p);
    }
    if ReachedFromAny(fs, maxDepth, dirs, depth, p) {
      var j :| 0 <= j < |dirs| && Reached(fs, maxDepth, dirs[j], depth, p);
      assert j < n ==> Reached(fs, maxDepth, dirs[..n][j], depth, p);
    }
  }

  // ---- exactly the reachable directories -----------------------------------

  /** The walk goes through exactly these, and fails on an unreadable one of them or on none. */
  ghost predicate Exactly(fs: FileSystem, visits: Result<seq<Path>, Path>, reached: Path -> bool) {
    match visits
    case Ok(visited) => forall p :: (p in visited <==> reached(p)) && (reached(p) ==> fs(p).Items?)
    case Err(p) => reached(p) && fs(p).Unreadable?
  }

  /**
   The walk succeeds exactly when every directory within the bound is readable, and
   then visits those and no others; otherwise it names one that is not.
   */
  lemma {:induction false} VisitsTheReachable(fs: FileSystem, maxDepth: nat, dir: Path, depth: nat)
    ensures Exactly(fs, Visit(fs, maxDepth, dir, depth), p => Reached(fs, maxDepth, dir, depth, p))
    decreases maxDepth - depth, 0
  {
    var visits := Visit(fs, maxDepth, dir, depth);
    assert dir[|dir|..] == [];
    if fs(dir).Unreadable? {
      assert Reached(fs, maxDepth, dir, depth, dir);
    } else {
      forall p | p != dir {
        ReachedBelow(fs, maxDepth, dir, depth, p);
      }
      var below := Below(fs, maxDepth, dir, depth);
      if depth + 1 < maxDepth {
        AllVisitTheReachable(fs, maxDepth, below, depth + 1);
        var lower := VisitAll(fs, maxDepth, below, depth + 1);
        if lower.Err? {
          SubDirsAreLonger(fs, maxDepth, below, |dir| + 1, dir, depth, lower.error);
        }
      }
    }
  }

  lemma SubDirsAreLonger(fs: FileSystem, maxDepth: nat, below: seq<Path>, n: nat, dir: Path, depth: nat, p: Path)
    requires fs(dir).Items? && below == Below(fs, maxDepth, dir, depth) && n == |dir| + 1
    requires ReachedFromAny(fs, maxDepth, below, depth + 1, p)
    ensures |p| >= n
  {
    var j :| 0 <= j < |below| && Reached(fs, maxDepth, below[j], depth + 1, p);
    SubDirsAre(dir, fs(dir).items, below[j]);
  }

  lemma {:induction false} AllVisitTheReachable(fs: FileSystem, maxDepth: nat, dirs: seq<Path>, depth: nat)
    ensures Exactly(fs, VisitAll(fs, maxDepth, dirs, depth), p => ReachedFromAny(fs, maxDepth, dirs, depth, p))
    decreases maxDepth - depth, 1, |dirs|
  {
    if dirs != [] {
      var n := |dirs| - 1;
      VisitsTheReachable(fs, maxDepth, dirs[n], depth);
      AllVisitTheReachable(fs, maxDepth, dirs[..n], depth);
      forall p {
        ReachedFromLast(fs, maxDepth, dirs, depth, p);
      }
    }
  }

  // ---- each of them once ---------------------------------------------------

  ghost predicate DistinctNames(fs: FileSystem) {
    forall dir :: fs(dir).Items? ==> Distinct(fs(dir).items)
  }

  ghost predicate Distinct(items: seq<Item>) {
    forall i, j :: 0 <= i < j < |items| ==> items[i].name != items[j].name
  }

  ghost predicate Once(visited: seq<Path>) {
    forall i, j :: 0 <= i < j < |visited| ==> visited[i] != visited[j]
  }

  ghost predicate SameLength(dirs: seq<Path>, n: nat) {
    forall j :: 0 <= j < |dirs| ==> |dirs[j]| == n
  }

  lemma {:induction false} SubDirsOnce(dir: Path, items: seq<Item>)
    requires Distinct(items)
    ensures Once(SubDirs(dir, items)) && SameLength(SubDirs(dir, items), |dir| + 1)
  {
    if items != [] {
      var n := |items| - 1;
      SubDirsOnce(dir, items[..n]);
      SubDirsAre(dir, items[..n], Inside(dir, items[n].name));
      assert forall i :: 0 <= i < n ==> items[..n][i].name != items[n].name;
    }
  }

  lemma OnceTogether(a: seq<Path>, b: seq<Path>)
    requires Once(a) && Once(b) && forall p :: p in a ==> p !in b
    ensures Once(a + b)
  {
    forall i, j | 0 <= i < j < |a + b|
      ensures (a + b)[i] != (a + b)[j]
    {
      if i < |a| <= j {
        assert a[i] in a && b[j - |a|] in b;
      }
    }
  }

  lemma OnePrefix(a: Path, b: Path, p: Path)
    requires |a| == |b| && a != b && b <= p
    ensures !(a <= p)
  {
    assert b == p[..|a|];
  }

  /** No directory is visited twice, however the links go round. */
  lemma {:induction false} VisitsOnce(fs: FileSystem, maxDepth: nat, dir: Path, depth: nat)
    requires DistinctNames(fs) && Visit(fs, maxDepth, dir, depth).Ok?
    ensures Once(Visit(fs, maxDepth, dir, depth).value)
    decreases maxDepth - depth, 0
  {
    if depth + 1 < maxDepth {
      var below := SubDirs(dir, fs(dir).items);
      SubDirsOnce(dir, fs(dir).items);
      AllVisitOnce(fs, maxDepth, below, depth + 1, |dir| + 1);
      AllVisitTheReachable(fs, maxDepth, below, depth + 1);
      OnceTogether([dir], VisitAll(fs, maxDepth, below, depth + 1).value);
    }
  }

  lemma {:induction false} AllVisitOnce(fs: FileSystem, maxDepth: nat, dirs: seq<Path>, depth: nat, n: nat)
    requires DistinctNames(fs) && VisitAll(fs, maxDepth, dirs, depth).Ok? && Once(dirs) && SameLength(dirs, n)
    ensures Once(VisitAll(fs, maxDepth, dirs, depth).value)
    decreases maxDepth - depth, 1, |dirs|
  {
    if dirs != [] {
      var m := |dirs| - 1;
      VisitsOnce(fs, maxDepth, dirs[m], depth);
      AllVisitOnce(fs, maxDepth, dirs[..m], depth, n);
      VisitsTheReachable(fs, maxDepth, dirs[m], depth);
      AllVisitTheReachable(fs, maxDepth, dirs[..m], depth);
      var last, earlier := Visit(fs, maxDepth, dirs[m], depth).value, VisitAll(fs, maxDepth, dirs[..m], depth).value;
      forall p | p in last
        ensures p !in earlier
      {
        forall j | 0 <= j < m
          ensures !Reached(fs, maxDepth, dirs[..m][j], depth, p)
        {
          OnePrefix(dirs[j], dirs[m], p);
        }
      }
      OnceTogether(last, earlier);
    }
  }

  // ---- the same directories as a recursive traversal -----------------------

  lemma {:induction false} SameAsTraversal(fs: FileSystem, maxDepth: nat, dir: Path, depth: nat)
    ensures SameVisits(Visit(fs, maxDepth, dir, depth), Traverse(fs, maxDepth, dir, depth))
    decreases maxDepth - depth, 0
  {
    if fs(dir).Items? && depth + 1 < maxDepth {
      AllSameAsTraversal(fs, maxDepth, SubDirs(dir, fs(dir).items), depth + 1);
    }
  }

  /** Both fail, or both go through the same directories the same number of times. */
  ghost predicate SameVisits(a: Result<seq<Path>, Path>, b: Result<seq<Path>, Path>) {
    && (a.Ok? <==> b.Ok?)
    && (a.Ok? ==> multiset(a.value) == multiset(b.value))
  }

  lemma {:induction false} AllSameAsTraversal(fs: FileSystem, maxDepth: nat, dirs: seq<Path>, depth: nat)
    ensures SameVisits(VisitAll(fs, maxDepth, dirs, depth), TraverseAll(fs, maxDepth, dirs, depth))
    decreases maxDepth - depth, 1, |dirs|
  {
    if dirs != [] {
      var n := |dirs| - 1;
      SameAsTraversal(fs, maxDepth, dirs[n], depth);
      AllSameAsTraversal(fs, maxDepth, dirs[..n], depth);
    }
  }

  // ---- the listing ---------------------------------------------------------

  /**
   A successful listing has one entry per directory nested less deeply than the bound,
   each once, and none for anything else.
   */
  lemma ListingIsExact(fs: FileSystem, start: Path, root: Path, includeFiles: bool, maxDepth: nat, output: seq<Entry>)
      returns (visited: seq<Path>)
    requires DistinctNames(fs)
    requires Visit(fs, maxDepth, start, 0).Ok?
    requires Lists(fs, root, includeFiles, Visit(fs, maxDepth, start, 0).value, output)
    ensures Lists(fs, root, includeFiles, visited, output) && Once(visited)
    ensures forall p :: p in visited <==> Reached(fs, maxDepth, start, 0, p)
    ensures root <= start ==> forall j :: 0 <= j < |output| ==> root + output[j].path == visited[j]
  {
    visited := Visit(fs, maxDepth, start, 0).value;
    VisitsTheReachable(fs, maxDepth, start, 0);
    VisitsOnce(fs, maxDepth, start, 0);
    if root <= start {
      forall j | 0 <= j < |output|
        ensures root + output[j].path == visited[j]
      {
        assert visited[j] in visited;
        ShownInFull(root, visited[j]);
      }
    }
  }

  /** Below the root of the listing the path shown is the rest of the path; elsewhere it is the path. */
  lemma ShownInFull(root: Path, path: Path)
    ensures if root <= path then root + Shown(root, path) == path else Shown(root, path) == path
  {
  }

  /** Its children are the directories in it and, if asked for, the other things. */
  lemma {:induction false} ChildrenAre(root: Path, includeFiles: bool, dir: Path, items: seq<Item>, c: Child)
    ensures c in ChildrenOf(root, includeFiles, dir, items) <==>
            exists i :: 0 <= i < |items| && (items[i].isDir || includeFiles)
                        && c == Child(Shown(root, Inside(dir, items[i].name)), items[i].isDir)
  {
    if items != [] {
      var n := |items| - 1;
      ChildrenAre(root, includeFiles, dir, items[..n], c);
      assert forall i :: 0 <= i < n ==> items[..n][i] == items[i];
    }
  }

  /** How many of the items are shown. */
  function ShownCount(includeFiles: bool, items: seq<Item>): nat {
    if items == [] then 0
    else ShownCount(includeFiles, items[..|items| - 1]) + if items[|items| - 1].isDir || includeFiles then 1 else 0
  }

  /** And in the order of the listing: each stands behind the children shown before it, under its whole path. */
  lemma {:induction false} ChildrenInOrder(root: Path, includeFiles: bool, dir: Path, items: seq<Item>, i: nat)
    requires root <= dir && i < |items| && (items[i].isDir || includeFiles)
    ensures var children, at := ChildrenOf(root, includeFiles, dir, items), ShownCount(includeFiles, items[..i]);
            && |children| == ShownCount(includeFiles, items) && at < |children|
            && root + children[at].path == dir + [Paths.Normal(items[i].name)]
            && children[at].isDirectory == items[i].isDir
  {
    var n := |items| - 1;
    ChildrenCounted(root, includeFiles, dir, items);
    ChildrenCounted(root, includeFiles, dir, items[..n]);
    if i < n {
      ChildrenInOrder(root, includeFiles, dir, items[..n], i);
      assert items[..n][..i] == items[..i];
    } else {
      ShownInFull(root, Inside(dir, items[i].name));
    }
  }

  lemma {:induction false} ChildrenCounted(root: Path, includeFiles: bool, dir: Path, items: seq<Item>)
    ensures |ChildrenOf(root, includeFiles, dir, items)| == ShownCount(includeFiles, items)
  {
    if items != [] {
      ChildrenCounted(root, includeFiles, dir, items[..|items| - 1]);
    }
  }
}
