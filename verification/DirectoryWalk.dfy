/**
 The depth-bounded directory listing with an explicit stack. The file system is a
 function from paths to listings, so that symbolic links may make any path go on
 for ever; only the depth bound ends the walk.
 */
module DirectoryWalk {
  import Paths
  import opened Wrappers

  type Path = Paths.Path

  function Inside(dir: Path, name: string): Path {
    dir + [Paths.Normal(name)]
  }

  /** A name in a directory, and whether following it leads to a directory. */
  datatype Item = Item(name: string, isDir: bool)

  datatype Listing = Unreadable | Items(items: seq<Item>)

  type FileSystem = Path -> Listing

  datatype Child = Child(path: Path, isDirectory: bool)

  datatype Entry = Entry(path: Path, children: seq<Child>)

  // ---- what one directory contributes --------------------------------------

  /** `strip_prefix`, or the path itself. */
  function Shown(root: Path, path: Path): Path {
    if Paths.StartsWith(path, root) then path[|root|..] else path
  }

  function ChildrenOf(root: Path, includeFiles: bool, dir: Path, items: seq<Item>): seq<Child> {
    if items == [] then []
    else
      var n := |items| - 1;
      var item := items[n];
      ChildrenOf(root, includeFiles, dir, items[..n])
      + if item.isDir || includeFiles then [Child(Shown(root, Inside(dir, item.name)), item.isDir)] else []
  }

  function EntryOf(fs: FileSystem, root: Path, includeFiles: bool, dir: Path): Entry
    requires fs(dir).Items?
  {
    Entry(Shown(root, dir), ChildrenOf(root, includeFiles, dir, fs(dir).items))
  }

  function SubDirs(dir: Path, items: seq<Item>): (dirs: seq<Path>)
    ensures |dirs| <= |items|
  {
    if items == [] then []
    else
      var n := |items| - 1;
      SubDirs(dir, items[..n]) + if items[n].isDir then [Inside(dir, items[n].name)] else []
  }

  /** The directories below one at this depth that are to be visited. */
  function Below(fs: FileSystem, maxDepth: nat, dir: Path, depth: nat): seq<Path>
    requires fs(dir).Items?
  {
    if depth + 1 < maxDepth then SubDirs(dir, fs(dir).items) else []
  }

  // ---- the order of the visits ---------------------------------------------

  /** One after the other; the first unreadable directory ends it. */
  function Then(a: Result<seq<Path>, Path>, b: Result<seq<Path>, Path>): Result<seq<Path>, Path> {
    match (a, b)
    case (Ok(x), Ok(y)) => Ok(x + y)
    case (Ok(_), Err(_)) => b
    case (Err(_), _) => a
  }

  /** A directory before everything below it, the last of its directories first. */
  function Visit(fs: FileSystem, maxDepth: nat, dir: Path, depth: nat): Result<seq<Path>, Path>
    decreases maxDepth - depth, 0
  {
    match fs(dir)
    case Unreadable => Err(dir)
    case Items(items) =>
      if depth + 1 < maxDepth then Then(Ok([dir]), VisitAll(fs, maxDepth, SubDirs(dir, items), depth + 1))
      else Ok([dir])
  }

  function VisitAll(fs: FileSystem, maxDepth: nat, dirs: seq<Path>, depth: nat): Result<seq<Path>, Path>
    decreases maxDepth - depth, 1, |dirs|
  {
    if dirs == [] then Ok([])
    else
      var n := |dirs| - 1;
      Then(Visit(fs, maxDepth, dirs[n], depth), VisitAll(fs, maxDepth, dirs[..n], depth))
  }

  /** The plain recursive traversal: the directories of a directory in their order. */
  function Traverse(fs: FileSystem, maxDepth: nat, dir: Path, depth: nat): Result<seq<Path>, Path>
    decreases maxDepth - depth, 0
  {
    match fs(dir)
    case Unreadable => Err(dir)
    case Items(items) =>
      if depth + 1 < maxDepth then Then(Ok([dir]), TraverseAll(fs, maxDepth, SubDirs(dir, items), depth + 1))
      else Ok([dir])
  }

  function TraverseAll(fs: FileSystem, maxDepth: nat, dirs: seq<Path>, depth: nat): Result<seq<Path>, Path>
    decreases maxDepth - depth, 1, |dirs|
  {
    if dirs == [] then Ok([])
    else
      var n := |dirs| - 1;
      Then(TraverseAll(fs, maxDepth, dirs[..n], depth), Traverse(fs, maxDepth, dirs[n], depth))
  }

  // ---- the walk ------------------------------------------------------------

  datatype Pending = Pending(dir: Path, depth: nat)

  function PendingAll(dirs: seq<Path>, depth: nat): (r: seq<Pending>)
    ensures |r| == |dirs| && forall j :: 0 <= j < |dirs| ==> r[j] == Pending(dirs[j], depth)
  {
    seq(|dirs|, j requires 0 <= j < |dirs| => Pending(dirs[j], depth))
  }

  /** What the stack still leads to. */
  function Rest(fs: FileSystem, maxDepth: nat, stack: seq<Pending>): Result<seq<Path>, Path> {
    if stack == [] then Ok([])
    else
      var n := |stack| - 1;
      Then(Visit(fs, maxDepth, stack[n].dir, stack[n].depth), Rest(fs, maxDepth, stack[..n]))
  }

  /** How many visits a directory leads to, were all of them readable. */
  ghost function Weight(fs: FileSystem, maxDepth: nat, dir: Path, depth: nat): nat
    decreases maxDepth - depth, 0
  {
    if fs(dir).Items? && depth + 1 < maxDepth then 1 + WeightAll(fs, maxDepth, SubDirs(dir, fs(dir).items), depth + 1)
    else 1
  }

  ghost function WeightAll(fs: FileSystem, maxDepth: nat, dirs: seq<Path>, depth: nat): nat
    decreases maxDepth - depth, 1, |dirs|
  {
    if dirs == [] then 0
    else
      var n := |dirs| - 1;
      WeightAll(fs, maxDepth, dirs[..n], depth) + Weight(fs, maxDepth, dirs[n], depth)
  }

  ghost function StackWeight(fs: FileSystem, maxDepth: nat, stack: seq<Pending>): nat {
    if stack == [] then 0
    else
      var n := |stack| - 1;
      StackWeight(fs, maxDepth, stack[..n]) + Weight(fs, maxDepth, stack[n].dir, stack[n].depth)
  }

  lemma {:induction false} PushedAll(fs: FileSystem, maxDepth: nat, stack: seq<Pending>, dirs: seq<Path>, depth: nat)
    ensures var pushed := stack + PendingAll(dirs, depth);
            && Rest(fs, maxDepth, pushed) == Then(VisitAll(fs, maxDepth, dirs, depth), Rest(fs, maxDepth, stack))
            && StackWeight(fs, maxDepth, pushed)
               == StackWeight(fs, maxDepth, stack) + WeightAll(fs, maxDepth, dirs, depth)
  {
    var pushed := stack + PendingAll(dirs, depth);
    if dirs == [] {
      assert pushed == stack;
      ThenUnit(Rest(fs, maxDepth, stack));
    } else {
      var n := |dirs| - 1;
      PushedAll(fs, maxDepth, stack, dirs[..n], depth);
      assert pushed[..|pushed| - 1] == stack + PendingAll(dirs[..n], depth);
      ThenAssociates(Visit(fs, maxDepth, dirs[n], depth), VisitAll(fs, maxDepth, dirs[..n], depth),
                     Rest(fs, maxDepth, stack));
    }
  }

  lemma ThenUnit(a: Result<seq<Path>, Path>)
    ensures Then(Ok([]), a) == a
  {
    if a.Ok? {
      assert [] + a.value == a.value;
    }
  }

  lemma ThenAssociates(a: Result<seq<Path>, Path>, b: Result<seq<Path>, Path>, c: Result<seq<Path>, Path>)
    ensures Then(Then(a, b), c) == Then(a, Then(b, c))
  {
    if a.Ok? && b.Ok? && c.Ok? {
      assert a.value + b.value + c.value == a.value + (b.value + c.value);
    }
  }

  /** The entries, given the order in which the directories were visited. */
  ghost predicate Lists(fs: FileSystem, root: Path, includeFiles: bool, visited: seq<Path>, output: seq<Entry>) {
    && |output| == |visited|
    && forall j :: 0 <= j < |visited| ==>
         fs(visited[j]).Items? && output[j] == EntryOf(fs, root, includeFiles, visited[j])
  }

  /** The loop over one directory: the children to show, and the directories to visit pushed in their order. */
  method ReadEntries(root: Path, includeFiles: bool, top: Pending, items: seq<Item>, maxDepth: nat,
                     below: seq<Pending>) returns (children: seq<Child>, stack: seq<Pending>)
    ensures children == ChildrenOf(root, includeFiles, top.dir, items)
    ensures stack == below + PendingAll(if top.depth + 1 < maxDepth then SubDirs(top.dir, items) else [], top.depth + 1)
  {
    children, stack := [], below;
    ghost var pushed: seq<Path> := [];
    for k := 0 to |items|
      invariant children == ChildrenOf(root, includeFiles, top.dir, items[..k])
      invariant stack == below + PendingAll(pushed, top.depth + 1)
      invariant pushed == if top.depth + 1 < maxDepth then SubDirs(top.dir, items[..k]) else []
    {
      assert items[..k + 1][..k] == items[..k];
      var path := Inside(top.dir, items[k].name);
      if items[k].isDir {
        children := children + [Child(Shown(root, path), true)];
        if top.depth + 1 < maxDepth {
          PushedOne(below, pushed, path, top.depth + 1);
          stack := stack + [Pending(path, top.depth + 1)];
          pushed := pushed + [path];
        }
      } else if includeFiles {
        children := children + [Child(Shown(root, path), false)];
      }
    }
    assert items[..|items|] == items;
  }

  lemma PushedOne(below: seq<Pending>, pushed: seq<Path>, path: Path, depth: nat)
    ensures below + PendingAll(pushed + [path], depth) == below + PendingAll(pushed, depth) + [Pending(path, depth)]
  {
  }

  method CollectEntries(fs: FileSystem, start: Path, root: Path, includeFiles: bool, maxDepth: nat)
      returns (r: Result<seq<Entry>, Path>)
    ensures var visits := Visit(fs, maxDepth, start, 0);
            && (visits.Err? ==> r == Err(visits.error))
            && (visits.Ok? ==> r.Ok? && Lists(fs, root, includeFiles, visits.value, r.value))
  {
    var stack := [Pending(start, 0)];
    var output: seq<Entry> := [];
    ghost var visited: seq<Path> := [];
    ghost var visits := Visit(fs, maxDepth, start, 0);
    StartOfWalk(fs, maxDepth, start);
    while stack != []
      invariant Then(Ok(visited), Rest(fs, maxDepth, stack)) == visits
      invariant Lists(fs, root, includeFiles, visited, output)
      decreases StackWeight(fs, maxDepth, stack)
    {
      var top := stack[|stack| - 1];
      var below := stack[..|stack| - 1];
      OneVisit(fs, maxDepth, below, top, visited);
      if fs(top.dir).Unreadable? {
        return Err(top.dir);
      }
      var children;
      children, stack := ReadEntries(root, includeFiles, top, fs(top.dir).items, maxDepth, below);
      output := output + [Entry(Shown(root, top.dir), children)];
      visited := visited + [top.dir];
    }
    assert visited + [] == visited;
    r := Ok(output);
  }

  lemma {:induction false} StartOfWalk(fs: FileSystem, maxDepth: nat, start: Path)
    ensures Then(Ok([]), Rest(fs, maxDepth, [Pending(start, 0)])) == Visit(fs, maxDepth, start, 0)
  {
    var stack := [Pending(start, 0)];
    assert stack[..0] == [];
    var visits := Visit(fs, maxDepth, start, 0);
    ThenUnit(Rest(fs, maxDepth, stack));
    if visits.Ok? {
      assert visits.value + [] == visits.value;
    }
  }

  /** Taking the top of the stack and putting the directories below it in its place. */
  lemma {:induction false} OneVisit(fs: FileSystem, maxDepth: nat, below: seq<Pending>, top: Pending, visited: seq<Path>)
    ensures var stack := below + [top];
            && (fs(top.dir).Unreadable? ==> Then(Ok(visited), Rest(fs, maxDepth, stack)) == Err(top.dir))
            && (fs(top.dir).Items? ==>
                  var next := below + PendingAll(Below(fs, maxDepth, top.dir, top.depth), top.depth + 1);
                  && Then(Ok(visited), Rest(fs, maxDepth, stack))
                     == Then(Ok(visited + [top.dir]), Rest(fs, maxDepth, next))
                  && StackWeight(fs, maxDepth, next) < StackWeight(fs, maxDepth, stack))
  {
    var stack := below + [top];
    assert stack[..|below|] == below;
    if fs(top.dir).Items? {
      var dirs := Below(fs, maxDepth, top.dir, top.depth);
      PushedAll(fs, maxDepth, below, dirs, top.depth + 1);
      var lower, rest := VisitAll(fs, maxDepth, dirs, top.depth + 1), Rest(fs, maxDepth, below);
      assert [top.dir] + [] == [top.dir];
      assert Visit(fs, maxDepth, top.dir, top.depth) == Then(Ok([top.dir]), lower);
      ThenAssociates(Ok([top.dir]), lower, rest);
      ThenAssociates(Ok(visited), Ok([top.dir]), Then(lower, rest));
    }
  }
}
