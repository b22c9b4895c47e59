/** The order of the approval levels, against the paths each level may access. */
module ApprovalLevels {
  import opened Paths

  datatype ApprovalLevel = Untrusted | Ask | Moderate | Trusted | Privileged(allowedPaths: seq<Path>)

  predicate UnderAny(path: Path, allowed: seq<Path>) {
    exists a :: a in allowed && (StartsWith(path, a) || path == a)
  }

  predicate CanAccessPath(level: ApprovalLevel, path: Path) {
    if level.Privileged? then UnderAny(path, level.allowedPaths) else true
  }

  function SecurityRank(level: ApprovalLevel): nat {
    match level
    case Untrusted => 0
    case Ask => 1
    case Moderate => 2
    case Trusted => 3
    case Privileged(_) => 4
  }

  predicate Satisfies(level: ApprovalLevel, required: ApprovalLevel) {
    match (level, required)
    case (Privileged(ours), Privileged(theirs)) => forall req :: req in theirs ==> UnderAny(req, ours)
    case (Privileged(_), _) => true
    case _ => SecurityRank(level) >= SecurityRank(required)
  }

  /** Every path the required level can access the other can access too. */
  ghost predicate Covers(level: ApprovalLevel, required: ApprovalLevel) {
    forall path :: CanAccessPath(required, path) ==> CanAccessPath(level, path)
  }

  lemma UnderIsTransitive(path: Path, middle: Path, allowed: seq<Path>)
    requires StartsWith(path, middle) && UnderAny(middle, allowed)
    ensures UnderAny(path, allowed)
  {
    var a :| a in allowed && StartsWith(middle, a);
    assert StartsWith(path, a);
  }

  lemma SatisfiesIsReflexive(a: ApprovalLevel)
    ensures Satisfies(a, a)
  {
    if a.Privileged? {
      forall req | req in a.allowedPaths
        ensures UnderAny(req, a.allowedPaths)
      {
        assert StartsWith(req, req);
      }
    }
  }

  lemma SatisfiesIsTransitive(a: ApprovalLevel, b: ApprovalLevel, c: ApprovalLevel)
    requires Satisfies(a, b) && Satisfies(b, c)
    ensures Satisfies(a, c)
  {
    if a.Privileged? && b.Privileged? && c.Privileged? {
      forall req | req in c.allowedPaths
        ensures UnderAny(req, a.allowedPaths)
      {
        var middle :| middle in b.allowedPaths && StartsWith(req, middle);
        UnderIsTransitive(req, middle, a.allowedPaths);
      }
    }
  }

  /** The levels that open every path, the least trusted first. */
  const LADDER: seq<ApprovalLevel> := [Untrusted, Ask, Moderate, Trusted]

  /** On the ladder a level satisfies itself and what is below it; privileged levels satisfy all of it and are satisfied by none of it. */
  lemma LadderIsOrdered(i: nat, j: nat, allowed: seq<Path>)
    requires i < |LADDER| && j < |LADDER|
    ensures Satisfies(LADDER[i], LADDER[j]) <==> i >= j
    ensures Satisfies(Privileged(allowed), LADDER[j]) && !Satisfies(LADDER[i], Privileged(allowed))
  {
    assert LADDER[0] == Untrusted && LADDER[1] == Ask && LADDER[2] == Moderate && LADDER[3] == Trusted;
  }

  lemma EveryLevelIsOnTheLadder(level: ApprovalLevel)
    ensures level.Privileged? || level in LADDER
  {
    assert LADDER[0] == Untrusted && LADDER[1] == Ask && LADDER[2] == Moderate && LADDER[3] == Trusted;
  }

  /** Between privileged levels satisfying is covering. */
  lemma PrivilegedSatisfiesIsCovers(a: ApprovalLevel, b: ApprovalLevel)
    requires a.Privileged? && b.Privileged?
    ensures Satisfies(a, b) <==> Covers(a, b)
  {
    if Satisfies(a, b) {
      forall path | CanAccessPath(b, path)
        ensures CanAccessPath(a, path)
      {
        var middle :| middle in b.allowedPaths && StartsWith(path, middle);
        UnderIsTransitive(path, middle, a.allowedPaths);
      }
    }
    if Covers(a, b) {
      forall req | req in b.allowedPaths
        ensures UnderAny(req, a.allowedPaths)
      {
        assert StartsWith(req, req) && CanAccessPath(b, req);
      }
    }
  }

  /**
   In general it is not: a privileged level satisfies every other level, yet covers
   one that is not privileged only if it allows the empty path.
   */
  lemma SatisfiesCoversExactly(a: ApprovalLevel, b: ApprovalLevel)
    requires Satisfies(a, b)
    ensures Covers(a, b) <==> (a.Privileged? ==> b.Privileged? || [] in a.allowedPaths)
  {
    if a.Privileged? && b.Privileged? {
      PrivilegedSatisfiesIsCovers(a, b);
    } else if a.Privileged? {
      assert CanAccessPath(b, []);
      if [] in a.allowedPaths {
        forall path
          ensures UnderAny(path, a.allowedPaths)
        {
          assert StartsWith(path, []);
        }
      }
    }
  }
}
