/**
 The merge assistant on the text of one file: listing conflicts, choosing
 resolutions and writing the resolved text. Listing and resolving scan the file
 with a loop each; both are proved against one account of where the hunks are.
 */
module MergeAssist {
  import opened MergeText
  import opened Wrappers

  const SEPARATOR := "======="
  const CLOSE := ">>>>>>>"
  const BETWEEN := "\n// --- theirs ---\n"

  datatype Hunk = Hunk(startLine: nat, endLine: nat, ours: string, theirs: string)

  datatype Resolution = Resolution(hunkIndex: nat, choice: string)

  /** The two loops report the same defect under different names. */
  datatype MergeError = UnbalancedMarkers | ParseError

  // ---- where the hunks are -------------------------------------------------

  /** A line outside every hunk, or a hunk given by its first line after the marker, its separator and its end. */
  datatype Piece = Context(at: nat) | Conflict(start: nat, sep: nat, end: nat) {
    function From(): int { if Context? then at else start - 1 }
    function To(): nat { if Context? then at + 1 else end + 1 }
  }

  predicate Within(lines: seq<string>, piece: Piece) {
    if piece.Context? then piece.at < |lines| else 0 < piece.start <= piece.sep < piece.end < |lines|
  }

  predicate AllWithin(lines: seq<string>, pieces: seq<Piece>) {
    forall j :: 0 <= j < |pieces| ==> Within(lines, pieces[j])
  }

  /** The first line at or after `from` that starts with the mark, or the number of lines. */
  function First(lines: seq<string>, mark: string, from: nat): (i: nat)
    requires from <= |lines|
    ensures from <= i <= |lines| && (i < |lines| ==> mark <= lines[i])
    ensures forall k :: from <= k < i ==> !(mark <= lines[k])
    decreases |lines| - from
  {
    if from == |lines| || mark <= lines[from] then from else First(lines, mark, from + 1)
  }

  /** The separator and the end of the hunk whose first line is `start`. */
  function SepOf(lines: seq<string>, start: nat): nat
    requires start <= |lines|
  {
    First(lines, SEPARATOR, start)
  }

  function EndOf(lines: seq<string>, start: nat): nat
    requires start <= |lines|
  {
    First(lines, CLOSE, start)
  }

  predicate Balanced(lines: seq<string>, start: nat)
    requires start <= |lines|
  {
    SepOf(lines, start) < EndOf(lines, start) < |lines|
  }

  function Scan(lines: seq<string>, i: nat): (r: Option<seq<Piece>>)
    requires i <= |lines|
    ensures r.Some? ==> AllWithin(lines, r.value)
    decreases |lines| - i
  {
    if i == |lines| then Some([])
    else if IsOpen(lines[i]) then
      var start := i + 1;
      var sep, end := SepOf(lines, start), EndOf(lines, start);
      if Balanced(lines, start) then Prefixed([Conflict(start, sep, end)], Scan(lines, end + 1)) else None
    else Prefixed([Context(i)], Scan(lines, i + 1))
  }

  function ConflictAt(lines: seq<string>, start: nat): Piece
    requires start <= |lines|
  {
    Conflict(start, SepOf(lines, start), EndOf(lines, start))
  }

  function Prefixed(done: seq<Piece>, rest: Option<seq<Piece>>): Option<seq<Piece>> {
    match rest
    case None => None
    case Some(pieces) => Some(done + pieces)
  }

  lemma PrefixedTwice(done: seq<Piece>, piece: Piece, rest: Option<seq<Piece>>)
    ensures Prefixed(done, Prefixed([piece], rest)) == Prefixed(done + [piece], rest)
  {
    if rest.Some? {
      assert done + ([piece] + rest.value) == done + [piece] + rest.value;
    }
  }

  // ---- the same, without a scan --------------------------------------------

  ghost predicate Fits(lines: seq<string>, piece: Piece) {
    match piece
    case Context(i) => i < |lines| && !IsOpen(lines[i])
    case Conflict(start, sep, end) =>
      && 0 < start <= sep < end < |lines|
      && IsOpen(lines[start - 1]) && SEPARATOR <= lines[sep] && CLOSE <= lines[end]
      && (forall k :: start <= k < sep ==> !(SEPARATOR <= lines[k]))
      && (forall k :: start <= k < end ==> !(CLOSE <= lines[k]))
  }

  /** The pieces stand one behind the other and cover the lines from `i` on. */
  ghost predicate Tile(lines: seq<string>, pieces: seq<Piece>, i: nat) {
    && (forall j :: 0 <= j < |pieces| ==> Fits(lines, pieces[j]))
    && (forall j :: 0 < j < |pieces| ==> pieces[j].From() == pieces[j - 1].To())
    && i == (if pieces == [] then |lines| else pieces[0].From())
    && (pieces != [] ==> pieces[|pieces| - 1].To() == |lines|)
  }

  lemma TileTail(lines: seq<string>, pieces: seq<Piece>, i: nat)
    requires pieces != []
    ensures Tile(lines, pieces, i) <==>
            Fits(lines, pieces[0]) && pieces[0].From() == i && Tile(lines, pieces[1..], pieces[0].To())
  {
    var tail := pieces[1..];
    if Fits(lines, pieces[0]) && pieces[0].From() == i && Tile(lines, tail, pieces[0].To()) {
      assert forall j :: 0 < j < |pieces| ==> pieces[j] == tail[j - 1];
      forall j | 0 < j < |pieces|
        ensures pieces[j].From() == pieces[j - 1].To()
      {
        if j > 1 {
          assert tail[j - 1].From() == tail[j - 2].To();
        }
      }
    }
    if Tile(lines, pieces, i) {
      assert forall j :: 0 <= j < |tail| ==> tail[j] == pieces[j + 1];
    }
  }

  /** A hunk that fits is the one the search finds. */
  lemma FittingHunk(lines: seq<string>, piece: Piece)
    requires piece.Conflict? && 0 < piece.start <= |lines| && IsOpen(lines[piece.start - 1])
    ensures Fits(lines, piece) <==>
            Balanced(lines, piece.start) && piece.sep == SepOf(lines, piece.start) && piece.end == EndOf(lines, piece.start)
  {
    if Fits(lines, piece) {
      assert First(lines, SEPARATOR, piece.start) == piece.sep;
      assert First(lines, CLOSE, piece.start) == piece.end;
    }
  }

  lemma {:induction false} ScanCons(lines: seq<string>, piece: Piece, rest: seq<Piece>)
    requires Fits(lines, piece) && Scan(lines, piece.To()) == Some(rest)
    ensures Scan(lines, piece.From()) == Some([piece] + rest)
  {
    if piece.Conflict? {
      FittingHunk(lines, piece);
    }
  }

  lemma {:induction false} ScanHead(lines: seq<string>, i: nat)
    requires i < |lines| && Scan(lines, i).Some?
    ensures var pieces := Scan(lines, i).value;
            && pieces != [] && pieces[0].From() == i && Fits(lines, pieces[0])
            && Scan(lines, pieces[0].To()) == Some(pieces[1..])
  {
    if IsOpen(lines[i]) {
      var piece := ConflictAt(lines, i + 1);
      var rest := Scan(lines, piece.To()).value;
      FittingHunk(lines, piece);
      assert ([piece] + rest)[1..] == rest;
    } else {
      var rest := Scan(lines, i + 1).value;
      assert ([Context(i)] + rest)[1..] == rest;
    }
  }

  /** The scan accepts a file exactly when it can be tiled, and then finds the only tiling. */
  lemma {:induction false} ScanIsTheTiling(lines: seq<string>, i: nat, pieces: seq<Piece>)
    requires i <= |lines|
    ensures Scan(lines, i) == Some(pieces) <==> Tile(lines, pieces, i)
    decreases |lines| - i
  {
    if i == |lines| {
      if pieces != [] {
        NoTilePastTheEnd(lines, pieces, i);
      }
    } else if pieces != [] && pieces[0].From() == i {
      TileTail(lines, pieces, i);
      assert pieces == [pieces[0]] + pieces[1..];
      if Scan(lines, i) == Some(pieces) {
        ScanHead(lines, i);
      }
      if Fits(lines, pieces[0]) {
        ScanIsTheTiling(lines, pieces[0].To(), pieces[1..]);
        if Scan(lines, pieces[0].To()) == Some(pieces[1..]) {
          ScanCons(lines, pieces[0], pieces[1..]);
        }
      }
    } else if Scan(lines, i).Some? {
      ScanHead(lines, i);
    }
  }

  lemma NoTilePastTheEnd(lines: seq<string>, pieces: seq<Piece>, i: nat)
    requires pieces != [] && i == |lines|
    ensures !Tile(lines, pieces, i)
  {
    assert Fits(lines, pieces[0]) ==> pieces[0].From() < |lines|;
  }

  // ---- hunks and resolved text ---------------------------------------------

  predicate AllConflicts(found: seq<Piece>) {
    forall j :: 0 <= j < |found| ==> found[j].Conflict?
  }

  function Conflicts(pieces: seq<Piece>): (r: seq<Piece>)
    ensures |r| <= |pieces| && forall j :: 0 <= j < |r| ==> r[j].Conflict? && r[j] in pieces
  {
    if pieces == [] then []
    else
      var n := |pieces| - 1;
      Conflicts(pieces[..n]) + if pieces[n].Conflict? then [pieces[n]] else []
  }

  function HunkOf(lines: seq<string>, piece: Piece): Hunk
    requires piece.Conflict? && Within(lines, piece)
  {
    Hunk(piece.start, piece.end, Join(lines[piece.start..piece.sep]), Join(lines[piece.sep + 1..piece.end]))
  }

  function HunksOf(lines: seq<string>, found: seq<Piece>): (hunks: seq<Hunk>)
    requires AllWithin(lines, found) && AllConflicts(found)
    ensures |hunks| == |found|
  {
    if found == [] then []
    else
      var n := |found| - 1;
      HunksOf(lines, found[..n]) + [HunkOf(lines, found[n])]
  }

  /** The resolutions there are; any name but the first two stands for keeping both. */
  datatype Pick = Ours | Theirs | Both

  function Named(choice: string): Pick {
    if choice == "ours" then Ours else if choice == "theirs" then Theirs else Both
  }

  /** What the first item for the hunk says, or to keep both. */
  function PickFor(items: seq<Resolution>, k: nat): Pick {
    if items == [] then Both
    else if items[0].hunkIndex == k then Named(items[0].choice)
    else PickFor(items[1..], k)
  }

  function Resolve(pick: Pick, ours: string, theirs: string): string {
    match pick
    case Ours => ours
    case Theirs => theirs
    case Both => ours + BETWEEN + theirs
  }

  /** What a piece contributes: its line, or the lines of both sides and the choice made for the hunk. */
  datatype Block = Line(line: string) | Sides(pick: Pick, ours: seq<string>, theirs: seq<string>) {
    function Text(): string {
      if Line? then line else Resolve(pick, Join(ours), Join(theirs))
    }
  }

  function BlockOf(lines: seq<string>, piece: Piece, pick: Pick): Block
    requires Within(lines, piece)
  {
    match piece
    case Context(at) => Line(lines[at])
    case Conflict(start, sep, end) => Sides(pick, lines[start..sep], lines[sep + 1..end])
  }

  function Blocks(lines: seq<string>, pieces: seq<Piece>, items: seq<Resolution>): (blocks: seq<Block>)
    requires AllWithin(lines, pieces)
    ensures |blocks| == |pieces|
  {
    if pieces == [] then []
    else
      var n := |pieces| - 1;
      Blocks(lines, pieces[..n], items) + [BlockOf(lines, pieces[n], PickFor(items, |Conflicts(pieces[..n])|))]
  }

  /** The segments of the resolved file: one per context line, one per hunk. */
  function Texts(blocks: seq<Block>): (texts: seq<string>)
    ensures |texts| == |blocks| && forall j :: 0 <= j < |blocks| ==> texts[j] == blocks[j].Text()
  {
    seq(|blocks|, j requires 0 <= j < |blocks| => blocks[j].Text())
  }

  function Explained(text: string): Option<seq<Hunk>> {
    var lines := Lines(text);
    match Scan(lines, 0)
    case None => None
    case Some(pieces) => Some(HunksOf(lines, Conflicts(pieces)))
  }

  function Applied(text: string, items: seq<Resolution>): Option<string> {
    var lines := Lines(text);
    match Scan(lines, 0)
    case None => None
    case Some(pieces) => Some(PushAll(Texts(Blocks(lines, pieces, items))))
  }

  // ---- what is left of each loop from a line on ----------------------------

  function ExplainFrom(lines: seq<string>, i: nat, found: seq<Piece>): Option<seq<Piece>>
    requires i <= |lines|
    decreases |lines| - i
  {
    if i == |lines| then Some(found)
    else if !IsOpen(lines[i]) then ExplainFrom(lines, i + 1, found)
    else if !Balanced(lines, i + 1) then None
    else ExplainFrom(lines, EndOf(lines, i + 1) + 1, found + [ConflictAt(lines, i + 1)])
  }

  function ApplyFrom(lines: seq<string>, i: nat, k: nat, blocks: seq<Block>, items: seq<Resolution>)
    : Option<seq<Block>>
    requires i <= |lines|
    decreases |lines| - i
  {
    if i == |lines| then Some(blocks)
    else if !IsOpen(lines[i]) then ApplyFrom(lines, i + 1, k, blocks + [Line(lines[i])], items)
    else if !Balanced(lines, i + 1) then None
    else
      var block := BlockOf(lines, ConflictAt(lines, i + 1), PickFor(items, k));
      ApplyFrom(lines, EndOf(lines, i + 1) + 1, k + 1, blocks + [block], items)
  }

  /** The pieces before line `i` put in front of those from there on. */
  function Rescanned(lines: seq<string>, done: seq<Piece>, i: nat): (r: Option<seq<Piece>>)
    requires i <= |lines| && AllWithin(lines, done)
    ensures r.Some? ==> AllWithin(lines, r.value)
  {
    Prefixed(done, Scan(lines, i))
  }

  /** The piece the scan finds where it starts. */
  predicate IsNext(lines: seq<string>, piece: Piece)
    requires Within(lines, piece) && 0 <= piece.From()
  {
    if piece.Context? then !IsOpen(lines[piece.at])
    else IsOpen(lines[piece.From()]) && Balanced(lines, piece.start) && piece == ConflictAt(lines, piece.start)
  }

  lemma RescannedFurther(lines: seq<string>, done: seq<Piece>, piece: Piece)
    requires AllWithin(lines, done) && Within(lines, piece) && 0 <= piece.From()
    requires IsNext(lines, piece)
    ensures Rescanned(lines, done, piece.From()) == Rescanned(lines, done + [piece], piece.To())
    ensures (done + [piece])[..|done|] == done
  {
    PrefixedTwice(done, piece, Scan(lines, piece.To()));
  }

  lemma RescannedEnd(lines: seq<string>, done: seq<Piece>)
    requires AllWithin(lines, done)
    ensures Rescanned(lines, done, |lines|) == Some(done)
  {
    assert done + [] == done;
  }

  lemma {:induction false} RescannedStart(lines: seq<string>)
    ensures Rescanned(lines, [], 0) == Scan(lines, 0)
  {
    if Scan(lines, 0).Some? {
      assert [] + Scan(lines, 0).value == Scan(lines, 0).value;
    }
  }

  lemma {:induction false} ConflictsGrow(done: seq<Piece>, piece: Piece)
    ensures piece.Context? ==> Conflicts(done + [piece]) == Conflicts(done)
    ensures piece.Conflict? ==> Conflicts(done + [piece]) == Conflicts(done) + [piece]
  {
    assert (done + [piece])[..|done|] == done;
  }

  lemma {:induction false} BlocksGrow(lines: seq<string>, done: seq<Piece>, piece: Piece, items: seq<Resolution>)
    requires AllWithin(lines, done) && Within(lines, piece)
    ensures Blocks(lines, done + [piece], items)
            == Blocks(lines, done, items) + [BlockOf(lines, piece, PickFor(items, |Conflicts(done)|))]
  {
    assert (done + [piece])[..|done|] == done;
  }

  ghost predicate ExplainsFrom(lines: seq<string>, done: seq<Piece>, i: nat, all: Option<seq<Piece>>)
    requires i <= |lines| && AllWithin(lines, done)
  {
    var pieces := Rescanned(lines, done, i);
    if pieces.None? then all.None? else all == Some(Conflicts(pieces.value))
  }

  lemma {:induction false} ExplainFromScans(lines: seq<string>, i: nat, done: seq<Piece>)
    requires i <= |lines| && AllWithin(lines, done)
    ensures ExplainsFrom(lines, done, i, ExplainFrom(lines, i, Conflicts(done)))
    decreases |lines| - i
  {
    if i == |lines| {
      RescannedEnd(lines, done);
    } else if !IsOpen(lines[i]) {
      RescannedFurther(lines, done, Context(i));
      ConflictsGrow(done, Context(i));
      ExplainFromScans(lines, i + 1, done + [Context(i)]);
    } else if Balanced(lines, i + 1) {
      var piece := ConflictAt(lines, i + 1);
      RescannedFurther(lines, done, piece);
      ConflictsGrow(done, piece);
      ExplainFromScans(lines, piece.To(), done + [piece]);
    }
  }

  ghost predicate AppliesFrom(lines: seq<string>, done: seq<Piece>, i: nat, items: seq<Resolution>,
                              all: Option<seq<Block>>)
    requires i <= |lines| && AllWithin(lines, done)
  {
    var pieces := Rescanned(lines, done, i);
    if pieces.None? then all.None? else all == Some(Blocks(lines, pieces.value, items))
  }

  lemma {:induction false} ApplyFromScans(lines: seq<string>, i: nat, done: seq<Piece>, items: seq<Resolution>)
    requires i <= |lines| && AllWithin(lines, done)
    ensures AppliesFrom(lines, done, i, items,
                        ApplyFrom(lines, i, |Conflicts(done)|, Blocks(lines, done, items), items))
    decreases |lines| - i
  {
    if i == |lines| {
      RescannedEnd(lines, done);
    } else if !IsOpen(lines[i]) {
      ApplyFromPiece(lines, Context(i), done, items);
    } else if Balanced(lines, i + 1) {
      ApplyFromPiece(lines, ConflictAt(lines, i + 1), done, items);
    }
  }

  lemma {:induction false} ApplyFromPiece(lines: seq<string>, piece: Piece, done: seq<Piece>, items: seq<Resolution>)
    requires AllWithin(lines, done) && Within(lines, piece) && 0 <= piece.From()
    requires IsNext(lines, piece)
    ensures AppliesFrom(lines, done, piece.From(), items,
                        ApplyFrom(lines, piece.From(), |Conflicts(done)|, Blocks(lines, done, items), items))
    decreases |lines| - piece.From(), 0
  {
    var more := done + [piece];
    ConflictsGrow(done, piece);
    BlocksGrow(lines, done, piece, items);
    ApplyOfNext(lines, piece, |Conflicts(done)|, Blocks(lines, done, items), items);
    ApplyFromScans(lines, piece.To(), more, items);
    RescannedFurther(lines, done, piece);
    SameOutcome(lines, done, piece.From(), more, piece.To(), items,
                ApplyFrom(lines, piece.To(), |Conflicts(more)|, Blocks(lines, more, items), items));
  }

  lemma SameOutcome(lines: seq<string>, done: seq<Piece>, i: nat, more: seq<Piece>, j: nat, items: seq<Resolution>,
                    all: Option<seq<Block>>)
    requires i <= |lines| && j <= |lines| && AllWithin(lines, done) && AllWithin(lines, more)
    requires Rescanned(lines, done, i) == Rescanned(lines, more, j) && AppliesFrom(lines, more, j, items, all)
    ensures AppliesFrom(lines, done, i, items, all)
  {
  }

  /** One turn of the resolving loop. */
  lemma {:induction false} ApplyOfNext(lines: seq<string>, piece: Piece, k: nat, blocks: seq<Block>, items: seq<Resolution>)
    requires Within(lines, piece) && 0 <= piece.From() && IsNext(lines, piece)
    ensures ApplyFrom(lines, piece.From(), k, blocks, items)
            == ApplyFrom(lines, piece.To(), if piece.Conflict? then k + 1 else k,
                         blocks + [BlockOf(lines, piece, PickFor(items, k))], items)
  {
  }

  lemma ApplyOfConflict(lines: seq<string>, i: nat, k: nat, blocks: seq<Block>, items: seq<Resolution>, sep: nat, end: nat)
    requires i < |lines| && IsOpen(lines[i]) && Balanced(lines, i + 1)
    requires ConflictAt(lines, i + 1) == Conflict(i + 1, sep, end)
    ensures Within(lines, Conflict(i + 1, sep, end))
    ensures ApplyFrom(lines, i, k, blocks, items)
            == ApplyFrom(lines, end + 1, k + 1, blocks + [BlockOf(lines, Conflict(i + 1, sep, end), PickFor(items, k))], items)
  {
    ApplyOfNext(lines, Conflict(i + 1, sep, end), k, blocks, items);
  }

  /** One turn of the listing loop. */
  lemma {:induction false} ExplainOfNext(lines: seq<string>, piece: Piece, found: seq<Piece>)
    requires Within(lines, piece) && 0 <= piece.From() && IsNext(lines, piece)
    ensures piece.Context? ==> ExplainFrom(lines, piece.From(), found) == ExplainFrom(lines, piece.To(), found)
    ensures piece.Conflict? ==> ExplainFrom(lines, piece.From(), found) == ExplainFrom(lines, piece.To(), found + [piece])
  {
  }

  lemma {:induction false} ExplainIsScan(text: string)
    ensures var lines := Lines(text);
            var found := ExplainFrom(lines, 0, []);
            && (found.None? ==> Explained(text).None?)
            && (found.Some? ==> AllWithin(lines, found.value)
                                && AllConflicts(found.value)
                                && Explained(text) == Some(HunksOf(lines, found.value)))
  {
    ExplainFromScans(Lines(text), 0, []);
    RescannedStart(Lines(text));
  }

  lemma {:induction false} ApplyIsScan(text: string, items: seq<Resolution>)
    ensures var blocks := ApplyFrom(Lines(text), 0, 0, [], items);
            && (blocks.None? ==> Applied(text, items).None?)
            && (blocks.Some? ==> Applied(text, items) == Some(PushAll(Texts(blocks.value))))
  {
    ApplyFromScans(Lines(text), 0, [], items);
    RescannedStart(Lines(text));
  }

  // ---- the two loops -------------------------------------------------------

  /** What the inner loop knows when it has looked at the lines from `start` to `j`. */
  ghost predicate Searched(lines: seq<string>, start: nat, j: nat, sep: Option<nat>, end: Option<nat>)
    requires start <= j <= |lines|
  {
    && sep == FirstBefore(lines, SEPARATOR, start, j)
    && end == FirstBefore(lines, CLOSE, start, j)
    && (end.Some? ==> end.value == j - 1)
  }

  ghost function FirstBefore(lines: seq<string>, mark: string, start: nat, j: nat): Option<nat>
    requires start <= |lines|
  {
    var i := First(lines, mark, start);
    if i < j then Some(i) else None
  }

  lemma FirstOneFurther(lines: seq<string>, mark: string, start: nat, j: nat)
    requires start <= j < |lines|
    ensures FirstBefore(lines, mark, start, j).Some? ==>
              FirstBefore(lines, mark, start, j + 1) == FirstBefore(lines, mark, start, j)
    ensures FirstBefore(lines, mark, start, j).None? ==>
              FirstBefore(lines, mark, start, j + 1) == if mark <= lines[j] then Some(j) else None
  {
  }

  lemma {:induction false} HunksGrow(lines: seq<string>, found: seq<Piece>, piece: Piece)
    requires AllWithin(lines, found) && AllConflicts(found)
    requires Within(lines, piece) && piece.Conflict?
    ensures HunksOf(lines, found + [piece]) == HunksOf(lines, found) + [HunkOf(lines, piece)]
  {
    assert (found + [piece])[..|found|] == found;
  }

  /** The search both loops make from the line behind an opening marker. */
  method FindMarkers(lines: seq<string>, start: nat) returns (sep: Option<nat>, end: Option<nat>)
    requires start <= |lines|
    ensures Balanced(lines, start) <==> !(sep.None? || end.None? || sep.value >= end.value)
    ensures Balanced(lines, start) ==> ConflictAt(lines, start) == Conflict(start, sep.value, end.value)
  {
    sep, end := None, None;
    var j := start;
    while j < |lines| && end.None?
      invariant start <= j <= |lines| && Searched(lines, start, j, sep, end)
      decreases |lines| - j
    {
      FirstOneFurther(lines, SEPARATOR, start, j);
      FirstOneFurther(lines, CLOSE, start, j);
      if sep.None? && SEPARATOR <= lines[j] {
        sep := Some(j);
      }
      if CLOSE <= lines[j] {
        end := Some(j);
      }
      j := j + 1;
    }
  }

  method ReadHunk(lines: seq<string>, start: nat, sep: nat, end: nat, hunks: seq<Hunk>, ghost found: seq<Piece>)
      returns (more: seq<Hunk>, ghost grown: seq<Piece>)
    requires Within(lines, Conflict(start, sep, end)) && AllWithin(lines, found) && AllConflicts(found)
    requires hunks == HunksOf(lines, found)
    ensures grown == found + [Conflict(start, sep, end)] && AllWithin(lines, grown) && AllConflicts(grown)
    ensures more == HunksOf(lines, grown)
  {
    var ours := Join(lines[start..sep]);
    var theirs := Join(lines[sep + 1..end]);
    more := hunks + [Hunk(start, end, ours, theirs)];
    HunksGrow(lines, found, Conflict(start, sep, end));
    grown := found + [Conflict(start, sep, end)];
  }

  /** The turn of the loop for an opening marker: where to go on, unless the hunk is not balanced. */
  method ExplainHunk(lines: seq<string>, i: nat, hunks: seq<Hunk>, ghost found: seq<Piece>)
      returns (next: Option<nat>, more: seq<Hunk>, ghost grown: seq<Piece>)
    requires i < |lines| && IsOpen(lines[i])
    requires AllWithin(lines, found) && AllConflicts(found) && hunks == HunksOf(lines, found)
    ensures next.None? ==> ExplainFrom(lines, i, found) == None
    ensures next.Some? ==> i < next.value <= |lines| && AllWithin(lines, grown) && AllConflicts(grown)
                           && more == HunksOf(lines, grown)
                           && ExplainFrom(lines, i, found) == ExplainFrom(lines, next.value, grown)
  {
    var start := i + 1;
    var sep, end := FindMarkers(lines, start);
    if sep.None? || end.None? || sep.value >= end.value {
      return None, hunks, found;
    }
    ExplainOfNext(lines, ConflictAt(lines, start), found);
    more, grown := ReadHunk(lines, start, sep.value, end.value, hunks, found);
    next := Some(end.value + 1);
  }

  method Explain(text: string) returns (r: Result<seq<Hunk>, MergeError>)
    ensures r == match Explained(text) case None => Err(UnbalancedMarkers) case Some(hunks) => Ok(hunks)
  {
    var lines := Lines(text);
    var hunks: seq<Hunk> := [];
    var i := 0;
    ghost var found: seq<Piece> := [];
    ExplainIsScan(text);
    while i < |lines|
      invariant i <= |lines| && ExplainFrom(lines, 0, []) == ExplainFrom(lines, i, found)
      invariant AllWithin(lines, found) && AllConflicts(found)
      invariant hunks == HunksOf(lines, found)
    {
      if IsOpen(lines[i]) {
        var next;
        next, hunks, found := ExplainHunk(lines, i, hunks, found);
        if next.None? {
          return Err(UnbalancedMarkers);
        }
        i := next.value;
      } else {
        ExplainOfNext(lines, Context(i), found);
        i := i + 1;
      }
    }
    r := Ok(hunks);
  }

  /** How every part is written. */
  method Emit(out: string, part: string) returns (more: string)
    ensures more == Push(out, part)
  {
    more := out;
    if out != "" {
      more := more + "\n";
    }
    more := more + part;
  }

  lemma TextsGrow(blocks: seq<Block>, block: Block)
    ensures PushAll(Texts(blocks + [block])) == Push(PushAll(Texts(blocks)), block.Text())
  {
    var texts := Texts(blocks);
    assert Texts(blocks + [block]) == texts + [block.Text()];
    assert (texts + [block.Text()])[..|texts|] == texts;
  }

  method Chosen(pick: Pick, ours: string, theirs: string) returns (part: string)
    ensures part == Resolve(pick, ours, theirs)
  {
    match pick
    case Ours => part := ours;
    case Theirs => part := theirs;
    case Both => part := ours + BETWEEN + theirs;
  }

  /** The text chosen for a hunk is written. */
  method EmitHunk(lines: seq<string>, start: nat, sep: nat, end: nat, pick: Pick, out: string, ghost blocks: seq<Block>)
      returns (more: string, ghost grown: seq<Block>)
    requires Within(lines, Conflict(start, sep, end)) && out == PushAll(Texts(blocks))
    ensures grown == blocks + [BlockOf(lines, Conflict(start, sep, end), pick)] && more == PushAll(Texts(grown))
  {
    ghost var block := BlockOf(lines, Conflict(start, sep, end), pick);
    var ours := Join(lines[start..sep]);
    var theirs := Join(lines[sep + 1..end]);
    var part := Chosen(pick, ours, theirs);
    assert part == block.Text();
    more := Emit(out, part);
    TextsGrow(blocks, block);
    grown := blocks + [block];
  }

  /** The turn of the loop for a line outside every hunk. */
  method ApplyLine(lines: seq<string>, i: nat, k: nat, items: seq<Resolution>, out: string, ghost blocks: seq<Block>)
      returns (more: string, ghost grown: seq<Block>)
    requires i < |lines| && !IsOpen(lines[i]) && out == PushAll(Texts(blocks))
    ensures ApplyFrom(lines, i, k, blocks, items) == ApplyFrom(lines, i + 1, k, grown, items)
    ensures more == PushAll(Texts(grown))
  {
    ApplyOfNext(lines, Context(i), k, blocks, items);
    more := Emit(out, lines[i]);
    TextsGrow(blocks, Line(lines[i]));
    grown := blocks + [Line(lines[i])];
  }

  /** The turn for an opening marker: where to go on, unless the hunk is not balanced. */
  method ApplyHunk(lines: seq<string>, i: nat, k: nat, items: seq<Resolution>, out: string, ghost blocks: seq<Block>)
      returns (next: Option<nat>, more: string, ghost grown: seq<Block>)
    requires i < |lines| && IsOpen(lines[i]) && out == PushAll(Texts(blocks))
    ensures next.None? ==> ApplyFrom(lines, i, k, blocks, items) == None
    ensures next.Some? ==> i < next.value <= |lines| && more == PushAll(Texts(grown))
                           && ApplyFrom(lines, i, k, blocks, items) == ApplyFrom(lines, next.value, k + 1, grown, items)
  {
    var start := i + 1;
    var sep, end := FindMarkers(lines, start);
    if sep.None? || end.None? || sep.value >= end.value {
      return None, out, blocks;
    }
    ApplyOfConflict(lines, i, k, blocks, items, sep.value, end.value);
    more, grown := EmitHunk(lines, start, sep.value, end.value, PickFor(items, k), out, blocks);
    next := Some(end.value + 1);
  }

  method ApplyPlan(text: string, items: seq<Resolution>) returns (r: Result<string, MergeError>)
    ensures r == match Applied(text, items) case None => Err(ParseError) case Some(out) => Ok(out)
  {
    var lines := Lines(text);
    var out := "";
    var i, hunkIdx := 0, 0;
    ghost var blocks: seq<Block> := [];
    ApplyIsScan(text, items);
    while i < |lines|
      invariant i <= |lines| && ApplyFrom(lines, 0, 0, [], items) == ApplyFrom(lines, i, hunkIdx, blocks, items)
      invariant out == PushAll(Texts(blocks))
    {
      if IsOpen(lines[i]) {
        var next;
        next, out, blocks := ApplyHunk(lines, i, hunkIdx, items, out, blocks);
        if next.None? {
          return Err(ParseError);
        }
        i := next.value;
        hunkIdx := hunkIdx + 1;
      } else {
        out, blocks := ApplyLine(lines, i, hunkIdx, items, out, blocks);
        i := i + 1;
      }
    }
    r := Ok(out);
  }
}
