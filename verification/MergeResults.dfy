/** What listing, choosing and resolving conflicts come to together. */
module MergeResults {
  import opened MergeAssist
  import opened MergeText
  import opened Wrappers

  // ---- pieces, hunks and segments by index ---------------------------------

  /** The number of the hunk that stands at piece `j`. */
  ghost function HunkNumber(pieces: seq<Piece>, j: nat): nat
    requires j <= |pieces|
  {
    |Conflicts(pieces[..j])|
  }

  lemma {:induction false} ConflictAtPiece(pieces: seq<Piece>, j: nat)
    requires j < |pieces| && pieces[j].Conflict?
    ensures var k := HunkNumber(pieces, j);
            k < |Conflicts(pieces)| && Conflicts(pieces)[k] == pieces[j]
  {
    var n := |pieces| - 1;
    if j < n {
      ConflictAtPiece(pieces[..n], j);
      assert pieces[..n][..j] == pieces[..j];
    }
  }

  lemma {:induction false} PieceOfConflict(pieces: seq<Piece>, k: nat) returns (j: nat)
    requires k < |Conflicts(pieces)|
    ensures j < |pieces| && pieces[j].Conflict? && HunkNumber(pieces, j) == k && Conflicts(pieces)[k] == pieces[j]
  {
    var n := |pieces| - 1;
    if k < |Conflicts(pieces[..n])| {
      j := PieceOfConflict(pieces[..n], k);
      assert pieces[..n][..j] == pieces[..j];
    } else {
      j := n;
    }
  }

  lemma {:induction false} HunkByNumber(lines: seq<string>, found: seq<Piece>, k: nat)
    requires AllWithin(lines, found) && AllConflicts(found) && k < |found|
    ensures HunksOf(lines, found)[k] == HunkOf(lines, found[k])
  {
    var n := |found| - 1;
    if k < n {
      HunkByNumber(lines, found[..n], k);
    }
  }

  lemma {:induction false} BlockByIndex(lines: seq<string>, pieces: seq<Piece>, items: seq<Resolution>, j: nat)
    requires AllWithin(lines, pieces) && j < |pieces|
    ensures Blocks(lines, pieces, items)[j] == BlockOf(lines, pieces[j], PickFor(items, HunkNumber(pieces, j)))
  {
    var n := |pieces| - 1;
    if j < n {
      BlockByIndex(lines, pieces[..n], items, j);
      assert pieces[..n][..j] == pieces[..j];
    }
  }

  // ---- both loops see the same file ----------------------------------------

  ghost function ChosenText(hunks: seq<Hunk>, items: seq<Resolution>, k: nat): string
    requires k < |hunks|
  {
    Resolve(PickFor(items, k), hunks[k].ours, hunks[k].theirs)
  }

  /** Segment `j` of the resolved file: the line of a context piece, the chosen text of a hunk. */
  ghost predicate IsSegment(lines: seq<string>, pieces: seq<Piece>, hunks: seq<Hunk>, items: seq<Resolution>,
                            j: nat, text: string)
    requires j < |pieces|
  {
    match pieces[j]
    case Context(at) => at < |lines| && text == lines[at]
    case Conflict(start, sep, end) =>
      var k := HunkNumber(pieces, j);
      && k < |hunks| && hunks[k].startLine == start && hunks[k].endLine == end
      && text == ChosenText(hunks, items, k)
  }

  ghost predicate CanBeTiled(lines: seq<string>) {
    exists pieces :: Tile(lines, pieces, 0)
  }

  lemma {:induction false} ScannedMeansTiled(lines: seq<string>)
    ensures Scan(lines, 0).Some? <==> CanBeTiled(lines)
  {
    if Scan(lines, 0).Some? {
      var pieces := Scan(lines, 0).value;
      ScanIsTheTiling(lines, 0, pieces);
      assert Tile(lines, pieces, 0);
    }
    if CanBeTiled(lines) {
      var pieces :| Tile(lines, pieces, 0);
      ScanIsTheTiling(lines, 0, pieces);
    }
  }

  /** A file is rejected by both or by neither, and exactly when it has no tiling. */
  lemma {:induction false} RejectTheSame(text: string, items: seq<Resolution>)
    ensures Explained(text).None? <==> Applied(text, items).None?
    ensures Explained(text).Some? <==> CanBeTiled(Lines(text))
  {
    var lines := Lines(text);
    ScannedMeansTiled(lines);
    assert Explained(text).Some? <==> Scan(lines, 0).Some?;
  }

  /**
   The one tiling of the file gives the hunks that are listed, and the segments whose
   newline-join, without the leading empty ones, is written: a hunk has the same
   number, place and sides in both.
   */
  lemma OneTilingForBoth(text: string, items: seq<Resolution>) returns (pieces: seq<Piece>, segments: seq<string>)
    requires Explained(text).Some?
    ensures Tile(Lines(text), pieces, 0) && |segments| == |pieces|
    ensures |Explained(text).value| == |Conflicts(pieces)|
    ensures forall j :: 0 <= j < |pieces| ==>
              IsSegment(Lines(text), pieces, Explained(text).value, items, j, segments[j])
    ensures Applied(text, items) == Some(PushAll(segments)) == Some(Join(DropLeadingEmpty(segments)))
  {
    var lines := Lines(text);
    pieces := Scan(lines, 0).value;
    ScanIsTheTiling(lines, 0, pieces);
    var blocks := Blocks(lines, pieces, items);
    segments := Texts(blocks);
    PushAllIsJoin(segments);
    forall j | 0 <= j < |pieces|
      ensures IsSegment(lines, pieces, Explained(text).value, items, j, segments[j])
    {
      SegmentByIndex(lines, pieces, items, j);
    }
  }

  lemma {:induction false} SegmentByIndex(lines: seq<string>, pieces: seq<Piece>, items: seq<Resolution>, j: nat)
    requires AllWithin(lines, pieces) && j < |pieces|
    ensures IsSegment(lines, pieces, HunksOf(lines, Conflicts(pieces)), items, j,
                      Blocks(lines, pieces, items)[j].Text())
  {
    BlockByIndex(lines, pieces, items, j);
    assert Within(lines, pieces[j]);
    if pieces[j].Conflict? {
      ConflictAtPiece(pieces, j);
      HunkByNumber(lines, Conflicts(pieces), HunkNumber(pieces, j));
    }
  }

  /** Hunks lie within the file, one strictly behind the other. */
  lemma {:induction false} HunksAreInOrder(text: string, k: nat, l: nat)
    requires Explained(text).Some? && k < l < |Explained(text).value|
    ensures var a, b := Explained(text).value[k], Explained(text).value[l];
            0 < a.startLine <= a.endLine < b.startLine - 1 < b.endLine < |Lines(text)|
  {
    var lines := Lines(text);
    var pieces := Scan(lines, 0).value;
    ScanIsTheTiling(lines, 0, pieces);
    var i := PieceOfConflict(pieces, k);
    var j := PieceOfConflict(pieces, l);
    HunkByNumber(lines, Conflicts(pieces), k);
    HunkByNumber(lines, Conflicts(pieces), l);
    if j <= i {
      NumbersGrow(pieces, j, i);
    }
    PiecesInOrder(lines, pieces, i, j);
    assert Within(lines, pieces[i]) && Within(lines, pieces[j]);
  }

  lemma {:induction false} NumbersGrow(pieces: seq<Piece>, i: nat, j: nat)
    requires i <= j <= |pieces|
    ensures HunkNumber(pieces, i) <= HunkNumber(pieces, j)
    decreases j
  {
    if i < j {
      NumbersGrow(pieces, i, j - 1);
      assert pieces[..j][..j - 1] == pieces[..j - 1];
    }
  }

  lemma {:induction false} PiecesInOrder(lines: seq<string>, pieces: seq<Piece>, i: nat, j: nat)
    requires Tile(lines, pieces, 0) && i < j < |pieces|
    ensures pieces[i].To() <= pieces[j].From()
    decreases j
  {
    assert pieces[j].From() == pieces[j - 1].To();
    if i < j - 1 {
      PiecesInOrder(lines, pieces, i, j - 1);
      assert Fits(lines, pieces[j - 1]);
    }
  }

  // ---- resolving clears the conflicts --------------------------------------

  lemma {:induction false} NoConflicts(pieces: seq<Piece>)
    ensures Conflicts(pieces) == [] <==> forall j :: 0 <= j < |pieces| ==> pieces[j].Context?
  {
    if pieces != [] {
      NoConflicts(pieces[..|pieces| - 1]);
    }
  }

  lemma {:induction false} ScanOfClean(lines: seq<string>, i: nat)
    requires i <= |lines|
    ensures (Scan(lines, i).Some? && forall j :: 0 <= j < |Scan(lines, i).value| ==> Scan(lines, i).value[j].Context?)
            <==> forall k :: i <= k < |lines| ==> !IsOpen(lines[k])
    decreases |lines| - i
  {
    if i < |lines| {
      if !IsOpen(lines[i]) {
        ScanOfClean(lines, i + 1);
        if Scan(lines, i + 1).Some? {
          var rest := Scan(lines, i + 1).value;
          assert Scan(lines, i).value == [Context(i)] + rest;
          assert forall j :: 0 <= j < |rest| ==> ([Context(i)] + rest)[j + 1] == rest[j];
        }
      } else if Scan(lines, i).Some? {
        ScanHead(lines, i);
      }
    }
  }

  /** Nothing is listed exactly when no line of the text starts with the opening marker. */
  lemma CleanMeansNoOpen(text: string)
    ensures Explained(text) == Some([]) <==> !HasOpen(text)
  {
    var lines := Lines(text);
    LinesShowOpen(text);
    ScanOfClean(lines, 0);
    if Scan(lines, 0).Some? {
      NoConflicts(Scan(lines, 0).value);
    }
  }

  const TITLE := "// --- theirs ---"

  lemma TitleIsNoMarker()
    ensures !HasOpen(TITLE) && BETWEEN == "\n" + TITLE + "\n"
  {
    assert TITLE[0] == '/' && OPEN[0] == '<';
    OpenInOneLine(TITLE);
  }

  lemma BothHasOpen(ours: string, theirs: string)
    ensures HasOpen(ours + BETWEEN + theirs) <==> HasOpen(ours) || HasOpen(theirs)
  {
    TitleIsNoMarker();
    var title := TITLE;
    Regroup(ours, title, theirs);
    OpenJoins(ours, title + "\n" + theirs);
    OpenJoins(title, theirs);
  }

  lemma BothIsNotEmpty(ours: string, theirs: string)
    ensures ours + BETWEEN + theirs != ""
  {
    assert |BETWEEN| > 0;
  }

  lemma Regroup(a: string, b: string, c: string)
    ensures a + ("\n" + b + "\n") + c == a + "\n" + (b + "\n" + c)
  {
  }

  /**
   After resolving, nothing is listed exactly when none of the chosen texts has a
   line that starts with the opening marker.
   */
  lemma ResolvingClears(text: string, items: seq<Resolution>)
    requires Explained(text).Some?
    ensures var hunks := Explained(text).value;
            Explained(Applied(text, items).value) == Some([]) <==>
            forall k :: 0 <= k < |hunks| ==> !HasOpen(ChosenText(hunks, items, k))
  {
    var lines, hunks := Lines(text), Explained(text).value;
    var pieces, segments := OneTilingForBoth(text, items);
    CleanMeansNoOpen(PushAll(segments));
    PushAllShowsOpen(segments);
    forall k | 0 <= k < |hunks| && HasOpen(ChosenText(hunks, items, k))
      ensures AnyHasOpen(segments)
    {
      var j := PieceOfConflict(pieces, k);
      assert IsSegment(lines, pieces, hunks, items, j, segments[j]);
      assert HasOpen(segments[j]);
    }
    if AnyHasOpen(segments) {
      var j :| 0 <= j < |segments| && HasOpen(segments[j]);
      assert IsSegment(lines, pieces, hunks, items, j, segments[j]);
      if pieces[j].Context? {
        assert Fits(lines, pieces[j]);
        OpenInOneLine(lines[pieces[j].at]);
      }
      assert pieces[j].Conflict?;
    }
  }

  /** If no side of a hunk has such a line, then whatever the plan says. */
  lemma ResolvingCleanSidesClears(text: string, items: seq<Resolution>)
    requires Explained(text).Some?
    requires forall hunk <- Explained(text).value :: !HasOpen(hunk.ours) && !HasOpen(hunk.theirs)
    ensures Applied(text, items).Some? && Explained(Applied(text, items).value) == Some([])
  {
    var hunks := Explained(text).value;
    forall k | 0 <= k < |hunks|
      ensures !HasOpen(ChosenText(hunks, items, k))
    {
      assert hunks[k] in hunks;
      BothHasOpen(hunks[k].ours, hunks[k].theirs);
    }
    ResolvingClears(text, items);
    RejectTheSame(text, items);
  }

  // ---- resolving twice -----------------------------------------------------

  /** A text no longer than the lines it stands for, and shorter if they are a hunk. */
  ghost predicate Shorter(lines: seq<string>, from: nat, to: nat, hunk: bool, size: nat)
    requires from <= to <= |lines|
  {
    size + (if hunk then 2 else 1) <= Length(lines[from..to])
  }

  lemma {:induction false} ResolvedLength(pick: Pick, ours: seq<string>, theirs: seq<string>)
    ensures |Resolve(pick, Join(ours), Join(theirs))| <= Length(ours) + Length(theirs) + 19
  {
    JoinLength(ours);
    JoinLength(theirs);
    assert |BETWEEN| == 19;
  }

  lemma MarkersAreLong(open: string, sep: string, close: string)
    requires OPEN <= open && SEPARATOR <= sep && CLOSE <= close
    ensures |open| >= 7 && |sep| >= 7 && |close| >= 7
  {
    assert |OPEN| == 7 && |SEPARATOR| == 7 && |CLOSE| == 7;
  }

  lemma HunkIsShorter(lines: seq<string>, start: nat, sep: nat, end: nat, text: string)
    requires 0 < start <= sep < end < |lines|
    requires |lines[start - 1]| >= 7 && |lines[sep]| >= 7 && |lines[end]| >= 7
    requires |text| <= Length(lines[start..sep]) + Length(lines[sep + 1..end]) + 19
    ensures |text| + 1 < Length(lines[start - 1..end + 1])
  {
    HunkLength(lines, start, sep, end);
  }

  lemma LineIsShorter(lines: seq<string>, at: nat)
    requires at < |lines|
    ensures Shorter(lines, at, at + 1, false, |lines[at]|)
  {
    LengthWithLast(lines, at, at);
    assert lines[at..at] == [];
  }

  lemma ResolvedIsShorter(lines: seq<string>, start: nat, sep: nat, end: nat, pick: Pick)
    requires 0 < start <= sep < end < |lines|
    requires OPEN <= lines[start - 1] && SEPARATOR <= lines[sep] && CLOSE <= lines[end]
    ensures Shorter(lines, start - 1, end + 1, true, |Resolve(pick, Join(lines[start..sep]), Join(lines[sep + 1..end]))|)
  {
    MarkersAreLong(lines[start - 1], lines[sep], lines[end]);
    ResolvedLength(pick, lines[start..sep], lines[sep + 1..end]);
    HunkIsShorter(lines, start, sep, end, Resolve(pick, Join(lines[start..sep]), Join(lines[sep + 1..end])));
  }

  lemma HunkText(lines: seq<string>, start: nat, sep: nat, end: nat, pick: Pick)
    requires Within(lines, Conflict(start, sep, end))
    ensures BlockOf(lines, Conflict(start, sep, end), pick).Text()
            == Resolve(pick, Join(lines[start..sep]), Join(lines[sep + 1..end]))
  {
  }

  /** Whatever a piece contributes: a hunk loses its three marker lines. */
  lemma BlockIsShorter(lines: seq<string>, piece: Piece, pick: Pick, text: string)
    requires Fits(lines, piece) && Within(lines, piece) && text == BlockOf(lines, piece, pick).Text()
    ensures PieceShorter(lines, piece, text)
  {
    match piece
    case Context(at) => LineIsShorter(lines, at);
    case Conflict(start, sep, end) =>
      ResolvedIsShorter(lines, start, sep, end, pick);
      HunkText(lines, start, sep, end, pick);
  }

  lemma HunkLength(lines: seq<string>, start: nat, sep: nat, end: nat)
    requires 0 < start <= sep < end < |lines|
    requires |lines[start - 1]| >= 7 && |lines[sep]| >= 7 && |lines[end]| >= 7
    ensures Length(lines[start - 1..end + 1]) >= Length(lines[start..sep]) + Length(lines[sep + 1..end]) + 24
  {
    LengthFramed(lines, start - 1, sep);
    LengthBetween(lines, start - 1, sep + 1, end + 1);
    LengthWithLast(lines, sep + 1, end);
  }

  ghost predicate PieceShorter(lines: seq<string>, piece: Piece, text: string)
    requires Within(lines, piece)
  {
    0 <= piece.From() && Shorter(lines, piece.From(), piece.To(), piece.Conflict?, |text|)
  }

  ghost predicate AllShorter(lines: seq<string>, pieces: seq<Piece>, texts: seq<string>) {
    && AllWithin(lines, pieces) && |texts| == |pieces|
    && forall j :: 0 <= j < |pieces| ==> PieceShorter(lines, pieces[j], texts[j])
  }

  /** Where the first `n` pieces end. */
  function EndOfPieces(pieces: seq<Piece>, n: nat): int
    requires n <= |pieces|
  {
    if n == 0 then 0 else pieces[n - 1].To()
  }

  lemma NextPiece(lines: seq<string>, pieces: seq<Piece>, n: nat)
    requires Tile(lines, pieces, 0) && n < |pieces|
    ensures pieces[n].From() == EndOfPieces(pieces, n) && 0 <= pieces[n].From() <= pieces[n].To() <= |lines|
  {
    assert Fits(lines, pieces[n]);
  }

  /** The texts of the first `n` pieces are no longer than their lines, and shorter if there is a hunk `k` among them. */
  lemma {:induction false} TextsAreShorter(lines: seq<string>, pieces: seq<Piece>, texts: seq<string>, n: nat, k: nat)
    requires Tile(lines, pieces, 0) && AllShorter(lines, pieces, texts) && n <= |pieces|
    ensures 0 <= EndOfPieces(pieces, n) <= |lines|
    ensures Length(texts[..n]) <= Length(lines[..EndOfPieces(pieces, n)])
    ensures k < n && pieces[k].Conflict? ==> Length(texts[..n]) < Length(lines[..EndOfPieces(pieces, n)])
  {
    if n > 0 {
      TextsAreShorter(lines, pieces, texts, n - 1, k);
      NextPiece(lines, pieces, n - 1);
      LengthBetween(lines, 0, pieces[n - 1].From(), pieces[n - 1].To());
      NextText(texts, n - 1);
      assert PieceShorter(lines, pieces[n - 1], texts[n - 1]);
    }
  }

  lemma NextText(texts: seq<string>, n: nat)
    requires n < |texts|
    ensures Length(texts[..n + 1]) == Length(texts[..n]) + |texts[n]| + 1
  {
    assert texts[..n + 1][..n] == texts[..n];
  }

  lemma {:induction false} SegmentsAreShorter(lines: seq<string>, pieces: seq<Piece>, items: seq<Resolution>)
    requires Tile(lines, pieces, 0) && AllWithin(lines, pieces)
    ensures AllShorter(lines, pieces, Texts(Blocks(lines, pieces, items)))
  {
    forall j | 0 <= j < |pieces|
      ensures PieceShorter(lines, pieces[j], Texts(Blocks(lines, pieces, items))[j])
    {
      BlockByIndex(lines, pieces, items, j);
      BlockIsShorter(lines, pieces[j], PickFor(items, HunkNumber(pieces, j)), Texts(Blocks(lines, pieces, items))[j]);
    }
  }

  lemma {:induction false} JoinIsShorter(lines: seq<string>, pieces: seq<Piece>, texts: seq<string>, k: nat)
    requires Tile(lines, pieces, 0) && AllShorter(lines, pieces, texts) && k < |pieces| && pieces[k].Conflict?
    ensures |Join(texts)| < |Join(lines)|
  {
    TextsAreShorter(lines, pieces, texts, |pieces|, k);
    assert texts[..|pieces|] == texts && lines[..|lines|] == lines;
    JoinLength(texts);
    JoinLength(lines);
  }

  /** Resolving a file that has hunks makes it shorter. */
  lemma ResolvingShrinks(text: string, items: seq<Resolution>)
    requires Explained(text).Some? && Explained(text).value != []
    ensures |Applied(text, items).value| < |text|
  {
    var lines := Lines(text);
    var pieces := Scan(lines, 0).value;
    var texts := Texts(Blocks(lines, pieces, items));
    ScanIsTheTiling(lines, 0, pieces);
    var k := PieceOfConflict(pieces, 0);
    SegmentsAreShorter(lines, pieces, items);
    JoinIsShorter(lines, pieces, texts, k);
    PushAllIsJoin(texts);
    DroppingShrinks(texts);
    JoinOfLines(text);
  }

  /** On a file without conflicts resolving is the identity exactly when the text is plain. */
  lemma ResolvingCleanText(text: string, items: seq<Resolution>)
    requires !HasOpen(text)
    ensures Applied(text, items) == Some(text) <==> Plain(text)
  {
    CleanMeansNoOpen(text);
    var pieces, segments := OneTilingForBoth(text, items);
    NoConflicts(pieces);
    CleanSegments(Lines(text), pieces, segments);
    RewritingLoses(text);
  }

  /** Exactly the plain texts without a marker line are left alone, whatever the plan. */
  lemma ResolvingLeavesAlone(text: string, items: seq<Resolution>)
    ensures Applied(text, items) == Some(text) <==> !HasOpen(text) && Plain(text)
  {
    if !HasOpen(text) {
      ResolvingCleanText(text, items);
    } else {
      CleanMeansNoOpen(text);
      RejectTheSame(text, items);
      if Explained(text).Some? {
        ResolvingShrinks(text, items);
      }
    }
  }

  /** One segment per context line, one per hunk. */
  function Segments(text: string, items: seq<Resolution>): seq<string>
    requires Explained(text).Some?
  {
    Texts(Blocks(Lines(text), Scan(Lines(text), 0).value, items))
  }

  lemma AppliedIsPlain(text: string, items: seq<Resolution>)
    requires Explained(text).Some?
    ensures Applied(text, items).Some?
    ensures Plain(Applied(text, items).value) <==> PlainParts(DropLeadingEmpty(Segments(text, items)))
  {
    var segments := Segments(text, items);
    PushAllIsJoin(segments);
    JoinIsPlain(DropLeadingEmpty(segments));
  }

  /**
   Resolving a second time, with any plan, changes nothing exactly when no chosen text
   has a marker line and the segments, without the leading empty ones, are plain: the
   first does not start with a newline, the last neither is empty nor ends in one, and
   no carriage return comes before a newline in a segment or at the end of any but the last.
   */
  lemma ResolvingTwice(text: string, items: seq<Resolution>, again: seq<Resolution>)
    requires Explained(text).Some?
    ensures var hunks, out := Explained(text).value, Applied(text, items);
            Applied(out.value, again) == out <==>
            && (forall k :: 0 <= k < |hunks| ==> !HasOpen(ChosenText(hunks, items, k)))
            && PlainParts(DropLeadingEmpty(Segments(text, items)))
  {
    AppliedIsPlain(text, items);
    ResolvingClears(text, items);
    CleanMeansNoOpen(Applied(text, items).value);
    ResolvingLeavesAlone(Applied(text, items).value, again);
  }

  lemma CleanSegments(lines: seq<string>, pieces: seq<Piece>, segments: seq<string>)
    requires Tile(lines, pieces, 0) && |segments| == |pieces|
    requires forall j :: 0 <= j < |pieces| ==> pieces[j].Context? && segments[j] == lines[pieces[j].at]
    ensures segments == lines
  {
    var j := 0;
    while j < |pieces|
      invariant 0 <= j <= |pieces| && (j > 0 ==> pieces[j - 1].To() == j)
      invariant forall i :: 0 <= i < j ==> pieces[i].at == i
    {
      assert j > 0 ==> pieces[j].From() == pieces[j - 1].To();
      j := j + 1;
    }
  }

  /** It need not be: both sides of an empty hunk kept give a text that starts with a newline. */
  lemma ResolvingIsNotIdempotent() returns (text: string, items: seq<Resolution>)
    ensures Applied(text, items).Some? && Applied(Applied(text, items).value, items) != Applied(text, items)
  {
    text, items := OPEN + "\n" + (SEPARATOR + "\n" + CLOSE), [];
    EmptyHunk(text, items);
    assert "" + BETWEEN + "" == BETWEEN;
    assert BETWEEN[0] == '\n';
    BothHasOpen("", "");
    LinesShowOpen("");
    assert !HasOpen(BETWEEN);
    ResolvingCleanText(BETWEEN, items);
  }

  lemma {:induction false} OneLine(text: string)
    requires text != "" && '\n' !in text
    ensures Lines(text) == [text]
  {
  }

  lemma EmptyHunkLines()
    ensures Lines(OPEN + "\n" + (SEPARATOR + "\n" + CLOSE)) == [OPEN] + ([SEPARATOR] + [CLOSE])
  {
    LinesFrom(OPEN, SEPARATOR + "\n" + CLOSE);
    LinesFrom(SEPARATOR, CLOSE);
    OneLine(CLOSE);
  }

  lemma {:induction false} EmptyHunkScan(lines: seq<string>)
    requires lines == [OPEN, SEPARATOR, CLOSE]
    ensures Scan(lines, 0) == Some([Conflict(1, 1, 2)])
  {
    var pieces := [Conflict(1, 1, 2)];
    assert SEPARATOR[0] == '=' && CLOSE[0] == '>';
    assert Tile(lines, pieces, 0);
    ScanIsTheTiling(lines, 0, pieces);
  }

  lemma {:induction false} EmptyHunkText(lines: seq<string>)
    requires |lines| == 3
    ensures PushAll(Texts(Blocks(lines, [Conflict(1, 1, 2)], []))) == "" + BETWEEN + ""
  {
    var piece, block := Conflict(1, 1, 2), Sides(Both, [], []);
    BlocksGrow(lines, [], piece, []);
    assert [] + [piece] == [piece] && [] + [block] == [block];
    assert lines[1..1] == [] && lines[2..2] == [];
    assert BlockOf(lines, piece, Both) == block;
    TextsGrow([], block);
    assert Texts([]) == [] && block.Text() == "" + BETWEEN + "";
  }

  lemma EmptyHunk(text: string, items: seq<Resolution>)
    requires text == OPEN + "\n" + (SEPARATOR + "\n" + CLOSE) && items == []
    ensures Applied(text, items) == Some("" + BETWEEN + "")
  {
    EmptyHunkLines();
    EmptyHunkScan(Lines(text));
    EmptyHunkText(Lines(text));
  }

  // ---- the automatic plan --------------------------------------------------

  predicate IsWhitespace(c: char) {
    || '\U{9}' <= c <= '\U{D}' || c == ' ' || c == '\U{85}' || c == '\U{A0}' || c == '\U{1680}'
    || '\U{2000}' <= c <= '\U{200A}' || c == '\U{2028}' || c == '\U{2029}' || c == '\U{202F}' || c == '\U{205F}'
    || c == '\U{3000}'
  }

  predicate Blank(text: string) {
    forall i :: 0 <= i < |text| ==> IsWhitespace(text[i])
  }

  function TrimStart(text: string): string {
    if text != "" && IsWhitespace(text[0]) then TrimStart(text[1..]) else text
  }

  function TrimEnd(text: string): string {
    if text != "" && IsWhitespace(text[|text| - 1]) then TrimEnd(text[..|text| - 1]) else text
  }

  function Trim(text: string): string {
    TrimEnd(TrimStart(text))
  }

  lemma {:induction false} TrimStartDrops(text: string) returns (lead: string)
    ensures text == lead + TrimStart(text) && Blank(lead)
  {
    if text != "" && IsWhitespace(text[0]) {
      lead := TrimStartDrops(text[1..]);
      lead := [text[0]] + lead;
    } else {
      lead := "";
    }
  }

  lemma {:induction false} TrimEndDrops(text: string) returns (tail: string)
    ensures text == TrimEnd(text) + tail && Blank(tail)
  {
    if text != "" && IsWhitespace(text[|text| - 1]) {
      tail := TrimEndDrops(text[..|text| - 1]);
      tail := tail + [text[|text| - 1]];
    } else {
      tail := "";
    }
  }

  lemma TrimDrops(text: string) returns (lead: string, tail: string)
    ensures text == lead + Trim(text) + tail && Blank(lead) && Blank(tail)
  {
    lead := TrimStartDrops(text);
    tail := TrimEndDrops(TrimStart(text));
  }

  /** Nothing to trim. */
  predicate IsTrimmed(text: string) {
    text != "" ==> !IsWhitespace(text[0]) && !IsWhitespace(text[|text| - 1])
  }

  lemma {:induction false} TrimEndOf(core: string, tail: string)
    requires IsTrimmed(core) && Blank(tail)
    ensures TrimEnd(core + tail) == core
  {
    if tail == "" {
      assert core + tail == core;
    } else {
      var n := |tail| - 1;
      TrimEndOf(core, tail[..n]);
      assert (core + tail)[..|core + tail| - 1] == core + tail[..n];
    }
  }

  lemma {:induction false} TrimStartOf(lead: string, rest: string)
    requires Blank(lead) && (rest == "" || !IsWhitespace(rest[0]))
    ensures TrimStart(lead + rest) == rest
  {
    if lead == "" {
      assert lead + rest == rest;
    } else {
      TrimStartOf(lead[1..], rest);
      assert (lead + rest)[1..] == lead[1..] + rest;
    }
  }

  /** Trimming takes off all the white space in front and behind, and nothing else. */
  lemma TrimFindsTheCore(lead: string, core: string, tail: string)
    requires Blank(lead) && Blank(tail) && IsTrimmed(core)
    ensures Trim(lead + core + tail) == core
  {
    if core == "" {
      assert lead + core + tail == (lead + tail) + "";
      TrimStartOf(lead + tail, "");
    } else {
      assert lead + core + tail == lead + (core + tail);
      TrimStartOf(lead, core + tail);
      TrimEndOf(core, tail);
    }
  }

  lemma {:induction false} TrimmedStart(text: string)
    ensures TrimStart(text) == "" || !IsWhitespace(TrimStart(text)[0])
  {
    if text != "" && IsWhitespace(text[0]) {
      TrimmedStart(text[1..]);
    }
  }

  lemma {:induction false} TrimmedEnd(text: string)
    requires text == "" || !IsWhitespace(text[0])
    ensures IsTrimmed(TrimEnd(text))
  {
    if text != "" && IsWhitespace(text[|text| - 1]) {
      TrimmedEnd(text[..|text| - 1]);
    }
  }

  /** Two texts around one core, with white space only in front of it and behind. */
  ghost predicate AroundCore(ours: string, theirs: string, core: string,
                             lead: string, tail: string, lead': string, tail': string)
  {
    && Blank(lead) && Blank(tail) && Blank(lead') && Blank(tail')
    && ours == lead + core + tail && theirs == lead' + core + tail'
  }

  ghost predicate SameUpToBlanks(ours: string, theirs: string) {
    exists core, lead, tail, lead', tail' :: AroundCore(ours, theirs, core, lead, tail, lead', tail')
  }

  lemma TrimOfAround(lead: string, core: string, tail: string)
    requires Blank(lead) && Blank(tail)
    ensures Trim(lead + core + tail) == Trim(core)
  {
    var l, t := TrimDrops(core);
    TrimmedStart(core);
    TrimmedEnd(TrimStart(core));
    var inner := Trim(core);
    assert lead + core + tail == (lead + l) + inner + (t + tail);
    TrimFindsTheCore(lead + l, inner, t + tail);
  }

  lemma TrimsAgree(ours: string, theirs: string)
    ensures Trim(ours) == Trim(theirs) <==> SameUpToBlanks(ours, theirs)
  {
    if Trim(ours) == Trim(theirs) {
      var lead, tail := TrimDrops(ours);
      var lead', tail' := TrimDrops(theirs);
      assert AroundCore(ours, theirs, Trim(ours), lead, tail, lead', tail');
    }
    if SameUpToBlanks(ours, theirs) {
      var core, lead, tail, lead', tail' :| AroundCore(ours, theirs, core, lead, tail, lead', tail');
      TrimOfAround(lead, core, tail);
      TrimOfAround(lead', core, tail');
    }
  }

  datatype FileConflicts = FileConflicts(path: string, hunks: seq<Hunk>)

  type Plan = map<string, seq<Resolution>>

  function AutoChoice(hunk: Hunk): string {
    if Trim(hunk.ours) == Trim(hunk.theirs) then "ours" else "keep_both"
  }

  /** One item per hunk, in order. */
  ghost predicate IsAuto(hunks: seq<Hunk>, items: seq<Resolution>) {
    && |items| == |hunks|
    && forall k :: 0 <= k < |hunks| ==> items[k] == Resolution(k, AutoChoice(hunks[k]))
  }

  /** The item for hunk `k`: ours where the sides are the same up to white space around them, and both otherwise. */
  ghost predicate ItemSays(hunk: Hunk, item: Resolution, k: nat) {
    && item.hunkIndex == k
    && (SameUpToBlanks(hunk.ours, hunk.theirs) ==> item.choice == "ours")
    && (!SameUpToBlanks(hunk.ours, hunk.theirs) ==> item.choice == "keep_both")
  }

  lemma AutoItemsSay(hunks: seq<Hunk>, items: seq<Resolution>)
    requires IsAuto(hunks, items)
    ensures |items| == |hunks| && forall k :: 0 <= k < |hunks| ==> ItemSays(hunks[k], items[k], k)
  {
    forall k | 0 <= k < |hunks|
      ensures ItemSays(hunks[k], items[k], k)
    {
      TrimsAgree(hunks[k].ours, hunks[k].theirs);
    }
  }

  /** No later file has the path of this one. */
  ghost predicate IsLast(conflicts: seq<FileConflicts>, i: nat)
    requires i < |conflicts|
  {
    forall j :: i < j < |conflicts| ==> conflicts[j].path != conflicts[i].path
  }

  /** A plan for exactly these paths: for each one that of the last file with it. */
  ghost predicate PlanOf(conflicts: seq<FileConflicts>, plan: Plan) {
    && (forall path <- plan :: HasPath(conflicts, path))
    && (forall i :: 0 <= i < |conflicts| ==> conflicts[i].path in plan)
    && (forall i :: 0 <= i < |conflicts| && IsLast(conflicts, i) ==>
          IsAuto(conflicts[i].hunks, plan[conflicts[i].path]))
  }

  ghost predicate HasPath(conflicts: seq<FileConflicts>, path: string) {
    exists i :: 0 <= i < |conflicts| && conflicts[i].path == path
  }

  method AutoItems(hunks: seq<Hunk>) returns (items: seq<Resolution>)
    ensures IsAuto(hunks, items)
    ensures |items| == |hunks| && forall k :: 0 <= k < |hunks| ==> ItemSays(hunks[k], items[k], k)
  {
    items := [];
    for idx := 0 to |hunks|
      invariant IsAuto(hunks[..idx], items)
    {
      var oursN, theirsN := Trim(hunks[idx].ours), Trim(hunks[idx].theirs);
      var resolution := if oursN == theirsN then "ours" else "keep_both";
      ItemsGrow(hunks, idx, items, Resolution(idx, resolution));
      items := items + [Resolution(idx, resolution)];
    }
    assert hunks[..|hunks|] == hunks;
    AutoItemsSay(hunks, items);
  }

  method ProposeAuto(conflicts: seq<FileConflicts>) returns (plan: Plan)
    ensures PlanOf(conflicts, plan)
  {
    plan := map[];
    for i := 0 to |conflicts|
      invariant PlanOf(conflicts[..i], plan)
    {
      var fc := conflicts[i];
      var items := AutoItems(fc.hunks);
      PlanGrowsTo(conflicts, i, plan, items);
      plan := plan[fc.path := items];
    }
    assert conflicts[..|conflicts|] == conflicts;
  }

  /** What the plan says for the last file with a path. */
  lemma PlanSays(conflicts: seq<FileConflicts>, plan: Plan, i: nat)
    requires PlanOf(conflicts, plan) && i < |conflicts| && IsLast(conflicts, i)
    ensures conflicts[i].path in plan
    ensures var hunks, items := conflicts[i].hunks, plan[conflicts[i].path];
            |items| == |hunks| && forall k :: 0 <= k < |hunks| ==> ItemSays(hunks[k], items[k], k)
  {
    AutoItemsSay(conflicts[i].hunks, plan[conflicts[i].path]);
  }

  lemma ItemsGrow(hunks: seq<Hunk>, idx: nat, items: seq<Resolution>, item: Resolution)
    requires idx < |hunks| && IsAuto(hunks[..idx], items) && item == Resolution(idx, AutoChoice(hunks[idx]))
    ensures IsAuto(hunks[..idx + 1], items + [item])
  {
    assert forall k :: 0 <= k < idx ==> hunks[..idx + 1][k] == hunks[..idx][k];
  }

  lemma PlanGrows(earlier: seq<FileConflicts>, fc: FileConflicts, all: seq<FileConflicts>, plan: Plan,
                  items: seq<Resolution>)
    requires PlanOf(earlier, plan) && IsAuto(fc.hunks, items) && all == earlier + [fc]
    ensures PlanOf(all, plan[fc.path := items])
  {
    var more := plan[fc.path := items];
    forall path | path in more
      ensures HasPath(all, path)
    {
      PathGrows(earlier, fc, path);
    }
    forall i | 0 <= i < |all| && IsLast(all, i)
      ensures IsAuto(all[i].hunks, more[all[i].path])
    {
      if i < |earlier| {
        LastBefore(earlier, fc, i);
      }
    }
  }

  lemma PlanGrowsTo(conflicts: seq<FileConflicts>, i: nat, plan: Plan, items: seq<Resolution>)
    requires i < |conflicts| && PlanOf(conflicts[..i], plan) && IsAuto(conflicts[i].hunks, items)
    ensures PlanOf(conflicts[..i + 1], plan[conflicts[i].path := items])
  {
    assert conflicts[..i + 1] == conflicts[..i] + [conflicts[i]];
    PlanGrows(conflicts[..i], conflicts[i], conflicts[..i + 1], plan, items);
  }

  lemma PathGrows(earlier: seq<FileConflicts>, fc: FileConflicts, path: string)
    requires HasPath(earlier, path) || path == fc.path
    ensures HasPath(earlier + [fc], path)
  {
    if HasPath(earlier, path) {
      var i :| 0 <= i < |earlier| && earlier[i].path == path;
      assert (earlier + [fc])[i].path == path;
    } else {
      assert (earlier + [fc])[|earlier|].path == path;
    }
  }

  lemma LastBefore(earlier: seq<FileConflicts>, fc: FileConflicts, i: nat)
    requires i < |earlier| && IsLast(earlier + [fc], i)
    ensures IsLast(earlier, i) && earlier[i].path != fc.path
  {
    var all := earlier + [fc];
    assert all[|earlier|].path != all[i].path;
    assert forall j :: i < j < |earlier| ==> all[j] == earlier[j];
  }

  /** The first item for the hunk decides; without one both sides are kept. */
  lemma {:induction false} FirstItemDecides(items: seq<Resolution>, k: nat, j: nat)
    requires j <= |items| && forall i :: 0 <= i < j ==> items[i].hunkIndex != k
    requires j < |items| ==> items[j].hunkIndex == k
    ensures PickFor(items, k) == if j == |items| then Both else Named(items[j].choice)
  {
    if j > 0 {
      FirstItemDecides(items[1..], k, j - 1);
    }
  }

  /** What the plan says about a hunk is what is written for it. */
  lemma PlanIsFollowed(text: string, items: seq<Resolution>, k: nat, j: nat)
    requires Explained(text).Some? && k < |Explained(text).value|
    requires j <= |items| && forall i :: 0 <= i < j ==> items[i].hunkIndex != k
    requires j < |items| ==> items[j].hunkIndex == k
    ensures var hunk, chosen := Explained(text).value[k], ChosenText(Explained(text).value, items, k);
            && (j < |items| && items[j].choice == "ours" ==> chosen == hunk.ours)
            && (j < |items| && items[j].choice == "theirs" ==> chosen == hunk.theirs)
            && (j == |items| || (items[j].choice != "ours" && items[j].choice != "theirs") ==>
                  chosen == hunk.ours + BETWEEN + hunk.theirs)
  {
    FirstItemDecides(items, k, j);
  }

  lemma {:induction false} PickByPosition(items: seq<Resolution>, from: nat, k: nat)
    requires k < |items| && forall j :: 0 <= j < |items| ==> items[j].hunkIndex == from + j
    ensures PickFor(items, from + k) == Named(items[k].choice)
  {
    if k > 0 {
      PickByPosition(items[1..], from + 1, k - 1);
    }
  }

  lemma {:induction false} AutoPicks(hunks: seq<Hunk>, items: seq<Resolution>, k: nat)
    requires IsAuto(hunks, items) && k < |hunks|
    ensures PickFor(items, k) == if Trim(hunks[k].ours) == Trim(hunks[k].theirs) then Ours else Both
  {
    PickByPosition(items, 0, k);
  }

  lemma {:induction false} KeptAt(parts: seq<string>, j: nat) returns (i: nat)
    requires j < |parts| && parts[j] != ""
    ensures i < |DropLeadingEmpty(parts)| && DropLeadingEmpty(parts)[i] == parts[j]
  {
    if parts[0] == "" {
      i := KeptAt(parts[1..], j - 1);
    } else {
      i := j;
    }
  }

  /** Whatever text is chosen for a hunk stands whole in the resolved file. */
  lemma ChosenTextIsWritten(text: string, items: seq<Resolution>, k: nat) returns (before: string, after: string)
    requires Explained(text).Some? && k < |Explained(text).value|
    requires ChosenText(Explained(text).value, items, k) != ""
    ensures Applied(text, items) == Some(before + ChosenText(Explained(text).value, items, k) + after)
  {
    var pieces, segments := OneTilingForBoth(text, items);
    var j := PieceOfConflict(pieces, k);
    assert IsSegment(Lines(text), pieces, Explained(text).value, items, j, segments[j]);
    var i := KeptAt(segments, j);
    before, after := JoinContains(DropLeadingEmpty(segments), i);
  }

  /** Under the automatic plan sides that differ by more than surrounding white space both appear whole, ours first. */
  lemma DifferingSidesBothAppear(text: string, items: seq<Resolution>, k: nat) returns (before: string, after: string)
    requires Explained(text).Some? && IsAuto(Explained(text).value, items) && k < |items|
    requires var hunk := Explained(text).value[k]; !SameUpToBlanks(hunk.ours, hunk.theirs)
    ensures var hunk := Explained(text).value[k];
            Applied(text, items) == Some(before + (hunk.ours + BETWEEN + hunk.theirs) + after)
  {
    AutoPicks(Explained(text).value, items, k);
    var hunk := Explained(text).value[k];
    TrimsAgree(hunk.ours, hunk.theirs);
    BothIsNotEmpty(hunk.ours, hunk.theirs);
    before, after := ChosenTextIsWritten(text, items, k);
  }

  /** It keeps ours alone exactly where theirs is the same text up to surrounding white space. */
  lemma EqualSidesKeepTheText(text: string, items: seq<Resolution>, k: nat)
    requires Explained(text).Some? && IsAuto(Explained(text).value, items) && k < |items|
    ensures var hunk := Explained(text).value[k];
            ChosenText(Explained(text).value, items, k) == hunk.ours <==> SameUpToBlanks(hunk.ours, hunk.theirs)
  {
    var hunk := Explained(text).value[k];
    AutoPicks(Explained(text).value, items, k);
    TrimsAgree(hunk.ours, hunk.theirs);
    assert |hunk.ours + BETWEEN + hunk.theirs| > |hunk.ours|;
  }
}
