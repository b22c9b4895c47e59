/** What a file with one hunk looks like, what is listed for it and what is written. */
module MergeExamples {
  import opened MergeAssist
  import opened MergeResults
  import opened MergeText
  import opened Wrappers

  predicate OnOneLine(text: string) {
    '\n' !in text && (text != "" ==> text[|text| - 1] != '\r')
  }

  /** The text with these lines, the last one without a newline behind it. */
  function Assembled(lines: seq<string>): string
    requires lines != []
  {
    if |lines| == 1 then lines[0] else lines[0] + "\n" + Assembled(lines[1..])
  }

  lemma {:induction false} LinesOfAssembled(lines: seq<string>)
    requires lines != [] && lines[|lines| - 1] != "" && forall line <- lines :: OnOneLine(line)
    ensures Lines(Assembled(lines)) == lines
  {
    assert OnOneLine(lines[0]);
    if |lines| == 1 {
      OneLine(lines[0]);
    } else {
      LinesOfAssembled(lines[1..]);
      LinesFrom(lines[0], Assembled(lines[1..]));
    }
  }

  /** One line in front, the two sides of a hunk, and one line behind. */
  datatype Sample = Sample(before: string, head: string, ours: string, theirs: string, other: string, after: string) {
    /** The lines of the file. */
    function Split(): seq<string> {
      [before, "<<<<<<<" + head, ours, "=======", theirs, ">>>>>>>" + other, after]
    }

    function Text(): string { Assembled(Split()) }

    /** No part spills over its line or looks like a marker that would be taken for another one. */
    predicate Tidy() {
      && before != "" && after != ""
      && OnOneLine(before) && OnOneLine("<<<<<<<" + head) && OnOneLine(ours) && OnOneLine(theirs)
      && OnOneLine(">>>>>>>" + other) && OnOneLine(after)
      && !("<<<<<<<" <= before) && !("<<<<<<<" <= after)
      && !("=======" <= ours) && !(">>>>>>>" <= ours) && !(">>>>>>>" <= theirs)
    }
  }

  lemma {:induction false} SampleLines(s: Sample)
    requires s.Tidy()
    ensures Lines(s.Text()) == s.Split()
  {
    LinesOfAssembled(s.Split());
  }

  const PIECES: seq<Piece> := [Context(0), Conflict(2, 3, 5), Context(6)]

  lemma {:induction false} SampleScan(s: Sample)
    requires s.Tidy()
    ensures Scan(s.Split(), 0) == Some(PIECES)
  {
    var lines := s.Split();
    assert "<<<<<<<" <= lines[1] && ">>>>>>>" <= lines[5];
    assert "======="[0] == '=' && ">>>>>>>"[0] == '>' && lines[3] == "=======";
    assert Fits(lines, Context(0)) && Fits(lines, Conflict(2, 3, 5)) && Fits(lines, Context(6));
    assert Tile(lines, PIECES, 0);
    ScanIsTheTiling(lines, 0, PIECES);
  }

  lemma {:induction false} SampleHunks(lines: seq<string>, ours: string, theirs: string)
    requires |lines| == 7 && lines[2] == ours && lines[4] == theirs
    ensures AllWithin(lines, [Conflict(2, 3, 5)]) && AllConflicts([Conflict(2, 3, 5)])
    ensures HunksOf(lines, [Conflict(2, 3, 5)]) == [Hunk(2, 5, ours, theirs)]
  {
    HunksGrow(lines, [], Conflict(2, 3, 5));
    assert [] + [Conflict(2, 3, 5)] == [Conflict(2, 3, 5)];
    assert lines[2..3] == [ours] && lines[4..5] == [theirs];
  }

  /** The one hunk listed has its sides and their place: from the first line behind the marker to the closing one. */
  lemma {:induction false} SampleIsListed(s: Sample)
    requires s.Tidy()
    ensures Explained(s.Text()) == Some([Hunk(2, 5, s.ours, s.theirs)])
  {
    SampleLines(s);
    SampleScan(s);
    SampleConflicts();
    SampleHunks(s.Split(), s.ours, s.theirs);
  }

  lemma {:induction false} SampleConflicts()
    ensures Conflicts([Context(0)]) == [] && Conflicts([Context(0), Conflict(2, 3, 5)]) == [Conflict(2, 3, 5)]
    ensures Conflicts(PIECES) == [Conflict(2, 3, 5)]
  {
    var one: seq<Piece> := [Context(0)];
    ConflictsGrow([], Context(0));
    assert [] + [Context(0)] == one;
    ConflictsGrow(one, Conflict(2, 3, 5));
    assert one + [Conflict(2, 3, 5)] == [Context(0), Conflict(2, 3, 5)];
    ConflictsGrow([Context(0), Conflict(2, 3, 5)], Context(6));
    assert [Context(0), Conflict(2, 3, 5)] + [Context(6)] == PIECES;
  }

  /** What is written for the hunk. */
  function Written(s: Sample, items: seq<Resolution>): string {
    if items != [] && items[0] == Resolution(0, "ours") then s.ours
    else if items != [] && items[0] == Resolution(0, "theirs") then s.theirs
    else s.ours + "\n// --- theirs ---\n" + s.theirs
  }

  lemma {:induction false} HunkBetween(lines: seq<string>, a: Piece, b: Piece, c: Piece, items: seq<Resolution>)
    requires a.Context? && b.Conflict? && c.Context? && Within(lines, a) && Within(lines, b) && Within(lines, c)
    ensures AllWithin(lines, [a, b, c])
    ensures Blocks(lines, [a, b, c], items)
            == [BlockOf(lines, a, Both)] + [BlockOf(lines, b, PickFor(items, 0))] + [BlockOf(lines, c, Both)]
  {
    var none: seq<Piece> := [];
    var one, two := none + [a], none + [a] + [b];
    ConflictsGrow(none, a);
    BlocksGrow(lines, none, a, items);
    BlocksGrow(lines, one, b, items);
    BlocksGrow(lines, two, c, items);
    assert two + [c] == [a, b, c];
  }

  lemma {:induction false} SampleBlocks(lines: seq<string>, items: seq<Resolution>)
    requires |lines| == 7
    ensures AllWithin(lines, PIECES)
    ensures Blocks(lines, PIECES, items)
            == [Line(lines[0]), BlockOf(lines, Conflict(2, 3, 5), PickFor(items, 0)), Line(lines[6])]
  {
    HunkBetween(lines, Context(0), Conflict(2, 3, 5), Context(6), items);
  }

  lemma {:induction false} ThreeBlocks(a: Block, b: Block, c: Block)
    ensures PushAll(Texts([a, b, c])) == Push(Push(Push("", a.Text()), b.Text()), c.Text())
  {
    TextsGrow([], a);
    TextsGrow([a], b);
    TextsGrow([a, b], c);
    assert Texts([]) == [] && [] + [a] == [a] && [a] + [b] == [a, b] && [a, b] + [c] == [a, b, c];
  }

  lemma {:induction false} SampleHunk(s: Sample, items: seq<Resolution>)
    requires |items| <= 1 && (items != [] ==> items[0].hunkIndex == 0)
    ensures Resolve(PickFor(items, 0), s.ours, s.theirs) == Written(s, items)
  {
  }

  lemma {:induction false} SampleWritten(s: Sample, items: seq<Resolution>)
    requires |items| <= 1 && (items != [] ==> items[0].hunkIndex == 0)
    ensures PushAll(Texts(Blocks(s.Split(), PIECES, items)))
            == Push(Push(Push("", s.before), Written(s, items)), s.after)
  {
    var lines := s.Split();
    SampleBlocks(lines, items);
    var hunk := BlockOf(lines, Conflict(2, 3, 5), PickFor(items, 0));
    assert lines[2..3] == [s.ours] && lines[4..5] == [s.theirs];
    SampleHunk(s, items);
    ThreeBlocks(Line(s.before), hunk, Line(s.after));
  }

  /** The line in front, the side the plan names or both sides with a comment line between them, and the line behind. */
  lemma {:induction false} SampleIsResolved(s: Sample, items: seq<Resolution>)
    requires s.Tidy() && |items| <= 1 && (items != [] ==> items[0].hunkIndex == 0)
    ensures Applied(s.Text(), items) == Some(s.before + "\n" + Written(s, items) + "\n" + s.after)
  {
    SampleLines(s);
    SampleScan(s);
    SampleWritten(s, items);
  }
}
