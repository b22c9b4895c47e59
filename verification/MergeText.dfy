/** Text and its lines: what the merge assistant takes apart and puts together again. */
module MergeText {

  /** The index of the first newline, or the length. */
  function LineEnd(text: string): (i: nat)
    ensures i <= |text| && (i < |text| ==> text[i] == '\n')
    ensures forall k :: 0 <= k < i ==> text[k] != '\n'
  {
    if text == "" || text[0] == '\n' then 0 else 1 + LineEnd(text[1..])
  }

  function StripCr(line: string): (r: string)
    ensures r <= line
  {
    if line != "" && line[|line| - 1] == '\r' then line[..|line| - 1] else line
  }

  /** `str::lines`: a final newline ends the last line, and a carriage return before a newline goes with it. */
  function Lines(text: string): (lines: seq<string>)
    ensures forall line <- lines :: '\n' !in line
    ensures lines == [] <==> text == ""
  {
    var i := LineEnd(text);
    if text == "" then []
    else if i == |text| then [text]
    else [StripCr(text[..i])] + Lines(text[i + 1..])
  }

  lemma {:induction false} FirstNewline(line: string, rest: string)
    requires '\n' !in line
    ensures LineEnd(line + "\n" + rest) == |line|
  {
    var text := line + "\n" + rest;
    assert forall k :: 0 <= k < |line| ==> text[k] == line[k];
    assert text[|line|] == '\n';
  }

  lemma {:induction false} LinesFrom(line: string, rest: string)
    requires '\n' !in line && StripCr(line) == line
    ensures Lines(line + "\n" + rest) == [line] + Lines(rest)
  {
    var text := line + "\n" + rest;
    FirstNewline(line, rest);
    assert text[..|line|] == line && text[|line| + 1..] == rest;
  }

  function Join(parts: seq<string>): string {
    if parts == [] then ""
    else if |parts| == 1 then parts[0]
    else Join(parts[..|parts| - 1]) + "\n" + parts[|parts| - 1]
  }

  // ---- the output loop -----------------------------------------------------

  /** Append a part, after a newline unless nothing has been written so far. */
  function Push(out: string, part: string): string {
    if out == "" then part else out + "\n" + part
  }

  function PushAll(parts: seq<string>): string {
    if parts == [] then "" else Push(PushAll(parts[..|parts| - 1]), parts[|parts| - 1])
  }

  function DropLeadingEmpty(parts: seq<string>): (r: seq<string>)
    ensures r != [] ==> r[0] != ""
  {
    if parts != [] && parts[0] == "" then DropLeadingEmpty(parts[1..]) else parts
  }

  lemma {:induction false} DropOfLonger(parts: seq<string>, part: string)
    ensures DropLeadingEmpty(parts + [part])
            == if DropLeadingEmpty(parts) == [] then (if part == "" then [] else [part])
               else DropLeadingEmpty(parts) + [part]
  {
    if parts != [] {
      assert (parts + [part])[1..] == parts[1..] + [part];
      if parts[0] == "" {
        DropOfLonger(parts[1..], part);
      }
    }
  }

  lemma {:induction false} JoinOfNonEmpty(parts: seq<string>)
    requires parts != [] && parts[0] != ""
    ensures Join(parts) != ""
  {
    if |parts| > 1 {
      JoinOfNonEmpty(parts[..|parts| - 1]);
    }
  }

  lemma {:induction false} PushOntoJoin(kept: seq<string>, part: string)
    requires kept != [] ==> kept[0] != ""
    ensures Push(Join(kept), part) == if kept == [] then part else Join(kept + [part])
  {
    if kept != [] {
      JoinOfNonEmpty(kept);
      assert (kept + [part])[..|kept|] == kept;
    }
  }

  /** What is written is the newline-join of the parts without the leading empty ones. */
  lemma {:induction false} PushAllIsJoin(parts: seq<string>)
    ensures PushAll(parts) == Join(DropLeadingEmpty(parts))
  {
    if parts != [] {
      var n := |parts| - 1;
      assert parts == parts[..n] + [parts[n]];
      PushAllIsJoin(parts[..n]);
      DropOfLonger(parts[..n], parts[n]);
      PushOntoJoin(DropLeadingEmpty(parts[..n]), parts[n]);
    }
  }

  /** A part that is kept stands in the joined text as it is. */
  lemma {:induction false} JoinContains(parts: seq<string>, k: nat) returns (before: string, after: string)
    requires k < |parts|
    ensures Join(parts) == before + parts[k] + after
  {
    if |parts| == 1 {
      before, after := "", "";
      assert Join(parts) == before + parts[k] + after;
    } else {
      var n := |parts| - 1;
      if k == n {
        before, after := Join(parts[..n]) + "\n", "";
        assert Join(parts) == before + parts[k] + after;
      } else {
        before, after := JoinContains(parts[..n], k);
        after := after + "\n" + parts[n];
        assert Join(parts) == before + parts[k] + after;
      }
    }
  }

  // ---- marker lines --------------------------------------------------------

  const OPEN := "<<<<<<<"

  predicate IsOpen(line: string) {
    OPEN <= line
  }

  ghost predicate OpenAt(text: string, p: nat) {
    p <= |text| && (p == 0 || text[p - 1] == '\n') && OPEN <= text[p..]
  }

  /** Somewhere in the text a line starts with the opening marker. */
  ghost predicate HasOpen(text: string) {
    exists p: nat :: OpenAt(text, p)
  }

  ghost predicate AnyOpen(lines: seq<string>) {
    exists i :: 0 <= i < |lines| && IsOpen(lines[i])
  }

  /** Every character of the marker is a `<`. */
  lemma MarkerAt(text: string, p: nat, q: nat)
    requires p <= q < p + 7 && p <= |text| && OPEN <= text[p..]
    ensures q < |text| && text[q] == '<'
  {
    assert |OPEN| == 7 && OPEN[q - p] == '<';
    assert text[p..][q - p] == text[q];
  }

  lemma MarkerInBoth(text: string, p: nat, other: string, q: nat)
    requires p <= |text| && OPEN <= text[p..] && q + 7 <= |other|
    requires forall j :: p <= j < p + 7 && j < |text| ==> other[q + (j - p)] == text[j]
    ensures OPEN <= other[q..]
  {
    assert |OPEN| == 7;
    forall k | 0 <= k < 7
      ensures OPEN[k] == other[q..][k]
    {
      MarkerAt(text, p, p + k);
      assert text[p..][k] == text[p + k];
    }
  }

  lemma OpenSplitAt(a: string, b: string, p: nat)
    requires OpenAt(a + "\n" + b, p)
    ensures HasOpen(a) || HasOpen(b)
  {
    var t := a + "\n" + b;
    if p <= |a| {
      if |a| < p + 7 {
        MarkerAt(t, p, |a|);
        assert false;
      }
      MarkerInBoth(t, p, a, p);
      assert OpenAt(a, p);
    } else {
      var q := p - |a| - 1;
      MarkerAt(t, p, p + 6);
      MarkerInBoth(t, p, b, q);
      assert q > 0 ==> b[q - 1] == t[p - 1];
      assert OpenAt(b, q);
    }
  }

  lemma InTheMiddle(front: string, part: string, end: string, j: nat)
    requires j < |part|
    ensures (front + part + end)[|front| + j] == part[j]
  {
  }

  lemma OpenStays(front: string, part: string, end: string, p: nat)
    requires OpenAt(part, p) && (front == "" || front[|front| - 1] == '\n')
    ensures HasOpen(front + part + end)
  {
    var t, q := front + part + end, |front| + p;
    MarkerAt(part, p, p + 6);
    forall j | p <= j < p + 7 && j < |part|
      ensures t[q + (j - p)] == part[j]
    {
      InTheMiddle(front, part, end, j);
      assert q + (j - p) == |front| + j;
    }
    MarkerInBoth(part, p, t, q);
    assert q > 0 ==> t[q - 1] == if p > 0 then part[p - 1] else front[|front| - 1];
    assert OpenAt(t, q);
  }

  lemma OpenJoins(a: string, b: string)
    ensures HasOpen(a + "\n" + b) <==> HasOpen(a) || HasOpen(b)
  {
    var t := a + "\n" + b;
    if HasOpen(a) {
      var p: nat :| OpenAt(a, p);
      OpenStays("", a, "\n" + b, p);
      assert "" + a + ("\n" + b) == t;
    }
    if HasOpen(b) {
      var p: nat :| OpenAt(b, p);
      OpenStays(a + "\n", b, "", p);
      assert a + "\n" + b + "" == t;
    }
    if HasOpen(t) {
      var p: nat :| OpenAt(t, p);
      OpenSplitAt(a, b, p);
    }
  }

  lemma OpenInOneLine(line: string)
    requires '\n' !in line
    ensures HasOpen(line) <==> IsOpen(line)
  {
    assert line[0..] == line;
    assert IsOpen(line) ==> OpenAt(line, 0);
  }

  lemma StripKeepsOpen(line: string)
    ensures IsOpen(StripCr(line)) <==> IsOpen(line)
  {
    if IsOpen(line) && StripCr(line) != line {
      assert line[|line| - 1] == '\r';
      assert |line| != |OPEN|;
    }
  }

  lemma AnyOpenCons(line: string, rest: seq<string>)
    ensures AnyOpen([line] + rest) <==> IsOpen(line) || AnyOpen(rest)
  {
    var lines := [line] + rest;
    if IsOpen(line) {
      assert IsOpen(lines[0]);
    }
    if AnyOpen(rest) {
      var i :| 0 <= i < |rest| && IsOpen(rest[i]);
      assert IsOpen(lines[i + 1]);
    }
    if AnyOpen(lines) {
      var i :| 0 <= i < |lines| && IsOpen(lines[i]);
      assert i > 0 ==> IsOpen(rest[i - 1]);
    }
  }

  /** A marker line is found among the lines of a text exactly when it is in the text. */
  lemma {:induction false} LinesShowOpen(text: string)
    ensures AnyOpen(Lines(text)) <==> HasOpen(text)
    decreases |text|
  {
    var i := LineEnd(text);
    if text != "" && i < |text| {
      var a, b := text[..i], text[i + 1..];
      assert text == a + "\n" + b;
      LinesShowOpen(b);
      OpenJoins(a, b);
      OpenInOneLine(a);
      StripKeepsOpen(a);
      AnyOpenCons(StripCr(a), Lines(b));
    } else if text != "" {
      OpenInOneLine(text);
      AnyOpenCons(text, []);
      assert [text] + [] == [text];
    }
  }

  ghost predicate AnyHasOpen(parts: seq<string>) {
    exists k :: 0 <= k < |parts| && HasOpen(parts[k])
  }

  lemma AnyHasOpenGrows(parts: seq<string>, part: string)
    ensures AnyHasOpen(parts + [part]) <==> AnyHasOpen(parts) || HasOpen(part)
  {
    if AnyHasOpen(parts) {
      var k :| 0 <= k < |parts| && HasOpen(parts[k]);
      assert HasOpen((parts + [part])[k]);
    }
    assert (parts + [part])[|parts|] == part;
  }

  /** A joined text has a marker line exactly when one of its parts has. */
  lemma {:induction false} JoinShowsOpen(parts: seq<string>)
    ensures HasOpen(Join(parts)) <==> AnyHasOpen(parts)
  {
    if parts != [] {
      var n := |parts| - 1;
      assert parts == parts[..n] + [parts[n]];
      AnyHasOpenGrows(parts[..n], parts[n]);
      if n > 0 {
        JoinShowsOpen(parts[..n]);
        OpenJoins(Join(parts[..n]), parts[n]);
      }
    }
  }

  lemma {:induction false} PushAllShowsOpen(parts: seq<string>)
    ensures HasOpen(PushAll(parts)) <==> AnyHasOpen(parts)
  {
    if parts != [] {
      var n := |parts| - 1;
      assert parts == parts[..n] + [parts[n]];
      AnyHasOpenGrows(parts[..n], parts[n]);
      PushAllShowsOpen(parts[..n]);
      OpenJoins(PushAll(parts[..n]), parts[n]);
    }
  }

  // ---- when nothing is lost ------------------------------------------------

  /** No carriage return stands before a newline. */
  ghost predicate NoCrLf(text: string) {
    forall i :: 0 < i < |text| && text[i] == '\n' ==> text[i - 1] != '\r'
  }

  predicate EndsIn(text: string, c: char) {
    text != "" && text[|text| - 1] == c
  }

  lemma NoCrLfSplits(a: string, b: string)
    ensures NoCrLf(a + "\n" + b) <==> NoCrLf(a) && NoCrLf(b) && !EndsIn(a, '\r')
  {
    var t, n := a + "\n" + b, |a| + 1;
    assert t[|a|] == '\n' && (a != "" ==> t[|a| - 1] == a[|a| - 1]);
    assert forall i :: 0 <= i < |a| ==> t[i] == a[i];
    assert forall i :: 0 <= i < |b| ==> t[n + i] == b[i];
    if NoCrLf(t) {
      forall i | 0 < i < |b| && b[i] == '\n'
        ensures b[i - 1] != '\r'
      {
        assert t[n + i] == '\n' && t[n + i - 1] == b[i - 1];
      }
    }
    if NoCrLf(a) && NoCrLf(b) && !EndsIn(a, '\r') {
      forall i | 0 < i < |t| && t[i] == '\n'
        ensures t[i - 1] != '\r'
      {
        if i > n {
          assert t[i] == b[i - n] && t[i - 1] == b[i - n - 1];
        }
      }
    }
  }

  /** Newlines only between lines, and no carriage return in front of one. */
  ghost predicate Unterminated(text: string) {
    !EndsIn(text, '\n') && NoCrLf(text)
  }

  /** And no blank first line. */
  ghost predicate Plain(text: string) {
    Unterminated(text) && (text != "" ==> text[0] != '\n')
  }

  lemma {:induction false} JoinFront(part: string, rest: seq<string>)
    requires rest != []
    ensures Join([part] + rest) == part + "\n" + Join(rest)
  {
    var parts, n := [part] + rest, |rest| - 1;
    assert parts[..|rest|] == [part] + rest[..n];
    if n > 0 {
      JoinFront(part, rest[..n]);
    }
  }

  lemma UnterminatedSplits(a: string, b: string)
    requires '\n' !in a && b != ""
    ensures Unterminated(a + "\n" + b) <==> StripCr(a) == a && Unterminated(b)
  {
    var t := a + "\n" + b;
    NoCrLfSplits(a, b);
    assert t[|t| - 1] == b[|b| - 1] && NoCrLf(a);
    assert StripCr(a) == a <==> !EndsIn(a, '\r');
  }

  lemma {:induction false} JoinOfLines(text: string)
    ensures |Join(Lines(text))| <= |text|
    ensures Join(Lines(text)) == text <==> Unterminated(text)
    decreases |text|
  {
    var i := LineEnd(text);
    if text != "" && i < |text| {
      var a, b := text[..i], text[i + 1..];
      assert text == a + "\n" + b;
      JoinOfLines(b);
      if b != "" {
        JoinFront(StripCr(a), Lines(b));
        UnterminatedSplits(a, b);
        assert Join(Lines(text)) == StripCr(a) + "\n" + Join(Lines(b));
        if Join(Lines(text)) == text {
          assert |StripCr(a)| == |a| && |Join(Lines(b))| == |b|;
          assert StripCr(a) == text[..i] && Join(Lines(b)) == text[i + 1..];
        }
      } else {
        assert Lines(text) == [StripCr(a)];
      }
    }
  }

  lemma {:induction false} DroppingShrinks(parts: seq<string>)
    ensures |Join(DropLeadingEmpty(parts))| <= |Join(parts)|
    ensures |parts| > 1 && parts[0] == "" ==> |Join(DropLeadingEmpty(parts))| < |Join(parts)|
  {
    if parts != [] && parts[0] == "" {
      DroppingShrinks(parts[1..]);
      assert parts == [""] + parts[1..];
      if |parts| > 1 {
        JoinFront("", parts[1..]);
      }
    }
  }

  /** Taking a text apart and writing its lines again gives it back exactly when it is plain. */
  lemma {:induction false} RewritingLoses(text: string)
    ensures PushAll(Lines(text)) == text <==> Plain(text)
  {
    var lines := Lines(text);
    PushAllIsJoin(lines);
    JoinOfLines(text);
    DroppingShrinks(lines);
    if text != "" {
      FirstLine(text);
    }
  }

  lemma {:induction false} FirstLine(text: string)
    requires text != ""
    ensures Lines(text)[0] == "" <==> text[0] == '\n' || (|text| > 1 && text[0] == '\r' && text[1] == '\n')
    ensures Lines(text)[0] == "" ==> |Lines(text)| > 1 || !Unterminated(text)
  {
    var i := LineEnd(text);
    if i < |text| {
      var line := text[..i];
      assert Lines(text) == [StripCr(line)] + Lines(text[i + 1..]);
      assert |StripCr(line)| >= i - 1;
      assert i > 0 ==> line[0] == text[0];
      if i == |text| - 1 {
        assert text[i] == '\n';
      } else {
        assert text[i + 1..] != "";
      }
    }
  }

  // ---- lengths of joined texts ---------------------------------------------

  /** The characters of the parts with a newline after each. */
  function Length(parts: seq<string>): nat {
    if parts == [] then 0 else Length(parts[..|parts| - 1]) + |parts[|parts| - 1]| + 1
  }

  lemma {:induction false} JoinLength(parts: seq<string>)
    ensures |Join(parts)| == if parts == [] then 0 else Length(parts) - 1
  {
    if |parts| > 1 {
      JoinLength(parts[..|parts| - 1]);
    } else if |parts| == 1 {
      assert parts[..0] == [];
    }
  }

  lemma {:induction false} LengthsAdd(a: seq<string>, b: seq<string>)
    ensures Length(a + b) == Length(a) + Length(b)
  {
    if b == [] {
      assert a + b == a;
    } else {
      assert (a + b)[..|a + b| - 1] == a + b[..|b| - 1];
      LengthsAdd(a, b[..|b| - 1]);
    }
  }

  lemma LengthBetween(parts: seq<string>, i: nat, j: nat, k: nat)
    requires i <= j <= k <= |parts|
    ensures Length(parts[i..k]) == Length(parts[i..j]) + Length(parts[j..k])
  {
    assert parts[i..k] == parts[i..j] + parts[j..k];
    LengthsAdd(parts[i..j], parts[j..k]);
  }

  lemma LengthWithLast(parts: seq<string>, i: nat, j: nat)
    requires i <= j < |parts|
    ensures Length(parts[i..j + 1]) == Length(parts[i..j]) + |parts[j]| + 1
  {
    assert parts[i..j + 1][..j - i] == parts[i..j];
  }

  /** A line, some lines and a line again. */
  lemma LengthFramed(parts: seq<string>, i: nat, j: nat)
    requires i < j < |parts|
    ensures Length(parts[i..j + 1]) == |parts[i]| + Length(parts[i + 1..j]) + |parts[j]| + 2
  {
    LengthWithLast(parts, i, j);
    LengthBetween(parts, i, i + 1, j);
    LengthWithLast(parts, i, i);
    assert parts[i..i] == [];
  }

  // ---- when a joined text is plain -----------------------------------------

  /** None of the parts holds "\r\n", and none but the last ends in a carriage return. */
  ghost predicate PartsNoCrLf(parts: seq<string>) {
    && (forall j :: 0 <= j < |parts| ==> NoCrLf(parts[j]))
    && (forall j :: 0 <= j < |parts| - 1 ==> !EndsIn(parts[j], '\r'))
  }

  lemma JoinEnds(parts: seq<string>)
    requires parts != []
    ensures var last := parts[|parts| - 1];
            && (last != "" ==> Join(parts) != "" && Join(parts)[|Join(parts)| - 1] == last[|last| - 1])
            && (last == "" && |parts| > 1 ==> EndsIn(Join(parts), '\n'))
  {
  }

  lemma PartsNoCrLfGrows(parts: seq<string>, part: string)
    requires parts != []
    ensures PartsNoCrLf(parts + [part]) <==>
            PartsNoCrLf(parts) && NoCrLf(part) && !EndsIn(parts[|parts| - 1], '\r')
  {
    var more := parts + [part];
    assert more[|parts|] == part && more[|parts| - 1] == parts[|parts| - 1];
    if PartsNoCrLf(more) {
      assert forall j :: 0 <= j < |parts| ==> more[j] == parts[j];
    }
  }

  lemma {:induction false} JoinNoCrLf(parts: seq<string>)
    requires parts != []
    ensures NoCrLf(Join(parts)) <==> PartsNoCrLf(parts)
  {
    if |parts| > 1 {
      var n := |parts| - 1;
      assert parts == parts[..n] + [parts[n]];
      JoinNoCrLf(parts[..n]);
      JoinEnds(parts[..n]);
      NoCrLfSplits(Join(parts[..n]), parts[n]);
      PartsNoCrLfGrows(parts[..n], parts[n]);
    }
  }

  lemma {:induction false} JoinStartsLike(parts: seq<string>)
    requires parts != [] && parts[0] != ""
    ensures Join(parts) != "" && Join(parts)[0] == parts[0][0]
  {
    if |parts| > 1 {
      JoinStartsLike(parts[..|parts| - 1]);
    }
  }

  /** What the parts must be like for their join to be plain. */
  ghost predicate PlainParts(parts: seq<string>) {
    parts == []
    || (
         && parts[0] != "" && parts[0][0] != '\n'
         && parts[|parts| - 1] != "" && !EndsIn(parts[|parts| - 1], '\n')
         && PartsNoCrLf(parts))
  }

  lemma {:induction false} JoinIsPlain(parts: seq<string>)
    requires parts != [] ==> parts[0] != ""
    ensures Plain(Join(parts)) <==> PlainParts(parts)
  {
    if parts != [] {
      JoinStartsLike(parts);
      JoinEnds(parts);
      JoinNoCrLf(parts);
    }
  }
}
