/** The docblock parser: splits a comment into lines, collects the summary
    and description from the lines before the tags, and turns every tagged
    line, with the description lines that continue it, into a Tag with its
    start and end positions. */
module DocParser {
  import opened Text
  import opened LineClassifier
  import opened Offsets
  import opened TagScanner

  /** What `parser` returns. */
  datatype Docblock = Docblock(summary: string, description: string, tags: seq<Tag>)

  /** How `parser` and `getMultiLineDesc` tell lines apart: an empty line,
      a tag line, or a plain line. */
  datatype LineKind = Empty | Tagged | Plain

  /** The kind of a line; no line is both empty and a tag line. */
  function KindOf(line: string): (k: LineKind)
    ensures (k == Empty <==> IsEmptyLine(line)) && (k == Tagged <==> IsTagLine(line))
  {
    EmptyLineIsNotTagLine(line);
    if IsEmptyLine(line) then Empty else if IsTagLine(line) then Tagged else Plain
  }

  /** The kind of every line, in order. The functions below read a line's
      kind from this sequence; the methods classify each line as they
      reach it. */
  function Kinds(lines: seq<string>): (kinds: seq<LineKind>)
    ensures |kinds| == |lines|
  {
    if lines == [] then [] else [KindOf(lines[0])] + Kinds(lines[1..])
  }

  /** Kinds holds the kind of each line at its index. */
  lemma {:induction false} KindsAt(lines: seq<string>, i: nat)
    requires i < |lines|
    ensures Kinds(lines)[i] == KindOf(lines[i])
  {
    if i > 0 {
      KindsAt(lines[1..], i - 1);
    }
  }

  /** The kinds of a prefix of the lines are a prefix of the kinds. */
  lemma {:induction false} KindsPrefix(lines: seq<string>, n: nat)
    requires n <= |lines|
    ensures Kinds(lines[..n]) == Kinds(lines)[..n]
  {
    if n > 0 {
      assert lines[..n][1..] == lines[1..][..n - 1];
      KindsPrefix(lines[1..], n - 1);
    }
  }

  /** `kinds` holds the kind of each of the lines. */
  ghost predicate Classified(lines: seq<string>, kinds: seq<LineKind>) {
    |kinds| == |lines| && forall i {:trigger kinds[i]} :: 0 <= i < |lines| ==> kinds[i] == KindOf(lines[i])
  }

  /** Kinds classifies the lines. */
  lemma KindsClassified(lines: seq<string>)
    ensures Classified(lines, Kinds(lines))
  {
    forall i | 0 <= i < |lines| ensures Kinds(lines)[i] == KindOf(lines[i]) {
      KindsAt(lines, i);
    }
  }

  /** Kinds is the only classification of the lines. */
  lemma ClassifiedIsKinds(lines: seq<string>, kinds: seq<LineKind>)
    requires Classified(lines, kinds)
    ensures kinds == Kinds(lines)
  {
    forall i | 0 <= i < |lines| ensures kinds[i] == Kinds(lines)[i] {
      KindsAt(lines, i);
    }
  }

  /** `getMultiLineDesc`: the lines from `from` on, up to the first empty
      line or tag line. ContinuationSlice, ContinuationPlain and
      ContinuationStop state that this is the maximal such run. */
  function Continuation(lines: seq<string>, kinds: seq<LineKind>, from: nat): (run: seq<string>)
    requires |kinds| == |lines|
    ensures run == [] || from + |run| <= |lines|
    decreases |lines| - from
  {
    if from >= |lines| || kinds[from] != Plain then []
    else [lines[from]] + Continuation(lines, kinds, from + 1)
  }

  /** The continuation is the slice of the lines at `from`. */
  lemma {:induction false} ContinuationSlice(lines: seq<string>, kinds: seq<LineKind>, from: nat)
    requires |kinds| == |lines| && from <= |lines|
    ensures var run := Continuation(lines, kinds, from);
            from + |run| <= |lines| && run == lines[from..from + |run|]
    decreases |lines| - from
  {
    if from < |lines| && kinds[from] == Plain {
      ContinuationSlice(lines, kinds, from + 1);
    }
  }

  /** None of its lines is empty or a tag line. */
  lemma {:induction false} ContinuationPlain(lines: seq<string>, kinds: seq<LineKind>, from: nat)
    requires |kinds| == |lines|
    ensures forall n :: from <= n < from + |Continuation(lines, kinds, from)| ==> kinds[n] == Plain
    decreases |lines| - from
  {
    if from < |lines| && kinds[from] == Plain {
      ContinuationPlain(lines, kinds, from + 1);
    }
  }

  /** The line after it, if any, is empty or a tag line: the run is
      maximal. */
  lemma {:induction false} ContinuationStop(lines: seq<string>, kinds: seq<LineKind>, from: nat)
    requires |kinds| == |lines| && from <= |lines|
    ensures var end := from + |Continuation(lines, kinds, from)|;
            end < |lines| ==> kinds[end] != Plain
    decreases |lines| - from
  {
    if from < |lines| && kinds[from] == Plain {
      ContinuationStop(lines, kinds, from + 1);
    }
  }

  /** The first empty line or tag line from `from` on, or the number of
      lines: where the summary ends, and where a continuation stops. */
  function PlainEnd(kinds: seq<LineKind>, from: nat): (k: nat)
    requires from <= |kinds|
    ensures from <= k <= |kinds|
    decreases |kinds| - from
  {
    if from == |kinds| || kinds[from] != Plain then from
    else PlainEnd(kinds, from + 1)
  }

  /** A continuation runs up to PlainEnd. */
  lemma {:induction false} ContinuationEnd(lines: seq<string>, kinds: seq<LineKind>, from: nat)
    requires |kinds| == |lines| && from <= |lines|
    ensures from + |Continuation(lines, kinds, from)| == PlainEnd(kinds, from)
    decreases |lines| - from
  {
    if from < |lines| && kinds[from] == Plain {
      ContinuationEnd(lines, kinds, from + 1);
    }
  }

  /** The last line of a non-empty continuation is the line just before
      where it stops. */
  lemma ContinuationLast(lines: seq<string>, kinds: seq<LineKind>, from: nat)
    requires |kinds| == |lines| && from <= |lines| && Continuation(lines, kinds, from) != []
    ensures var run := Continuation(lines, kinds, from);
            run[|run| - 1] == lines[from + |run| - 1]
  {
    ContinuationSlice(lines, kinds, from);
  }

  /** The loop of `getMultiLineDesc` over `docblockLines.slice(index)`. */
  method MultiLineDescription(lines: seq<string>, index: nat, ghost kinds: seq<LineKind>)
    returns (description: seq<string>)
    requires Classified(lines, kinds)
    ensures description == Continuation(lines, kinds, index)
  {
    var sliceLines := if index <= |lines| then lines[index..] else [];
    description := [];
    var k := 0;
    while k < |sliceLines|
      invariant k <= |sliceLines|
      invariant Continuation(lines, kinds, index) == description + Continuation(lines, kinds, index + k)
    {
      var line := sliceLines[k];
      assert line == lines[index + k] && kinds[index + k] == KindOf(line);
      if IsEmptyLine(line) {
        break;
      }
      if IsTagLine(line) {
        break;
      }
      assert description + Continuation(lines, kinds, index + k)
             == (description + [line]) + Continuation(lines, kinds, index + k + 1);
      description := description + [line];
      k := k + 1;
    }
    assert Continuation(lines, kinds, index + k) == [];
  }

  /** The index after the tag that starts at line `i` and the lines that
      continue it. */
  function NextIndex(lines: seq<string>, kinds: seq<LineKind>, i: nat): (next: nat)
    requires |kinds| == |lines| && i < |lines|
    ensures i < next <= |lines|
  {
    i + 1 + |Continuation(lines, kinds, i + 1)|
  }

  /** The tag that a tagged line `i` yields: TagOf the line, placed at line
      `i`; if lines continue it, they are appended to its description, one
      line feed before each, it is marked multi-line, and its end moves to
      the last of them. The end column stays the length of line `i`, while
      the end offset is the end of the last line. */
  function TagEntry(lines: seq<string>, kinds: seq<LineKind>, i: nat): (t: Tag)
    requires |kinds| == |lines| && i < |lines|
    ensures t.position.start.line == i <= t.position.end.line < |lines|
    ensures t.multiline <==> i < t.position.end.line
  {
    var t := TagOf(lines[i]);
    var column := t.position.start.column;
    var placed := t.(position := t.position.(start := Position(i, column, Offset(lines, i, column))));
    var run := Continuation(lines, kinds, i + 1);
    var described := if run != [] then placed.(description := placed.description + "\n" + JoinLines(run),
                                                multiline := true)
                     else placed;
    var end := i + |run|;
    var last := if run != [] then run[|run| - 1] else lines[i];
    described.(position := described.position.(
      end := Position(end, described.position.end.column, Offset(lines, end, |last|))))
  }

  /** A tag starts at its line and ends on the last line that continues
      it; it is multi-line exactly when it spans more than one line. */
  lemma TagEntryLines(lines: seq<string>, kinds: seq<LineKind>, i: nat)
    requires |kinds| == |lines| && i < |lines|
    ensures var t := TagEntry(lines, kinds, i);
            && t.position.start.line == i
            && t.position.end.line == NextIndex(lines, kinds, i) - 1
            && (t.multiline <==> t.position.end.line > i)
  {
  }

  /** Name, type, variable and start column are those of the tag's own
      line, and the end column is that line's length. */
  lemma TagEntryFields(lines: seq<string>, kinds: seq<LineKind>, i: nat)
    requires |kinds| == |lines| && i < |lines|
    ensures var t, own := TagEntry(lines, kinds, i), TagOf(lines[i]);
            && t.name == own.name && t.tagType == own.tagType && t.variable == own.variable
            && t.position.start.column == own.position.start.column
            && t.position.end.column == |lines[i]|
  {
  }

  /** The description is that of the tag's own line, followed, for a
      multi-line tag, by a line feed and the continuing lines joined by
      line feeds. */
  lemma TagEntryDescription(lines: seq<string>, kinds: seq<LineKind>, i: nat)
    requires |kinds| == |lines| && i < |lines|
    ensures var t := TagEntry(lines, kinds, i);
            var end := t.position.end.line;
            && i <= end < |lines|
            && t.description == TagOf(lines[i]).description
                                + (if end > i then "\n" + JoinLines(lines[i + 1..end + 1]) else "")
  {
    TagEntryRun(lines, kinds, i);
    ContinuationSlice(lines, kinds, i + 1);
  }

  /** A proof step for TagEntryDescription: the end line and the
      description of TagEntry, in terms of the continuing lines. */
  lemma TagEntryRun(lines: seq<string>, kinds: seq<LineKind>, i: nat)
    requires |kinds| == |lines| && i < |lines|
    ensures var run, t := Continuation(lines, kinds, i + 1), TagEntry(lines, kinds, i);
            && t.position.end.line == i + |run|
            && t.description == TagOf(lines[i]).description + (if run != [] then "\n" + JoinLines(run) else "")
  {
  }

  /** The start offset of a tag with a name is the place of its `@` in the
      lines joined by line feeds. */
  lemma TagEntryAtSign(lines: seq<string>, kinds: seq<LineKind>, i: nat)
    requires |kinds| == |lines| && i < |lines| && TagEntry(lines, kinds, i).name != ""
    ensures var t := TagEntry(lines, kinds, i);
            t.position.start.offset < |JoinLines(lines)|
            && JoinLines(lines)[t.position.start.offset] == '@'
  {
    var column := TagOf(lines[i]).position.start.column;
    TagEntryFields(lines, kinds, i);
    TagOfName(lines[i]);
    assert lines[i][column] == lines[i][column..column + |TagOf(lines[i]).name|][0];
    OffsetLocates(lines, i, column);
  }

  /** The end offset of a tag is the offset of the end of its last line. */
  lemma TagEntryEndOffset(lines: seq<string>, kinds: seq<LineKind>, i: nat)
    requires |kinds| == |lines| && i < |lines|
    ensures var t := TagEntry(lines, kinds, i);
            var end := t.position.end.line;
            end < |lines| && t.position.end.offset == Offset(lines, end, |lines[end]|)
  {
    TagEntryLines(lines, kinds, i);
    if TagEntry(lines, kinds, i).position.end.line > i {
      ContinuationLast(lines, kinds, i + 1);
    }
  }

  /** The end offset of a tag is the end of its last line: the line feed
      that follows it, or the end of the text. */
  lemma TagEntryEnd(lines: seq<string>, kinds: seq<LineKind>, i: nat)
    requires |kinds| == |lines| && i < |lines|
    ensures var t := TagEntry(lines, kinds, i);
            var end := t.position.end.line;
            && end < |lines| && t.position.end.offset == Offset(lines, end, |lines[end]|)
            && (end + 1 < |lines| ==>
                  t.position.end.offset < |JoinLines(lines)|
                  && JoinLines(lines)[t.position.end.offset] == '\n')
            && (end + 1 == |lines| ==> t.position.end.offset == |JoinLines(lines)|)
  {
    TagEntryEndOffset(lines, kinds, i);
    var end := TagEntry(lines, kinds, i).position.end.line;
    if end + 1 < |lines| {
      OffsetLocates(lines, end, |lines[end]|);
    } else {
      OffsetAtEnd(lines);
    }
  }

  /** The state of `parser`'s loop: the line index, the two flags that
      change, and the collector. */
  datatype ScanState = ScanState(index: nat, metSummary: bool, metTags: bool, doc: Docblock)

  /** One pass of `parser`'s loop body on line `s.index`: an empty line ends
      the summary; an untagged line extends the summary before the first
      empty line and the description after it; a tagged line (a tag line,
      or any line once a tag was met) adds its TagEntry, and the scan goes
      on after the lines that continue it. */
  function StepLine(lines: seq<string>, kinds: seq<LineKind>, s: ScanState): (r: ScanState)
    requires |kinds| == |lines| && s.index < |lines|
    ensures s.index < r.index <= |lines|
    ensures |s.doc.tags| <= |r.doc.tags| <= |s.doc.tags| + (r.index - s.index)
  {
    var i, doc := s.index, s.doc;
    var line := lines[i];
    if kinds[i] == Empty then s.(index := i + 1, metSummary := true)
    else if !(kinds[i] == Tagged || s.metTags) then
      if !s.metSummary then s.(index := i + 1, doc := doc.(summary := doc.summary + line))
      else s.(index := i + 1, doc := doc.(description := doc.description + line))
    else
      s.(index := NextIndex(lines, kinds, i), metTags := true,
         doc := doc.(tags := doc.tags + [TagEntry(lines, kinds, i)]))
  }

  /** `parser`'s loop from state `s` on. */
  function ParseFrom(lines: seq<string>, kinds: seq<LineKind>, s: ScanState): (d: Docblock)
    requires |kinds| == |lines|
    ensures s.index <= |lines| ==> |s.doc.tags| <= |d.tags| <= |s.doc.tags| + (|lines| - s.index)
    decreases |lines| - s.index
  {
    if s.index >= |lines| then s.doc else ParseFrom(lines, kinds, StepLine(lines, kinds, s))
  }

  const EmptyDocblock := Docblock("", "", [])

  const Start := ScanState(0, false, false, EmptyDocblock)

  /** The docblock `parser` yields for a comment text. */
  function DocblockOf(text: string): (d: Docblock)
    ensures |d.tags| <= |SplitLines(text)|
  {
    var lines := SplitLines(text);
    ParseFrom(lines, Kinds(lines), Start)
  }

  /** Joined lines without line breaks are split back into the same
      lines, so `parser` reads a text written line by line as those lines. */
  lemma DocblockOfLines(lines: seq<string>)
    requires |lines| >= 1
    requires forall k :: 0 <= k < |lines| ==> '\n' !in lines[k] && '\r' !in lines[k]
    ensures DocblockOf(JoinLines(lines)) == ParseFrom(lines, Kinds(lines), Start)
  {
    SplitJoinLines(lines);
  }

  /** A text written with Windows line ends is read as the same lines, so
      it yields the docblock of the text written with line feeds. */
  lemma DocblockOfCrlfLines(lines: seq<string>)
    requires |lines| >= 1
    requires forall k :: 0 <= k < |lines| ==> '\n' !in lines[k]
    ensures DocblockOf(JoinCrlfLines(lines)) == ParseFrom(lines, Kinds(lines), Start)
    ensures (forall k :: 0 <= k < |lines| ==> '\r' !in lines[k])
            ==> DocblockOf(JoinCrlfLines(lines)) == DocblockOf(JoinLines(lines))
  {
    SplitCrlfLines(lines);
    if forall k :: 0 <= k < |lines| ==> '\r' !in lines[k] {
      DocblockOfLines(lines);
    }
  }

  /** The lines where `parser`'s loop, from line `from` on, starts a tag:
      a tagged line (a tag line, or any line that is not empty once a tag
      was met), after which the scan resumes where the plain lines that
      continue it end. */
  function TagStarts(kinds: seq<LineKind>, from: nat, metTags: bool): (starts: seq<nat>)
    requires from <= |kinds|
    ensures forall j :: 0 <= j < |starts| ==> from <= starts[j] < |kinds|
    decreases |kinds| - from
  {
    if from == |kinds| then []
    else if kinds[from] == Empty then TagStarts(kinds, from + 1, metTags)
    else if kinds[from] == Tagged || metTags then [from] + TagStarts(kinds, PlainEnd(kinds, from + 1), true)
    else TagStarts(kinds, from + 1, metTags)
  }

  /** The TagEntry of each of the `starts`, in order. */
  function EntriesAt(lines: seq<string>, kinds: seq<LineKind>, starts: seq<nat>): (tags: seq<Tag>)
    requires |kinds| == |lines| && forall j :: 0 <= j < |starts| ==> starts[j] < |lines|
    ensures |tags| == |starts|
  {
    if starts == [] then [] else [TagEntry(lines, kinds, starts[0])] + EntriesAt(lines, kinds, starts[1..])
  }

  /** Entry `j` is the TagEntry of start `j`. */
  lemma {:induction false} EntriesAtIndex(lines: seq<string>, kinds: seq<LineKind>, starts: seq<nat>, j: nat)
    requires |kinds| == |lines| && forall n :: 0 <= n < |starts| ==> starts[n] < |lines|
    requires j < |starts|
    ensures EntriesAt(lines, kinds, starts)[j] == TagEntry(lines, kinds, starts[j])
  {
    if j > 0 {
      EntriesAtIndex(lines, kinds, starts[1..], j - 1);
    }
  }

  /** One pass of the loop either leaves the tag starts as they are or
      takes the first of them, and then adds its TagEntry. */
  lemma StepTagStarts(lines: seq<string>, kinds: seq<LineKind>, s: ScanState)
    requires |kinds| == |lines| && s.index < |lines|
    ensures var r, i := StepLine(lines, kinds, s), s.index;
            if kinds[i] != Empty && (kinds[i] == Tagged || s.metTags) then
              && TagStarts(kinds, i, s.metTags) == [i] + TagStarts(kinds, r.index, r.metTags)
              && r.doc.tags == s.doc.tags + [TagEntry(lines, kinds, i)]
            else
              && TagStarts(kinds, i, s.metTags) == TagStarts(kinds, r.index, r.metTags)
              && r.doc.tags == s.doc.tags
  {
    ContinuationEnd(lines, kinds, s.index + 1);
  }

  /** One pass of the loop keeps the collected tags followed by the
      TagEntry of each tag start still ahead. */
  lemma StepEntries(lines: seq<string>, kinds: seq<LineKind>, s: ScanState)
    requires |kinds| == |lines| && s.index < |lines|
    ensures var r := StepLine(lines, kinds, s);
            s.doc.tags + EntriesAt(lines, kinds, TagStarts(kinds, s.index, s.metTags))
            == r.doc.tags + EntriesAt(lines, kinds, TagStarts(kinds, r.index, r.metTags))
  {
    var i, r := s.index, StepLine(lines, kinds, s);
    StepTagStarts(lines, kinds, s);
    if kinds[i] != Empty && (kinds[i] == Tagged || s.metTags) {
      EntriesCons(lines, kinds, i, TagStarts(kinds, r.index, r.metTags), s.doc.tags);
    }
  }

  /** Taking the first of the starts appends its TagEntry. */
  lemma EntriesCons(lines: seq<string>, kinds: seq<LineKind>, i: nat, rest: seq<nat>, tags: seq<Tag>)
    requires |kinds| == |lines| && i < |lines| && forall j :: 0 <= j < |rest| ==> rest[j] < |lines|
    ensures tags + EntriesAt(lines, kinds, [i] + rest)
            == (tags + [TagEntry(lines, kinds, i)]) + EntriesAt(lines, kinds, rest)
  {
    assert ([i] + rest)[1..] == rest;
  }

  /** The tags `parser` collects from a state on are the TagEntry of each
      line of TagStarts, appended in order: they depend on the line kinds
      alone, not on the summary and description. */
  lemma {:induction false} ParseFromTagStarts(lines: seq<string>, kinds: seq<LineKind>, s: ScanState)
    requires |kinds| == |lines| && s.index <= |lines|
    ensures ParseFrom(lines, kinds, s).tags
            == s.doc.tags + EntriesAt(lines, kinds, TagStarts(kinds, s.index, s.metTags))
    decreases |lines| - s.index
  {
    if s.index < |lines| {
      StepEntries(lines, kinds, s);
      ParseFromTagStarts(lines, kinds, StepLine(lines, kinds, s));
    } else {
      assert s.doc.tags + [] == s.doc.tags;
    }
  }

  /** The tags are placed in the lines: each is the TagEntry of its start
      line, ends before `bound`, and ends before the next one starts. */
  ghost predicate Placed(lines: seq<string>, kinds: seq<LineKind>, tags: seq<Tag>, bound: nat)
    requires |kinds| == |lines|
  {
    && (forall j :: 0 <= j < |tags| ==>
          && tags[j].position.start.line <= tags[j].position.end.line < bound
          && tags[j].position.start.line < |lines|
          && tags[j] == TagEntry(lines, kinds, tags[j].position.start.line))
    && (forall j, k :: 0 <= j < k < |tags| ==> tags[j].position.end.line < tags[k].position.start.line)
  }

  /** Appending a tag placed after all others, and before a new bound,
      keeps the tags placed. */
  lemma AppendPlaced(lines: seq<string>, kinds: seq<LineKind>, tags: seq<Tag>, bound: nat, t: Tag, next: nat)
    requires |kinds| == |lines| && Placed(lines, kinds, tags, bound)
    requires bound <= t.position.start.line <= t.position.end.line < next
    requires t.position.start.line < |lines| && t == TagEntry(lines, kinds, t.position.start.line)
    ensures Placed(lines, kinds, tags + [t], next)
  {
    var tags' := tags + [t];
    forall j | 0 <= j < |tags'|
      ensures && tags'[j].position.start.line <= tags'[j].position.end.line < next
              && tags'[j].position.start.line < |lines|
              && tags'[j] == TagEntry(lines, kinds, tags'[j].position.start.line)
    {
      if j < |tags| {
        assert tags'[j] == tags[j];
      }
    }
    forall j, k | 0 <= j < k < |tags'|
      ensures tags'[j].position.end.line < tags'[k].position.start.line
    {
      assert tags'[j] == tags[j];
      if k < |tags| {
        assert tags'[k] == tags[k];
      }
    }
  }

  /** One pass of the loop keeps the tags placed before the line index. */
  lemma StepPlaced(lines: seq<string>, kinds: seq<LineKind>, s: ScanState)
    requires |kinds| == |lines| && s.index < |lines| && Placed(lines, kinds, s.doc.tags, s.index)
    ensures Placed(lines, kinds, StepLine(lines, kinds, s).doc.tags, StepLine(lines, kinds, s).index)
  {
    var i := s.index;
    if kinds[i] != Empty && (kinds[i] == Tagged || s.metTags) {
      TagEntryLines(lines, kinds, i);
      AppendPlaced(lines, kinds, s.doc.tags, i, TagEntry(lines, kinds, i), NextIndex(lines, kinds, i));
    }
  }

  lemma {:induction false} ParseFromPlaced(lines: seq<string>, kinds: seq<LineKind>, s: ScanState)
    requires |kinds| == |lines| && s.index <= |lines| && Placed(lines, kinds, s.doc.tags, s.index)
    ensures Placed(lines, kinds, ParseFrom(lines, kinds, s).tags, |lines|)
    decreases |lines| - s.index
  {
    if s.index < |lines| {
      StepPlaced(lines, kinds, s);
      ParseFromPlaced(lines, kinds, StepLine(lines, kinds, s));
    } else {
      assert ParseFrom(lines, kinds, s) == s.doc;
    }
  }

  /** Every tag of a docblock is the TagEntry of its start line, lies
      within the lines, and ends before the next tag starts. */
  lemma DocblockTagsPlaced(text: string)
    ensures var lines := SplitLines(text);
            Placed(lines, Kinds(lines), DocblockOf(text).tags, |lines|)
  {
    var lines := SplitLines(text);
    ParseFromPlaced(lines, Kinds(lines), Start);
  }

  /** Every line in `from .. bound` that is not empty lies within one of
      the tags. */
  ghost predicate Covered(kinds: seq<LineKind>, tags: seq<Tag>, from: nat, bound: nat) {
    forall n :: from <= n < bound && n < |kinds| && kinds[n] != Empty ==>
      exists j :: 0 <= j < |tags| && tags[j].position.start.line <= n <= tags[j].position.end.line
  }

  /** What the loop keeps about coverage: no tag before the first tagged
      line, and after it every non-empty line read so far lies in a tag. */
  ghost predicate CoverState(kinds: seq<LineKind>, s: ScanState) {
    if s.metTags then s.doc.tags != [] && Covered(kinds, s.doc.tags, s.doc.tags[0].position.start.line, s.index)
    else s.doc.tags == []
  }

  /** One pass of the loop keeps CoverState. */
  lemma StepCovered(lines: seq<string>, kinds: seq<LineKind>, s: ScanState)
    requires |kinds| == |lines| && s.index < |lines| && CoverState(kinds, s)
    ensures CoverState(kinds, StepLine(lines, kinds, s))
  {
    var i, r := s.index, StepLine(lines, kinds, s);
    if kinds[i] != Empty && (kinds[i] == Tagged || s.metTags) {
      var t := TagEntry(lines, kinds, i);
      var tags := s.doc.tags;
      assert r.doc.tags == tags + [t];
      assert r.doc.tags[0].position.start.line == if s.metTags then tags[0].position.start.line else i;
      forall n | r.doc.tags[0].position.start.line <= n < r.index && n < |kinds| && kinds[n] != Empty
        ensures exists j :: 0 <= j < |r.doc.tags| && r.doc.tags[j].position.start.line <= n <= r.doc.tags[j].position.end.line
      {
        if n < i {
          var j :| 0 <= j < |tags| && tags[j].position.start.line <= n <= tags[j].position.end.line;
          assert r.doc.tags[j] == tags[j];
        } else {
          TagEntryLines(lines, kinds, i);
          assert r.doc.tags[|tags|] == t;
        }
      }
    } else if s.metTags {
      assert kinds[i] == Empty;
    }
  }

  lemma {:induction false} ParseFromCovered(lines: seq<string>, kinds: seq<LineKind>, s: ScanState)
    requires |kinds| == |lines| && s.index <= |lines| && CoverState(kinds, s)
    ensures var tags := ParseFrom(lines, kinds, s).tags;
            tags != [] ==> Covered(kinds, tags, tags[0].position.start.line, |lines|)
    decreases |lines| - s.index
  {
    if s.index < |lines| {
      StepCovered(lines, kinds, s);
      ParseFromCovered(lines, kinds, StepLine(lines, kinds, s));
    }
  }

  /** From the first tag's line on, every line that is not empty belongs to
      exactly one tag. */
  lemma DocblockTagsCover(text: string)
    ensures var lines, tags := SplitLines(text), DocblockOf(text).tags;
            tags != [] ==>
            forall n :: tags[0].position.start.line <= n < |lines| && Kinds(lines)[n] != Empty ==>
              && (exists j :: 0 <= j < |tags| && tags[j].position.start.line <= n <= tags[j].position.end.line)
              && (forall j, k ::
                    (&& 0 <= j < |tags| && 0 <= k < |tags|
                     && tags[j].position.start.line <= n <= tags[j].position.end.line
                     && tags[k].position.start.line <= n <= tags[k].position.end.line)
                    ==> j == k)
  {
    var lines := SplitLines(text);
    ParseFromCovered(lines, Kinds(lines), Start);
    DocblockTagsPlaced(text);
  }

  /** The first tag line at or after `from`, or the number of lines. */
  function FirstTagLine(kinds: seq<LineKind>, from: nat): (k: nat)
    requires from <= |kinds|
    ensures from <= k <= |kinds|
    decreases |kinds| - from
  {
    if from == |kinds| || kinds[from] == Tagged then from else FirstTagLine(kinds, from + 1)
  }

  /** FirstTagLine, when inside the lines, is a tag line. */
  lemma {:induction false} FirstTagLineIsTagLine(kinds: seq<LineKind>, from: nat)
    requires from <= |kinds|
    ensures FirstTagLine(kinds, from) < |kinds| ==> kinds[FirstTagLine(kinds, from)] == Tagged
    decreases |kinds| - from
  {
    if from < |kinds| && kinds[from] != Tagged {
      FirstTagLineIsTagLine(kinds, from + 1);
    }
  }

  /** The loop only appends tags. */
  lemma {:induction false} ParseFromExtends(lines: seq<string>, kinds: seq<LineKind>, s: ScanState)
    requires |kinds| == |lines| && s.index <= |lines|
    ensures s.doc.tags <= ParseFrom(lines, kinds, s).tags
    decreases |lines| - s.index
  {
    if s.index < |lines| {
      ParseFromExtends(lines, kinds, StepLine(lines, kinds, s));
    }
  }

  /** Before any tag, the first tag line yields the first tag, and without a
      tag line there is no tag. */
  lemma {:induction false} ParseFromFirstTag(lines: seq<string>, kinds: seq<LineKind>, s: ScanState)
    requires |kinds| == |lines| && s.index <= |lines| && !s.metTags && s.doc.tags == []
    ensures var tags, first := ParseFrom(lines, kinds, s).tags, FirstTagLine(kinds, s.index);
            && (tags == [] <==> first == |lines|)
            && (tags != [] ==> tags[0] == TagEntry(lines, kinds, first))
    decreases |lines| - s.index
  {
    var i := s.index;
    if i < |lines| {
      var r := StepLine(lines, kinds, s);
      if kinds[i] == Tagged {
        ParseFromExtends(lines, kinds, r);
        assert r.doc.tags == [TagEntry(lines, kinds, i)];
      } else {
        ParseFromFirstTag(lines, kinds, r);
      }
    }
  }

  /** A docblock has tags exactly when one of its lines is a tag line, and
      its first tag is taken from the first tag line. */
  lemma FirstTagAtFirstTagLine(text: string)
    ensures var lines, tags := SplitLines(text), DocblockOf(text).tags;
            var first := FirstTagLine(Kinds(lines), 0);
            && (tags == [] <==> first == |lines|)
            && (first < |lines| ==> IsTagLine(lines[first]))
            && (tags != [] ==> tags[0] == TagEntry(lines, Kinds(lines), first))
  {
    var lines := SplitLines(text);
    var first := FirstTagLine(Kinds(lines), 0);
    ParseFromFirstTag(lines, Kinds(lines), Start);
    FirstTagLineIsTagLine(Kinds(lines), 0);
    if first < |lines| {
      KindsAt(lines, first);
    }
  }

  /** The lines from `from` on up to the first empty line or tag line,
      concatenated without separators. */
  function LeadingText(lines: seq<string>, kinds: seq<LineKind>, from: nat): string
    requires |kinds| == |lines|
    decreases |lines| - from
  {
    if from >= |lines| || kinds[from] != Plain then ""
    else lines[from] + LeadingText(lines, kinds, from + 1)
  }

  /** Once an empty line or a tag was met the summary no longer changes,
      and once a tag was met neither does the description. */
  lemma {:induction false} AfterTagsKeepText(lines: seq<string>, kinds: seq<LineKind>, s: ScanState)
    requires |kinds| == |lines| && s.index <= |lines| && (s.metSummary || s.metTags)
    ensures ParseFrom(lines, kinds, s).summary == s.doc.summary
    ensures s.metTags ==> ParseFrom(lines, kinds, s).description == s.doc.description
    decreases |lines| - s.index
  {
    if s.index < |lines| {
      AfterTagsKeepText(lines, kinds, StepLine(lines, kinds, s));
    }
  }

  /** Before the first empty line and the first tag, the summary collects
      the leading text. */
  lemma {:induction false} ParseFromSummary(lines: seq<string>, kinds: seq<LineKind>, s: ScanState)
    requires |kinds| == |lines| && s.index <= |lines| && !s.metSummary && !s.metTags
    ensures ParseFrom(lines, kinds, s).summary == s.doc.summary + LeadingText(lines, kinds, s.index)
    decreases |lines| - s.index
  {
    var i := s.index;
    if i < |lines| {
      var r := StepLine(lines, kinds, s);
      if kinds[i] != Plain {
        AfterTagsKeepText(lines, kinds, r);
      } else {
        ParseFromSummary(lines, kinds, r);
        assert r.doc.summary == s.doc.summary + lines[i];
      }
    }
  }

  /** The summary is the text of the lines before the first empty line or
      tag line, concatenated without separators. */
  lemma SummaryIsLeadingText(text: string)
    ensures var lines := SplitLines(text);
            DocblockOf(text).summary == LeadingText(lines, Kinds(lines), 0)
  {
    var lines := SplitLines(text);
    ParseFromSummary(lines, Kinds(lines), Start);
  }

  /** A docblock whose first line is an empty line, such as the opening
      line of a docblock holding only the comment opener, has an empty
      summary. */
  lemma OpeningLineEndsSummary(text: string)
    requires IsEmptyLine(SplitLines(text)[0])
    ensures DocblockOf(text).summary == ""
  {
    SummaryIsLeadingText(text);
    KindsAt(SplitLines(text), 0);
  }

  /** The lines from `from` on up to the first tag line, with the empty
      lines dropped, concatenated without separators. */
  function BodyText(lines: seq<string>, kinds: seq<LineKind>, from: nat): string
    requires |kinds| == |lines|
    decreases |lines| - from
  {
    if from >= |lines| || kinds[from] == Tagged then ""
    else (if kinds[from] == Empty then "" else lines[from]) + BodyText(lines, kinds, from + 1)
  }

  /** After the summary ended on an empty line and before any tag, every
      further untagged line is appended to the description. */
  lemma {:induction false} ParseFromBody(lines: seq<string>, kinds: seq<LineKind>, s: ScanState)
    requires |kinds| == |lines| && s.index <= |lines| && s.metSummary && !s.metTags
    ensures ParseFrom(lines, kinds, s).description == s.doc.description + BodyText(lines, kinds, s.index)
    decreases |lines| - s.index
  {
    var i := s.index;
    if i < |lines| {
      var r := StepLine(lines, kinds, s);
      if kinds[i] == Empty {
        ParseFromBody(lines, kinds, r);
      } else if kinds[i] == Tagged {
        AfterTagsKeepText(lines, kinds, r);
      } else {
        ParseFromBody(lines, kinds, r);
        assert r.doc.description == s.doc.description + lines[i];
      }
    }
  }

  /** The description collects every untagged line after the empty line that
      ended the summary, up to the first tag line, without separators; it is
      empty when the summary ended on a tag line or at the end. */
  lemma {:induction false} ParseFromDescription(lines: seq<string>, kinds: seq<LineKind>, s: ScanState)
    requires |kinds| == |lines| && s.index <= |lines| && !s.metSummary && !s.metTags
    ensures var e := PlainEnd(kinds, s.index);
            ParseFrom(lines, kinds, s).description
              == s.doc.description + (if e < |lines| && kinds[e] == Empty then BodyText(lines, kinds, e + 1) else "")
    decreases |lines| - s.index
  {
    var i := s.index;
    if i < |lines| {
      var r := StepLine(lines, kinds, s);
      if kinds[i] == Empty {
        ParseFromBody(lines, kinds, r);
      } else if kinds[i] == Tagged {
        AfterTagsKeepText(lines, kinds, r);
      } else {
        ParseFromDescription(lines, kinds, r);
      }
    }
  }

  /** The description of a docblock, stated over its lines. */
  lemma DescriptionIsBodyText(text: string)
    ensures var lines := SplitLines(text);
            var kinds := Kinds(lines);
            var e := PlainEnd(kinds, 0);
            DocblockOf(text).description
              == if e < |lines| && IsEmptyLine(lines[e]) then BodyText(lines, kinds, e + 1) else ""
  {
    var lines := SplitLines(text);
    var e := PlainEnd(Kinds(lines), 0);
    ParseFromDescription(lines, Kinds(lines), Start);
    if e < |lines| {
      KindsAt(lines, e);
    }
  }

  /** Up to the first tag line, parsing the lines and parsing the lines
      cut there collect the same summary and description. */
  lemma {:induction false} ParseFromBeforeTags(lines: seq<string>, kinds: seq<LineKind>, s: ScanState)
    requires |kinds| == |lines| && s.index <= |lines| && !s.metTags
    ensures var first := FirstTagLine(kinds, s.index);
            var cut, cutKinds := lines[..first], kinds[..first];
            && ParseFrom(lines, kinds, s).summary == ParseFrom(cut, cutKinds, s).summary
            && ParseFrom(lines, kinds, s).description == ParseFrom(cut, cutKinds, s).description
    decreases |lines| - s.index
  {
    var i, first := s.index, FirstTagLine(kinds, s.index);
    var cut, cutKinds := lines[..first], kinds[..first];
    if i == first {
      assert ParseFrom(cut, cutKinds, s) == s.doc;
      if i < |lines| {
        AfterTagsKeepText(lines, kinds, StepLine(lines, kinds, s));
      }
    } else {
      var r := StepLine(lines, kinds, s);
      assert cut[i] == lines[i] && cutKinds[i] == kinds[i];
      assert StepLine(cut, cutKinds, s) == r;
      assert FirstTagLine(kinds, r.index) == first;
      ParseFromBeforeTags(lines, kinds, r);
    }
  }

  /** Summary and description do not depend on the lines from the first
      tag line on. */
  lemma TextBeforeTags(text: string)
    ensures var lines := SplitLines(text);
            var cut := lines[..FirstTagLine(Kinds(lines), 0)];
            && DocblockOf(text).summary == ParseFrom(cut, Kinds(cut), Start).summary
            && DocblockOf(text).description == ParseFrom(cut, Kinds(cut), Start).description
  {
    var lines := SplitLines(text);
    var first := FirstTagLine(Kinds(lines), 0);
    ParseFromBeforeTags(lines, Kinds(lines), Start);
    KindsPrefix(lines, first);
  }

  /** In a text without carriage returns, the start offset of every tag
      with a name is the index of its `@` in the text. */
  lemma TagOffsetsInText(text: string)
    requires '\r' !in text
    ensures var tags := DocblockOf(text).tags;
            forall j :: 0 <= j < |tags| && tags[j].name != "" ==>
              tags[j].position.start.offset < |text| && text[tags[j].position.start.offset] == '@'
  {
    var lines, tags := SplitLines(text), DocblockOf(text).tags;
    DocblockTagsPlaced(text);
    JoinSplitLines(text);
    forall j | 0 <= j < |tags| && tags[j].name != ""
      ensures tags[j].position.start.offset < |text| && text[tags[j].position.start.offset] == '@'
    {
      TagEntryAtSign(lines, Kinds(lines), tags[j].position.start.line);
    }
  }

  /** A proof step for LocateTag: TagEntry, taken apart into the stages in
      which the method assembles it (the tag of the line placed at its
      start, then the continuing lines appended, then the end set). */
  lemma TagEntryStages(lines: seq<string>, kinds: seq<LineKind>, i: nat, placed: Tag, described: Tag)
    requires |kinds| == |lines| && i < |lines|
    requires var t := TagOf(lines[i]);
             placed == t.(position := t.position.(start := Position(i, t.position.start.column,
                                                                   Offset(lines, i, t.position.start.column))))
    requires var run := Continuation(lines, kinds, i + 1);
             described == if run != [] then placed.(description := placed.description + "\n" + JoinLines(run),
                                                    multiline := true)
                          else placed
    ensures var run := Continuation(lines, kinds, i + 1);
            var end := i + |run|;
            var last := if run != [] then run[|run| - 1] else lines[i];
            TagEntry(lines, kinds, i)
              == described.(position := described.position.(
                   end := Position(end, described.position.end.column, Offset(lines, end, |last|))))
  {
  }

  /** The tagged-line branch of `parser`'s loop: the tag of the line, placed
      at line `lineIndex` with its offset, extended by the lines that
      continue it, and ended at the last of them. */
  method LocateTag(lines: seq<string>, lineIndex: nat, ghost kinds: seq<LineKind>) returns (tag: Tag)
    requires lineIndex < |lines| && Classified(lines, kinds)
    ensures tag == TagEntry(lines, kinds, lineIndex)
  {
    var line := lines[lineIndex];
    var index := lineIndex;
    tag := ParseTagLine(line);
    var column := tag.position.start.column;
    var startOffset := OffsetFromLineAndColumn(lines, index, column);
    tag := tag.(position := tag.position.(start := Position(index, column, startOffset)));
    ghost var placed := tag;
    var run := MultiLineDescription(lines, index + 1, kinds);
    var lastLine := line;
    if |run| > 0 {
      tag := tag.(description := tag.description + "\n" + JoinLines(run), multiline := true);
      lastLine := run[|run| - 1];
      index := index + |run|;
    }
    ghost var described := tag;
    var endOffset := OffsetFromLineAndColumn(lines, index, |lastLine|);
    tag := tag.(position := tag.position.(end := Position(index, tag.position.end.column, endOffset)));
    TagEntryStages(lines, kinds, lineIndex, placed, described);
  }

  /** `parser`, with the comment text as a parameter. The loop moves past
      the lines that continue a tag by resuming after the tag's end line. */
  method Parse(text: string) returns (doc: Docblock)
    ensures doc == DocblockOf(text)
  {
    var lines := SplitLines(text);
    ghost var kinds := Kinds(lines);
    KindsClassified(lines);
    var hasMetSummary := false;
    var hasMetDescription := false;
    var hasMetTags := false;
    doc := EmptyDocblock;
    var lineIndex := 0;
    while lineIndex < |lines|
      invariant lineIndex <= |lines|
      invariant ParseFrom(lines, kinds, ScanState(lineIndex, hasMetSummary, hasMetTags, doc)) == DocblockOf(text)
      decreases |lines| - lineIndex
    {
      ghost var before := ScanState(lineIndex, hasMetSummary, hasMetTags, doc);
      var line := lines[lineIndex];
      assert kinds[lineIndex] == KindOf(line);
      if IsEmptyLine(line) {
        hasMetSummary := true;
        lineIndex := lineIndex + 1;
        assert ScanState(lineIndex, hasMetSummary, hasMetTags, doc) == StepLine(lines, kinds, before);
        continue;
      }
      var isTagged := IsTagLine(line) || hasMetTags;
      if !isTagged {
        if !hasMetSummary {
          doc := doc.(summary := doc.summary + line);
        } else if !hasMetDescription {
          doc := doc.(description := doc.description + line);
        }
        lineIndex := lineIndex + 1;
        assert ScanState(lineIndex, hasMetSummary, hasMetTags, doc) == StepLine(lines, kinds, before);
        continue;
      }
      hasMetTags := true;
      var tag := LocateTag(lines, lineIndex, kinds);
      doc := doc.(tags := doc.tags + [tag]);
      lineIndex := tag.position.end.line + 1;
      assert ScanState(lineIndex, hasMetSummary, hasMetTags, doc) == StepLine(lines, kinds, before);
    }
  }
}
