/** The position calculator: from a (line, column) pair to an absolute
    character offset in the docblock, counting one separator per line break. */
module Offsets {
  import opened Text

  /** The sum of the lengths of `lines`. */
  function TotalLength(lines: seq<string>): nat {
    if lines == [] then 0 else TotalLength(lines[..|lines| - 1]) + |lines[|lines| - 1]|
  }

  /** `getOffsetFromLineAndColumn`: the lengths of the lines before
      `lineIndex`, one line feed after each of them, and the column. */
  function Offset(lines: seq<string>, lineIndex: nat, column: nat): (r: nat)
    requires lineIndex <= |lines|
    ensures lineIndex + column <= r
    ensures lineIndex == 0 ==> r == column
  {
    TotalLength(lines[..lineIndex]) + lineIndex + column
  }

  /** The loop of `getOffsetFromLineAndColumn`. The source reads
      `lines[index]` for every index below `lineIndex`, hence the
      precondition. */
  method OffsetFromLineAndColumn(lines: seq<string>, lineIndex: nat, column: nat)
    returns (offset: nat)
    requires lineIndex <= |lines|
    ensures offset == Offset(lines, lineIndex, column)
  {
    offset := 0;
    var index := 0;
    while index < lineIndex
      invariant index <= lineIndex
      invariant offset == TotalLength(lines[..index])
    {
      assert lines[..index + 1][..index] == lines[..index];
      offset := offset + |lines[index]|;
      index := index + 1;
    }
    offset := offset + column + lineIndex;
  }

  lemma {:induction false} TotalLengthCons(line: string, lines: seq<string>)
    ensures TotalLength([line] + lines) == |line| + TotalLength(lines)
    decreases |lines|
  {
    if lines != [] {
      var n := |lines|;
      assert ([line] + lines)[..n] == [line] + lines[..n - 1];
      TotalLengthCons(line, lines[..n - 1]);
    }
  }

  /** Line 0 starts at offset 0, and each next line starts one separator
      after the end of the line before it. */
  lemma OffsetNextLine(lines: seq<string>, lineIndex: nat, column: nat)
    requires lineIndex < |lines|
    ensures Offset(lines, 0, column) == column
    ensures Offset(lines, lineIndex + 1, column)
            == Offset(lines, lineIndex, |lines[lineIndex]|) + 1 + column
  {
    assert lines[..lineIndex + 1][..lineIndex] == lines[..lineIndex];
  }

  /** The joined text is as long as the lines plus one separator between
      each two of them. */
  lemma {:induction false} JoinLinesLength(lines: seq<string>)
    requires lines != []
    ensures |JoinLines(lines)| == TotalLength(lines) + |lines| - 1
  {
    if |lines| > 1 {
      JoinLinesLength(lines[1..]);
      assert lines == [lines[0]] + lines[1..];
      TotalLengthCons(lines[0], lines[1..]);
    } else {
      assert lines[..0] == [];
    }
  }

  /** The offset of (line, column) is where that character sits in the
      lines joined by line feeds; the offset of a line's end is the line
      feed that follows it. */
  lemma {:induction false} OffsetLocates(lines: seq<string>, lineIndex: nat, column: nat)
    requires lineIndex < |lines| && column <= |lines[lineIndex]|
    requires column == |lines[lineIndex]| ==> lineIndex + 1 < |lines|
    ensures Offset(lines, lineIndex, column) < |JoinLines(lines)|
    ensures JoinLines(lines)[Offset(lines, lineIndex, column)]
            == if column < |lines[lineIndex]| then lines[lineIndex][column] else '\n'
    decreases lineIndex
  {
    var text := JoinLines(lines);
    JoinLinesLength(lines);
    if |lines| > 1 {
      assert text == lines[0] + "\n" + JoinLines(lines[1..]);
    }
    if lineIndex > 0 {
      var rest := lines[1..];
      OffsetLocates(rest, lineIndex - 1, column);
      assert lines[..lineIndex] == [lines[0]] + rest[..lineIndex - 1];
      TotalLengthCons(lines[0], rest[..lineIndex - 1]);
      assert Offset(lines, lineIndex, column) == |lines[0]| + 1 + Offset(rest, lineIndex - 1, column);
    } else {
      assert lines[..0] == [];
    }
  }

  /** The end of the last line is the end of the joined text. */
  lemma OffsetAtEnd(lines: seq<string>)
    requires lines != []
    ensures Offset(lines, |lines| - 1, |lines[|lines| - 1]|) == |JoinLines(lines)|
  {
    JoinLinesLength(lines);
    assert lines[..|lines|] == lines;
  }

  /** In the lines `ab`, `cde`, `f`, column 0 of line 2 lies past the two
      earlier lines and their two line feeds: offset 2 + 3 + 2. */
  lemma OffsetExample()
    ensures Offset(["ab", "cde", "f"], 2, 0) == 7
  {
    var lines := ["ab", "cde", "f"];
    assert lines[..2] == ["ab", "cde"];
    assert ["ab", "cde"][..1] == ["ab"];
    assert ["ab"][..0] == [];
  }
}
