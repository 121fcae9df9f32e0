/** The sample docblock that `src/index.ts` parses (its `docblock`
    constant), worked through the model: what `parser` yields for it. Each
    line is written as the pieces the tag scanner tells apart, so that the
    proofs reason about short pieces rather than long literals, which keeps
    them cheap for the verifier. */
module Sample {
  import opened Text
  import opened LineClassifier
  import opened Offsets
  import opened TagScanner
  import opened DocParser

  const Opener := "/**"
  const SummaryLine := "* " + "Summary."
  const Blank := "*"
  const DescriptionLine := "* " + "Description."
  const SinceLine := "* " + ("@since" + " x.x.x")
  const BooleanLine := "* " + ("@param" + (" " + "boolean" + (" " + ("$" + "isItTrue"
                         + (" " + "Check if value is true.")))))
  const ArrayLine := "* " + ("@param" + (" " + "array" + (" " + ("$" + "args"
                       + (" " + ("List of arguments" + " in an array format."))))))
  const StringLine := "* " + ("@param" + (" " + "string" + ("  " + ("$" + "var"
                        + (" " + "Description of the parameter")))))
  const NumberLine := "* " + ("@param" + (" " + "{number}" + (" " + ("$" + "var"
                        + (" " + "Description.")))))
  const ReturnDescription := " " + "Add return description here." + " It can be multiline."
  const ReturnLine := "* " + ("@return" + (" " + "Response" + ReturnDescription))
  const SecondLine := "* " + ("This is the second line" + " of the description.")
  const Closer := "*/"

  /** The lines of the sample docblock. */
  const SampleLines: seq<string> := [
    Opener, SummaryLine, Blank, DescriptionLine, Blank, SinceLine, Blank,
    BooleanLine, ArrayLine, StringLine, NumberLine, ReturnLine, SecondLine, Closer
  ]

  /** The sample docblock: its lines joined by line feeds. */
  const SampleText: string := JoinLines(SampleLines)

  /** An asterisk, a space and a character that is neither whitespace,
      `*`, `/` nor `@`. */
  predicate StarredText(line: string) {
    |line| >= 3 && line[0] == '*' && line[1] == ' '
    && !IsWhitespace(line[2]) && line[2] != '*' && line[2] != '/' && line[2] != '@'
  }

  /** An asterisk, a space, `@` and a character that is not whitespace. */
  predicate StarredTag(line: string) {
    |line| >= 4 && line[0] == '*' && line[1] == ' ' && line[2] == '@' && !IsWhitespace(line[3])
  }

  /** What a line of the sample looks like, by its kind. */
  predicate LineShape(line: string, kind: LineKind) {
    match kind
    case Empty => line == Opener || line == Blank || line == Closer
    case Plain => StarredText(line)
    case Tagged => StarredTag(line)
  }

  /** A starred line is plain or a tag line, as its third and fourth
      characters say. */
  lemma StarredKind(line: string)
    requires StarredText(line) || StarredTag(line)
    ensures KindOf(line) == if StarredTag(line) then Tagged else Plain
  {
    assert SkipWhitespace(line, 0) == 0;
    assert SkipChar(line, 0, '/') == 0;
    assert SkipChar(line, 0, '*') == 1;
    assert SkipChar(line, 1, '/') == 1;
    assert SkipWhitespace(line, 1) == 2;
  }

  /** The opener, the bare asterisk and the closer are empty lines. */
  lemma DecorationKinds()
    ensures KindOf(Opener) == Empty && KindOf(Blank) == Empty && KindOf(Closer) == Empty
  {
    assert SkipChar(Opener, 0, '/') == 1 && SkipChar(Opener, 1, '*') == 3;
    assert SkipChar(Closer, 0, '*') == 1 && SkipChar(Closer, 1, '/') == 2;
  }

  /** Lines of these shapes are classified by the kinds. */
  lemma ShapesClassified(lines: seq<string>, kinds: seq<LineKind>)
    requires |lines| == |kinds|
    requires forall i :: 0 <= i < |lines| ==> LineShape(lines[i], kinds[i])
    ensures Classified(lines, kinds)
  {
    DecorationKinds();
    forall i | 0 <= i < |lines| ensures kinds[i] == KindOf(lines[i]) {
      if kinds[i] != Empty {
        StarredKind(lines[i]);
      }
    }
  }

  const SampleKindList := [Empty, Plain, Empty, Plain, Empty, Tagged, Empty,
                           Tagged, Tagged, Tagged, Tagged, Tagged, Plain, Empty]

  /** The opener, the bare asterisks and the closer are empty lines, the
      `@` lines tag lines, and the other lines plain. */
  lemma SampleKinds()
    ensures Kinds(SampleLines) == SampleKindList
  {
    forall i | 0 <= i < |SampleLines| ensures LineShape(SampleLines[i], SampleKindList[i]) {
    }
    ShapesClassified(SampleLines, SampleKindList);
    ClassifiedIsKinds(SampleLines, SampleKindList);
  }

  /** The sample's tags start at its six tag lines: the plain line after
      the last one continues that tag. */
  lemma SampleTagStarts()
    ensures TagStarts(SampleKindList, 0, false) == SampleStarts
  {
    var k := SampleKindList;
    assert TagStarts(k, 14, true) == [];
    assert TagStarts(k, 13, true) == [];
    assert PlainEnd(k, 13) == 13 && PlainEnd(k, 12) == 13;
    assert TagStarts(k, 11, true) == [11];
    assert PlainEnd(k, 11) == 11;
    assert TagStarts(k, 10, true) == [10, 11];
    assert PlainEnd(k, 10) == 10;
    assert TagStarts(k, 9, true) == [9, 10, 11];
    assert PlainEnd(k, 9) == 9;
    assert TagStarts(k, 8, true) == [8, 9, 10, 11];
    assert PlainEnd(k, 8) == 8;
    assert TagStarts(k, 7, true) == [7, 8, 9, 10, 11];
    assert TagStarts(k, 6, true) == [7, 8, 9, 10, 11];
    assert PlainEnd(k, 6) == 6;
    assert TagStarts(k, 5, false) == [5, 7, 8, 9, 10, 11];
    assert TagStarts(k, 4, false) == [5, 7, 8, 9, 10, 11];
    assert TagStarts(k, 3, false) == [5, 7, 8, 9, 10, 11];
    assert TagStarts(k, 2, false) == [5, 7, 8, 9, 10, 11];
    assert TagStarts(k, 1, false) == [5, 7, 8, 9, 10, 11];
  }

  /** On any lines of the sample's kinds `parser` collects an empty
      summary: the first line is an empty line. */
  lemma SampleKindsSummary(lines: seq<string>)
    requires |lines| == |SampleKindList|
    ensures ParseFrom(lines, SampleKindList, Start).summary == ""
  {
    ParseFromSummary(lines, SampleKindList, Start);
  }

  /** On any lines of the sample's kinds `parser` collects the two plain
      lines before the first tag line as the description. */
  lemma SampleKindsDescription(lines: seq<string>)
    requires |lines| == |SampleKindList|
    ensures ParseFrom(lines, SampleKindList, Start).description == lines[1] + lines[3]
  {
    var k := SampleKindList;
    ParseFromDescription(lines, k, Start);
    assert PlainEnd(k, 0) == 0;
    assert BodyText(lines, k, 5) == "";
    assert BodyText(lines, k, 4) == "";
    assert BodyText(lines, k, 3) == lines[3];
    assert BodyText(lines, k, 2) == lines[3];
    assert BodyText(lines, k, 1) == lines[1] + lines[3];
  }

  const SampleStarts: seq<nat> := [5, 7, 8, 9, 10, 11]

  /** On any lines of the sample's kinds `parser` collects six tags, one
      for each tag line. */
  lemma SampleKindsTags(lines: seq<string>, j: nat)
    requires |lines| == |SampleKindList| && j < |SampleStarts|
    ensures var tags := ParseFrom(lines, SampleKindList, Start).tags;
            |tags| == |SampleStarts| && tags[j] == TagEntry(lines, SampleKindList, SampleStarts[j])
  {
    var k := SampleKindList;
    ParseFromTagStarts(lines, k, Start);
    SampleTagStarts();
    EntriesAtIndex(lines, k, TagStarts(k, 0, false), j);
  }

  /** The line holds neither a line feed nor a carriage return. */
  predicate Unbroken(line: string) {
    forall i | 0 <= i < |line| :: line[i] != '\n' && line[i] != '\r'
  }

  lemma UnbrokenJoin(a: string, b: string)
    requires Unbroken(a) && Unbroken(b)
    ensures Unbroken(a + b)
  {
    forall i | 0 <= i < |a + b| ensures (a + b)[i] != '\n' && (a + b)[i] != '\r' {
      if i < |a| {
        assert (a + b)[i] == a[i];
      } else {
        assert (a + b)[i] == b[i - |a|];
      }
    }
  }

  /** A starred line is unbroken when its two pieces are. */
  lemma TextLineUnbroken(first: string, second: string)
    requires Unbroken(first) && Unbroken(second)
    ensures Unbroken("* " + (first + second))
  {
    UnbrokenJoin(first, second);
    UnbrokenJoin("* ", first + second);
  }

  /** A `@param` line is unbroken when its pieces are. */
  lemma ParamLineUnbroken(tagType: string, gap: string, variable: string, description: string)
    requires Unbroken(tagType) && Unbroken(gap) && Unbroken(variable) && Unbroken(description)
    ensures Unbroken("* " + ("@param" + (" " + tagType + (gap + ("$" + variable + (" " + description))))))
  {
    UnbrokenJoin(" ", description);
    UnbrokenJoin("$", variable);
    UnbrokenJoin("$" + variable, " " + description);
    UnbrokenJoin(gap, "$" + variable + (" " + description));
    UnbrokenJoin(" ", tagType);
    UnbrokenJoin(" " + tagType, gap + ("$" + variable + (" " + description)));
    UnbrokenJoin("@param", " " + tagType + (gap + ("$" + variable + (" " + description))));
    UnbrokenJoin("* ", "@param" + (" " + tagType + (gap + ("$" + variable + (" " + description)))));
  }

  lemma OpeningLinesUnbroken()
    ensures Unbroken(Opener) && Unbroken(SummaryLine) && Unbroken(Blank)
    ensures Unbroken(DescriptionLine) && Unbroken(SinceLine) && Unbroken(Closer)
  {
    TextLineUnbroken("Summary.", "");
    assert SummaryLine == "* " + ("Summary." + "");
    TextLineUnbroken("Description.", "");
    assert DescriptionLine == "* " + ("Description." + "");
    TextLineUnbroken("@since", " x.x.x");
  }

  lemma ParamLinesUnbroken()
    ensures Unbroken(BooleanLine) && Unbroken(ArrayLine) && Unbroken(StringLine) && Unbroken(NumberLine)
  {
    ParamLineUnbroken("boolean", " ", "isItTrue", "Check if value is true.");
    UnbrokenJoin("List of arguments", " in an array format.");
    ParamLineUnbroken("array", " ", "args", "List of arguments" + " in an array format.");
    ParamLineUnbroken("string", "  ", "var", "Description of the parameter");
    ParamLineUnbroken("{number}", " ", "var", "Description.");
  }

  lemma ClosingLinesUnbroken()
    ensures Unbroken(ReturnLine) && Unbroken(SecondLine)
  {
    UnbrokenJoin(" ", "Add return description here.");
    UnbrokenJoin(" " + "Add return description here.", " It can be multiline.");
    UnbrokenJoin(" ", "Response");
    UnbrokenJoin(" " + "Response", ReturnDescription);
    TextLineUnbroken("@return", " " + "Response" + ReturnDescription);
    TextLineUnbroken("This is the second line", " of the description.");
  }

  /** The sample's lines hold no line breaks, so `parser` reads the
      sample text as the sample's lines. */
  lemma SampleParse()
    ensures DocblockOf(SampleText) == ParseFrom(SampleLines, SampleKindList, Start)
  {
    OpeningLinesUnbroken();
    ParamLinesUnbroken();
    ClosingLinesUnbroken();
    forall k | 0 <= k < |SampleLines| ensures '\n' !in SampleLines[k] && '\r' !in SampleLines[k] {
      assert Unbroken(SampleLines[k]);
    }
    DocblockOfLines(SampleLines);
    SampleKinds();
  }

  /** `parser` on the sample: no summary (the opening line is an empty
      line), the two text lines run together as the description, and six
      tags. */
  lemma SampleDocblock()
    ensures var doc := DocblockOf(SampleText);
            && doc.summary == ""
            && doc.description == SummaryLine + DescriptionLine
            && |doc.tags| == 6
  {
    SampleParse();
    SampleKindsSummary(SampleLines);
    SampleKindsDescription(SampleLines);
    SampleKindsTags(SampleLines, 0);
  }

  /** On lines of the sample's kinds whose line 5 is the `@since` line,
      the first tag is `@since` on line 5, with the rest of its line as
      the description and no type or variable. */
  lemma SampleKindsSince(lines: seq<string>)
    requires |lines| == |SampleKindList| && lines[5] == SinceLine
    ensures var tags := ParseFrom(lines, SampleKindList, Start).tags;
            |tags| == 6 && var t := tags[0];
            && t.name == "@since" && t.description == " x.x.x" && t.tagType == "" && t.variable == ""
            && !t.multiline && t.position.start.line == 5 && t.position.start.column == 2
  {
    var k := SampleKindList;
    SampleKindsTags(lines, 0);
    TagEntryFields(lines, k, 5);
    TagEntryDescription(lines, k, 5);
    TagEntryLines(lines, k, 5);
    UntypedTagLine("* ", "@since", " x.x.x");
  }

  /** The first tag of the sample is `@since`. */
  lemma SampleSince()
    ensures var tags := DocblockOf(SampleText).tags;
            |tags| == 6 && var t := tags[0];
            && t.name == "@since" && t.description == " x.x.x" && t.tagType == "" && t.variable == ""
            && !t.multiline && t.position.start.line == 5 && t.position.start.column == 2
  {
    SampleParse();
    SampleKindsSince(SampleLines);
  }

  /** A tag line not followed by a plain line: the tag is its own line's
      TagOf, placed at line `i`. */
  lemma OneLineEntry(lines: seq<string>, kinds: seq<LineKind>, i: nat)
    requires |kinds| == |lines| && i + 1 < |lines| && kinds[i + 1] != Plain
    ensures var t, own := TagEntry(lines, kinds, i), TagOf(lines[i]);
            && t.name == own.name && t.tagType == own.tagType && t.variable == own.variable
            && t.description == own.description
            && !t.multiline && t.position.start.line == i && t.position.end.line == i
  {
    assert Continuation(lines, kinds, i + 1) == [];
    TagEntryFields(lines, kinds, i);
    TagEntryDescription(lines, kinds, i);
    TagEntryLines(lines, kinds, i);
  }

  /** A tag line followed by exactly one plain line: the tag keeps the
      name, type and variable of its own line, gets the plain line after a
      line feed, spans the two lines and ends at its own line's length. */
  lemma TwoLineEntry(lines: seq<string>, kinds: seq<LineKind>, i: nat)
    requires |kinds| == |lines| && i + 2 < |lines| && kinds[i + 1] == Plain && kinds[i + 2] != Plain
    ensures var t, own := TagEntry(lines, kinds, i), TagOf(lines[i]);
            && t.name == own.name && t.tagType == own.tagType && t.variable == own.variable
            && t.description == own.description + "\n" + lines[i + 1]
            && t.multiline && t.position.start.line == i && t.position.end.line == i + 1
            && t.position.end.column == |lines[i]|
  {
    assert Continuation(lines, kinds, i + 2) == [];
    assert Continuation(lines, kinds, i + 1) == [lines[i + 1]];
    TagEntryFields(lines, kinds, i);
    TagEntryDescription(lines, kinds, i);
    TagEntryLines(lines, kinds, i);
    assert JoinLines(lines[i + 1..i + 2]) == lines[i + 1];
  }

  /** On lines of the sample's kinds whose lines 11 and 12 are the
      `@return` line and the plain line after it, the last tag is
      `@return` with type `Response`; the plain line is appended to its
      description after a line feed, so it spans lines 11 to 12, while its
      end column is the length of line 11. */
  lemma SampleKindsReturn(lines: seq<string>)
    requires |lines| == |SampleKindList| && lines[11] == ReturnLine && lines[12] == SecondLine
    ensures var tags := ParseFrom(lines, SampleKindList, Start).tags;
            |tags| == 6 && var t := tags[5];
            && t.name == "@return" && t.tagType == "Response" && t.variable == ""
            && t.description == ReturnDescription + "\n" + SecondLine
            && t.multiline && t.position.start.line == 11 && t.position.end.line == 12
            && t.position.end.column == |ReturnLine|
  {
    var k := SampleKindList;
    SampleKindsTags(lines, 5);
    TwoLineEntry(lines, k, 11);
    ReturnTagLine("* ", "Response", ReturnDescription);
  }

  /** The last tag of the sample is the two-line `@return`. */
  lemma SampleReturn()
    ensures var tags := DocblockOf(SampleText).tags;
            |tags| == 6 && var t := tags[5];
            && t.name == "@return" && t.tagType == "Response" && t.variable == ""
            && t.description == ReturnDescription + "\n" + SecondLine
            && t.multiline && t.position.start.line == 11 && t.position.end.line == 12
            && t.position.end.column == |ReturnLine|
  {
    SampleParse();
    SampleKindsReturn(SampleLines);
  }

  /** On lines of the sample's kinds whose tag line for tag `j` (one of the
      four middle ones) is a `@param` line, that tag is `@param` with the
      line's type, `$` and variable, and description, on one line. */
  lemma SampleKindsParam(lines: seq<string>, j: nat, tagType: string, gap: string, variable: string,
                         description: string)
    requires |lines| == |SampleKindList| && 1 <= j <= 4
    requires ' ' !in tagType && ' ' !in variable && gap != [] && gap[0] == ' ' && '$' !in gap
    requires lines[SampleStarts[j]]
             == "* " + ("@param" + (" " + tagType + (gap + ("$" + variable + (" " + description)))))
    ensures var tags := ParseFrom(lines, SampleKindList, Start).tags;
            |tags| == 6 && var t := tags[j];
            && t.name == "@param" && t.tagType == tagType && t.variable == "$" + variable
            && t.description == description && !t.multiline
  {
    SampleKindsTags(lines, j);
    OneLineEntry(lines, SampleKindList, SampleStarts[j]);
    ParamTagLine("* ", tagType, gap, variable, description);
  }

  /** The second and third tags of the sample are the `@param` tags for
      `$isItTrue` of type `boolean` and `$args` of type `array`. */
  lemma SampleFirstParams()
    ensures var tags := DocblockOf(SampleText).tags;
            && |tags| == 6
            && tags[1].name == "@param" && tags[1].tagType == "boolean" && tags[1].variable == "$isItTrue"
            && tags[2].name == "@param" && tags[2].tagType == "array" && tags[2].variable == "$args"
  {
    SampleParse();
    SampleKindsParam(SampleLines, 1, "boolean", " ", "isItTrue", "Check if value is true.");
    SampleKindsParam(SampleLines, 2, "array", " ", "args", "List of arguments" + " in an array format.");
  }

  /** The fourth and fifth tags of the sample are the `@param` tags for
      `$var`: the two spaces before the first `$var` are skipped, and the
      type `{number}` is kept as a plain word, braces and all. */
  lemma SampleLastParams()
    ensures var tags := DocblockOf(SampleText).tags;
            && |tags| == 6
            && tags[3].name == "@param" && tags[3].tagType == "string" && tags[3].variable == "$var"
            && tags[4].name == "@param" && tags[4].tagType == "{number}" && tags[4].variable == "$var"
  {
    SampleParse();
    SampleKindsParam(SampleLines, 3, "string", "  ", "var", "Description of the parameter");
    SampleKindsParam(SampleLines, 4, "{number}", " ", "var", "Description.");
  }
}
