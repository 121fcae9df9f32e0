/** The tag-line scanner (`parseTagLine`): one left-to-right pass over a
    line that picks out the tag name, its type, its `$variable` and the rest
    of the line as description. */
module TagScanner {
  import opened Text
  import opened LineClassifier

  /** A place in the docblock: line index, column in that line, and absolute
      offset in the text. */
  datatype Position = Position(line: nat, column: nat, offset: nat)

  datatype Span = Span(start: Position, end: Position)

  /** One tag of a docblock. */
  datatype Tag = Tag(
    name: string,
    description: string,
    tagType: string,
    variable: string,
    multiline: bool,
    position: Span)

  /** The line holds an `@`, so the scan collects a name. */
  predicate HasName(line: string) {
    FirstIndexOf(line, '@') < |line|
  }

  /** The name: `@` and the characters up to the next space, taken at the
      first `@`. */
  function NameAt(line: string): string
    requires HasName(line)
  {
    "@" + PrefixUntil(line[FirstIndexOf(line, '@') + 1..], ' ')
  }

  /** The index just past the name. */
  function NameEnd(line: string): (k: nat)
    requires HasName(line)
    ensures FirstIndexOf(line, '@') < k <= |line|
  {
    FirstIndexOf(line, '@') + |NameAt(line)|
  }

  /** Something follows the name: the space that ends it. */
  predicate HasRest(line: string) {
    HasName(line) && NameEnd(line) < |line|
  }

  /** The bare word after the space that ends the name. */
  function TypeAt(line: string): string
    requires HasRest(line)
  {
    PrefixUntil(line[NameEnd(line) + 1..], ' ')
  }

  /** The index just past that word. */
  function TypeEnd(line: string): (k: nat)
    requires HasRest(line)
    ensures NameEnd(line) < k <= |line|
  {
    NameEnd(line) + 1 + |TypeAt(line)|
  }

  /** The first `$` at or after the end of the type, or `|line|`. */
  function DollarAt(line: string): (k: nat)
    requires HasRest(line)
    ensures TypeEnd(line) <= k <= |line|
  {
    TypeEnd(line) + FirstIndexOf(line[TypeEnd(line)..], '$')
  }

  /** `$` and the characters up to the next space, taken at that `$`. */
  function VariableAt(line: string): string
    requires HasRest(line) && DollarAt(line) < |line|
  {
    "$" + PrefixUntil(line[DollarAt(line) + 1..], ' ')
  }

  /** What `parseTagLine` yields, stated directly:
      - the name is taken at the first `@`; its column is that index;
      - a tag outside `@param` and `@return` takes as description the rest
        of the line from the space after its name, that space included;
      - `@param` and `@return` take as type the bare word after that space,
        braces included (the scan never reaches its `{` branch: the cursor
        always stands on the space that ends the name when the type is due);
      - `@return` takes the rest of the line after the type as description;
      - `@param` takes as variable the first `$` after the type and the
        non-spaces after it, and as description the line from one character
        past the variable (the character after it is skipped).
      Line and offsets are left zero; the end column is the line's length. */
  function TagOf(line: string): (t: Tag)
    ensures t.position.start.column <= t.position.end.column == |line|
    ensures t.position.start.line == t.position.end.line == 0 && !t.multiline
  {
    if !HasName(line) then
      Tag("", "", "", "", false, Span(Position(0, 0, 0), Position(0, |line|, 0)))
    else
      var name := NameAt(line);
      var span := Span(Position(0, FirstIndexOf(line, '@'), 0), Position(0, |line|, 0));
      if !HasRest(line) then
        Tag(name, "", "", "", false, span)
      else if !HasType(name) then
        Tag(name, line[NameEnd(line)..], "", "", false, span)
      else if !HasArgument(name) then
        Tag(name, line[TypeEnd(line)..], TypeAt(line), "", false, span)
      else if DollarAt(line) == |line| then
        Tag(name, "", TypeAt(line), "", false, span)
      else
        var rest := DollarAt(line) + |VariableAt(line)| + 1;
        Tag(name, if rest <= |line| then line[rest..] else "", TypeAt(line), VariableAt(line),
            false, span)
  }

  /** The name ends at a space when something follows it. */
  lemma NameEndIsSpace(line: string)
    requires HasRest(line)
    ensures line[NameEnd(line)] == ' '
  {
    PrefixUntilStop(line[FirstIndexOf(line, '@') + 1..], ' ');
  }

  /** An `@` at or before the first one is the first one, and the name
      taken there is NameAt. */
  lemma NameStep(line: string, index: nat)
    requires index < |line| && index <= FirstIndexOf(line, '@') && line[index] == '@'
    ensures HasName(line) && index == FirstIndexOf(line, '@')
    ensures "@" + PrefixUntil(line[index + 1..], ' ') == NameAt(line)
  {
    if index < FirstIndexOf(line, '@') {
      FirstIndexOfBefore(line, '@', index);
    }
  }

  /** A `$` between the end of the type and the first `$` after it is that
      first one, and the variable taken there is VariableAt. */
  lemma VariableStep(line: string, index: nat)
    requires HasRest(line) && TypeEnd(line) <= index <= DollarAt(line)
    requires index < |line| && line[index] == '$'
    ensures index == DollarAt(line)
    ensures "$" + PrefixUntil(line[index + 1..], ' ') == VariableAt(line)
  {
    if index < DollarAt(line) {
      FirstIndexOfBefore(line[TypeEnd(line)..], '$', index - TypeEnd(line));
    }
  }

  /** The state of `parseTagLine` at the head of its loop: the three flags
      and the collector, which is the tag being built. The loop passes
      through four phases: before the name, on the space after the name,
      between the type and the `$`, and after the variable. */
  predicate Collecting(line: string, index: nat, tagCollected: bool, typeCollected: bool,
                       variableCollected: bool, collector: Tag)
  {
    && collector.description == "" && !collector.multiline
    && (!tagCollected ==>
          && index <= FirstIndexOf(line, '@') && !typeCollected && !variableCollected
          && collector == Tag("", "", "", "", false, Span(Position(0, 0, 0), Position(0, |line|, 0))))
    && (tagCollected ==>
          && HasName(line) && collector.name == NameAt(line)
          && collector.position == Span(Position(0, FirstIndexOf(line, '@'), 0), Position(0, |line|, 0)))
    && (tagCollected && !typeCollected ==>
          index == NameEnd(line) && !variableCollected && collector.tagType == "" && collector.variable == "")
    && (typeCollected ==>
          tagCollected && HasRest(line) && HasType(collector.name) && collector.tagType == TypeAt(line))
    && (typeCollected && !variableCollected ==>
          && collector.variable == ""
          && (HasArgument(collector.name) ==> TypeEnd(line) <= index <= DollarAt(line))
          && (!HasArgument(collector.name) ==> index == TypeEnd(line)))
    && (variableCollected ==>
          && typeCollected && HasArgument(collector.name) && DollarAt(line) < |line|
          && collector.variable == VariableAt(line) && index == DollarAt(line) + |VariableAt(line)| + 1)
  }

  /** Whenever the type is still due, the cursor stands on the space that
      ends the name: the source's `{` branch is never taken, and neither is
      the `$` branch before the type. */
  lemma TypeDueOnSpace(line: string, index: nat, tagCollected: bool, typeCollected: bool,
                       variableCollected: bool, collector: Tag)
    requires Collecting(line, index, tagCollected, typeCollected, variableCollected, collector)
    requires index < |line| && HasType(collector.name) && !typeCollected
    ensures line[index] == ' '
  {
    assert Trim("") == "";
    NameEndIsSpace(line);
  }

  /** The `@` branch collects NameAt and moves the cursor to its end. */
  lemma CollectName(line: string, index: nat, collector: Tag)
    requires Collecting(line, index, false, false, false, collector)
    requires index < |line| && line[index] == '@'
    ensures var name := collector.name + [line[index]] + PrefixUntil(line[index + 1..], ' ');
            Collecting(line, index + |name|, true, false, false,
                       collector.(name := name, position := collector.position.(
                         start := collector.position.start.(column := index))))
  {
    NameStep(line, index);
  }

  /** The space branch collects TypeAt and moves the cursor past it. */
  lemma CollectType(line: string, index: nat, collector: Tag)
    requires Collecting(line, index, true, false, false, collector)
    requires index < |line| && HasType(collector.name)
    ensures var tagType := collector.tagType + PrefixUntil(line[index + 1..], ' ');
            Collecting(line, index + |tagType| + 1, true, true, false, collector.(tagType := tagType))
  {
  }

  /** The `$` branch collects VariableAt and moves the cursor one past it. */
  lemma CollectVariable(line: string, index: nat, collector: Tag)
    requires Collecting(line, index, true, true, false, collector)
    requires index < |line| && line[index] == '$' && HasArgument(collector.name)
    ensures var variable := collector.variable + [line[index]] + PrefixUntil(line[index + 1..], ' ');
            Collecting(line, index + |variable| + 1, true, true, true, collector.(variable := variable))
  {
    VariableStep(line, index);
  }

  /** An iteration that collects nothing and does not break only moves the
      cursor, possibly setting the flags of parts the tag does not take. */
  lemma SkipCharacter(line: string, index: nat, tagCollected: bool, typeCollected: bool,
                      variableCollected: bool, collector: Tag)
    requires Collecting(line, index, tagCollected, typeCollected, variableCollected, collector)
    requires index < |line|
    requires !(line[index] == '@' && !tagCollected)
    requires !(HasType(collector.name) && line[index] == ' ' && !typeCollected && tagCollected)
    requires !(line[index] == '$' && !variableCollected && HasArgument(collector.name))
    ensures var variableCollected' := variableCollected || (!HasArgument(collector.name) && tagCollected);
            var typeCollected' := typeCollected || (!HasType(collector.name) && tagCollected);
            !(tagCollected && typeCollected' && variableCollected') ==>
              Collecting(line, index + 1, tagCollected, typeCollected', variableCollected', collector)
  {
    if !tagCollected {
      FirstIndexOfHit(line, '@');
    } else if !typeCollected {
      NameEndIsSpace(line);
    } else if !variableCollected {
      FirstIndexOfHit(line[TypeEnd(line)..], '$');
    }
  }

  /** The iteration that breaks completes the tag: the rest of the line is
      its description. */
  lemma Describe(line: string, index: nat, tagCollected: bool, typeCollected: bool,
                 variableCollected: bool, collector: Tag)
    requires Collecting(line, index, tagCollected, typeCollected, variableCollected, collector)
    requires index < |line| && tagCollected
    requires typeCollected || !HasType(collector.name)
    requires variableCollected || !HasArgument(collector.name)
    ensures collector.(description := line[index..]) == TagOf(line)
  {
  }

  /** A scan that runs off the line has completed the tag too. */
  lemma RunOff(line: string, index: nat, tagCollected: bool, typeCollected: bool,
               variableCollected: bool, collector: Tag)
    requires Collecting(line, index, tagCollected, typeCollected, variableCollected, collector)
    requires index >= |line|
    ensures collector == TagOf(line)
  {
  }

  /** `parseTagLine`: the source's loop over the line, with its three flags
      and its collector. The `for` loop's increment is folded into each
      branch's move of the cursor. */
  method ParseTagLine(line: string) returns (tag: Tag)
    ensures tag == TagOf(line)
  {
    var tagCollected, typeCollected, variableCollected := false, false, false;
    var collector := Tag("", "", "", "", false, Span(Position(0, 0, 0), Position(0, |line|, 0)));
    var index: nat := 0;
    while index < |line|
      invariant Collecting(line, index, tagCollected, typeCollected, variableCollected, collector)
      decreases |line| - index
    {
      var c := line[index];
      if c == '@' && !tagCollected {
        CollectName(line, index, collector);
        var rest := ConsumeUntil(line[index + 1..], ' ');
        collector := collector.(name := collector.name + [c] + rest);
        collector := collector.(position := collector.position.(
                       start := collector.position.start.(column := index)));
        index := index + |collector.name|;
        tagCollected := true;
        continue;
      }
      if HasType(collector.name) {
        if c == '{' && !typeCollected {
          TypeDueOnSpace(line, index, tagCollected, typeCollected, variableCollected, collector);
          assert false;
        }
        if c == ' ' && !typeCollected && tagCollected {
          CollectType(line, index, collector);
          var rest := ConsumeUntil(line[index + 1..], ' ');
          collector := collector.(tagType := collector.tagType + rest);
          index := index + |collector.tagType| + 1;
          typeCollected := true;
          continue;
        }
      }
      if c == '$' && !variableCollected && HasArgument(collector.name) {
        if !typeCollected {
          TypeDueOnSpace(line, index, tagCollected, typeCollected, variableCollected, collector);
        }
        CollectVariable(line, index, collector);
        var rest := ConsumeUntil(line[index + 1..], ' ');
        collector := collector.(variable := collector.variable + [c] + rest);
        index := index + |collector.variable| + 1;
        variableCollected := true;
        continue;
      }
      SkipCharacter(line, index, tagCollected, typeCollected, variableCollected, collector);
      ghost var typeBefore, variableBefore := typeCollected, variableCollected;
      if !HasArgument(collector.name) && tagCollected {
        variableCollected := true;
      }
      if !HasType(collector.name) && tagCollected {
        typeCollected := true;
      }
      if tagCollected && typeCollected && variableCollected {
        Describe(line, index, tagCollected, typeBefore, variableBefore, collector);
        collector := collector.(description := line[index..]);
        break;
      }
      index := index + 1;
    }
    if index >= |line| {
      RunOff(line, index, tagCollected, typeCollected, variableCollected, collector);
    }
    tag := collector;
  }

  /** The name is the slice of the line from the first `@` to NameEnd; it
      starts with `@` and holds no space. */
  lemma NameSlice(line: string)
    requires HasName(line)
    ensures var at := FirstIndexOf(line, '@');
            && line[at..NameEnd(line)] == NameAt(line)
            && NameAt(line)[0] == '@' && ' ' !in NameAt(line)
  {
    var at := FirstIndexOf(line, '@');
    FirstIndexOfHit(line, '@');
    PrefixUntilSlice(line, at + 1, ' ');
    PrefixUntilAvoids(line[at + 1..], ' ');
    assert line[at..NameEnd(line)] == [line[at]] + line[at + 1..NameEnd(line)];
  }

  /** No `@` precedes the first one. */
  lemma NoAtBefore(line: string)
    ensures '@' !in line[..FirstIndexOf(line, '@')]
  {
    var at := FirstIndexOf(line, '@');
    forall j | 0 <= j < at ensures line[..at][j] != '@' {
      FirstIndexOfBefore(line, '@', j);
    }
  }

  /** The type is the slice of the line after the space that ends the name,
      up to TypeEnd; it holds no space. */
  lemma TypeSlice(line: string)
    requires HasRest(line)
    ensures line[NameEnd(line) + 1..TypeEnd(line)] == TypeAt(line) && ' ' !in TypeAt(line)
  {
    PrefixUntilSlice(line, NameEnd(line) + 1, ' ');
    PrefixUntilAvoids(line[NameEnd(line) + 1..], ' ');
  }

  /** The variable starts with `$` and holds no space. */
  lemma VariableShape(line: string)
    requires HasRest(line) && DollarAt(line) < |line|
    ensures VariableAt(line)[0] == '$' && ' ' !in VariableAt(line)
  {
    PrefixUntilAvoids(line[DollarAt(line) + 1..], ' ');
  }

  /** DollarAt, when inside the line, is a `$`. */
  lemma DollarIsDollar(line: string)
    requires HasRest(line) && DollarAt(line) < |line|
    ensures line[DollarAt(line)] == '$'
  {
    var from := TypeEnd(line);
    FirstIndexOfHit(line[from..], '$');
    assert line[from..][DollarAt(line) - from] == line[DollarAt(line)];
  }

  /** The variable is the slice of the line at DollarAt, and a space or the
      end of the line follows it. */
  lemma VariableSlice(line: string)
    requires HasRest(line) && DollarAt(line) < |line|
    ensures var dollar, v := DollarAt(line), VariableAt(line);
            && dollar + |v| <= |line| && line[dollar..dollar + |v|] == v
            && (dollar + |v| < |line| ==> line[dollar + |v|] == ' ')
  {
    var dollar := DollarAt(line);
    var w := PrefixUntil(line[dollar + 1..], ' ');
    assert VariableAt(line) == ['$'] + w;
    DollarIsDollar(line);
    PrefixUntilSlice(line, dollar + 1, ' ');
    MarkedSlice(line, dollar, w);
  }

  /** A slice that starts one character before a known slice. */
  lemma MarkedSlice(s: string, k: nat, w: string)
    requires k + 1 + |w| <= |s| && s[k + 1..k + 1 + |w|] == w
    ensures s[k..k + 1 + |w|] == [s[k]] + w
  {
    assert s[k..k + 1 + |w|] == [s[k]] + s[k + 1..k + 1 + |w|];
  }

  /** No `$` lies between the end of the type and DollarAt. */
  lemma NoDollarBefore(line: string)
    requires HasRest(line)
    ensures '$' !in line[TypeEnd(line)..DollarAt(line)]
  {
    var from := TypeEnd(line);
    forall j | 0 <= j < DollarAt(line) - from ensures line[from..DollarAt(line)][j] != '$' {
      FirstIndexOfBefore(line[from..], '$', j);
    }
  }

  /** A line yields a name exactly when it holds an `@`. */
  lemma HasNameIff(line: string)
    ensures HasName(line) <==> '@' in line
  {
    FirstIndexOfSpec(line, '@');
  }

  /** The name is the slice of the line at the first `@`; it starts with
      `@`, holds no space, and a space or the end of the line follows it. */
  lemma NameShape(line: string)
    requires HasName(line)
    ensures var at, name := FirstIndexOf(line, '@'), NameAt(line);
            && at + |name| <= |line| && line[at..at + |name|] == name
            && name[0] == '@' && '@' !in line[..at] && ' ' !in name
            && (at + |name| == |line| || line[at + |name|] == ' ')
  {
    NameSlice(line);
    NoAtBefore(line);
    if HasRest(line) {
      NameEndIsSpace(line);
    }
  }

  /** The name is the `@` word at the first `@` of the line: it is empty
      exactly when the line holds no `@`, and then so is every other part;
      otherwise it is the slice of the line at the tag's start column,
      holds no space, and is followed by a space or the end of the line. */
  lemma TagOfName(line: string)
    ensures var t := TagOf(line);
            var column := t.position.start.column;
            && t.position == Span(Position(0, column, 0), Position(0, |line|, 0))
            && !t.multiline
            && (t.name == "" <==> '@' !in line)
            && (t.name == "" ==> t == Tag("", "", "", "", false, Span(Position(0, 0, 0), Position(0, |line|, 0))))
            && (t.name != "" ==>
                  && column + |t.name| <= |line| && line[column..column + |t.name|] == t.name
                  && t.name[0] == '@' && '@' !in line[..column] && ' ' !in t.name
                  && (column + |t.name| == |line| || line[column + |t.name|] == ' '))
  {
    HasNameIff(line);
    if HasName(line) {
      NameShape(line);
      assert TagOf(line).name == NameAt(line);
      assert TagOf(line).position.start.column == FirstIndexOf(line, '@');
    }
  }

  /** The type and the variable hold no space, only `@param` and `@return`
      take a type, and only `@param` takes a variable, which starts with
      `$`. */
  lemma TagOfParts(line: string)
    ensures var t := TagOf(line);
            && ' ' !in t.tagType
            && (t.tagType != "" ==> HasType(t.name))
            && (t.variable != "" ==> HasArgument(t.name) && t.variable[0] == '$' && ' ' !in t.variable)
  {
    if HasRest(line) {
      PrefixUntilAvoids(line[NameEnd(line) + 1..], ' ');
      if DollarAt(line) < |line| {
        VariableShape(line);
      }
    }
  }

  /** The description is a suffix of the line. */
  lemma TagOfDescription(line: string)
    ensures var d := TagOf(line).description;
            |d| <= |line| && d == line[|line| - |d|..]
  {
  }

  /** `@return` with a type reassembles its line: what precedes the `@`,
      the name, a space, the type and the description. */
  lemma ReturnReassembles(line: string)
    requires HasRest(line) && HasType(NameAt(line)) && !HasArgument(NameAt(line))
    ensures line == line[..FirstIndexOf(line, '@')] + NameAt(line) + " " + TypeAt(line)
                    + line[TypeEnd(line)..]
  {
    var at, nameEnd, typeEnd := FirstIndexOf(line, '@'), NameEnd(line), TypeEnd(line);
    NameSlice(line);
    NameEndIsSpace(line);
    TypeSlice(line);
    assert line == line[..at] + line[at..nameEnd] + [line[nameEnd]]
                   + line[nameEnd + 1..typeEnd] + line[typeEnd..];
  }

  /** A tag without a type reassembles its line: what precedes the `@`,
      the name and what follows the name. */
  lemma UntypedReassembles(line: string)
    requires HasName(line)
    ensures line == line[..FirstIndexOf(line, '@')] + NameAt(line) + line[NameEnd(line)..]
  {
    var at, nameEnd := FirstIndexOf(line, '@'), NameEnd(line);
    NameSlice(line);
    assert line == line[..at] + line[at..nameEnd] + line[nameEnd..];
  }

  /** A typed tag other than `@param` reassembles its line from its fields. */
  lemma TypedTagReassembles(line: string)
    requires HasRest(line) && HasType(NameAt(line)) && !HasArgument(NameAt(line))
    ensures var t := TagOf(line);
            line == line[..t.position.start.column] + t.name + " " + t.tagType + t.description
  {
    var t := TagOf(line);
    assert t.position.start.column == FirstIndexOf(line, '@') && t.name == NameAt(line);
    assert t.tagType == TypeAt(line) && t.description == line[TypeEnd(line)..];
    ReturnReassembles(line);
  }

  /** A tag without a type, or with nothing after its name, reassembles
      its line from its fields. */
  lemma UntypedTagReassembles(line: string)
    requires HasName(line) && !(HasRest(line) && HasType(NameAt(line)))
    ensures var t := TagOf(line);
            line == line[..t.position.start.column] + t.name + t.description
  {
    var t := TagOf(line);
    assert t.position.start.column == FirstIndexOf(line, '@') && t.name == NameAt(line);
    assert t.description == line[NameEnd(line)..];
    UntypedReassembles(line);
  }

  /** A tag other than `@param` reassembles its line: what precedes the
      `@`, the name, the space and the type if it takes one, and the
      description. */
  lemma TagOfReassembles(line: string)
    requires HasName(line) && !HasArgument(NameAt(line))
    ensures var t := TagOf(line);
            line == line[..t.position.start.column] + t.name
                    + (if HasType(t.name) && HasRest(line) then " " + t.tagType else "")
                    + t.description
  {
    if HasRest(line) && HasType(NameAt(line)) {
      TypedTagReassembles(line);
    } else {
      UntypedTagReassembles(line);
    }
  }

  /** An `@param` line holds its variable at the first `$` after the type,
      and its description starts one character after the variable (that
      character, a space when there is one, is skipped). */
  lemma TagOfParamVariable(line: string)
    requires HasRest(line) && HasArgument(NameAt(line)) && DollarAt(line) < |line|
    ensures var t := TagOf(line);
            var dollar := DollarAt(line);
            && dollar + |t.variable| <= |line| && line[dollar..dollar + |t.variable|] == t.variable
            && '$' !in line[TypeEnd(line)..dollar]
            && (dollar + |t.variable| < |line| ==> line[dollar + |t.variable|] == ' ')
            && (dollar + |t.variable| < |line| ==> t.description == line[dollar + |t.variable| + 1..])
            && (dollar + |t.variable| == |line| ==> t.description == "")
  {
    VariableSlice(line);
    NoDollarBefore(line);
  }

  /** `@param` and `@return` are their own trimmed form. */
  lemma TrimTypedNames()
    ensures Trim("@param") == "@param" && Trim("@return") == "@return"
  {
    assert TrimStart("@param") == "@param" && TrimEnd("@param") == "@param";
    assert TrimStart("@return") == "@return" && TrimEnd("@return") == "@return";
  }

  /** A line made of a lead without `@`, a name that starts with `@` and
      holds no space, and a rest that is empty or starts with a space
      yields that name. */
  lemma NameLine(lead: string, name: string, rest: string)
    requires '@' !in lead && name != [] && name[0] == '@' && ' ' !in name
    requires rest == [] || rest[0] == ' '
    ensures var line := lead + (name + rest);
            && HasName(line) && FirstIndexOf(line, '@') == |lead| && NameAt(line) == name
            && NameEnd(line) == |lead| + |name| && line[NameEnd(line)..] == rest
  {
    var line := lead + (name + rest);
    PrefixUntilWord(lead, name + rest, '@');
    assert line[|lead| + 1..] == name[1..] + rest;
    assert ' ' !in name[1..] by {
      forall j | 0 <= j < |name| - 1 ensures name[1..][j] != ' ' {
        assert name[1..][j] == name[j + 1];
      }
    }
    PrefixUntilWord(name[1..], rest, ' ');
    assert [name[0]] + name[1..] == name;
  }

  /** If the name is followed by a space and a word without spaces, that
      word is TypeAt. */
  lemma TypeLine(lead: string, name: string, tagType: string, rest: string)
    requires '@' !in lead && name != [] && name[0] == '@' && ' ' !in name
    requires ' ' !in tagType && (rest == [] || rest[0] == ' ')
    ensures var line := lead + (name + (" " + tagType + rest));
            && HasRest(line) && FirstIndexOf(line, '@') == |lead| && NameAt(line) == name
            && TypeAt(line) == tagType && line[TypeEnd(line)..] == rest
  {
    var line := lead + (name + (" " + tagType + rest));
    NameLine(lead, name, " " + tagType + rest);
    assert line[NameEnd(line) + 1..] == tagType + rest;
    PrefixUntilWord(tagType, rest, ' ');
  }

  /** Round trip for tags without a type: writing a name and a description
      that is empty or starts with a space, and scanning the line, gives
      them back; the description keeps its leading space. */
  lemma UntypedTagLine(lead: string, name: string, description: string)
    requires '@' !in lead && name != [] && name[0] == '@' && ' ' !in name
    requires description == [] || description[0] == ' '
    requires !HasType(name)
    ensures var line := lead + (name + description);
            TagOf(line) == Tag(name, description, "", "", false,
                               Span(Position(0, |lead|, 0), Position(0, |line|, 0)))
  {
    NameLine(lead, name, description);
  }

  /** Round trip for `@return`: the word after the name is the type and
      the rest of the line, from the space after it, the description. */
  lemma ReturnTagLine(lead: string, tagType: string, description: string)
    requires '@' !in lead && ' ' !in tagType && (description == [] || description[0] == ' ')
    ensures var line := lead + ("@return" + (" " + tagType + description));
            TagOf(line) == Tag("@return", description, tagType, "", false,
                               Span(Position(0, |lead|, 0), Position(0, |line|, 0)))
  {
    TypeLine(lead, "@return", tagType, description);
    TrimTypedNames();
  }

  /** A gap without `$` after the type puts DollarAt at its end. */
  lemma DollarLine(line: string, gap: string, tail: string)
    requires HasRest(line) && line[TypeEnd(line)..] == gap + tail
    requires '$' !in gap && tail != [] && tail[0] == '$'
    ensures DollarAt(line) == TypeEnd(line) + |gap| < |line|
  {
    PrefixUntilWord(gap, tail, '$');
  }

  /** A word without spaces after the `$` is the variable. */
  lemma VariableWord(line: string, variable: string, rest: string)
    requires HasRest(line) && DollarAt(line) < |line|
    requires line[DollarAt(line) + 1..] == variable + rest
    requires ' ' !in variable && (rest == [] || rest[0] == ' ')
    ensures VariableAt(line) == "$" + variable
  {
    PrefixUntilWord(variable, rest, ' ');
  }

  /** After the type, a gap that starts with a space and holds no `$`,
      then `$` and a variable without spaces: that variable is VariableAt,
      and the description starts one character after it. */
  lemma VariableLine(lead: string, tagType: string, gap: string, variable: string,
                     description: string)
    requires '@' !in lead && ' ' !in tagType && ' ' !in variable
    requires gap != [] && gap[0] == ' ' && '$' !in gap
    ensures var line := lead + ("@param" + (" " + tagType + (gap + ("$" + variable + (" " + description)))));
            && HasRest(line) && FirstIndexOf(line, '@') == |lead| && NameAt(line) == "@param"
            && TypeAt(line) == tagType && DollarAt(line) < |line| && VariableAt(line) == "$" + variable
            && DollarAt(line) + |VariableAt(line)| + 1 <= |line|
            && line[DollarAt(line) + |VariableAt(line)| + 1..] == description
  {
    var tail := "$" + variable + (" " + description);
    var line := lead + ("@param" + (" " + tagType + (gap + tail)));
    TypeLine(lead, "@param", tagType, gap + tail);
    DollarLine(line, gap, tail);
    var dollar := TypeEnd(line) + |gap|;
    assert line[dollar + 1..] == variable + (" " + description);
    VariableWord(line, variable, " " + description);
  }

  /** Round trip for `@param`: type, then a gap that starts with a space
      and holds no `$`, then `$` and the variable, one separating character
      and the description. */
  lemma ParamTagLine(lead: string, tagType: string, gap: string, variable: string,
                     description: string)
    requires '@' !in lead && ' ' !in tagType && ' ' !in variable
    requires gap != [] && gap[0] == ' ' && '$' !in gap
    ensures var line := lead + ("@param" + (" " + tagType + (gap + ("$" + variable + (" " + description)))));
            TagOf(line) == Tag("@param", description, tagType, "$" + variable, false,
                               Span(Position(0, |lead|, 0), Position(0, |line|, 0)))
  {
    VariableLine(lead, tagType, gap, variable, description);
    TrimTypedNames();
  }

  /** A `@param` line with no `$` after its type keeps the type but gets
      neither variable nor description: the scan never collects a variable,
      so it never reaches the branch that takes the description. */
  lemma ParamWithoutVariableLine(lead: string, tagType: string, rest: string)
    requires '@' !in lead && ' ' !in tagType
    requires (rest == [] || rest[0] == ' ') && '$' !in rest
    ensures var line := lead + ("@param" + (" " + tagType + rest));
            TagOf(line) == Tag("@param", "", tagType, "", false,
                               Span(Position(0, |lead|, 0), Position(0, |line|, 0)))
  {
    var line := lead + ("@param" + (" " + tagType + rest));
    TypeLine(lead, "@param", tagType, rest);
    TrimTypedNames();
    PrefixUntilWord(rest, [], '$');
    assert rest + [] == rest;
  }

  /** A `@param` line whose description holds no `$`: `* @param string Desc`. */
  const ParamNoDollar := "* " + ("@param" + (" " + "string" + " Desc"))

  /** A `@param` line with a `$` in its prose: `* @param string The $x value`. */
  const ParamDollarInProse := "* " + ("@param" + (" " + "string" + (" The " + ("$" + "x" + (" " + "value")))))

  /** A `@param` without a variable loses its description. */
  lemma ParamWithoutDollarExample()
    ensures var t := TagOf(ParamNoDollar);
            t.tagType == "string" && t.variable == "" && t.description == ""
  {
    ParamWithoutVariableLine("* ", "string", " Desc");
  }

  /** The first `$` after the type starts the variable, even inside prose. */
  lemma ParamDollarInProseExample()
    ensures var t := TagOf(ParamDollarInProse);
            t.tagType == "string" && t.variable == "$x" && t.description == "value"
  {
    ParamTagLine("* ", "string", " The ", "x", "value");
  }
}
