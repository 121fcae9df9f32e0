# docblock-parser in Dafny

A model of the docblock parser of `src/index.ts` and proofs about it. The
parser takes a documentation comment in the PHPDoc style (`/** … */`, one
`*` per line, `@tag` lines). It returns a record with three fields:

- a summary;
- a description;
- a list of tags, each with name, type, `$variable`, description, a
  multi-line flag, and start and end positions (line, column and absolute
  offset).

## Modules

- `text.dfy` (`Text`): string helpers the parser uses.
  - ECMAScript whitespace (`\s`) and `String.prototype.trim`.
  - `consumeUntil`, as the method `ConsumeUntil` with its loop, proved equal
    to the function `PrefixUntil`.
  - The split of the comment on `/\r?\n/` (`SplitLines`), and its inverse
    `JoinLines` for lines free of line breaks; lines joined by `\r\n`
    split back as well (`JoinCrlfLines`). For any mix of line ends, split
    and join remove just the `\r` of each `\r\n` (`JoinSplitAnyLines`).
- `classify.dfy` (`LineClassifier`): `isEmptyLine` and `isTagLine`, written
  as greedy scans. Each is proved to decide exactly the language of its
  regular expression. Also `hasArgument` and `hasType`.
- `offsets.dfy` (`Offsets`): `getOffsetFromLineAndColumn`, as a method with
  its loop, proved against the function `Offset`. The offset is shown to be
  the index of that (line, column) in the lines joined by line feeds.
- `tagscanner.dfy` (`TagScanner`): `parseTagLine`, as a method with the
  source's three flags, its collector and its cursor, proved equal to the
  reference definition `TagOf`.
  - The loop invariant `Collecting` tracks the scan through four phases:
    before the name, before the type, before the variable, before the
    description.
  - Lemmas about `TagOf`: reassembly of the line from the tag's parts, and
    round trips from written tag lines back to their parts.
- `docparser.dfy` (`DocParser`): `getMultiLineDesc` and `parser`.
  - Both are methods with their loops, proved against the functions
    `Continuation` and `ParseFrom`/`DocblockOf`.
  - The lemmas characterize the result:
    - the summary is the text before the first empty line;
    - the description is the text after it, up to the first tag;
    - the tags are the entries of the lines where tags start
      (`TagStarts`), in order and without overlap, and from the first tag
      on every line that is not empty belongs to exactly one of them;
    - each named tag's start offset points at its `@`; its end offset is
      at the line feed after its last line, or at the end of the text.
- `sample.dfy` (`Sample`): the comment that `src/index.ts` parses (its
  `docblock` constant, lines 2-15), built from its lines, and what `parser`
  yields for it.

`parser` in the source takes no argument and reads the module constant. The
model takes the text as a parameter (`Parse(text)`, `DocblockOf(text)`).
`Sample.SampleText` is the constant itself.

The methods `MultiLineDescription` and `LocateTag` take the line kinds as a
ghost parameter. They require that the kinds classify the lines
(`Classified`). They call `isEmptyLine` and `isTagLine` on the lines, as the
source does. The kinds only connect the loop to its specification.

### Behaviour of the code that the model keeps

- **The opening line is empty.** The opening `/**` and the closing `*/`
  match the empty-line pattern, so the summary ends at the first line. For
  the source's own sample the summary is `""`, and the description is the
  two text lines run together: `"* Summary.* Description."`
  (`Sample.SampleDocblock`).
- **No separator in summary and description.** Lines are appended without
  a separator. `hasMetDescription` is a constant `false`, so every untagged
  line after the first empty line goes to the description, up to the first
  tag.
- **Every tagged line becomes a tag.** Once a tag is met, every non-empty
  line becomes a tag of its own, even a line without `@` (`TagOf` then
  gives empty name, type and variable). The exception is a line that
  continues the tag before it. The sample yields six tags: `@since`, four
  `@param`, and `@return`.
- **The `{` branch never runs.** The branch for JavaScript types
  (`src/index.ts:116-124`) is unreachable (`TagScanner.TypeDueOnSpace`).
  After the name, the cursor rests on the space that ends it, so the
  PHP-type branch fires first. A braced type is therefore read as a word:
  `{number}` stays `{number}`, and `{Array<string> | null}` is cut at its
  first space. The model proves this branch unreachable and does not model
  its statements.
- **Most tag descriptions keep their leading space.** For `@param` the
  description starts one character after the variable, which skips the
  separating space. For every other tag it starts at the space after the
  name or the type, and keeps it: `@since x.x.x` gives `" x.x.x"`.
  Continuation lines are appended after a line feed.
- **A `@param` without `$` loses its description.** The description is
  taken only once the variable was collected. A `@param` line with no `$`
  after its type keeps the type, but its variable and description are
  empty: `* @param string Desc` gives no description
  (`TagScanner.ParamWithoutVariableLine`).
- **The variable is the first `$` word after the type.** It is searched
  anywhere after the type, prose included: `* @param string The $x value`
  gives variable `$x` and description `value`
  (`TagScanner.ParamDollarInProseExample`).
- **End column and end offset disagree.** The end column is the length of
  the tag's own line. The end line and the end offset follow the last
  continuation line.
- **Offsets count one character per line break.** They assume line feeds
  even where the text had `\r\n`.

## Model

| member | source | states |
|---|---|---|
| Text.SkipWhitespace | src/index.ts:17 | the index after the run of ECMAScript whitespace (`\s`) at `from`: every skipped character is whitespace and the next is not |
| Text.TrimSpec | src/index.ts:41-47 | `trim()` yields the slice between the leading and the trailing whitespace, and begins and ends with non-whitespace |
| Text.PrefixUntil | src/index.ts:49-60 | what `consumeUntil` yields, as a recursive definition; it is never longer than the line, and `PrefixUntilSpec`/`PrefixUntilUnique` prove it is the longest prefix without the stop character |
| Text.PrefixUntilSpec | src/index.ts:49-60 | what `consumeUntil` yields is a prefix of the line without the stop character, followed in the line by the stop character unless it is the whole line |
| Text.PrefixUntilUnique | src/index.ts:49-60 | any prefix with those three properties is what `consumeUntil` yields |
| Text.PrefixUntilWord | src/index.ts:49-60 | a word without the stop character, followed by the stop character or nothing, is consumed exactly |
| Text.ConsumeUntil | src/index.ts:49-60 | the loop collects exactly `PrefixUntil(line, stop)` |
| Text.FirstIndexOfSpec | src/index.ts:104 | the index of the first `@` of a line (the first one the scan meets); it equals the length exactly when there is none |
| Text.DropCarriageReturn | src/index.ts:185 | `\r?` drops exactly one trailing carriage return: the piece shrinks, by one character at its end, if and only if it ends in `\r` |
| Text.SplitLines | src/index.ts:185 | `split(/\r?\n/)` yields at least one piece, and no piece holds a line feed |
| Text.JoinLines | src/index.ts:239 | `join('\n')`: the lines with a line feed between neighbours; `SplitJoinLines` proves `split` undoes it, and `Offsets.JoinLinesLength` gives its length |
| Text.JoinSplitLines | src/index.ts:185 | a text without carriage returns is its split lines joined by line feeds |
| Text.SplitJoinLines | src/index.ts:185 | lines without line breaks, joined by line feeds, split back into the same lines |
| Text.SplitCrlfLines | src/index.ts:185 | lines without line feeds, joined by `\r\n`, split back into the same lines: the `\r` before each line feed is dropped |
| Text.DropCrBeforeLf | src/index.ts:185 | the text with every carriage return that comes right before a line feed removed; shorter or as long as the text |
| Text.JoinSplitAnyLines | src/index.ts:185 | for every text, its split lines joined by line feeds are the text without the `\r` of each `\r\n`, whatever mix of line ends it uses |
| LineClassifier.IsEmptyLine | src/index.ts:26-28 | `isEmptyLine` as a greedy scan of the line; an empty line holds a `*`, and `EmptyLineMeansPattern` proves the scan accepts exactly the lines the regular expression matches |
| LineClassifier.IsTagLine | src/index.ts:37-39 | `isTagLine` as a scan of the line; a tag line holds a `*` and an `@`, and `TagLineMeansPattern` proves the scan accepts exactly the lines `TAG_PATTERN` matches |
| LineClassifier.EmptyLineSplitIsGreedy | src/index.ts:26-28 | any split of a line into whitespace, slashes, one or more asterisks, slashes and whitespace makes the greedy scan accept it |
| LineClassifier.EmptyLineMeansPattern | src/index.ts:26-28 | `isEmptyLine` holds exactly for the lines in the language of `/^\s*\/*\*+\/*\s*$/` |
| LineClassifier.TagLineMeansPattern | src/index.ts:17-39 | `isTagLine` holds exactly for the lines in the language of `/^\s*\*\s*@\S+/` |
| LineClassifier.EmptyLineIsNotTagLine | src/index.ts:17-39 | no line is both empty and a tag line |
| LineClassifier.HasArgument | src/index.ts:41-43 | `hasArgument` holds for a name that trims to `@param`; every such name also takes a type |
| LineClassifier.HasType | src/index.ts:45-47 | `hasType` holds for a name that trims to `@param` or `@return`; such a name, trimmed, starts with `@` |
| LineClassifier.TagNameClasses | src/index.ts:41-47 | `hasArgument` holds only for `@param` and `hasType` only for `@param` and `@return`, whatever whitespace surrounds the name; every name with an argument has a type |
| Offsets.Offset | src/index.ts:62-74 | the offset of (line, column): the lengths of the lines before it, plus one per line break, plus the column; it is at least line plus column, and on line 0 it is the column |
| Offsets.OffsetFromLineAndColumn | src/index.ts:62-74 | the loop yields the lengths of the lines before `lineIndex`, plus `lineIndex` line feeds, plus the column |
| Offsets.OffsetNextLine | src/index.ts:62-74 | column `c` of line 0 is offset `c`; moving to the next line adds the previous line's length and one line feed |
| Offsets.JoinLinesLength | src/index.ts:72-73 | the lines joined by line feeds are as long as their lengths plus one per line break |
| Offsets.OffsetLocates | src/index.ts:62-74 | the offset of (line, column) is the index of that character in the joined text, or of the line feed after the line at its end |
| Offsets.OffsetAtEnd | src/index.ts:62-74 | the end of the last line is the end of the joined text |
| Offsets.OffsetExample | src/index.ts:62-74 | in the lines `ab`, `cde`, `f`, column 0 of line 2 is offset 7 |
| TagScanner.TagOf | src/index.ts:76-164 | the tag the scan of one line yields, as a function of the line; its start column lies within the line, its end column is the line's length, it sits on line 0 and is not multi-line; the lemmas below give its parts |
| TagScanner.NameEnd | src/index.ts:104-108 | the name ends after the first `@` and within the line |
| TagScanner.NameStep | src/index.ts:104-108 | the first `@` the scan meets is the line's first `@`, and the name collected there is `NameAt` |
| TagScanner.VariableStep | src/index.ts:136-140 | the first `$` after the type is the one at `DollarAt`, and the variable collected there is `VariableAt` |
| TagScanner.TypeDueOnSpace | src/index.ts:114-134 | while a type is due, the cursor rests on a space, so the `{` branch is never taken |
| TagScanner.CollectName | src/index.ts:104-112 | the `@` branch collects the name, records its column and moves the cursor past the name |
| TagScanner.CollectType | src/index.ts:126-133 | the PHP-type branch collects the word after the space and moves the cursor to the character after it |
| TagScanner.CollectVariable | src/index.ts:136-143 | the variable branch collects `$` and the word after it and moves the cursor past the character that follows |
| TagScanner.SkipCharacter | src/index.ts:145-157 | any other character sets the flags of tags without type or argument and is passed over while a flag is still unset |
| TagScanner.Describe | src/index.ts:157-160 | once all three flags are set, the rest of the line from the cursor is the description, and the collector is `TagOf(line)` |
| TagScanner.RunOff | src/index.ts:101-163 | if the loop reaches the end of the line, the collector is `TagOf(line)` |
| TagScanner.ParseTagLine | src/index.ts:76-164 | the scan yields `TagOf(line)` |
| TagScanner.NameSlice | src/index.ts:104-108 | the name is the slice of the line from the first `@`; it starts with `@` and holds no space |
| TagScanner.TypeSlice | src/index.ts:126-130 | the type is the slice after the space that ends the name, and holds no space |
| TagScanner.VariableShape | src/index.ts:137-139 | a variable starts with `$` and holds no space |
| TagScanner.VariableSlice | src/index.ts:137-140 | the variable is the slice of the line from its `$` up to the next space |
| TagScanner.NoDollarBefore | src/index.ts:137 | no `$` lies between the type and the variable |
| TagScanner.HasNameIff | src/index.ts:104 | a name is collected exactly when the line holds an `@` |
| TagScanner.NameShape | src/index.ts:104-108 | the name is the first `@` and the non-space characters after it, ended by a space or the end of the line |
| TagScanner.TagOfName | src/index.ts:76-112 | the positions of the scanned tag: start column at the name's `@`, end column the line's length; without `@` the tag is all empty |
| TagScanner.TagOfParts | src/index.ts:114-143 | a type appears only on `@param`/`@return` and holds no space; a variable appears only on `@param`, starts with `$` and holds no space |
| TagScanner.TagOfDescription | src/index.ts:157-159 | the description is a suffix of the line |
| TagScanner.ReturnReassembles | src/index.ts:114-133 | a line whose name takes a type but no argument, with text after the name, is the text before the name, the name, a space, the type and the rest |
| TagScanner.UntypedReassembles | src/index.ts:104-112 | a line that holds an `@` is the text before the name, the name and the rest |
| TagScanner.TypedTagReassembles | src/index.ts:114-159 | a named tag that takes a type but no argument, with text after its name: the line is the text before it, the name, a space, the type and the description |
| TagScanner.UntypedTagReassembles | src/index.ts:104-159 | a named tag that takes no type, or whose name ends the line: the line is the text before it, the name and the description |
| TagScanner.TagOfReassembles | src/index.ts:104-159 | every named tag (its line holds an `@`) without argument reassembles into its line |
| TagScanner.TagOfParamVariable | src/index.ts:136-159 | the variable of a `@param` is the slice at its `$`, no `$` precedes it after the type, and the description starts one character after it, or is empty when the variable ends the line |
| TagScanner.NameLine | src/index.ts:104-108 | writing a name after text without `@` makes it the scanned name |
| TagScanner.TypeLine | src/index.ts:126-130 | writing a name, a space and a word makes the word the scanned type |
| TagScanner.DollarLine | src/index.ts:137 | a gap without `$` after the type puts the variable's `$` at its end |
| TagScanner.VariableWord | src/index.ts:137-140 | a word without spaces after the `$` is the variable |
| TagScanner.VariableLine | src/index.ts:136-143 | writing a `@param` line gives back its type and variable, and places the description after them |
| TagScanner.UntypedTagLine | src/index.ts:104-159 | round trip: writing a tag without a type and scanning the line gives back its name and description |
| TagScanner.ReturnTagLine | src/index.ts:114-159 | round trip for `@return`: type and description come back |
| TagScanner.ParamTagLine | src/index.ts:104-159 | round trip for `@param`: type, `$variable` and description come back |
| TagScanner.ParamWithoutVariableLine | src/index.ts:136-161 | a `@param` line with no `$` after its type keeps its type but gets an empty variable and an empty description |
| TagScanner.ParamWithoutDollarExample | src/index.ts:136-161 | `* @param string Desc` gives type `string`, no variable and no description |
| TagScanner.ParamDollarInProseExample | src/index.ts:136-159 | `* @param string The $x value` takes `$x` out of the prose as its variable, with description `value` |
| DocParser.KindOf | src/index.ts:199-204 | a line is empty exactly when `isEmptyLine` holds, and tagged exactly when `isTagLine` holds |
| DocParser.Continuation | src/index.ts:166-182 | the lines `getMultiLineDesc` collects from `from`: the run of lines that are neither empty nor tag lines, which stays within the lines |
| DocParser.ContinuationSlice | src/index.ts:166-182 | the continuation of a tag is the slice of the lines after it |
| DocParser.ContinuationPlain | src/index.ts:171-178 | every line of a continuation is neither empty nor a tag line |
| DocParser.ContinuationStop | src/index.ts:171-177 | the line after a continuation, if any, is empty or a tag line |
| DocParser.ContinuationEnd | src/index.ts:166-182 | a continuation runs exactly to the next line that is empty or a tag line |
| DocParser.ContinuationLast | src/index.ts:241 | the last continuation line is the line at the continuation's end |
| DocParser.MultiLineDescription | src/index.ts:166-182 | the loop collects exactly the continuation from `index` |
| DocParser.NextIndex | src/index.ts:236-242 | the loop moves past the tag line and its continuation, and stays within the lines |
| DocParser.TagEntry | src/index.ts:218-251 | the tag `parser` records for the tagged line `i`: it starts on line `i` and ends on a later or the same line within the text, and is multi-line exactly when it ends on a later line |
| DocParser.TagEntryLines | src/index.ts:228-251 | a tag starts at its line and ends at its continuation's last line; it is multi-line exactly when it spans more than one line |
| DocParser.TagEntryFields | src/index.ts:220-251 | name, type, variable and start column are those of the scanned line; the end column is the length of the tag's own line |
| DocParser.TagEntryDescription | src/index.ts:236-243 | the description is the scanned one, followed for a multi-line tag by a line feed and the continuation joined by line feeds |
| DocParser.TagEntryAtSign | src/index.ts:228-234 | the start offset of a named tag is the index of its `@` in the joined lines |
| DocParser.TagEntryEnd | src/index.ts:245-251 | the end offset is at the line feed after the tag's last line, or at the end of the text |
| DocParser.LocateTag | src/index.ts:218-256 | the tagged-line branch yields `TagEntry` of the line |
| DocParser.StepLine | src/index.ts:197-257 | every pass of the loop moves forward, stays within the lines, and adds at most one tag per line it moves past |
| DocParser.ParseFrom | src/index.ts:197-259 | `parser`'s loop from a given state on: it only adds tags, at most one per remaining line |
| DocParser.DocblockOf | src/index.ts:184-260 | the docblock `parser` yields for a text: its lines parsed from the start, with at most one tag per line |
| DocParser.DocblockOfLines | src/index.ts:185 | lines without line breaks, joined and parsed, are parsed as those lines |
| DocParser.DocblockOfCrlfLines | src/index.ts:185 | lines joined by `\r\n` are parsed as those lines, and, when no line holds a carriage return, give the same docblock as the lines joined by line feeds |
| DocParser.TagStarts | src/index.ts:197-257 | the lines where tags start lie within the scanned range |
| DocParser.StepTagStarts | src/index.ts:197-257 | a pass either adds the tag of the line where a tag starts and moves to the next start, or changes neither |
| DocParser.ParseFromTagStarts | src/index.ts:197-257 | the tags `parser` collects are the entries of the lines where tags start, in order |
| DocParser.DocblockTagsPlaced | src/index.ts:197-257 | every tag is the entry of its start line; tags are in line order, and each starts after the previous one ends |
| DocParser.ParseFromCovered | src/index.ts:197-257 | from any state where the tags read so far cover the non-empty lines from the first tag on, the rest of the loop keeps them covered up to the last line |
| DocParser.DocblockTagsCover | src/index.ts:197-257 | from the first tag's line on, every line that is not empty belongs to exactly one tag |
| DocParser.ParseFromExtends | src/index.ts:256 | tags are only ever appended |
| DocParser.FirstTagAtFirstTagLine | src/index.ts:204-219 | there are tags exactly when some line is a tag line; the first tag is the entry of the first tag line |
| DocParser.AfterTagsKeepText | src/index.ts:199-216 | after the first empty line the summary no longer changes; after the first tag, neither does the description |
| DocParser.ParseFromSummary | src/index.ts:206-209 | the summary is the untagged text up to the first empty line |
| DocParser.SummaryIsLeadingText | src/index.ts:199-209 | the same, for the comment text |
| DocParser.OpeningLineEndsSummary | src/index.ts:199-202 | a comment whose first line is empty has an empty summary |
| DocParser.ParseFromBody | src/index.ts:211-216 | after the first empty line, the description is the untagged text up to the first tagged line |
| DocParser.ParseFromDescription | src/index.ts:199-216 | the description is the text after the first empty line, if it comes before any tagged line, up to the first tagged line |
| DocParser.DescriptionIsBodyText | src/index.ts:199-216 | the same, for the comment text |
| DocParser.ParseFromBeforeTags | src/index.ts:197-216 | summary and description depend only on the lines before the first tag line |
| DocParser.TextBeforeTags | src/index.ts:197-216 | the same, for the comment text |
| DocParser.TagOffsetsInText | src/index.ts:228-234 | in a text without carriage returns, every named tag's start offset is the index of an `@` in the text |
| DocParser.Parse | src/index.ts:184-260 | the loop of `parser` yields `DocblockOf(text)` |
| Sample.StarredKind | src/index.ts:17-39 | a line of `* ` followed by `@` and a non-whitespace character is a tag line; a line of `* ` followed by a character that is not whitespace, `*`, `/` or `@` is plain |
| Sample.DecorationKinds | src/index.ts:26-28 | `/**`, `*` and `*/` are empty lines |
| Sample.SampleKinds | src/index.ts:2-15 | the sample's lines are, in order: empty, plain, empty, plain, empty, tag, empty, five tags, plain, empty |
| Sample.SampleTagStarts | src/index.ts:2-15 | the sample's tags start at lines 5, 7, 8, 9, 10 and 11 |
| Sample.SampleKindsSummary | src/index.ts:199-209 | with the sample's line kinds the summary is empty |
| Sample.SampleKindsDescription | src/index.ts:199-216 | with the sample's line kinds the description is line 1 followed by line 3 |
| Sample.SampleKindsTags | src/index.ts:197-257 | with the sample's line kinds there are six tags, the entries of the tag lines |
| Sample.SampleParse | src/index.ts:2-15 | the sample text is read as the sample's lines |
| Sample.SampleDocblock | src/index.ts:184-260 | on the sample: summary `""`, description `* Summary.* Description.`, six tags |
| Sample.SampleKindsSince | src/index.ts:7 | a `@since x.x.x` line gives name `@since`, description ` x.x.x`, no type or variable, on one line |
| Sample.SampleSince | src/index.ts:7 | the sample's first tag is that `@since` at line 5, column 2 |
| Sample.OneLineEntry | src/index.ts:236-251 | a tag line followed by no continuation keeps its scanned fields and is single-line |
| Sample.TwoLineEntry | src/index.ts:236-251 | a tag line followed by one continuation line gets that line after a line feed and spans the two lines, while its end column stays its own line's length |
| Sample.SampleKindsReturn | src/index.ts:13-14 | the `@return` line and the line after it give type `Response` and a two-line description |
| Sample.SampleReturn | src/index.ts:13-14 | the sample's last tag is that multi-line `@return`, from line 11 to 12, with end column the length of line 11 |
| Sample.SampleKindsParam | src/index.ts:9-12 | each `@param` line of the sample gives back its type, variable and description |
| Sample.SampleFirstParams | src/index.ts:9-10 | the sample's second and third tags: `boolean $isItTrue`, `array $args` |
| Sample.SampleLastParams | src/index.ts:11-12 | the sample's fourth and fifth tags: `string $var` (after two spaces) and `{number} $var` |

## Left out

- `console.log(parsedTag)` (`src/index.ts:253`) writes to the console. The
  model does no output.
- `parser` reads the module constant `docblock`. The model passes the text
  as a parameter instead. The constant is `Sample.SampleText`.
- Characters are Dafny `char`s, one per string position. JavaScript counts
  `length` and indexes in UTF-16 code units, while the `for … of` loop of
  `consumeUntil` walks code points. Text with characters outside the Basic
  Multilingual Plane is not modelled.
- The regular expressions are modelled by the scans `IsEmptyLine` and
  `IsTagLine`, proved equal to the patterns' languages; no regular-expression
  engine is modelled. `\s` is ECMAScript's whitespace set: tab, line feed,
  vertical tab, form feed, carriage return, space, the Unicode space
  separators, the line and paragraph separators and the byte order mark
  (`Text.IsWhitespace`).
- TagScanner.ParseTagLine: the statements of the `{` branch
  (`src/index.ts:116-124`) are not modelled, because that branch is proved
  unreachable.
- Offsets.OffsetFromLineAndColumn requires `lineIndex` to be at most the
  number of lines. Beyond that the source reads past the array and fails;
  `parser` never passes such an index.
