/** Character- and string-level helpers of the docblock parser: the
    whitespace class of its regular expressions, trimming, the prefix scan
    `consumeUntil`, and splitting the comment text into lines. */
module Text {

  /** The characters that `\s` matches in a Unicode-mode ECMAScript regular
      expression; `String.prototype.trim` strips exactly the same set. */
  predicate IsWhitespace(c: char) {
    if c <= ' ' then c == ' ' || '\t' <= c <= '\r'
    else '\U{00A0}' <= c && IsWideWhitespace(c)
  }

  /** The characters of `\s` above the ASCII range. */
  predicate IsWideWhitespace(c: char) {
    c == '\U{00A0}' || c == '\U{1680}' || ('\U{2000}' <= c <= '\U{200A}')
    || c == '\U{2028}' || c == '\U{2029}' || c == '\U{202F}' || c == '\U{205F}'
    || c == '\U{3000}' || c == '\U{FEFF}'
  }

  /** The end of the run of whitespace that starts at `from`. */
  function SkipWhitespace(s: string, from: nat): (to: nat)
    requires from <= |s|
    ensures from <= to <= |s|
    ensures forall k :: from <= k < to ==> IsWhitespace(s[k])
    ensures to == |s| || !IsWhitespace(s[to])
    decreases |s| - from
  {
    if from == |s| || !IsWhitespace(s[from]) then from else SkipWhitespace(s, from + 1)
  }

  /** The end of the run of `c` characters that starts at `from`. */
  function SkipChar(s: string, from: nat, c: char): (to: nat)
    requires from <= |s|
    ensures from <= to <= |s|
    ensures forall k :: from <= k < to ==> s[k] == c
    ensures to == |s| || s[to] != c
    decreases |s| - from
  {
    if from == |s| || s[from] != c then from else SkipChar(s, from + 1, c)
  }

  /** `s` without its leading whitespace. */
  function TrimStart(s: string): string {
    if s != [] && IsWhitespace(s[0]) then TrimStart(s[1..]) else s
  }

  /** `s` without its trailing whitespace. */
  function TrimEnd(s: string): string {
    if s != [] && IsWhitespace(s[|s| - 1]) then TrimEnd(s[..|s| - 1]) else s
  }

  /** `String.prototype.trim`: `s` without leading and trailing whitespace.
      TrimSpec states what that slice is. */
  function Trim(s: string): string {
    TrimEnd(TrimStart(s))
  }

  lemma {:induction false} TrimStartSpec(s: string, from: nat)
    requires from <= |s|
    ensures TrimStart(s[from..]) == s[SkipWhitespace(s, from)..]
    decreases |s| - from
  {
    if from < |s| && IsWhitespace(s[from]) {
      assert s[from..][1..] == s[from + 1..];
      TrimStartSpec(s, from + 1);
    }
  }

  lemma {:induction false} TrimEndSpec(s: string)
    ensures var r := TrimEnd(s);
            && |r| <= |s| && r == s[..|r|]
            && (r == [] || !IsWhitespace(r[|r| - 1]))
            && forall k :: |r| <= k < |s| ==> IsWhitespace(s[k])
  {
    if s != [] && IsWhitespace(s[|s| - 1]) {
      TrimEndSpec(s[..|s| - 1]);
    }
  }

  /** Trim gives the slice of `s` that starts and ends with a
      non-whitespace character and has only whitespace outside it. */
  lemma TrimSpec(s: string)
    ensures var i := SkipWhitespace(s, 0);
            var r := Trim(s);
            && i + |r| <= |s| && r == s[i..i + |r|]
            && (forall k :: i + |r| <= k < |s| ==> IsWhitespace(s[k]))
            && (r == [] || (!IsWhitespace(r[0]) && !IsWhitespace(r[|r| - 1])))
  {
    var i := SkipWhitespace(s, 0);
    assert s[0..] == s;
    TrimStartSpec(s, 0);
    TrimEndSpec(s[i..]);
    var r := Trim(s);
    assert r == s[i..i + |r|];
    forall k | i + |r| <= k < |s| ensures IsWhitespace(s[k]) {
      assert s[k] == s[i..][k - i];
    }
  }

  /** `consumeUntil` as a function: the characters of `s` before the first
      `c`. PrefixUntilSpec states what that prefix is. */
  function PrefixUntil(s: string, c: char): (r: string)
    ensures |r| <= |s|
  {
    if s == [] || s[0] == c then [] else [s[0]] + PrefixUntil(s[1..], c)
  }

  /** PrefixUntil gives the longest prefix of `s` that holds no `c`: the
      character after it, if any, is `c`. */
  lemma {:induction false} PrefixUntilSpec(s: string, c: char)
    ensures var r := PrefixUntil(s, c);
            && r == s[..|r|]
            && c !in r
            && (|r| < |s| ==> s[|r|] == c)
  {
    if s != [] && s[0] != c {
      PrefixUntilSpec(s[1..], c);
    }
  }

  /** The prefix taken from `from` on is the slice of `s` that starts at
      `from`. */
  lemma PrefixUntilSlice(s: string, from: nat, c: char)
    requires from <= |s|
    ensures var r := PrefixUntil(s[from..], c);
            && from + |r| <= |s| && s[from..from + |r|] == r
            && (from + |r| < |s| ==> s[from + |r|] == c)
  {
    var r := PrefixUntil(s[from..], c);
    PrefixUntilSpec(s[from..], c);
    assert s[from..][..|r|] == s[from..from + |r|];
    assert from + |r| < |s| ==> s[from..][|r|] == s[from + |r|];
  }

  /** A proof step: the part of PrefixUntilSpec that says the prefix holds
      no `c`, kept apart so that callers see only this fact. */
  lemma PrefixUntilAvoids(s: string, c: char)
    ensures c !in PrefixUntil(s, c)
  {
    PrefixUntilSpec(s, c);
  }

  /** A proof step: the part of PrefixUntilSpec that says the character
      that stops PrefixUntil, if any, is `c`. */
  lemma PrefixUntilStop(s: string, c: char)
    ensures |PrefixUntil(s, c)| < |s| ==> s[|PrefixUntil(s, c)|] == c
  {
    PrefixUntilSpec(s, c);
  }

  /** The three facts of PrefixUntilSpec determine the prefix. */
  lemma PrefixUntilUnique(s: string, c: char, p: string)
    requires |p| <= |s| && p == s[..|p|]
    requires c !in p
    requires |p| < |s| ==> s[|p|] == c
    ensures p == PrefixUntil(s, c)
  {
    PrefixUntilSpec(s, c);
  }

  /** A word free of `c`, followed by `c` or by nothing, is what
      PrefixUntil takes. */
  lemma PrefixUntilWord(word: string, rest: string, c: char)
    requires c !in word && (rest == [] || rest[0] == c)
    ensures PrefixUntil(word + rest, c) == word
  {
    assert (word + rest)[..|word|] == word;
    PrefixUntilUnique(word + rest, c, word);
  }

  /** Index of the first `c` in `s`, or `|s|` when there is none.
      FirstIndexOfSpec states that this is so. */
  function FirstIndexOf(s: string, c: char): (k: nat)
    ensures k <= |s|
  {
    |PrefixUntil(s, c)|
  }

  lemma FirstIndexOfSpec(s: string, c: char)
    ensures var k := FirstIndexOf(s, c);
            && (forall j :: 0 <= j < k ==> s[j] != c)
            && (k < |s| ==> s[k] == c)
            && (k == |s| <==> c !in s)
  {
    var p := PrefixUntil(s, c);
    PrefixUntilSpec(s, c);
    assert forall j :: 0 <= j < |p| ==> s[j] == p[j];
  }

  /** A proof step: the part of FirstIndexOfSpec that says an index below
      `|s|` is an occurrence of `c`. */
  lemma FirstIndexOfHit(s: string, c: char)
    ensures FirstIndexOf(s, c) < |s| ==> s[FirstIndexOf(s, c)] == c
  {
    PrefixUntilStop(s, c);
  }

  /** Every index before the first `c` holds another character. */
  lemma FirstIndexOfBefore(s: string, c: char, j: nat)
    requires j < FirstIndexOf(s, c)
    ensures s[j] != c
  {
    FirstIndexOfSpec(s, c);
  }

  /** `consumeUntil(line, char)`: collects the characters of `line` up to
      the first `stop`. */
  method ConsumeUntil(line: string, stop: char) returns (consumed: string)
    ensures consumed == PrefixUntil(line, stop)
  {
    consumed := "";
    var index := 0;
    while index < |line|
      invariant index <= |line|
      invariant consumed == line[..index]
      invariant stop !in consumed
    {
      if line[index] == stop {
        break;
      }
      consumed := consumed + [line[index]];
      index := index + 1;
    }
    PrefixUntilUnique(line, stop, consumed);
  }

  /** One line of `split(/\r?\n/)`: a CR directly before the LF is dropped. */
  function DropCarriageReturn(piece: string): (r: string)
    ensures |piece| - 1 <= |r| <= |piece| && r == piece[..|r|]
    ensures |r| < |piece| <==> (piece != [] && piece[|piece| - 1] == '\r')
  {
    if piece != [] && piece[|piece| - 1] == '\r' then piece[..|piece| - 1] else piece
  }

  /** `text.split(/\r?\n/)`: the pieces between line feeds, each without the
      carriage return that ended it; the last piece keeps a trailing CR,
      because no LF follows it. */
  function SplitLines(text: string): (lines: seq<string>)
    ensures |lines| >= 1
    ensures forall k :: 0 <= k < |lines| ==> '\n' !in lines[k]
    decreases |text|
  {
    FirstIndexOfSpec(text, '\n');
    var k := FirstIndexOf(text, '\n');
    if k == |text| then [text]
    else
      var first := DropCarriageReturn(text[..k]);
      assert forall j :: 0 <= j < |first| ==> first[j] == text[j];
      [first] + SplitLines(text[k + 1..])
  }

  /** `lines.join('\n')`. */
  function JoinLines(lines: seq<string>): (r: string)
  {
    if lines == [] then ""
    else if |lines| == 1 then lines[0]
    else lines[0] + "\n" + JoinLines(lines[1..])
  }

  /** Splitting a text without carriage returns and joining the lines again
      gives back the text. */
  lemma {:induction false} JoinSplitLines(text: string)
    requires '\r' !in text
    ensures JoinLines(SplitLines(text)) == text
    decreases |text|
  {
    var k := FirstIndexOf(text, '\n');
    FirstIndexOfSpec(text, '\n');
    if k < |text| {
      var head, rest := text[..k], text[k + 1..];
      assert '\r' !in rest by {
        forall j | 0 <= j < |rest| ensures rest[j] != '\r' {
          assert rest[j] == text[k + 1 + j];
        }
      }
      assert DropCarriageReturn(head) == head by {
        assert k > 0 ==> head[k - 1] == text[k - 1];
      }
      var tail := SplitLines(rest);
      assert SplitLines(text) == [head] + tail;
      JoinSplitLines(rest);
      assert ([head] + tail)[1..] == tail;
      assert JoinLines([head] + tail) == head + "\n" + JoinLines(tail);
      assert text == head + "\n" + rest;
    }
  }

  /** The text with every carriage return that comes right before a line
      feed removed: what `/\r?\n/` takes as part of a line break. */
  function DropCrBeforeLf(s: string): (r: string)
    ensures |r| <= |s|
    decreases |s|
  {
    if s == [] then []
    else if |s| >= 2 && s[0] == '\r' && s[1] == '\n' then DropCrBeforeLf(s[1..])
    else [s[0]] + DropCrBeforeLf(s[1..])
  }

  /** Without line feeds nothing is removed. */
  lemma {:induction false} DropCrBeforeLfKeeps(s: string)
    requires '\n' !in s
    ensures DropCrBeforeLf(s) == s
    decreases |s|
  {
    if s != [] {
      assert |s| >= 2 ==> s[1] != '\n';
      DropCrBeforeLfKeeps(s[1..]);
      assert [s[0]] + s[1..] == s;
    }
  }

  /** Dropping the carriage return that ends a line of two or more
      characters, or of one that is not `\r`, keeps its first character. */
  lemma DropCarriageReturnCons(s: string)
    requires s != [] && s != "\r"
    ensures DropCarriageReturn(s) == [s[0]] + DropCarriageReturn(s[1..])
  {
    if s[|s| - 1] == '\r' {
      assert s[1..][..|s| - 2] == s[1..|s| - 1];
      assert [s[0]] + s[1..|s| - 1] == s[..|s| - 1];
    } else {
      assert [s[0]] + s[1..] == s;
    }
  }

  /** One step of DropCrBeforeLf on a character that does not start
      `\r\n`: the character is kept. */
  lemma DropCrBeforeLfCons(c: char, t: string)
    requires c != '\r' || t == [] || t[0] != '\n'
    ensures DropCrBeforeLf([c] + t) == [c] + DropCrBeforeLf(t)
  {
    assert ([c] + t)[1..] == t;
  }

  /** One step of DropCrBeforeLf on `\r\n`: the carriage return goes. */
  lemma DropCrBeforeLfCrLf(t: string)
    ensures DropCrBeforeLf("\r" + ("\n" + t)) == "\n" + DropCrBeforeLf(t)
  {
    assert ("\r" + ("\n" + t))[1..] == "\n" + t;
    DropCrBeforeLfCons('\n', t);
    assert "\n" + t == ['\n'] + t;
  }

  /** Before the first line feed, only a carriage return that ends the
      line is removed. */
  lemma {:induction false} DropCrBeforeLfLine(s: string, rest: string)
    requires '\n' !in s
    ensures DropCrBeforeLf(s + ("\n" + rest)) == DropCarriageReturn(s) + ("\n" + DropCrBeforeLf(rest))
    decreases |s|
  {
    if s == [] {
      assert s + ("\n" + rest) == ['\n'] + rest;
      DropCrBeforeLfCons('\n', rest);
    } else if s == "\r" {
      DropCrBeforeLfCrLf(rest);
    } else {
      var t := s[1..] + ("\n" + rest);
      assert s + ("\n" + rest) == [s[0]] + t;
      assert |s| == 1 ==> s[0] != '\r';
      assert |s| >= 2 ==> t[0] == s[1];
      DropCrBeforeLfCons(s[0], t);
      DropCrBeforeLfLine(s[1..], rest);
      DropCarriageReturnCons(s);
      var d, tail := DropCarriageReturn(s[1..]), "\n" + DropCrBeforeLf(rest);
      assert [s[0]] + (d + tail) == ([s[0]] + d) + tail;
    }
  }

  /** A text is its part before the first line feed, that line feed, and
      the rest. */
  lemma SplitAtFirstLf(text: string)
    requires FirstIndexOf(text, '\n') < |text|
    ensures var k := FirstIndexOf(text, '\n');
            '\n' !in text[..k] && text == text[..k] + ("\n" + text[k + 1..])
  {
    var k := FirstIndexOf(text, '\n');
    FirstIndexOfSpec(text, '\n');
    var head, rest := text[..k], text[k + 1..];
    assert '\n' !in head by {
      forall j | 0 <= j < k ensures head[j] != '\n' {
        assert head[j] == text[j];
      }
    }
    assert text[k..] == "\n" + rest by {
      assert text[k..][0] == text[k];
      assert text[k..][1..] == rest;
    }
    assert text == head + text[k..];
  }

  /** A proof step for JoinSplitAnyLines: a text with a line feed is split
      into its first line, without a final `\r`, and the split of the rest;
      joining them puts the line feed back. */
  lemma SplitLinesStep(text: string)
    requires FirstIndexOf(text, '\n') < |text|
    ensures var k := FirstIndexOf(text, '\n');
            JoinLines(SplitLines(text))
            == DropCarriageReturn(text[..k]) + ("\n" + JoinLines(SplitLines(text[k + 1..])))
  {
    var k := FirstIndexOf(text, '\n');
    SplitLinesCons(text);
    JoinLinesCons(DropCarriageReturn(text[..k]), SplitLines(text[k + 1..]));
  }

  /** One step of the split: the first line, then the split of the rest. */
  lemma SplitLinesCons(text: string)
    requires FirstIndexOf(text, '\n') < |text|
    ensures var k := FirstIndexOf(text, '\n');
            SplitLines(text) == [DropCarriageReturn(text[..k])] + SplitLines(text[k + 1..])
  {
  }

  /** One step of the join: the first line, a line feed, and the join of
      the rest. */
  lemma JoinLinesCons(first: string, tail: seq<string>)
    requires tail != []
    ensures JoinLines([first] + tail) == first + ("\n" + JoinLines(tail))
  {
    assert ([first] + tail)[1..] == tail;
  }

  /** For any text, splitting and joining by line feeds gives the text
      with the carriage return of every `\r\n` removed. */
  lemma {:induction false} JoinSplitAnyLines(text: string)
    ensures JoinLines(SplitLines(text)) == DropCrBeforeLf(text)
    decreases |text|
  {
    var k := FirstIndexOf(text, '\n');
    if k == |text| {
      FirstIndexOfSpec(text, '\n');
      DropCrBeforeLfKeeps(text);
    } else {
      SplitAtFirstLf(text);
      SplitLinesStep(text);
      JoinSplitAnyLines(text[k + 1..]);
      DropCrBeforeLfLine(text[..k], text[k + 1..]);
    }
  }

  /** The first line of a joined text is split off at the first line feed. */
  lemma SplitJoinStep(lines: seq<string>)
    requires |lines| > 1 && '\n' !in lines[0] && '\r' !in lines[0]
    ensures SplitLines(JoinLines(lines)) == [lines[0]] + SplitLines(JoinLines(lines[1..]))
  {
    var text := JoinLines(lines);
    var first := lines[0];
    assert text == first + ("\n" + JoinLines(lines[1..]));
    PrefixUntilWord(first, "\n" + JoinLines(lines[1..]), '\n');
    assert text[|first| + 1..] == JoinLines(lines[1..]);
    assert text[..|first|] == first;
    assert first == [] || first[|first| - 1] != '\r';
  }

  /** Joining lines that hold no line break and no carriage return and
      splitting the result gives back the lines. */
  lemma {:induction false} SplitJoinLines(lines: seq<string>)
    requires |lines| >= 1
    requires forall k :: 0 <= k < |lines| ==> '\n' !in lines[k] && '\r' !in lines[k]
    ensures SplitLines(JoinLines(lines)) == lines
  {
    if |lines| > 1 {
      SplitJoinStep(lines);
      SplitJoinLines(lines[1..]);
    } else {
      PrefixUntilWord(lines[0], [], '\n');
      assert lines[0] + [] == lines[0];
    }
  }

  /** `lines.join('\r\n')`: the lines as a text with Windows line ends. */
  function JoinCrlfLines(lines: seq<string>): string {
    if lines == [] then ""
    else if |lines| == 1 then lines[0]
    else lines[0] + "\r\n" + JoinCrlfLines(lines[1..])
  }

  /** With Windows line ends, the first line is split off at the first line
      feed and loses the carriage return before it. */
  lemma SplitCrlfStep(lines: seq<string>)
    requires |lines| > 1 && '\n' !in lines[0]
    ensures SplitLines(JoinCrlfLines(lines)) == [lines[0]] + SplitLines(JoinCrlfLines(lines[1..]))
  {
    var text := JoinCrlfLines(lines);
    var head := lines[0] + "\r";
    assert text == head + ("\n" + JoinCrlfLines(lines[1..]));
    PrefixUntilWord(head, "\n" + JoinCrlfLines(lines[1..]), '\n');
    assert text[|head| + 1..] == JoinCrlfLines(lines[1..]);
    assert text[..|head|] == head;
    assert head[..|head| - 1] == lines[0];
  }

  /** Splitting on `/\r?\n/` undoes joining with `\r\n`: lines without line
      feeds come back unchanged, even lines that hold or end in a carriage
      return. */
  lemma {:induction false} SplitCrlfLines(lines: seq<string>)
    requires |lines| >= 1
    requires forall k :: 0 <= k < |lines| ==> '\n' !in lines[k]
    ensures SplitLines(JoinCrlfLines(lines)) == lines
  {
    if |lines| > 1 {
      SplitCrlfStep(lines);
      SplitCrlfLines(lines[1..]);
    } else {
      PrefixUntilWord(lines[0], [], '\n');
      assert lines[0] + [] == lines[0];
    }
  }
}
