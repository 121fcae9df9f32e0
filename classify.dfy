/** The line classifier: which lines of a docblock are decoration ("empty")
    and which start a tag, and which tag names carry a type or an argument. */
module LineClassifier {
  import opened Text

  /** `isEmptyLine`: the whole line matches optional whitespace, any number
      of slashes, at least one asterisk, any number of slashes and optional
      whitespace. The four character classes are
      disjoint, so scanning each run greedily decides the pattern. */
  predicate IsEmptyLine(line: string): (b: bool)
    ensures b ==> '*' in line
  {
    var i := SkipWhitespace(line, 0);
    var j := SkipChar(line, i, '/');
    var k := SkipChar(line, j, '*');
    var l := SkipChar(line, k, '/');
    j < k && SkipWhitespace(line, l) == |line|
  }

  /** `line` splits at `i <= j < k <= l` into whitespace, slashes, a
      non-empty run of asterisks, slashes and whitespace. */
  ghost predicate EmptyLineSplit(line: string, i: int, j: int, k: int, l: int) {
    && 0 <= i <= j < k <= l <= |line|
    && (forall n :: 0 <= n < i ==> IsWhitespace(line[n]))
    && (forall n :: i <= n < j ==> line[n] == '/')
    && (forall n :: j <= n < k ==> line[n] == '*')
    && (forall n :: k <= n < l ==> line[n] == '/')
    && (forall n :: l <= n < |line| ==> IsWhitespace(line[n]))
  }

  /** The language of the empty-line regular expression, stated directly. */
  ghost predicate MatchesEmptyLinePattern(line: string) {
    exists i, j, k, l :: EmptyLineSplit(line, i, j, k, l)
  }

  /** Any split of a line into the five runs is the greedy one. */
  lemma EmptyLineSplitIsGreedy(line: string, i: int, j: int, k: int, l: int)
    requires EmptyLineSplit(line, i, j, k, l)
    ensures IsEmptyLine(line)
  {
    assert line[j] == '*';
    assert i == SkipWhitespace(line, 0) by {
      assert i < |line| && !IsWhitespace(line[i]);
    }
    assert j == SkipChar(line, i, '/');
    assert k == SkipChar(line, j, '*') by {
      if k < l {
        assert line[k] == '/';
      } else if k < |line| {
        assert IsWhitespace(line[k]);
      }
    }
    assert l == SkipChar(line, k, '/') by {
      if l < |line| {
        assert IsWhitespace(line[l]);
      }
    }
  }

  /** The greedy scan decides exactly the empty-line pattern. */
  lemma EmptyLineMeansPattern(line: string)
    ensures IsEmptyLine(line) <==> MatchesEmptyLinePattern(line)
  {
    if IsEmptyLine(line) {
      var i := SkipWhitespace(line, 0);
      var j := SkipChar(line, i, '/');
      var k := SkipChar(line, j, '*');
      assert EmptyLineSplit(line, i, j, k, SkipChar(line, k, '/'));
    }
    if MatchesEmptyLinePattern(line) {
      var i, j, k, l :| EmptyLineSplit(line, i, j, k, l);
      EmptyLineSplitIsGreedy(line, i, j, k, l);
    }
  }

  /** `isTagLine`: the line starts with optional whitespace, an asterisk, optional
      whitespace, `@` and at least one non-whitespace character; the rest of
      the line is not looked at. */
  predicate IsTagLine(line: string): (b: bool)
    ensures b ==> '*' in line && '@' in line
  {
    var i := SkipWhitespace(line, 0);
    i < |line| && line[i] == '*' &&
    (var j := SkipWhitespace(line, i + 1);
     j + 1 < |line| && line[j] == '@' && !IsWhitespace(line[j + 1]))
  }

  /** `line` has its asterisk at `i` and the `@` of the tag at `j`. */
  ghost predicate TagLineSplit(line: string, i: int, j: int) {
    && 0 <= i < j && j + 1 < |line|
    && (forall n :: 0 <= n < i ==> IsWhitespace(line[n]))
    && line[i] == '*'
    && (forall n :: i < n < j ==> IsWhitespace(line[n]))
    && line[j] == '@'
    && !IsWhitespace(line[j + 1])
  }

  /** The greedy scan decides exactly the tag-line pattern. */
  lemma TagLineMeansPattern(line: string)
    ensures IsTagLine(line) <==> exists i, j :: TagLineSplit(line, i, j)
  {
    var i := SkipWhitespace(line, 0);
    if IsTagLine(line) {
      assert TagLineSplit(line, i, SkipWhitespace(line, i + 1));
    }
    if i', j' :| TagLineSplit(line, i', j') {
      assert i' == i by {
        assert !IsWhitespace(line[i']);
      }
      assert j' == SkipWhitespace(line, i + 1) by {
        assert !IsWhitespace(line[j']);
      }
    }
  }

  /** No line is both decoration and the start of a tag: an empty line holds
      no `@`. */
  lemma EmptyLineIsNotTagLine(line: string)
    ensures !(IsEmptyLine(line) && IsTagLine(line))
  {
    EmptyLineMeansPattern(line);
    TagLineMeansPattern(line);
  }

  /** `hasArgument`: only `@param` takes a `$variable`; surrounding
      whitespace of the name is ignored. */
  predicate HasArgument(tagName: string): (b: bool)
    ensures b ==> HasType(tagName)
  {
    Trim(tagName) == "@param"
  }

  /** `hasType`: `@param` and `@return` take a type. */
  predicate HasType(tagName: string): (b: bool)
    ensures b ==> Trim(tagName) != [] && Trim(tagName)[0] == '@'
  {
    Trim(tagName) == "@param" || Trim(tagName) == "@return"
  }

  /** Every tag that takes an argument also takes a type, and whitespace
      padding around a name changes neither classification. */
  lemma TagNameClasses(pre: string, tagName: string, post: string)
    requires forall n :: 0 <= n < |pre| ==> IsWhitespace(pre[n])
    requires forall n :: 0 <= n < |post| ==> IsWhitespace(post[n])
    requires tagName == Trim(tagName)
    ensures HasArgument(tagName) ==> HasType(tagName)
    ensures HasArgument(pre + tagName + post) <==> tagName == "@param"
    ensures HasType(pre + tagName + post) <==> tagName == "@param" || tagName == "@return"
  {
    var s := pre + tagName + post;
    var t := Trim(s);
    TrimSpec(s);
    TrimSpec(tagName);
    var i := SkipWhitespace(s, 0);
    if tagName == [] {
      assert forall n :: 0 <= n < |s| ==> IsWhitespace(s[n]);
      assert i == |s|;
      assert t == [];
    } else {
      assert !IsWhitespace(tagName[0]) && !IsWhitespace(tagName[|tagName| - 1]);
      assert s[|pre|] == tagName[0];
      assert i == |pre|;
      assert s[|pre| + |tagName| - 1] == tagName[|tagName| - 1];
      assert t == tagName;
    }
  }
}
