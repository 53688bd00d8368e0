/** Splices into a YAML document by line (internal/cli/yaml.go): `InsertBefore` and `ReplaceRootField` find
    their window by scanning characters backwards from line starts. The reference cuts the list of lines.
    The YAML engine is left out: it supplies the line numbers of the root keys (counted from 0 here) and the
    printed form of the new value. */
module YamlSplice {
  import opened Characters
  import opened Lines
  import opened Options

  // ---------------------------------------------------------------- lines of a document

  /** strings.TrimSpace(line) == "". */
  predicate Blank(line: string) {
    forall c <- line :: IsUnicodeSpace(c)
  }

  /** strings.HasPrefix(strings.TrimSpace(line), "#"). */
  predicate Comment(line: string) {
    line != "" && (line[0] == '#' || (IsUnicodeSpace(line[0]) && Comment(line[1..])))
  }

  predicate BlankOrComment(line: string) {
    Blank(line) || Comment(line)
  }

  /** A comment line: white space, a number sign, any text. */
  lemma {:induction false} CommentMeans(line: string)
    ensures Comment(line) <==> exists i :: 0 <= i < |line| && line[i] == '#' && Blank(line[..i])
  {
    if line != "" && line[0] != '#' {
      var rest := line[1..];
      CommentMeans(rest);
      if i :| 0 <= i < |rest| && rest[i] == '#' && Blank(rest[..i]) && IsUnicodeSpace(line[0]) {
        assert line[..i + 1] == [line[0]] + rest[..i] && line[i + 1] == '#';
      }
      if i :| 0 <= i < |line| && line[i] == '#' && Blank(line[..i]) {
        assert line[..i][0] == line[0] && rest[..i - 1] == line[..i][1..] && rest[i - 1] == '#';
      }
    } else if line != "" {
      assert line[..0] == "";
    }
  }

  /** A final newline starts no line of its own. */
  function LineCount(content: string): nat {
    var n := |Split(content)|;
    if n > 1 && Split(content)[n - 1] == "" then n - 1 else n
  }

  lemma {:induction false} LineCountMeans(content: string)
    ensures content == "" ==> LineCount(content) == 1
    ensures content != "" && content[|content| - 1] == '\n' ==> LineCount(content) == |Split(content)| - 1
    ensures content != "" && content[|content| - 1] != '\n' ==> LineCount(content) == |Split(content)|
  {
    if content != "" {
      LastLine(content);
    }
  }

  lemma LastLine(content: string)
    requires content != ""
    ensures var lines := Split(content);
      lines[|lines| - 1] == "" <==> content[|content| - 1] == '\n'
    ensures content[|content| - 1] == '\n' ==> |Split(content)| > 1
  {
    if |content| > 1 {
      assert content[1..][|content| - 2] == content[|content| - 1];
      LastLine(content[1..]);
    } else {
      assert content[1..] == "";
    }
  }

  lemma {:induction false} CharInside(a: string, l: string, b: string, column: nat)
    requires column <= |l|
    ensures var t := a + (l + "\n" + b);
      |a| + column < |t| && t[|a| + column] == if column < |l| then l[column] else '\n'
  {
    assert (a + (l + "\n" + b))[|a| + column] == (l + "\n" + b)[column];
  }

  /** A character of a text, addressed by line and column. */
  lemma {:induction false} CharOfLine(content: string, line: nat, column: nat)
    requires line < |Split(content)| && column <= |Split(content)[line]|
    ensures LineStart(Split(content), line) + column <= |content|
    ensures column < |Split(content)[line]| ==>
      (LineStart(Split(content), line) + column < |content|
       && content[LineStart(Split(content), line) + column] == Split(content)[line][column])
    ensures column == |Split(content)[line]| && LineStart(Split(content), line) + column < |content|
      ==> (content[LineStart(Split(content), line) + column] == '\n' && line + 1 < |Split(content)|)
    ensures LineStart(Split(content), line) + column == |content| ==> line == |Split(content)| - 1
  {
    var lines := Split(content);
    UnlinesSplit(content);
    UnlinesAround(lines, line);
    CharInside(Unlines(lines[..line]), lines[line], Unlines(lines[line + 1..]), column);
  }

  /** A text cut at the start of one of its lines. */
  lemma {:induction false} CutAtLine(content: string, line: nat)
    requires line < |Split(content)|
    ensures LineStart(Split(content), line) <= |content|
    ensures content[..LineStart(Split(content), line)] == Unlines(Split(content)[..line])
    ensures content[LineStart(Split(content), line)..] == Join(Split(content)[line..])
  {
    var lines := Split(content);
    UnlinesSplit(content);
    assert lines == lines[..line] + lines[line..];
    UnlinesConcat(lines[..line], lines[line..]);
    UnlinesJoin(lines[line..]);
    var a, b := Unlines(lines[..line]), Join(lines[line..]);
    assert content + "\n" == (a + b) + "\n";
    assert content == (content + "\n")[..|content|] == ((a + b) + "\n")[..|a + b|] == a + b;
  }

  lemma {:induction false} SplitUnlines(lines: seq<string>, s: string)
    requires forall l <- lines :: '\n' !in l
    ensures Split(Unlines(lines) + s) == lines + Split(s)
  {
    if lines == [] {
      assert Unlines(lines) + s == s;
    } else {
      assert Unlines(lines) + s == lines[0] + "\n" + (Unlines(lines[1..]) + s);
      SplitAtNewline(lines[0], Unlines(lines[1..]) + s);
      SplitUnlines(lines[1..], s);
    }
  }

  lemma {:induction false} SplitJoin(lines: seq<string>)
    requires lines != [] && forall l <- lines :: '\n' !in l
    ensures Split(Join(lines)) == lines
  {
    if |lines| == 1 {
      SplitLine(lines[0]);
    } else {
      SplitAtNewline(lines[0], Join(lines[1..]));
      SplitJoin(lines[1..]);
    }
  }

  /** A text, a newline and another text: the lines of the one, then the lines of the other. */
  lemma {:induction false} SplitConcat(s: string, t: string)
    ensures Split(s + "\n" + t) == Split(s) + Split(t)
  {
    UnlinesSplit(s);
    SplitUnlines(Split(s), t);
  }

  // ---------------------------------------------------------------- line starts

  /** lineStartOffsets: where every line begins. */
  method LineStartOffsets(content: string) returns (starts: seq<nat>)
    ensures |starts| == LineCount(content)
    ensures forall k :: 0 <= k < |starts| ==> starts[k] == LineStart(Split(content), k)
  {
    ghost var lines := Split(content);
    starts := [0];
    for i := 0 to |content|
      invariant 1 <= |starts| <= |lines|
      invariant forall k :: 0 <= k < |starts| ==> starts[k] == LineStart(lines, k)
      invariant i < |content| ==>
        LineStart(lines, |starts| - 1) <= i <= LineStart(lines, |starts| - 1) + |lines[|starts| - 1]|
      invariant i == |content| ==> |starts| == LineCount(content)
    {
      ghost var line := |starts| - 1;
      LineStep(content, line, i);
      if content[i] == '\n' && i + 1 < |content| {
        starts := starts + [i + 1];
      }
    }
    if content == "" {
      assert lines == [""];
    }
  }

  /** What one character says about the line it stands on. */
  lemma {:induction false} LineStep(content: string, line: nat, i: nat)
    requires i < |content| && line < |Split(content)|
    requires LineStart(Split(content), line) <= i <= LineStart(Split(content), line) + |Split(content)[line]|
    ensures var lines := Split(content);
      if content[i] == '\n' then line + 1 < |lines| && LineStart(lines, line + 1) == i + 1
      else i + 1 <= LineStart(lines, line) + |lines[line]|
    ensures i + 1 == |content| ==> LineCount(content) == line + 1
  {
    var lines := Split(content);
    var column := i - LineStart(lines, line);
    CharOfLine(content, line, column);
    if column < |lines[line]| {
      assert lines[line][column] in lines[line];
      CharOfLine(content, line, column + 1);
      if i + 1 == |content| {
        assert line == |lines| - 1;
      }
    } else {
      assert lines[..line + 1] == lines[..line] + [lines[line]];
      UnlinesConcat(lines[..line], [lines[line]]);
      CharOfLine(content, line + 1, 0);
      if i + 1 == |content| {
        CutAtLine(content, line + 1);
        assert lines[line + 1..] == [lines[line + 1]];
      }
    }
  }

  /** The backward scan both operations use: from the start of a line to the start of the line before. */
  method PreviousLine(content: string, idx: nat, ghost line: nat) returns (lineStart: nat)
    requires 0 < line < |Split(content)| && idx == LineStart(Split(content), line)
    ensures lineStart == LineStart(Split(content), line - 1)
    ensures lineStart < idx <= |content|
    ensures content[lineStart..idx - 1] == Split(content)[line - 1]
  {
    ghost var lines := Split(content);
    ghost var start := LineStart(lines, line - 1);
    ghost var width := |lines[line - 1]|;
    PreviousLineText(content, line);
    NoNewlineInside(content, line - 1);
    lineStart := idx - 1;
    while lineStart > 0 && content[lineStart - 1] != '\n'
      invariant start <= lineStart <= start + width == idx - 1
    {
      if lineStart == start {
        NewlineBefore(content, line - 1);
      }
      lineStart := lineStart - 1;
    }
  }

  lemma {:induction false} NoNewlineInside(content: string, line: nat)
    requires line < |Split(content)|
    ensures var start := LineStart(Split(content), line);
      start + |Split(content)[line]| <= |content|
      && forall i :: start <= i < start + |Split(content)[line]| ==> content[i] != '\n'
  {
    var start := LineStart(Split(content), line);
    CharOfLine(content, line, |Split(content)[line]|);
    forall i | start <= i < start + |Split(content)[line]|
      ensures content[i] != '\n'
    {
      CharOfLine(content, line, i - start);
      assert Split(content)[line][i - start] in Split(content)[line];
    }
  }

  lemma {:induction false} PreviousLineText(content: string, line: nat)
    requires 0 < line < |Split(content)|
    ensures var lines := Split(content);
      LineStart(lines, line) == LineStart(lines, line - 1) + |lines[line - 1]| + 1 <= |content|
      && content[LineStart(lines, line - 1)..LineStart(lines, line) - 1] == lines[line - 1]
  {
    var lines := Split(content);
    CutAtLine(content, line);
    assert lines[..line] == lines[..line - 1] + [lines[line - 1]];
    UnlinesConcat(lines[..line - 1], [lines[line - 1]]);
    var a := Unlines(lines[..line - 1]);
    assert Unlines([lines[line - 1]]) == lines[line - 1] + "\n";
    assert content[..LineStart(lines, line)] == a + (lines[line - 1] + "\n");
    assert content[|a|..|a| + |lines[line - 1]|] == content[..LineStart(lines, line)][|a|..|a| + |lines[line - 1]|];
  }

  /** Every line start but the first follows a newline. */
  lemma {:induction false} NewlineBefore(content: string, line: nat)
    requires line < |Split(content)|
    ensures LineStart(Split(content), line) <= |content|
    ensures LineStart(Split(content), line) > 0 ==> content[LineStart(Split(content), line) - 1] == '\n'
    ensures LineStart(Split(content), line) == 0 <==> line == 0
  {
    CutAtLine(content, line);
    if line > 0 {
      PreviousLineText(content, line);
      CharOfLine(content, line - 1, |Split(content)[line - 1]|);
    }
  }

  // ---------------------------------------------------------------- InsertBefore

  /** The first line of the comment block that ends just above a line. */
  function TopOfComments(lines: seq<string>, line: nat): (top: nat)
    requires line <= |lines|
    ensures top <= line
    ensures forall j :: top <= j < line ==> Comment(lines[j])
    ensures top > 0 ==> !Comment(lines[top - 1])
  {
    if line > 0 && Comment(lines[line - 1]) then TopOfComments(lines, line - 1) else line
  }

  /** The lines of a document after an insertion: the new text and an empty line above the comment block. */
  function LinesInserted(lines: seq<string>, anchor: nat, section: seq<string>): seq<string>
    requires anchor < |lines|
  {
    var top := TopOfComments(lines, anchor);
    lines[..top] + section + [""] + lines[top..]
  }

  /** InsertBefore: byte scanning and a splice that come to the insertion of whole lines. */
  method InsertBefore(content: string, anchor: nat, node: string) returns (result: string)
    requires anchor < LineCount(content)
    ensures var at := LineStart(Split(content), TopOfComments(Split(content), anchor));
      at <= |content| && result == content[..at] + node + "\n\n" + content[at..]
    ensures Split(result) == LinesInserted(Split(content), anchor, Split(node))
  {
    var lineStarts := LineStartOffsets(content);
    var idx := BlockStart(content, lineStarts[anchor], anchor);
    InsertedLines(content, anchor, node);
    result := content[..idx] + node + "\n\n" + content[idx..];
  }

  /** The scan over the comment lines above the anchor. */
  method BlockStart(content: string, from: nat, ghost anchor: nat) returns (idx: nat)
    requires anchor < LineCount(content) && from == LineStart(Split(content), anchor)
    ensures idx == LineStart(Split(content), TopOfComments(Split(content), anchor)) <= |content|
  {
    ghost var lines := Split(content);
    ghost var line: nat := anchor;
    idx := from;
    NewlineBefore(content, line);
    while idx > 0
      invariant line <= anchor && idx == LineStart(lines, line)
      invariant idx == 0 <==> line == 0
      invariant TopOfComments(lines, line) == TopOfComments(lines, anchor)
    {
      var lineStart := PreviousLine(content, idx, line);
      var lineContent := content[lineStart..idx - 1];
      if !Comment(lineContent) {
        break;
      }
      NewlineBefore(content, line - 1);
      idx, line := lineStart, line - 1;
    }
    CutAtLine(content, line);
  }

  lemma {:induction false} Regroup(a: string, node: string, b: string)
    ensures a + node + "\n\n" + b == a + (node + "\n" + ("" + "\n" + b))
  {
    assert "\n\n" + b == "\n" + ("" + "\n" + b);
    assert a + node + "\n\n" + b == a + node + ("\n\n" + b);
  }

  lemma {:induction false} SplitWoven(before: seq<string>, node: string, after: seq<string>)
    requires after != [] && forall l <- before + after :: '\n' !in l
    ensures Split(Unlines(before) + node + "\n\n" + Join(after)) == before + Split(node) + [""] + after
  {
    var rest := "" + "\n" + Join(after);
    Regroup(Unlines(before), node, Join(after));
    SplitUnlines(before, node + "\n" + rest);
    SplitConcat(node, rest);
    SplitAtNewline("", Join(after));
    SplitJoin(after);
  }

  lemma {:induction false} InsertedLines(content: string, anchor: nat, node: string)
    requires anchor < |Split(content)|
    ensures var at := LineStart(Split(content), TopOfComments(Split(content), anchor));
      at <= |content|
      && Split(content[..at] + node + "\n\n" + content[at..]) == LinesInserted(Split(content), anchor, Split(node))
  {
    var lines := Split(content);
    var top := TopOfComments(lines, anchor);
    CutAtLine(content, top);
    SplitWoven(lines[..top], node, lines[top..]);
  }

  lemma {:induction false} TopUnchanged(before: seq<string>, lines: seq<string>, top: nat, line: nat)
    requires top <= line <= |lines|
    requires top == TopOfComments(lines, line)
    requires before != [] && !Comment(before[|before| - 1])
    ensures TopOfComments(before + lines[top..], |before| + line - top) == |before|
  {
    var all := before + lines[top..];
    if line > top {
      assert all[|before| + line - top - 1] == lines[line - 1];
      TopUnchanged(before, lines, top, line - 1);
    } else {
      assert all[|before| - 1] == before[|before| - 1];
    }
  }

  /** The comment block stays with its key: a second insertion before the same key lands below the first
      one and above the block. */
  lemma {:induction false} SecondInsertionLandsBelow(lines: seq<string>, anchor: nat, first: seq<string>,
                                                     second: seq<string>)
    requires anchor < |lines|
    ensures var top := TopOfComments(lines, anchor);
      var moved := anchor + |first| + 1;
      moved < |LinesInserted(lines, anchor, first)|
      && LinesInserted(lines, anchor, first)[moved] == lines[anchor]
      && LinesInserted(LinesInserted(lines, anchor, first), moved, second)
         == lines[..top] + first + [""] + second + [""] + lines[top..]
  {
    var top := TopOfComments(lines, anchor);
    var before := lines[..top] + first + [""];
    TopUnchanged(before, lines, top, anchor);
    assert LinesInserted(lines, anchor, first) == before + lines[top..];
    assert (before + lines[top..])[..|before|] == before;
    assert (before + lines[top..])[|before|..] == lines[top..];
  }

  // ---------------------------------------------------------------- ReplaceRootField

  /** The first entry of the mapping that starts below the key. */
  function NextKey(entries: seq<nat>, key: nat): (next: Option<nat>)
    ensures next.None? ==> forall e <- entries :: e <= key
    ensures next.Some? ==> next.value in entries && next.value > key
  {
    if entries == [] then None
    else
      assert entries == [entries[0]] + entries[1..];
      if entries[0] > key then Some(entries[0]) else NextKey(entries[1..], key)
  }

  /** The first of the blank and comment lines that lead a line, not above a given floor. */
  function TopOfLead(lines: seq<string>, floor: nat, line: nat): (top: nat)
    requires floor <= line <= |lines|
    ensures floor <= top <= line
  {
    if line > floor && BlankOrComment(lines[line - 1]) then TopOfLead(lines, floor, line - 1) else line
  }

  /** It is the whole lead: only blank and comment lines, and none of them above it. */
  lemma {:induction false} LeadIsWhole(lines: seq<string>, floor: nat, line: nat)
    requires floor <= line <= |lines|
    ensures forall j :: TopOfLead(lines, floor, line) <= j < line ==> BlankOrComment(lines[j])
    ensures TopOfLead(lines, floor, line) > floor ==> !BlankOrComment(lines[TopOfLead(lines, floor, line) - 1])
  {
    if line > floor && BlankOrComment(lines[line - 1]) {
      LeadIsWhole(lines, floor, line - 1);
    }
  }

  /** The lines from the key's up to the lead of the next key's, replaced. */
  function Cut(lines: seq<string>, key: nat, next: nat, section: seq<string>): seq<string>
    requires key <= next <= |lines|
  {
    lines[..key] + section + lines[TopOfLead(lines, key, next)..]
  }

  /** The key that comes next, if any, lies below. */
  predicate NextInside(lines: seq<string>, key: nat, next: Option<nat>) {
    key < |lines| && (next.Some? ==> key < next.value < |lines|)
  }

  /** The lines of a document after the section of a root key was replaced. */
  function LinesReplaced(lines: seq<string>, key: nat, next: Option<nat>, section: seq<string>): seq<string>
    requires NextInside(lines, key, next)
  {
    if next.None? then lines[..key] + section else Cut(lines, key, next.value, section)
  }

  /** ReplaceRootField: the section runs from the key's line to the lead of the next root key, or to the end
      of the document when there is none. */
  method ReplaceRootField(content: string, key: nat, entries: seq<nat>, newContent: string) returns (result: string)
    requires key < LineCount(content)
    requires forall e <- entries :: e < LineCount(content)
    ensures NextInside(Split(content), key, NextKey(entries, key)) && LineStart(Split(content), key) <= |content|
    ensures Split(result) == LinesReplaced(Split(content), key, NextKey(entries, key), Split(newContent))
    ensures var next := NextKey(entries, key);
      if next.None? then result == content[..LineStart(Split(content), key)] + newContent
      else var end := LineStart(Split(content), TopOfLead(Split(content), key, next.value));
        end < |content|
        && result == content[..LineStart(Split(content), key)] + newContent + "\n" + content[end..]
  {
    ghost var lines := Split(content);
    var lineStarts := LineStartOffsets(content);
    var startIdx := lineStarts[key];
    var endIdx := |content|;
    NewlineBefore(content, key);
    for i := 0 to |entries|
      invariant NextKey(entries, key) == NextKey(entries[i..], key)
      invariant endIdx == |content|
    {
      assert entries[i..][1..] == entries[i + 1..];
      if entries[i] > key {
        endIdx := LeadStart(content, startIdx, lineStarts[entries[i]], key, entries[i]);
        break;
      }
    }
    var replacement := newContent;
    if endIdx < |content| {
      replacement := replacement + "\n";
    }
    result := content[..startIdx] + replacement + content[endIdx..];
    CutAtLine(content, key);
    assert endIdx == |content| ==> result == content[..startIdx] + newContent;
    assert endIdx < |content| ==> result == content[..startIdx] + newContent + "\n" + content[endIdx..];
    ReplacedLines(content, key, NextKey(entries, key), newContent);
  }

  /** The scan over the blank and comment lines above the next key. */
  method LeadStart(content: string, startIdx: nat, from: nat, key: nat, next: nat) returns (nextStart: nat)
    requires key < next < LineCount(content)
    requires startIdx == LineStart(Split(content), key) && from == LineStart(Split(content), next)
    ensures nextStart == LineStart(Split(content), TopOfLead(Split(content), key, next)) < |content|
  {
    ghost var lines := Split(content);
    ghost var top := next;
    nextStart := from;
    NewlineBefore(content, next);
    StartsBeforeEnd(content, next);
    while nextStart > startIdx && nextStart > 0 && content[nextStart - 1] == '\n'
      invariant key <= top <= next && nextStart == LineStart(lines, top) < |content|
      invariant TopOfLead(lines, key, top) == TopOfLead(lines, key, next)
      decreases top
    {
      if top == key {
        assert false;
      }
      var checkIdx := PreviousLine(content, nextStart, top);
      var line := content[checkIdx..nextStart - 1];
      if !BlankOrComment(line) {
        break;
      }
      nextStart, top := checkIdx, top - 1;
    }
    if top > key {
      LineStartMonotone(lines, key, top);
      NewlineBefore(content, top);
    }
  }

  /** A line that lineStartOffsets lists begins before the end of a document of several lines. */
  lemma {:induction false} StartsBeforeEnd(content: string, line: nat)
    requires 0 < line < LineCount(content)
    ensures LineStart(Split(content), line) < |content|
  {
    CharOfLine(content, line, 0);
    if line == |Split(content)| - 1 {
      assert Split(content)[line] != "";
    }
  }

  lemma {:induction false} Associate(a: string, b: string, c: string)
    ensures a + b + "\n" + c == a + (b + "\n" + c)
  {
  }

  lemma {:induction false} SplitSection(before: seq<string>, section: string, after: seq<string>)
    requires after != [] && forall l <- before + after :: '\n' !in l
    ensures Split(Unlines(before) + section + "\n" + Join(after)) == before + Split(section) + after
  {
    Associate(Unlines(before), section, Join(after));
    SplitUnlines(before, section + "\n" + Join(after));
    SplitConcat(section, Join(after));
    SplitJoin(after);
  }

  lemma {:induction false} ReplacedLines(content: string, key: nat, next: Option<nat>, newContent: string)
    requires NextInside(Split(content), key, next)
    ensures LineStart(Split(content), key) <= |content|
    ensures var prefix := content[..LineStart(Split(content), key)];
      if next.None? then Split(prefix + newContent) == LinesReplaced(Split(content), key, next, Split(newContent))
      else var end := LineStart(Split(content), TopOfLead(Split(content), key, next.value));
        end <= |content|
        && Split(prefix + newContent + "\n" + content[end..])
          == LinesReplaced(Split(content), key, next, Split(newContent))
  {
    var lines := Split(content);
    CutAtLine(content, key);
    if next.None? {
      SplitUnlines(lines[..key], newContent);
    } else {
      var top := TopOfLead(lines, key, next.value);
      CutAtLine(content, top);
      SplitSection(lines[..key], newContent, lines[top..]);
    }
  }

  // ---------------------------------------------------------------- what a replacement keeps

  predicate Increasing(entries: seq<nat>) {
    forall i, j :: 0 <= i < j < |entries| ==> entries[i] < entries[j]
  }

  lemma {:induction false} NextKeyIsNearest(entries: seq<nat>, key: nat)
    requires Increasing(entries)
    ensures forall e <- entries :: e > key ==> NextKey(entries, key).Some? && NextKey(entries, key).value <= e
  {
    if entries != [] && entries[0] <= key {
      NextKeyIsNearest(entries[1..], key);
      forall e | e in entries && e > key
        ensures NextKey(entries, key).Some? && NextKey(entries, key).value <= e
      {
        assert e in entries[1..];
      }
    }
  }

  /** Where a line outside the section ends up; the lines of the section itself have no place to go to. */
  function MovedLine(lines: seq<string>, key: nat, next: Option<nat>, section: seq<string>, line: nat): nat
    requires NextInside(lines, key, next)
  {
    if next.None? then line
    else
      var top := TopOfLead(lines, key, next.value);
      if line < top then line else line - top + key + |section|
  }

  /** The root keys of a document: in document order, each on a line of its own that holds more than a comment. */
  predicate RootKeys(lines: seq<string>, entries: seq<nat>) {
    && Increasing(entries)
    && forall e <- entries :: e < |lines| && !BlankOrComment(lines[e])
  }

  lemma {:induction false} LineMoves(lines: seq<string>, key: nat, next: Option<nat>, section: seq<string>, j: nat)
    requires NextInside(lines, key, next)
    requires j < key || (next.Some? && TopOfLead(lines, key, next.value) <= j < |lines|)
    ensures var after := LinesReplaced(lines, key, next, section);
      MovedLine(lines, key, next, section, j) < |after| && after[MovedLine(lines, key, next, section, j)] == lines[j]
  {
  }

  /** Every other root key survives a replacement with the blank and comment lines that lead it: the window
      never reaches into another key's section. */
  lemma {:induction false} OtherKeysSurvive(lines: seq<string>, key: nat, entries: seq<nat>, section: seq<string>,
                                            e: nat)
    requires RootKeys(lines, entries) && key in entries && e in entries && e != key
    ensures var next := NextKey(entries, key);
      NextInside(lines, key, next)
      && var after := LinesReplaced(lines, key, next, section);
        forall j :: TopOfLead(lines, 0, e) <= j <= e ==>
          MovedLine(lines, key, next, section, j) < |after|
          && after[MovedLine(lines, key, next, section, j)] == lines[j]
  {
    var next := NextKey(entries, key);
    NextKeyIsNearest(entries, key);
    LeadIsWhole(lines, 0, e);
    if e > key {
      LeadIsWhole(lines, key, next.value);
      assert TopOfLead(lines, 0, e) > key;
      assert TopOfLead(lines, 0, e) >= TopOfLead(lines, key, next.value) by {
        assert next.value < e ==> TopOfLead(lines, 0, e) > next.value;
      }
    }
    forall j | TopOfLead(lines, 0, e) <= j <= e
      ensures MovedLine(lines, key, next, section, j) < |LinesReplaced(lines, key, next, section)|
      ensures LinesReplaced(lines, key, next, section)[MovedLine(lines, key, next, section, j)] == lines[j]
    {
      LineMoves(lines, key, next, section, j);
    }
  }

  /** The root keys of the document a replacement leaves: those below the section have moved. */
  predicate AreMoved(lines: seq<string>, key: nat, entries: seq<nat>, section: seq<string>, moved: seq<nat>)
    requires NextInside(lines, key, NextKey(entries, key))
  {
    |moved| == |entries|
    && forall i :: 0 <= i < |entries| ==> moved[i] == MovedLine(lines, key, NextKey(entries, key), section, entries[i])
  }

  predicate IsNext(entries: seq<nat>, key: nat, i: nat)
    requires i < |entries|
  {
    NextKey(entries, key) == Some(entries[i])
  }

  /** Moving the entries without carrying one across the key keeps which of them comes next. */
  lemma {:induction false} NextKeyMoved(entries: seq<nat>, moved: seq<nat>, key: nat)
    requires |moved| == |entries|
    requires forall i :: 0 <= i < |entries| ==> (entries[i] > key <==> moved[i] > key)
    ensures NextKey(entries, key).None? <==> NextKey(moved, key).None?
    ensures NextKey(entries, key).Some? ==>
      exists i :: 0 <= i < |entries| && IsNext(entries, key, i) && IsNext(moved, key, i)
  {
    if entries == [] {
    } else if entries[0] > key {
      assert IsNext(entries, key, 0) && IsNext(moved, key, 0);
    } else {
      assert !(moved[0] > key);
      NextKeyMoved(entries[1..], moved[1..], key);
      if NextKey(entries, key).Some? {
        var i :| 0 <= i < |entries[1..]| && IsNext(entries[1..], key, i) && IsNext(moved[1..], key, i);
        assert IsNext(entries, key, i + 1) && IsNext(moved, key, i + 1);
      }
    }
  }

  /** The next key, moved. */
  function NextAfter(lines: seq<string>, key: nat, next: Option<nat>, section: seq<string>): Option<nat>
    requires NextInside(lines, key, next)
  {
    if next.None? then None else Some(MovedLine(lines, key, next, section, next.value))
  }

  lemma {:induction false} MovedKey(lines: seq<string>, key: nat, entries: seq<nat>, section: seq<string>, e: nat)
    requires RootKeys(lines, entries) && key in entries && e in entries && section != []
    ensures NextInside(lines, key, NextKey(entries, key))
    ensures e > key <==> MovedLine(lines, key, NextKey(entries, key), section, e) > key
  {
    NextKeyIsNearest(entries, key);
    if NextKey(entries, key).Some? {
      LeadIsWhole(lines, key, NextKey(entries, key).value);
      assert TopOfLead(lines, key, NextKey(entries, key).value) > key;
    }
  }

  lemma {:induction false} NextKeyAfter(lines: seq<string>, key: nat, entries: seq<nat>, section: seq<string>,
                                        moved: seq<nat>)
    requires RootKeys(lines, entries) && key in entries && section != []
    requires NextInside(lines, key, NextKey(entries, key)) && AreMoved(lines, key, entries, section, moved)
    ensures NextKey(moved, key) == NextAfter(lines, key, NextKey(entries, key), section)
  {
    forall i | 0 <= i < |entries|
      ensures entries[i] > key <==> moved[i] > key
    {
      MovedKey(lines, key, entries, section, entries[i]);
    }
    NextKeyMoved(entries, moved, key);
  }

  lemma {:induction false} LeadRunsOn(lines: seq<string>, floor: nat, mid: nat, line: nat)
    requires floor <= mid <= line <= |lines|
    requires forall j :: mid <= j < line ==> BlankOrComment(lines[j])
    ensures TopOfLead(lines, floor, line) == TopOfLead(lines, floor, mid)
  {
    if line > mid {
      LeadRunsOn(lines, floor, mid, line - 1);
    }
  }

  /** Where the scan stops when a section of new lines ends just above the lead of the next key. */
  lemma {:induction false} LeadAfterReplacement(before: seq<string>, section: seq<string>, after: seq<string>,
                                                lead: nat)
    requires section != [] && lead < |after| && forall j :: 0 <= j < lead ==> BlankOrComment(after[j])
    ensures var top := TopOfLead(before + section + after, |before|, |before| + |section| + lead);
      if BlankOrComment(section[|section| - 1]) then top < |before| + |section| else top == |before| + |section|
  {
    var all := before + section + after;
    var mid := |before| + |section|;
    forall j | mid <= j < mid + lead
      ensures BlankOrComment(all[j])
    {
      assert all[j] == after[j - mid];
    }
    LeadRunsOn(all, |before|, mid, mid + lead);
    assert all[mid - 1] == section[|section| - 1];
  }

  /** The lines a second replacement leaves, with the first section still in place. */
  lemma {:induction false} SecondReplacement(key: nat, before: seq<string>, first: seq<string>, after: seq<string>,
                                             lead: nat, second: seq<string>)
    requires key == |before| && first != [] && lead < |after| && forall j :: 0 <= j < lead ==> BlankOrComment(after[j])
    ensures Cut(before + first + after, key, key + |first| + lead, second) == before + second + after
      <==> !BlankOrComment(first[|first| - 1])
  {
    var all := before + first + after;
    var again := TopOfLead(all, key, key + |first| + lead);
    LeadAfterReplacement(before, first, after, lead);
    assert all[..key] == before;
    if again == key + |first| {
      assert all[again..] == after;
    } else {
      assert |before + second + all[again..]| > |before + second + after|;
    }
  }

  lemma {:induction false} LeadOfRest(lines: seq<string>, key: nat, next: nat)
    requires key <= next <= |lines|
    ensures forall j :: 0 <= j < next - TopOfLead(lines, key, next) ==>
      BlankOrComment(lines[TopOfLead(lines, key, next)..][j])
  {
    LeadIsWhole(lines, key, next);
  }

  /** Two replacements of a section, with another key below. */
  lemma {:induction false} ReplacedAbove(lines: seq<string>, key: nat, next: nat, first: seq<string>,
                                         second: seq<string>)
    requires NextInside(lines, key, Some(next)) && first != []
    ensures var once, moved := LinesReplaced(lines, key, Some(next), first), NextAfter(lines, key, Some(next), first);
      NextInside(once, key, moved)
      && (LinesReplaced(once, key, moved, second) == LinesReplaced(lines, key, Some(next), second)
          <==> !BlankOrComment(first[|first| - 1]))
  {
    var top := TopOfLead(lines, key, next);
    var once, moved := lines[..key] + first + lines[top..], key + |first| + (next - top);
    FirstReplacement(lines, key, next, first, second);
    LeadOfRest(lines, key, next);
    SecondReplacement(key, lines[..key], first, lines[top..], next - top, second);
    assert LinesReplaced(once, key, Some(moved), second) == Cut(once, key, moved, second);
  }

  /** Where the next key is once the section above it was replaced. */
  lemma {:induction false} FirstReplacement(lines: seq<string>, key: nat, next: nat, first: seq<string>,
                                            second: seq<string>)
    requires NextInside(lines, key, Some(next)) && first != []
    ensures var top := TopOfLead(lines, key, next);
      && LinesReplaced(lines, key, Some(next), first) == lines[..key] + first + lines[top..]
      && NextAfter(lines, key, Some(next), first) == Some(key + |first| + (next - top))
      && NextInside(lines[..key] + first + lines[top..], key, Some(key + |first| + (next - top)))
      && LinesReplaced(lines, key, Some(next), second) == lines[..key] + second + lines[top..]
  {
  }

  lemma {:induction false} ReplacedTwice(lines: seq<string>, key: nat, next: Option<nat>, first: seq<string>,
                                         second: seq<string>)
    requires NextInside(lines, key, next) && first != []
    ensures var once, moved := LinesReplaced(lines, key, next, first), NextAfter(lines, key, next, first);
      NextInside(once, key, moved)
      && (LinesReplaced(once, key, moved, second) == LinesReplaced(lines, key, next, second)
          <==> next.None? || !BlankOrComment(first[|first| - 1]))
  {
    if next.None? {
      assert (lines[..key] + first)[..key] == lines[..key];
    } else {
      ReplacedAbove(lines, key, next.value, first, second);
    }
  }

  /** Replacing the same key twice is replacing it once with the second text, unless the first text ends in
      a blank or comment line with another key below: the second scan then takes that line for part of the
      next key's lead and leaves it behind. */
  lemma {:induction false} LastReplacementWins(lines: seq<string>, key: nat, entries: seq<nat>,
                                               first: seq<string>, moved: seq<nat>, second: seq<string>)
    requires RootKeys(lines, entries) && key in entries && first != []
    requires NextInside(lines, key, NextKey(entries, key)) && AreMoved(lines, key, entries, first, moved)
    ensures var next, next' := NextKey(entries, key), NextKey(moved, key);
      var once := LinesReplaced(lines, key, next, first);
      NextInside(once, key, next')
      && (LinesReplaced(once, key, next', second) == LinesReplaced(lines, key, next, second)
          <==> next.None? || !BlankOrComment(first[|first| - 1]))
  {
    NextKeyAfter(lines, key, entries, first, moved);
    ReplacedTwice(lines, key, NextKey(entries, key), first, second);
  }

  lemma {:induction false} HoldsText(line: string)
    requires line != "" && !IsUnicodeSpace(line[0]) && line[0] != '#'
    ensures !BlankOrComment(line)
  {
    assert line[0] in line;
  }

  /** A first text that ends in an empty line: the second replacement leaves that line behind. */
  lemma {:induction false} FirstTextLeavesALine()
    ensures var lines, first, second := ["a:", "b:"], ["a: 1", ""], ["a: 2"];
      && LinesReplaced(lines, 0, Some(1), first) == ["a: 1", "", "b:"]
      && LinesReplaced(["a: 1", "", "b:"], 0, Some(2), second) == ["a: 2", "", "b:"]
      && LinesReplaced(lines, 0, Some(1), second) == ["a: 2", "b:"]
      && RootKeys(lines, [0, 1]) && NextKey([0, 1], 0) == Some(1) && AreMoved(lines, 0, [0, 1], first, [0, 2])
  {
    var once := ["a: 1", "", "b:"];
    HoldsText("a: 1");
    HoldsText("a:");
    assert BlankOrComment("");
    assert TopOfLead(once, 0, 2) == TopOfLead(once, 0, 1) == 1;
    assert TopOfLead(["a:", "b:"], 0, 1) == 1;
    assert once[1..] == ["", "b:"] && ["a:", "b:"][1..] == ["b:"];
    HoldsText("b:");
    assert [0, 1][1..] == [1] && NextKey([1], 0) == Some(1);
  }

  /** A comment above the next key stays with it. */
  lemma {:induction false} CommentStays(text: string)
    ensures LinesReplaced(["a:", "#" + text, "b:"], 0, Some(2), ["a: 1"]) == ["a: 1", "#" + text, "b:"]
  {
    var lines := ["a:", "#" + text, "b:"];
    HoldsText("a:");
    assert Comment("#" + text);
    assert TopOfLead(lines, 0, 2) == TopOfLead(lines, 0, 1) == 1;
    assert lines[1..] == ["#" + text, "b:"] && lines[..0] + ["a: 1"] == ["a: 1"];
  }
}
