/** `applyTextEdits` (internal/lsp/check.go): sort the edits bottom to top, drop overlapping ones in
    place, then splice line by line. The reference is simultaneous application to the original text,
    as the "TextEdit[]" section of the Language Server Protocol 3.17 requires.
    A `char` stands for one byte of the document. */
module TextEdits {

  import opened Lines
  import opened Options

  // ---------------------------------------------------------------- positions

  datatype Position = Position(line: nat, column: nat)

  datatype TextEdit = TextEdit(start: Position, end: Position, newText: string)

  predicate AtOrBefore(p: Position, q: Position) {
    p.line < q.line || (p.line == q.line && p.column <= q.column)
  }

  predicate Before(p: Position, q: Position) {
    AtOrBefore(p, q) && p != q
  }

  /** The position addresses a byte boundary of the document. */
  predicate Inside(lines: seq<string>, p: Position) {
    p.line < |lines| && p.column <= |lines[p.line]|
  }

  predicate PastEnd(lines: seq<string>, p: Position) {
    p.line >= |lines|
  }

  /** A position past the last line means the end of the document. */
  function Clamp(lines: seq<string>, p: Position): Position
    requires lines != []
  {
    if PastEnd(lines, p) then Position(|lines| - 1, |lines[|lines| - 1]|) else p
  }

  /** Byte offset of a position of the document. */
  function Offset(lines: seq<string>, p: Position): nat
    requires Inside(lines, p)
  {
    LineStart(lines, p.line) + p.column
  }

  lemma CutInside(a: string, l: string, b: string, column: nat)
    requires column <= |l|
    ensures (a + (l + "\n" + b))[..|a| + column] == a + l[..column]
    ensures (a + (l + "\n" + b))[|a| + column..] == l[column..] + "\n" + b
  {
  }

  /** A text cut at an inside position. */
  lemma CutAt(lines: seq<string>, p: Position)
    requires Inside(lines, p)
    ensures Offset(lines, p) <= |Unlines(lines)| - 1
    ensures Unlines(lines)[..Offset(lines, p)] == Unlines(lines[..p.line]) + lines[p.line][..p.column]
    ensures Unlines(lines)[Offset(lines, p)..] == lines[p.line][p.column..] + "\n" + Unlines(lines[p.line + 1..])
  {
    UnlinesAround(lines, p.line);
    CutInside(Unlines(lines[..p.line]), lines[p.line], Unlines(lines[p.line + 1..]), p.column);
  }

  lemma OffsetMonotone(lines: seq<string>, p: Position, q: Position)
    requires Inside(lines, p) && Inside(lines, q) && AtOrBefore(p, q)
    ensures Offset(lines, p) <= Offset(lines, q)
  {
    if p.line < q.line {
      LineStartMonotone(lines, p.line, q.line);
    }
  }

  function Newlines(s: string): nat {
    if s == "" then 0 else (if s[0] == '\n' then 1 else 0) + Newlines(s[1..])
  }

  lemma NewlinesConcat(a: string, b: string)
    ensures Newlines(a + b) == Newlines(a) + Newlines(b)
  {
    if a == "" {
      assert a + b == b;
    } else {
      assert (a + b)[1..] == a[1..] + b;
      NewlinesConcat(a[1..], b);
    }
  }

  lemma NewlinesUnlines(lines: seq<string>)
    requires forall l <- lines :: '\n' !in l
    ensures Newlines(Unlines(lines)) == |lines|
  {
    if lines != [] {
      NewlinesUnlines(lines[1..]);
      NewlinesConcat(lines[0] + "\n", Unlines(lines[1..]));
      NewlinesConcat(lines[0], "\n");
      NoNewlines(lines[0]);
    }
  }

  lemma NoNewlines(s: string)
    requires '\n' !in s
    ensures Newlines(s) == 0
  {
  }

  /** What an offset means in the text itself: exactly `line` newlines come before it, and the last
      of them is `column` bytes back (or the text starts there). */
  lemma {:induction false} OffsetMeaning(content: string, p: Position)
    requires Inside(Split(content), p)
    ensures var o := Offset(Split(content), p);
      && p.column <= o <= |content|
      && Newlines(content[..o]) == p.line
      && '\n' !in content[o - p.column..o]
      && (o == p.column || content[o - p.column - 1] == '\n')
  {
    var lines := Split(content);
    var o := Offset(lines, p);
    CutAt(lines, p);
    UnlinesSplit(content);
    var before, column := Unlines(lines[..p.line]), lines[p.line][..p.column];
    assert content[..o] == (content + "\n")[..o] == before + column;
    NewlinesUnlines(lines[..p.line]);
    NewlinesConcat(before, column);
    assert lines[p.line] in lines;
    NoNewlines(column);
    assert content[o - p.column..o] == column;
    if p.line > 0 {
      UnlinesEndsInNewline(lines[..p.line]);
      assert before[|before| - 1] == content[..o][o - p.column - 1];
    }
  }

  lemma UnlinesEndsInNewline(lines: seq<string>)
    requires lines != []
    ensures Unlines(lines) != "" && Unlines(lines)[|Unlines(lines)| - 1] == '\n'
  {
    UnlinesJoin(lines);
  }

  // ---------------------------------------------------------------- simultaneous application

  /** A replacement in byte offsets of the original text. */
  datatype Span = Span(start: nat, end: nat, text: string)

  predicate SpansFrom(length: nat, from: nat, spans: seq<Span>)
    decreases spans
  {
    if spans == [] then from <= length
    else from <= spans[0].start <= spans[0].end && SpansFrom(length, spans[0].end, spans[1..])
  }

  lemma SpansFromBound(length: nat, from: nat, spans: seq<Span>)
    requires SpansFrom(length, from, spans)
    ensures from <= length
    ensures forall s <- spans :: from <= s.start <= s.end <= length
    decreases spans
  {
    if spans != [] {
      SpansFromBound(length, spans[0].end, spans[1..]);
    }
  }

  /** All replacements at once: the gaps of the original text interleaved with the new texts. */
  function Woven(text: string, from: nat, spans: seq<Span>): string
    requires SpansFrom(|text|, from, spans)
    decreases spans
  {
    if spans == [] then text[from..]
    else
      SpansFromBound(|text|, from, spans);
      text[from..spans[0].start] + spans[0].text + Woven(text, spans[0].end, spans[1..])
  }

  /** Prepending the next lower replacement is one splice of the text woven so far. */
  lemma {:induction false} WeaveOneMore(text: string, s: Span, above: seq<Span>)
    requires s.start <= s.end && SpansFrom(|text|, s.end, above)
    ensures SpansFrom(|text|, 0, above) && SpansFrom(|text|, 0, [s] + above)
    ensures s.end <= |Woven(text, 0, above)|
    ensures Woven(text, 0, [s] + above) == Woven(text, 0, above)[..s.start] + s.text + Woven(text, 0, above)[s.end..]
  {
    SpansFromBound(|text|, s.end, above);
    assert ([s] + above)[1..] == above;
    assert Woven(text, 0, above) == text[..s.end] + Woven(text, s.end, above);
    assert Woven(text, 0, above)[..s.start] == text[0..s.start];
    assert Woven(text, 0, above)[s.end..] == Woven(text, s.end, above);
  }

  function SpanOf(lines: seq<string>, e: TextEdit): Span
    requires lines != [] && WellPlaced(lines, e)
  {
    Span(Offset(lines, Clamp(lines, e.start)), Offset(lines, Clamp(lines, e.end)), e.newText)
  }

  /** The spans of a list of edits given from the bottom of the document to the top. */
  function Ascending(lines: seq<string>, kept: seq<TextEdit>): (spans: seq<Span>)
    requires lines != []
    requires forall e <- kept :: WellPlaced(lines, e)
    ensures |spans| == |kept|
  {
    if kept == [] then []
    else [SpanOf(lines, kept[|kept| - 1])] + Ascending(lines, kept[..|kept| - 1])
  }

  // ---------------------------------------------------------------- which inputs are covered

  /** Start not after end, and both positions inside the document or past its last line. */
  predicate WellPlaced(lines: seq<string>, e: TextEdit) {
    && AtOrBefore(e.start, e.end)
    && (PastEnd(lines, e.start) || Inside(lines, e.start))
    && (PastEnd(lines, e.end) || Inside(lines, e.end))
  }

  /** An edit that starts past the end of the document tolerates no second edit reaching past it. */
  predicate OneTail(lines: seq<string>, edits: seq<TextEdit>) {
    forall e <- edits, f <- edits | PastEnd(lines, e.start) && PastEnd(lines, f.end) ::
      e == f && multiset(edits)[e] == 1
  }

  predicate Applicable(content: string, edits: seq<TextEdit>) {
    (forall e <- edits :: WellPlaced(Split(content), e)) && OneTail(Split(content), edits)
  }

  // ---------------------------------------------------------------- overlap removal

  predicate Descending(edits: seq<TextEdit>) {
    forall i, j | 0 <= i < j < |edits| :: AtOrBefore(edits[j].start, edits[i].start)
  }

  /** What the greedy scan keeps of `rest` once `prev` is the last edit kept. */
  function KeptBelow(prev: TextEdit, rest: seq<TextEdit>): seq<TextEdit>
    decreases rest
  {
    if rest == [] then []
    else if AtOrBefore(rest[0].end, prev.start) then [rest[0]] + KeptBelow(rest[0], rest[1..])
    else KeptBelow(prev, rest[1..])
  }

  function Kept(sorted: seq<TextEdit>): seq<TextEdit> {
    if sorted == [] then [] else [sorted[0]] + KeptBelow(sorted[0], sorted[1..])
  }

  /** sort.Slice is not stable: any descending permutation may come out, and callers may rely on no more. */
  method SortDescending(a: array<TextEdit>)
    modifies a
    ensures Descending(a[..])
    ensures multiset(a[..]) == multiset(old(a[..]))
  {
    ghost var unsorted := a[..];
    for n := 0 to a.Length
      invariant Descending(a[..n])
      invariant a[n..] == unsorted[n..]
      invariant multiset(a[..n]) == multiset(unsorted[..n])
    {
      ghost var was := a[..];
      assert a[n..] == was[n..] && was[n] == unsorted[n];
      assert unsorted[..n + 1] == unsorted[..n] + [was[n]];
      assert a[..n + 1] == a[..n] + [was[n]];
      assert a[n + 1..] == a[n..][1..] == unsorted[n..][1..] == unsorted[n + 1..];
      InsertLast(a, n);
    }
    assert a[..a.Length] == a[..];
    assert unsorted[..a.Length] == unsorted;
  }

  /** Sorted except that the element at j may still belong further left. */
  predicate DescendingBut(edits: seq<TextEdit>, j: nat) {
    forall x, y | 0 <= x < y < |edits| && y != j :: AtOrBefore(edits[y].start, edits[x].start)
  }

  lemma SwapKeepsOrder(edits: seq<TextEdit>, j: nat)
    requires 0 < j < |edits| && DescendingBut(edits, j) && Before(edits[j - 1].start, edits[j].start)
    ensures DescendingBut(edits[j - 1 := edits[j]][j := edits[j - 1]], j - 1)
  {
  }

  lemma SwapKeepsElements(edits: seq<TextEdit>, j: nat)
    requires 0 < j < |edits|
    ensures multiset(edits[j - 1 := edits[j]][j := edits[j - 1]]) == multiset(edits)
  {
  }

  lemma LastMayBeUnordered(edits: seq<TextEdit>)
    requires edits != [] && Descending(edits[..|edits| - 1])
    ensures DescendingBut(edits, |edits| - 1)
  {
    forall x, y | 0 <= x < y < |edits| - 1 ensures AtOrBefore(edits[y].start, edits[x].start) {
      assert edits[..|edits| - 1][x] == edits[x] && edits[..|edits| - 1][y] == edits[y];
    }
  }

  lemma InOrder(edits: seq<TextEdit>, j: nat)
    requires j < |edits| && DescendingBut(edits, j) && (j == 0 || !Before(edits[j - 1].start, edits[j].start))
    ensures Descending(edits)
  {
    forall x | 0 <= x < j ensures AtOrBefore(edits[j].start, edits[x].start) {
      assert x < j - 1 ==> AtOrBefore(edits[j - 1].start, edits[x].start);
    }
  }

  method InsertLast(a: array<TextEdit>, n: nat)
    requires n < a.Length && Descending(a[..n])
    modifies a
    ensures Descending(a[..n + 1])
    ensures multiset(a[..n + 1]) == multiset(old(a[..n + 1]))
    ensures a[n + 1..] == old(a[n + 1..])
  {
    var j := n;
    assert a[..n + 1][..n] == a[..n];
    LastMayBeUnordered(a[..n + 1]);
    while j > 0 && Before(a[j - 1].start, a[j].start)
      invariant 0 <= j <= n && DescendingBut(a[..n + 1], j)
      invariant multiset(a[..n + 1]) == multiset(old(a[..n + 1]))
      invariant a[n + 1..] == old(a[n + 1..])
    {
      ghost var was := a[..n + 1];
      SwapKeepsOrder(was, j);
      SwapKeepsElements(was, j);
      a[j - 1], a[j] := a[j], a[j - 1];
      assert a[..n + 1] == was[j - 1 := was[j]][j := was[j - 1]];
      j := j - 1;
    }
    InOrder(a[..n + 1], j);
  }

  /** The in-place compaction through `sorted[:0]`: reads run ahead of writes on one backing array. */
  method RemoveOverlaps(a: array<TextEdit>) returns (kept: nat)
    modifies a
    ensures kept <= a.Length
    ensures a[..kept] == Kept(old(a[..]))
  {
    kept := 0;
    ghost var sorted := a[..];
    var i := 0;
    while i < a.Length
      invariant kept <= i <= a.Length
      invariant i == 0 ==> kept == 0
      invariant i > 0 ==> kept > 0 && a[..kept] + KeptBelow(a[kept - 1], sorted[i..]) == Kept(sorted)
      invariant a[i..] == sorted[i..]
    {
      var edit := a[i];
      assert edit == sorted[i] && sorted[i..][1..] == sorted[i + 1..];
      ghost var before := a[..kept];
      if i > 0 && !AtOrBefore(edit.end, a[kept - 1].start) {
      } else {
        a[kept] := edit;
        kept := kept + 1;
        assert a[..kept] == before + [edit];
        assert a[i + 1..] == sorted[i + 1..];
      }
      i := i + 1;
    }
    assert sorted[a.Length..] == [];
  }

  /** Each kept edit ends where or before the previously kept one starts. */
  ghost predicate Chained(kept: seq<TextEdit>) {
    forall i | 0 < i < |kept| :: AtOrBefore(kept[i].end, kept[i - 1].start)
  }

  lemma KeptBelowFacts(prev: TextEdit, rest: seq<TextEdit>)
    ensures Chained([prev] + KeptBelow(prev, rest))
    ensures multiset(KeptBelow(prev, rest)) <= multiset(rest)
    decreases rest
  {
    if rest != [] {
      assert rest == [rest[0]] + rest[1..];
      KeptBelowFacts(if AtOrBefore(rest[0].end, prev.start) then rest[0] else prev, rest[1..]);
    }
  }

  lemma KeptFacts(sorted: seq<TextEdit>)
    ensures Chained(Kept(sorted))
    ensures multiset(Kept(sorted)) <= multiset(sorted)
  {
    if sorted != [] {
      KeptBelowFacts(sorted[0], sorted[1..]);
      assert sorted == [sorted[0]] + sorted[1..];
    }
  }

  // ---------------------------------------------------------------- what all kept edits at once mean

  /** Edits from the bottom of the document up that can be applied at once. */
  ghost predicate Placed(content: string, kept: seq<TextEdit>) {
    (forall e <- kept :: WellPlaced(Split(content), e)) && Chained(kept)
  }

  /** The simultaneous application of the edits to the original text. */
  ghost function AtOnce(content: string, kept: seq<TextEdit>): string
    requires Placed(content, kept)
  {
    PlacedSpans(content, kept);
    Woven(content, 0, Ascending(Split(content), kept))
  }

  lemma {:induction false} EndOfText(content: string)
    ensures var lines := Split(content);
      Offset(lines, Position(|lines| - 1, |lines[|lines| - 1]|)) == |content|
  {
    var lines := Split(content);
    var end := Position(|lines| - 1, |lines[|lines| - 1]|);
    CutAt(lines, end);
    UnlinesSplit(content);
    assert lines[end.line + 1..] == [] && lines[end.line][end.column..] == "";
    assert |Unlines(lines)[Offset(lines, end)..]| == |"" + "\n" + Unlines([])| == 1;
  }

  /** Clamping keeps the order of positions, and no offset exceeds the length of the text. */
  lemma {:induction false} ClampedOffsets(content: string, p: Position, q: Position)
    requires AtOrBefore(p, q)
    requires Inside(Split(content), Clamp(Split(content), p)) && Inside(Split(content), Clamp(Split(content), q))
    ensures Offset(Split(content), Clamp(Split(content), p)) <= Offset(Split(content), Clamp(Split(content), q))
    ensures Offset(Split(content), Clamp(Split(content), q)) <= |content|
  {
    var lines := Split(content);
    var end := Position(|lines| - 1, |lines[|lines| - 1]|);
    EndOfText(content);
    OffsetMonotone(lines, Clamp(lines, p), Clamp(lines, q));
    OffsetMonotone(lines, Clamp(lines, q), end);
  }

  /** The spans of placed edits are in order and do not overlap. */
  lemma {:induction false} PlacedSpans(content: string, kept: seq<TextEdit>)
    requires Placed(content, kept)
    ensures SpansFrom(|content|, 0, Ascending(Split(content), kept))
    ensures kept != [] ==>
      SpansFrom(|content|, SpanOf(Split(content), kept[|kept| - 1]).start, Ascending(Split(content), kept))
    decreases kept
  {
    if kept != [] {
      var lines, n, e := Split(content), |kept| - 1, kept[|kept| - 1];
      var above := Ascending(lines, kept[..n]);
      assert e in kept && forall f <- kept[..n] :: f in kept;
      PlacedSpans(content, kept[..n]);
      assert Ascending(lines, kept)[1..] == above;
      if n > 0 {
        assert kept[n - 1] in kept;
        OneSpanBelow(content, e, kept[n - 1], above);
      } else {
        ClampedOffsets(content, e.start, e.end);
      }
    }
  }

  lemma {:induction false} OneSpanBelow(content: string, e: TextEdit, next: TextEdit, above: seq<Span>)
    requires WellPlaced(Split(content), e) && WellPlaced(Split(content), next) && AtOrBefore(e.end, next.start)
    requires SpansFrom(|content|, SpanOf(Split(content), next).start, above)
    ensures var s := SpanOf(Split(content), e); s.start <= s.end && SpansFrom(|content|, s.end, above)
  {
    ClampedOffsets(content, e.start, e.end);
    ClampedOffsets(content, e.end, next.start);
    SpansFromLower(|content|, SpanOf(Split(content), next).start, SpanOf(Split(content), e).end, above);
  }

  lemma SpansFromLower(length: nat, from: nat, lower: nat, spans: seq<Span>)
    requires lower <= from && SpansFrom(length, from, spans)
    ensures SpansFrom(length, lower, spans)
  {
  }

  // ---------------------------------------------------------------- line splices

  /** The body of the splice loop on one edit. */
  function SpliceLines(lines: seq<string>, start: Position, end: Position, newText: string): (spliced: seq<string>)
    requires Inside(lines, start) && Inside(lines, end)
    ensures spliced != []
  {
    var replacement := lines[start.line][..start.column] + newText + lines[end.line][end.column..];
    lines[..start.line] + Split(replacement) + lines[end.line + 1..]
  }

  /** One iteration of the loop; none where the code indexes a line past its end and stops with an error. */
  function SpliceOne(lines: seq<string>, edit: TextEdit): (spliced: Option<seq<string>>)
    requires lines != []
    ensures spliced.Some? ==> spliced.value != []
  {
    var start, end := Clamp(lines, edit.start), Clamp(lines, edit.end);
    if Inside(lines, start) && Inside(lines, end) then Some(SpliceLines(lines, start, end, edit.newText)) else None
  }

  /** The whole loop: positions past the last line are clamped to the lines as they are by then. */
  function SpliceLoop(lines: seq<string>, kept: seq<TextEdit>): (spliced: Option<seq<string>>)
    requires lines != []
    ensures spliced.Some? ==> spliced.value != []
    decreases kept
  {
    if kept == [] then Some(lines)
    else
      var next := SpliceOne(lines, kept[0]);
      if next.None? then None else SpliceLoop(next.value, kept[1..])
  }

  function LoopResult(content: string, kept: seq<TextEdit>): Option<string> {
    var spliced := SpliceLoop(Split(content), kept);
    if spliced.None? then None else Some(Join(spliced.value))
  }

  lemma {:induction false} SpliceText(lines: seq<string>, start: Position, end: Position, newText: string)
    requires Inside(lines, start) && Inside(lines, end) && AtOrBefore(start, end)
    ensures Offset(lines, start) <= Offset(lines, end) < |Unlines(lines)|
    ensures Unlines(SpliceLines(lines, start, end, newText))
         == Unlines(lines)[..Offset(lines, start)] + newText + Unlines(lines)[Offset(lines, end)..]
  {
    CutAt(lines, start);
    CutAt(lines, end);
    OffsetMonotone(lines, start, end);
    SplicedUnlines(lines, start, end, newText);
    var a, b := Unlines(lines[..start.line]), Unlines(lines[end.line + 1..]);
    var prefix, suffix := lines[start.line][..start.column], lines[end.line][end.column..];
    RegroupSplice(a, prefix, newText, suffix, b);
  }

  lemma RegroupSplice(a: string, prefix: string, text: string, suffix: string, b: string)
    ensures a + (prefix + text + suffix + "\n") + b == (a + prefix) + text + (suffix + "\n" + b)
  {
  }

  lemma {:induction false} SplicedUnlines(lines: seq<string>, start: Position, end: Position, newText: string)
    requires Inside(lines, start) && Inside(lines, end)
    ensures Unlines(SpliceLines(lines, start, end, newText))
         == Unlines(lines[..start.line])
          + (lines[start.line][..start.column] + newText + lines[end.line][end.column..] + "\n")
          + Unlines(lines[end.line + 1..])
  {
    var replacement := lines[start.line][..start.column] + newText + lines[end.line][end.column..];
    UnlinesSplit(replacement);
    UnlinesConcat(lines[..start.line] + Split(replacement), lines[end.line + 1..]);
    UnlinesConcat(lines[..start.line], Split(replacement));
  }

  /** `lines` still equals the original document up to the position `limit`. */
  ghost predicate AgreesUpTo(lines: seq<string>, original: seq<string>, limit: Position) {
    && Inside(original, limit) && Inside(lines, limit)
    && lines[..limit.line] == original[..limit.line]
    && lines[limit.line][..limit.column] == original[limit.line][..limit.column]
  }

  lemma AgreementBelow(lines: seq<string>, original: seq<string>, limit: Position, p: Position)
    requires AgreesUpTo(lines, original, limit)
    requires Inside(original, p) && AtOrBefore(p, limit)
    ensures AgreesUpTo(lines, original, p)
    ensures Offset(lines, p) == Offset(original, p)
  {
    assert lines[..p.line] == lines[..limit.line][..p.line];
    assert original[..p.line] == original[..limit.line][..p.line];
    if p.line < limit.line {
      assert lines[p.line] == lines[..limit.line][p.line];
      assert original[p.line] == original[..limit.line][p.line];
    } else {
      assert lines[p.line][..p.column] == lines[p.line][..limit.column][..p.column];
      assert original[p.line][..p.column] == original[p.line][..limit.column][..p.column];
    }
  }

  lemma {:induction false} SpliceAgrees(lines: seq<string>, original: seq<string>, start: Position, end: Position,
                                        newText: string)
    requires AgreesUpTo(lines, original, start) && Inside(lines, end)
    requires '\n' !in original[start.line]
    ensures AgreesUpTo(SpliceLines(lines, start, end, newText), original, start)
  {
    var prefix, suffix := lines[start.line][..start.column], lines[end.line][end.column..];
    var spliced := SpliceLines(lines, start, end, newText);
    assert prefix + newText + suffix == prefix + (newText + suffix);
    FirstLinePrefix(prefix, newText + suffix);
    assert spliced[start.line] == Split(prefix + newText + suffix)[0];
    assert spliced[..start.line] == lines[..start.line];
  }

  // ---------------------------------------------------------------- the whole operation

  /** No edit after the first reaches past the last line. */
  predicate NoLateTail(lines: seq<string>, kept: seq<TextEdit>) {
    forall i | 0 < i < |kept| :: !PastEnd(lines, kept[i].end)
  }

  /** Facts about the kept edits of an applicable request, in the shape the splice loop uses. */
  lemma {:induction false} KeptPlacement(content: string, edits: seq<TextEdit>, sorted: seq<TextEdit>)
    requires Applicable(content, edits) && multiset(sorted) == multiset(edits)
    ensures Placed(content, Kept(sorted)) && NoLateTail(Split(content), Kept(sorted))
  {
    var lines, kept := Split(content), Kept(sorted);
    KeptFacts(sorted);
    forall e | e in kept ensures WellPlaced(lines, e) {
      assert e in multiset(kept) && e in multiset(edits);
    }
    forall i | 0 < i < |kept| ensures !PastEnd(lines, kept[i].end) {
      assert kept == kept[..i - 1] + [kept[i - 1]] + [kept[i]] + kept[i + 1..];
      assert kept[i] in multiset(edits) && kept[i - 1] in multiset(edits);
    }
  }

  /** Where the text below which `lines` may already differ from the original begins. */
  ghost function Limit(original: seq<string>, kept: seq<TextEdit>, i: nat): Position
    requires original != [] && i <= |kept|
  {
    if i == 0 then Position(|original| - 1, |original[|original| - 1]|) else Clamp(original, kept[i - 1].start)
  }

  /** What the splice loop has established after `i` kept edits. */
  ghost predicate Spliced(content: string, kept: seq<TextEdit>, i: nat, lines: seq<string>) {
    && i <= |kept|
    && (forall e <- kept :: WellPlaced(Split(content), e))
    && (i == 0 ==> lines == Split(content))
    && AgreesUpTo(lines, Split(content), Limit(Split(content), kept, i))
    && SpansFrom(|content|, Offset(Split(content), Limit(Split(content), kept, i)),
      Ascending(Split(content), kept[..i]))
    && SpansFrom(|content|, 0, Ascending(Split(content), kept[..i]))
    && Unlines(lines) == Woven(content, 0, Ascending(Split(content), kept[..i])) + "\n"
  }

  lemma {:induction false} SplicedInitially(content: string, kept: seq<TextEdit>)
    requires forall e <- kept :: WellPlaced(Split(content), e)
    ensures Spliced(content, kept, 0, Split(content))
  {
    EndOfText(content);
    UnlinesSplit(content);
    assert kept[..0] == [] && Ascending(Split(content), []) == [];
    assert Woven(content, 0, []) == content;
  }

  /** The clamped ends of the next kept edit lie in the part of the document still untouched. */
  lemma {:induction false} NextInReach(content: string, kept: seq<TextEdit>, i: nat, lines: seq<string>)
    requires Spliced(content, kept, i, lines) && i < |kept| && Chained(kept)
    requires i > 0 ==> !PastEnd(Split(content), kept[i].end)
    ensures var original, start, end := Split(content), Clamp(Split(content), kept[i].start),
      Clamp(Split(content), kept[i].end);
      && lines != [] && start == Clamp(lines, kept[i].start) && end == Clamp(lines, kept[i].end)
      && Inside(original, start) && Inside(original, end) && Inside(lines, start) && Inside(lines, end)
      && AtOrBefore(start, end) && AtOrBefore(end, Limit(original, kept, i))
  {
    var original, limit := Split(content), Limit(Split(content), kept, i);
    assert kept[i] in kept;
    var start, end := Clamp(original, kept[i].start), Clamp(original, kept[i].end);
    AgreementBelow(lines, original, limit, end);
    AgreementBelow(lines, original, limit, start);
  }

  /** The lines spliced so far agree with the original up to the next kept edit, so its offsets are the same. */
  lemma {:induction false} SameOffsets(original: seq<string>, lines: seq<string>, limit: Position, start: Position,
                                       end: Position)
    requires AgreesUpTo(lines, original, limit) && Inside(original, start) && Inside(original, end)
    requires AtOrBefore(start, end) && AtOrBefore(end, limit)
    ensures AgreesUpTo(lines, original, start) && Inside(lines, end)
    ensures Offset(lines, start) == Offset(original, start) <= Offset(original, end) == Offset(lines, end)
    ensures Offset(original, end) <= Offset(original, limit)
  {
    AgreementBelow(lines, original, limit, end);
    AgreementBelow(lines, original, limit, start);
    OffsetMonotone(original, start, end);
    OffsetMonotone(original, end, limit);
  }

  /** One splice of the lines adds one span to the woven text. */
  lemma {:induction false} TextNext(content: string, from: nat, above: seq<Span>, lines: seq<string>,
                                    start: Position, end: Position, span: Span)
    requires Inside(lines, start) && Inside(lines, end) && AtOrBefore(start, end)
    requires span == Span(Offset(lines, start), Offset(lines, end), span.text) && span.start <= span.end <= from
    requires SpansFrom(|content|, from, above) && SpansFrom(|content|, 0, above)
    requires Unlines(lines) == Woven(content, 0, above) + "\n"
    ensures SpansFrom(|content|, span.start, [span] + above) && SpansFrom(|content|, 0, [span] + above)
    ensures Unlines(SpliceLines(lines, start, end, span.text)) == Woven(content, 0, [span] + above) + "\n"
  {
    SpansFromLower(|content|, from, span.end, above);
    assert ([span] + above)[1..] == above;
    WeaveOneMore(content, span, above);
    SpliceText(lines, start, end, span.text);
    BeforeFinalNewline(Woven(content, 0, above), span);
  }

  lemma {:induction false} SplicedNext(content: string, kept: seq<TextEdit>, i: nat, lines: seq<string>)
    requires Spliced(content, kept, i, lines) && i < |kept| && Chained(kept)
    requires i > 0 ==> !PastEnd(Split(content), kept[i].end)
    ensures lines != []
    ensures var start, end := Clamp(lines, kept[i].start), Clamp(lines, kept[i].end);
      && Inside(lines, start) && Inside(lines, end)
      && Spliced(content, kept, i + 1, SpliceLines(lines, start, end, kept[i].newText))
  {
    var original, limit := Split(content), Limit(Split(content), kept, i);
    NextInReach(content, kept, i, lines);
    var start, end := Clamp(original, kept[i].start), Clamp(original, kept[i].end);
    SameOffsets(original, lines, limit, start, end);
    assert original[start.line] in original;
    SpliceAgrees(lines, original, start, end, kept[i].newText);
    var above, span := Ascending(original, kept[..i]), SpanOf(original, kept[i]);
    assert kept[..i + 1][..i] == kept[..i];
    assert Ascending(original, kept[..i + 1]) == [span] + above;
    TextNext(content, Offset(original, limit), above, lines, start, end, span);
  }

  lemma BeforeFinalNewline(woven: string, s: Span)
    requires s.start <= s.end <= |woven|
    ensures (woven + "\n")[..s.start] + s.text + (woven + "\n")[s.end..]
      == woven[..s.start] + s.text + woven[s.end..] + "\n"
  {
  }

  /** The result is the simultaneous application, to the original text, of the edits kept from some
      descending order of the request. */
  ghost predicate AppliedTo(content: string, sorted: seq<TextEdit>, result: string) {
    Placed(content, Kept(sorted)) && result == AtOnce(content, Kept(sorted))
  }

  /** One iteration of the splice loop. */
  method SpliceEdit(lines: seq<string>, edit: TextEdit) returns (newLines: Option<seq<string>>)
    requires lines != []
    ensures newLines == SpliceOne(lines, edit)
  {
    var start, end := edit.start, edit.end;
    if start.line >= |lines| {
      start := Position(|lines| - 1, |lines[|lines| - 1]|);
    }
    if end.line >= |lines| {
      end := Position(|lines| - 1, |lines[|lines| - 1]|);
    }
    if start.column > |lines[start.line]| || end.column > |lines[end.line]| {
      return None;
    }
    var prefix := lines[start.line][..start.column];
    var suffix := lines[end.line][end.column..];
    var replacementLines := Split(prefix + edit.newText + suffix);
    newLines := Some(lines[..start.line] + replacementLines + lines[end.line + 1..]);
  }

  predicate IsSorting(sorted: seq<TextEdit>, edits: seq<TextEdit>) {
    multiset(sorted) == multiset(edits) && Descending(sorted)
  }

  /** The result of the request for one of the orders a sort may leave its edits in. */
  ghost predicate IsResult(content: string, edits: seq<TextEdit>, result: string) {
    exists sorted :: IsSorting(sorted, edits) && AppliedTo(content, sorted, result)
  }

  /** The splice loop runs on the edits kept from one of those orders. */
  ghost predicate IsOutcome(content: string, edits: seq<TextEdit>, outcome: Option<string>) {
    exists sorted :: IsSorting(sorted, edits) && outcome == LoopResult(content, Kept(sorted))
  }

  /** None stands for the index error that ends the program. */
  method ApplyTextEdits(content: string, edits: seq<TextEdit>) returns (result: Option<string>)
    ensures IsOutcome(content, edits, result)
    ensures Applicable(content, edits) ==> result.Some? && IsResult(content, edits, result.value)
  {
    if |edits| == 0 {
      NothingToApply(content);
      assert IsSorting([], edits);
      return Some(content);
    }
    var a := new TextEdit[|edits|](i requires 0 <= i < |edits| => edits[i]);
    assert a[..] == edits;
    SortDescending(a);
    ghost var sorted := a[..];
    var n := RemoveOverlaps(a);
    result := SpliceAll(content, a[..n]);
    assert IsSorting(sorted, edits);
    if Applicable(content, edits) {
      KeptPlacement(content, edits, sorted);
      Composes(content, Kept(sorted));
      assert AppliedTo(content, sorted, result.value);
    }
  }

  lemma {:induction false} NothingToApply(content: string)
    ensures LoopResult(content, Kept([])) == Some(content)
    ensures AppliedTo(content, [], content)
  {
    JoinSplit(content);
    assert Ascending(Split(content), []) == [];
  }

  /** The splice loop over the kept edits, from the bottom of the document up. */
  method SpliceAll(content: string, kept: seq<TextEdit>) returns (result: Option<string>)
    ensures result == LoopResult(content, kept)
  {
    var lines := Split(content);
    for i := 0 to |kept|
      invariant lines != [] && SpliceLoop(Split(content), kept) == SpliceLoop(lines, kept[i..])
    {
      assert kept[i..][1..] == kept[i + 1..];
      var newLines := SpliceEdit(lines, kept[i]);
      if newLines.None? {
        return None;
      }
      lines := newLines.value;
    }
    result := Some(Join(lines));
  }

  /** Where the loop goes once it has spliced the first `i` edits. */
  lemma {:induction false} SplicedToTheEnd(content: string, kept: seq<TextEdit>, i: nat, lines: seq<string>)
    returns (last: seq<string>)
    requires Placed(content, kept) && NoLateTail(Split(content), kept)
    requires lines != [] && Spliced(content, kept, i, lines)
    ensures SpliceLoop(lines, kept[i..]) == Some(last) && Spliced(content, kept, |kept|, last)
    decreases |kept| - i
  {
    if i == |kept| {
      last := lines;
    } else {
      SplicedNext(content, kept, i, lines);
      assert kept[i..][1..] == kept[i + 1..];
      last := SplicedToTheEnd(content, kept, i + 1, SpliceOne(lines, kept[i]).value);
    }
  }

  /** Unless an edit after the first reaches past the end of the document, splicing one edit after another is
      applying all of them at once. */
  lemma {:induction false} Composes(content: string, kept: seq<TextEdit>)
    requires Placed(content, kept) && NoLateTail(Split(content), kept)
    ensures LoopResult(content, kept) == Some(AtOnce(content, kept))
  {
    var lines := SplicedBefore(content, kept);
    assert kept[..|kept|] == kept;
    UnlinesJoin(lines);
    SameBeforeNewline(Join(lines), AtOnce(content, kept));
  }

  lemma {:induction false} LoopInTwo(lines: seq<string>, a: seq<TextEdit>, b: seq<TextEdit>)
    requires lines != []
    ensures SpliceLoop(lines, a + b)
         == if SpliceLoop(lines, a).None? then None else SpliceLoop(SpliceLoop(lines, a).value, b)
    decreases a
  {
    if a == [] {
      assert a + b == b;
    } else {
      assert (a + b)[1..] == a[1..] + b;
      if SpliceOne(lines, a[0]).Some? {
        LoopInTwo(SpliceOne(lines, a[0]).value, a[1..], b);
      }
    }
  }

  /** No edit after the first reaches past the last character. */
  predicate NoLateEnd(lines: seq<string>, kept: seq<TextEdit>)
    requires lines != []
  {
    forall i | 0 < i < |kept| :: AtOrBefore(kept[i].end, Position(|lines| - 1, |lines[|lines| - 1]|))
  }

  /** For edits that address the document it is the same as no late tail. */
  lemma {:induction false} LateEnds(content: string, kept: seq<TextEdit>)
    requires Placed(content, kept)
    ensures NoLateEnd(Split(content), kept) <==> NoLateTail(Split(content), kept)
  {
    forall i | 0 < i < |kept|
      ensures AtOrBefore(kept[i].end, Position(|Split(content)| - 1, |Split(content)[|Split(content)| - 1]|))
        <==> !PastEnd(Split(content), kept[i].end)
    {
      assert kept[i] in kept;
    }
  }

  /** Below the last edit spliced the lines are the original ones, so a column is past the end of its line now
      exactly when it was so in the original. */
  lemma {:induction false} SameColumns(lines: seq<string>, original: seq<string>, limit: Position, p: Position)
    requires AgreesUpTo(lines, original, limit) && AtOrBefore(p, limit)
    ensures !PastEnd(lines, p) && !PastEnd(original, p) && (Inside(lines, p) <==> Inside(original, p))
  {
    if p.line < limit.line {
      assert lines[p.line] == lines[..limit.line][p.line] && original[p.line] == original[..limit.line][p.line];
    }
  }

  lemma {:induction false} MisplacedStops(content: string, kept: seq<TextEdit>, i: nat, lines: seq<string>)
    requires Chained(kept) && Forward(kept) && NoLateEnd(Split(content), kept) && i < |kept| && lines != []
    requires Spliced(content, kept[..i], i, lines) && !WellPlaced(Split(content), kept[i])
    ensures SpliceOne(lines, kept[i]) == None
  {
    assert kept[i] in kept;
    if i > 0 {
      var limit := Limit(Split(content), kept[..i], i);
      SameColumns(lines, Split(content), limit, kept[i].end);
      SameColumns(lines, Split(content), limit, kept[i].start);
    }
  }

  lemma {:induction false} FirstMisplaced(lines: seq<string>, kept: seq<TextEdit>) returns (i: nat)
    requires exists e <- kept :: !WellPlaced(lines, e)
    ensures i < |kept| && !WellPlaced(lines, kept[i]) && forall e <- kept[..i] :: WellPlaced(lines, e)
    decreases kept
  {
    var n := |kept| - 1;
    assert kept == kept[..n] + [kept[n]];
    if exists e <- kept[..n] :: !WellPlaced(lines, e) {
      i := FirstMisplaced(lines, kept[..n]);
      assert kept[..n][..i] == kept[..i];
    } else {
      i := n;
    }
  }

  /** The index error: while no edit after the first reaches past the last character, the loop stops with it
      exactly when a column of some kept edit is past the end of its line. */
  lemma {:induction false} StopsExactly(content: string, kept: seq<TextEdit>)
    requires Chained(kept) && Forward(kept) && NoLateEnd(Split(content), kept)
    ensures LoopResult(content, kept).None? <==> exists e <- kept :: !WellPlaced(Split(content), e)
  {
    if exists e <- kept :: !WellPlaced(Split(content), e) {
      var i := FirstMisplaced(Split(content), kept);
      StopsAt(content, kept, i);
    } else {
      Composes(content, kept);
    }
  }

  lemma {:induction false} StopsAt(content: string, kept: seq<TextEdit>, i: nat)
    requires Chained(kept) && Forward(kept) && NoLateEnd(Split(content), kept) && i < |kept|
    requires !WellPlaced(Split(content), kept[i]) && forall e <- kept[..i] :: WellPlaced(Split(content), e)
    ensures LoopResult(content, kept).None?
  {
    PrefixPlaced(content, kept, i);
    var lines := SplicedBefore(content, kept[..i]);
    MisplacedStops(content, kept, i, lines);
    assert SpliceLoop(lines, kept[i..]) == None;
    assert kept == kept[..i] + kept[i..];
    LoopInTwo(Split(content), kept[..i], kept[i..]);
  }

  lemma {:induction false} PrefixPlaced(content: string, kept: seq<TextEdit>, i: nat)
    requires Chained(kept) && NoLateEnd(Split(content), kept) && i <= |kept|
    requires forall e <- kept[..i] :: WellPlaced(Split(content), e)
    ensures Placed(content, kept[..i]) && NoLateTail(Split(content), kept[..i])
  {
  }

  lemma {:induction false} SplicedBefore(content: string, kept: seq<TextEdit>) returns (lines: seq<string>)
    requires Placed(content, kept) && NoLateTail(Split(content), kept)
    ensures lines != [] && SpliceLoop(Split(content), kept) == Some(lines)
    ensures Spliced(content, kept, |kept|, lines)
  {
    SplicedInitially(content, kept);
    assert kept[0..] == kept;
    lines := SplicedToTheEnd(content, kept, 0, Split(content));
  }

  lemma SameBeforeNewline(a: string, b: string)
    requires a + "\n" == b + "\n"
    ensures a == b
  {
    assert (a + "\n")[..|a|] == a && (b + "\n")[..|b|] == b;
    assert |a + "\n"| == |b + "\n"|;
  }

  // ---------------------------------------------------------------- what the overlap removal keeps

  predicate Apart(e: TextEdit, f: TextEdit) {
    AtOrBefore(e.end, f.start) || AtOrBefore(f.end, e.start)
  }

  /** No two edits start at the same position. */
  predicate DistinctStarts(edits: seq<TextEdit>) {
    forall i, j | 0 <= i < j < |edits| :: edits[i].start != edits[j].start
  }

  ghost predicate PairwiseApart(chosen: set<TextEdit>) {
    forall e <- chosen, f <- chosen | e != f :: Apart(e, f)
  }

  predicate Forward(edits: seq<TextEdit>) {
    forall e <- edits :: AtOrBefore(e.start, e.end)
  }

  lemma LatestStart(chosen: set<TextEdit>) returns (latest: TextEdit)
    requires chosen != {}
    ensures latest in chosen
    ensures forall e <- chosen :: AtOrBefore(e.start, latest.start)
  {
    latest :| latest in chosen;
    var rest := chosen - {latest};
    if rest != {} {
      var other := LatestStart(rest);
      if AtOrBefore(latest.start, other.start) {
        latest := other;
      }
    }
  }

  /** Removing the member that starts last leaves members that all end where it starts or before. */
  lemma {:induction false} DropLatest(chosen: set<TextEdit>, latest: TextEdit, edits: seq<TextEdit>)
    requires latest in chosen && PairwiseApart(chosen) && Forward(edits) && DistinctStarts(edits)
    requires forall e <- chosen :: e in edits && AtOrBefore(e.start, latest.start)
    ensures forall e <- chosen - {latest} :: AtOrBefore(e.end, latest.start)
  {
  }

  lemma {:induction false} KeptBelowIsMaximum(prev: TextEdit, rest: seq<TextEdit>, chosen: set<TextEdit>)
    requires Descending(rest) && DistinctStarts(rest) && Forward(rest)
    requires PairwiseApart(chosen)
    requires forall e <- chosen :: e in rest && AtOrBefore(e.end, prev.start)
    ensures |chosen| <= |KeptBelow(prev, rest)|
    decreases rest
  {
    if rest == [] {
      assert chosen == {};
    } else if !AtOrBefore(rest[0].end, prev.start) {
      KeptBelowIsMaximum(prev, rest[1..], chosen);
    } else if chosen != {} {
      var latest := LatestStart(chosen);
      assert AtOrBefore(latest.start, rest[0].start);
      DropLatest(chosen, latest, rest);
      assert rest[0] in chosen ==> rest[0] == latest;
      KeptBelowIsMaximum(rest[0], rest[1..], chosen - {latest});
    }
  }

  /** With pairwise distinct starts the greedy scan keeps as many edits as any pairwise
      non-overlapping selection could. */
  lemma {:induction false} KeptIsMaximum(sorted: seq<TextEdit>, chosen: set<TextEdit>)
    requires Descending(sorted) && DistinctStarts(sorted) && Forward(sorted)
    requires PairwiseApart(chosen) && forall e <- chosen :: e in sorted
    ensures |chosen| <= |Kept(sorted)|
  {
    if chosen != {} {
      var latest := LatestStart(chosen);
      DropLatest(chosen, latest, sorted);
      assert AtOrBefore(latest.start, sorted[0].start);
      KeptBelowIsMaximum(sorted[0], sorted[1..], chosen - {latest});
    }
  }

  /** The kept edits themselves are pairwise non-overlapping, so the maximum is attained. */
  lemma {:induction false} KeptAreApart(sorted: seq<TextEdit>, i: nat, j: nat)
    requires Forward(sorted) && i < j < |Kept(sorted)|
    ensures Apart(Kept(sorted)[i], Kept(sorted)[j]) && Apart(Kept(sorted)[j], Kept(sorted)[i])
    ensures AtOrBefore(Kept(sorted)[j].end, Kept(sorted)[i].start)
    decreases j
  {
    KeptFacts(sorted);
    var kept := Kept(sorted);
    if i < j - 1 {
      KeptAreApart(sorted, i, j - 1);
      assert kept[j - 1] in multiset(sorted);
    }
  }

  /** Distinct starts leave only one descending order. */
  lemma {:induction false} DescendingOrderIsUnique(a: seq<TextEdit>, b: seq<TextEdit>)
    requires multiset(a) == multiset(b) && DistinctStarts(a) && Descending(a) && Descending(b)
    ensures a == b
    decreases a
  {
    assert |multiset(a)| == |a| && |multiset(b)| == |b|;
    if a != [] {
      assert a[0] in multiset(b) && b[0] in multiset(a);
      assert a[0] == b[0];
      assert a == [a[0]] + a[1..] && b == [b[0]] + b[1..];
      TailsPermute(a[0], a[1..], b[1..]);
      DescendingOrderIsUnique(a[1..], b[1..]);
    }
  }

  lemma TailsPermute(head: TextEdit, a: seq<TextEdit>, b: seq<TextEdit>)
    requires multiset([head] + a) == multiset([head] + b)
    ensures multiset(a) == multiset(b)
  {
    assert multiset(a) == multiset([head] + a) - multiset{head};
    assert multiset(b) == multiset([head] + b) - multiset{head};
  }

  /** So the outcome does not depend on the order in which the edits arrive, nor on the sort used. */
  lemma {:induction false} ArrivalOrderIrrelevant(content: string, edits: seq<TextEdit>, permuted: seq<TextEdit>,
                                                result: string, result': string)
    requires multiset(edits) == multiset(permuted) && DistinctStarts(edits)
    requires IsResult(content, edits, result) && IsResult(content, permuted, result')
    ensures result == result'
  {
    var sorted :| IsSorting(sorted, edits) && AppliedTo(content, sorted, result);
    var sorted' :| IsSorting(sorted', permuted) && AppliedTo(content, sorted', result');
    DistinctStartsPermute(edits, sorted);
    DescendingOrderIsUnique(sorted, sorted');
  }

  lemma OccursOnce(a: seq<TextEdit>, e: TextEdit)
    requires DistinctStarts(a)
    ensures multiset(a)[e] <= 1
  {
    if a != [] {
      assert a == [a[0]] + a[1..];
      OccursOnce(a[1..], e);
      if e == a[0] {
        assert e !in a[1..];
      }
    }
  }

  lemma {:induction false} DistinctStartsPermute(a: seq<TextEdit>, b: seq<TextEdit>)
    requires multiset(a) == multiset(b) && DistinctStarts(a)
    ensures DistinctStarts(b)
  {
    forall i, j | 0 <= i < j < |b| ensures b[i].start != b[j].start {
      assert b[i] in multiset(a) && b[j] in multiset(a);
      OccursOnce(a, b[i]);
      assert b[..j] + b[j..] == b;
      assert b[i] in b[..j];
      assert b[i] != b[j];
    }
  }

  // ---------------------------------------------------------------- edits with equal starts

  /** Whenever the scan keeps an edit, every other one with the same start that it could have kept instead is
      the same edit. */
  predicate NoChoiceBelow(prev: TextEdit, rest: seq<TextEdit>)
    decreases rest
  {
    rest == []
    || (if AtOrBefore(rest[0].end, prev.start) then
          && (forall f <- rest[1..] | f.start == rest[0].start && AtOrBefore(f.end, prev.start) :: f == rest[0])
          && NoChoiceBelow(rest[0], rest[1..])
        else NoChoiceBelow(prev, rest[1..]))
  }

  predicate NoChoice(sorted: seq<TextEdit>) {
    sorted == []
    || ((forall f <- sorted[1..] | f.start == sorted[0].start :: f == sorted[0])
        && NoChoiceBelow(sorted[0], sorted[1..]))
  }

  lemma {:induction false} DropUnfit(prev: TextEdit, a: seq<TextEdit>, x: TextEdit, b: seq<TextEdit>)
    requires !AtOrBefore(x.end, prev.start) && Forward(a)
    ensures KeptBelow(prev, a + [x] + b) == KeptBelow(prev, a + b)
    ensures NoChoiceBelow(prev, a + [x] + b) ==> NoChoiceBelow(prev, a + b)
    decreases a
  {
    if a == [] {
      assert a + [x] + b == [x] + b && a + b == b && ([x] + b)[1..] == b;
    } else {
      assert (a + [x] + b)[1..] == a[1..] + [x] + b && (a + b)[1..] == a[1..] + b;
      assert forall f <- a[1..] + b :: f in a[1..] + [x] + b;
      DropUnfit(if AtOrBefore(a[0].end, prev.start) then a[0] else prev, a[1..], x, b);
    }
  }

  lemma {:induction false} TakeOut(a: seq<TextEdit>, x: TextEdit) returns (before: seq<TextEdit>, after: seq<TextEdit>)
    requires x in a && Descending(a) && Forward(a)
    ensures a == before + [x] + after && Descending(before + after) && Forward(before) && Forward(before + after)
    ensures multiset(before + after) == multiset(a) - multiset{x}
    ensures multiset([x] + (before + after)) == multiset(a) && forall e <- before + after :: e in a
    ensures forall e <- before :: AtOrBefore(x.start, e.start)
  {
    var i :| 0 <= i < |a| && a[i] == x;
    before, after := a[..i], a[i + 1..];
    assert a == before + [x] + after;
    assert multiset(a) == multiset(before) + multiset{x} + multiset(after);
    WithoutOne(a, i);
  }

  lemma {:induction false} WithoutOne(a: seq<TextEdit>, i: nat)
    requires i < |a| && Descending(a) && Forward(a)
    ensures Descending(a[..i] + a[i + 1..]) && Forward(a[..i] + a[i + 1..]) && Forward(a[..i])
    ensures forall e <- a[..i] + a[i + 1..] :: e in a
    ensures forall e <- a[..i] :: AtOrBefore(a[i].start, e.start)
  {
    var others := a[..i] + a[i + 1..];
    assert forall k | 0 <= k < |others| :: others[k] == a[if k < i then k else k + 1];
    assert forall e <- others :: e in a;
  }

  lemma {:induction false} SameFirstStart(a: seq<TextEdit>, b: seq<TextEdit>)
    requires a != [] && b != [] && multiset(a) == multiset(b) && Descending(a) && Descending(b)
    ensures a[0].start == b[0].start
  {
    assert a[0] in multiset(b) && b[0] in multiset(a);
  }

  lemma {:induction false} SameKeptBelow(prev: TextEdit, a: seq<TextEdit>, b: seq<TextEdit>)
    requires multiset(a) == multiset(b) && Descending(a) && Descending(b) && Forward(a) && Forward(b)
    requires NoChoiceBelow(prev, a)
    ensures KeptBelow(prev, a) == KeptBelow(prev, b)
    decreases |a|
  {
    assert |multiset(a)| == |a| && |multiset(b)| == |b|;
    if a != [] {
      SameFirstStart(a, b);
      assert a[0] in multiset(b) && b[0] in multiset(a);
      if !AtOrBefore(a[0].end, prev.start) {
        SkipUnfit(prev, a, b, a[0]);
      } else if !AtOrBefore(b[0].end, prev.start) {
        SkipUnfit(prev, a, b, b[0]);
      } else {
        assert a == [a[0]] + a[1..] && b == [b[0]] + b[1..];
        assert b[0] == a[0];
        TailsPermute(a[0], a[1..], b[1..]);
        SameKeptBelow(a[0], a[1..], b[1..]);
      }
    }
  }

  lemma {:induction false} SkipUnfit(prev: TextEdit, a: seq<TextEdit>, b: seq<TextEdit>, x: TextEdit)
    requires multiset(a) == multiset(b) && Descending(a) && Descending(b) && Forward(a) && Forward(b)
    requires NoChoiceBelow(prev, a) && x in a && x in b && !AtOrBefore(x.end, prev.start)
    ensures KeptBelow(prev, a) == KeptBelow(prev, b)
    decreases |a|, 0
  {
    var a1, a2 := TakeOut(a, x);
    var b1, b2 := TakeOut(b, x);
    DropUnfit(prev, a1, x, a2);
    DropUnfit(prev, b1, x, b2);
    SameKeptBelow(prev, a1 + a2, b1 + b2);
  }

  function NextKept(prev: TextEdit, x: TextEdit): TextEdit {
    if AtOrBefore(x.end, prev.start) then x else prev
  }

  lemma {:induction false} ScanOne(prev: TextEdit, x: TextEdit, rest: seq<TextEdit>)
    ensures KeptBelow(prev, [x] + rest)
         == (if AtOrBefore(x.end, prev.start) then [x] else []) + KeptBelow(NextKept(prev, x), rest)
  {
    assert ([x] + rest)[1..] == rest;
  }

  predicate IsRival(prev: TextEdit, x: TextEdit, f: TextEdit) {
    f != x && f.start == x.start && AtOrBefore(f.end, prev.start) && AtOrBefore(x.end, prev.start)
  }

  lemma {:induction false} RivalInFront(prev: TextEdit, x: TextEdit, rest: seq<TextEdit>, f: TextEdit)
    returns (b: seq<TextEdit>)
    requires Descending([x] + rest) && Forward([x] + rest) && f in rest && IsRival(prev, x, f)
    ensures IsSorting(b, [x] + rest) && KeptBelow(prev, b) != KeptBelow(prev, [x] + rest)
  {
    b := InFront([x] + rest, f);
    assert b == [f] + b[1..];
    ScanOne(prev, f, b[1..]);
    ScanOne(prev, x, rest);
    assert KeptBelow(prev, b)[0] == f && KeptBelow(prev, [x] + rest)[0] == x;
  }

  lemma {:induction false} ThenOther(prev: TextEdit, x: TextEdit, rest: seq<TextEdit>, other: seq<TextEdit>)
    requires KeptBelow(NextKept(prev, x), other) != KeptBelow(NextKept(prev, x), rest)
    ensures KeptBelow(prev, [x] + other) != KeptBelow(prev, [x] + rest)
  {
    ScanOne(prev, x, rest);
    ScanOne(prev, x, other);
    var head, next := if AtOrBefore(x.end, prev.start) then [x] else [], NextKept(prev, x);
    SameTails(head, KeptBelow(next, other), KeptBelow(next, rest));
  }

  lemma {:induction false} SameTails(head: seq<TextEdit>, a: seq<TextEdit>, b: seq<TextEdit>)
    ensures head + a == head + b <==> a == b
  {
    assert (head + a)[|head|..] == a && (head + b)[|head|..] == b;
  }

  /** Where the scan has a choice, some other descending order makes it choose otherwise. */
  lemma {:induction false} OtherChoiceBelow(prev: TextEdit, a: seq<TextEdit>) returns (b: seq<TextEdit>)
    requires Descending(a) && Forward(a) && !NoChoiceBelow(prev, a)
    ensures IsSorting(b, a) && KeptBelow(prev, b) != KeptBelow(prev, a)
    decreases a
  {
    var x, rest := a[0], a[1..];
    assert a == [x] + rest;
    if f :| f in rest && IsRival(prev, x, f) {
      b := RivalInFront(prev, x, rest, f);
    } else {
      assert !NoChoiceBelow(NextKept(prev, x), rest);
      var other := OtherChoiceBelow(NextKept(prev, x), rest);
      b := [x] + other;
      OneInFront(x, rest, other);
      ThenOther(prev, x, rest, other);
    }
  }

  lemma {:induction false} OneInFront(x: TextEdit, rest: seq<TextEdit>, other: seq<TextEdit>)
    requires Descending([x] + rest) && IsSorting(other, rest)
    ensures IsSorting([x] + other, [x] + rest)
  {
    forall j | 0 <= j < |other| ensures AtOrBefore(other[j].start, x.start) {
      assert other[j] in multiset(rest) && ([x] + rest)[0] == x;
      var k :| 0 <= k < |rest| && rest[k] == other[j];
      assert ([x] + rest)[k + 1] == other[j];
    }
  }

  /** Another edit with the first start may stand first as well. */
  lemma {:induction false} InFront(a: seq<TextEdit>, f: TextEdit) returns (b: seq<TextEdit>)
    requires a != [] && f in a && f.start == a[0].start && Descending(a) && Forward(a)
    ensures IsSorting(b, a) && b != [] && b[0] == f
  {
    var before, after := TakeOut(a, f);
    b := [f] + (before + after);
    FirstStartIsLatest(a);
    StillDescending(f, before + after);
  }

  lemma {:induction false} FirstStartIsLatest(a: seq<TextEdit>)
    requires a != [] && Descending(a)
    ensures forall e <- a :: AtOrBefore(e.start, a[0].start)
  {
  }

  lemma {:induction false} StillDescending(f: TextEdit, others: seq<TextEdit>)
    requires Descending(others) && forall e <- others :: AtOrBefore(e.start, f.start)
    ensures Descending([f] + others)
  {
  }

  /** The exact condition: all descending orders of the edits lead to the same kept edits exactly when the
      scan never has a choice between different edits with one start. */
  lemma {:induction false} OrderMatters(sorted: seq<TextEdit>)
    requires Descending(sorted) && Forward(sorted)
    ensures NoChoice(sorted) <==> forall other | IsSorting(other, sorted) :: Kept(other) == Kept(sorted)
  {
    if NoChoice(sorted) {
      forall other | IsSorting(other, sorted) ensures Kept(other) == Kept(sorted) {
        SameKept(sorted, other);
      }
    } else {
      var other := OtherChoice(sorted);
      assert IsSorting(other, sorted) && Kept(other) != Kept(sorted);
    }
  }

  lemma {:induction false} SameKept(a: seq<TextEdit>, b: seq<TextEdit>)
    requires Descending(a) && Forward(a) && NoChoice(a) && IsSorting(b, a)
    ensures Kept(b) == Kept(a)
  {
    assert |multiset(a)| == |a| && |multiset(b)| == |b|;
    ForwardSorting(a, b);
    if a != [] {
      SameFirstStart(a, b);
      assert b[0] in multiset(a);
      assert a == [a[0]] + a[1..] && b == [b[0]] + b[1..];
      assert b[0] == a[0];
      TailsPermute(a[0], a[1..], b[1..]);
      SameKeptBelow(a[0], a[1..], b[1..]);
    }
  }

  lemma {:induction false} ForwardSorting(a: seq<TextEdit>, b: seq<TextEdit>)
    requires Forward(a) && IsSorting(b, a)
    ensures Forward(b)
  {
    assert forall e <- b :: e in multiset(a);
  }

  lemma {:induction false} KeptOne(x: TextEdit, rest: seq<TextEdit>)
    ensures Kept([x] + rest) == [x] + KeptBelow(x, rest)
  {
    assert ([x] + rest)[1..] == rest;
  }

  lemma {:induction false} OtherKeptFirst(x: TextEdit, rest: seq<TextEdit>, f: TextEdit) returns (b: seq<TextEdit>)
    requires Descending([x] + rest) && Forward([x] + rest) && f in rest && f.start == x.start && f != x
    ensures IsSorting(b, [x] + rest) && Kept(b) != Kept([x] + rest)
  {
    b := InFront([x] + rest, f);
    assert b == [f] + b[1..];
    KeptOne(f, b[1..]);
    KeptOne(x, rest);
    assert Kept(b)[0] == f && Kept([x] + rest)[0] == x;
  }

  lemma {:induction false} OtherChoice(a: seq<TextEdit>) returns (b: seq<TextEdit>)
    requires Descending(a) && Forward(a) && !NoChoice(a)
    ensures IsSorting(b, a) && Kept(b) != Kept(a)
  {
    var x, rest := a[0], a[1..];
    assert a == [x] + rest;
    if f :| f in rest && f.start == x.start && f != x {
      b := OtherKeptFirst(x, rest, f);
    } else {
      assert !NoChoiceBelow(x, rest);
      var other := OtherChoiceBelow(x, rest);
      b := [x] + other;
      OneInFront(x, rest, other);
      KeptOne(x, other);
      KeptOne(x, rest);
      SameTails([x], KeptBelow(x, other), KeptBelow(x, rest));
    }
  }

  /** In particular a request has one result when its edits leave the scan no choice. */
  lemma {:induction false} NoChoiceOneResult(content: string, sorted: seq<TextEdit>, edits: seq<TextEdit>,
                                             result: string, result': string)
    requires IsSorting(sorted, edits) && Forward(edits) && NoChoice(sorted)
    requires IsResult(content, edits, result) && IsResult(content, edits, result')
    ensures result == result'
  {
    ForwardSorting(edits, sorted);
    var a :| IsSorting(a, edits) && AppliedTo(content, a, result);
    var b :| IsSorting(b, edits) && AppliedTo(content, b, result');
    SameKept(sorted, a);
    SameKept(sorted, b);
  }

  predicate IsInsertion(e: TextEdit) { e.start == e.end }

  /** Two edits with one start: the list kept never depends on their order only if they are the same edit, and
      what is kept, in whatever order, only if moreover both may be insertions. */
  lemma {:induction false} TwoEqualStarts(e: TextEdit, f: TextEdit)
    requires e.start == f.start && Forward([e, f])
    ensures Kept([e, f]) == Kept([f, e]) <==> e == f
    ensures multiset(Kept([e, f])) == multiset(Kept([f, e])) <==> e == f || (IsInsertion(e) && IsInsertion(f))
  {
    KeptOfTwo(e, f);
    KeptOfTwo(f, e);
    assert e in [e, f] && f in [e, f];
    if e != f && !(IsInsertion(e) && IsInsertion(f)) {
      assert multiset([e])[f] == 0 && multiset([f])[e] == 0;
      assert !IsInsertion(e) ==> e !in multiset(Kept([f, e]));
      assert !IsInsertion(f) ==> f !in multiset(Kept([e, f]));
    }
  }

  lemma {:induction false} KeptOfTwo(e: TextEdit, f: TextEdit)
    requires e.start == f.start && AtOrBefore(f.start, f.end)
    ensures Kept([e, f]) == if IsInsertion(f) then [e, f] else [e]
  {
    assert [e, f][1..] == [f] && [f][1..] == [];
    assert KeptBelow(f, []) == [] && KeptBelow(e, []) == [];
  }

  const INSERTION := TextEdit(Position(0, 1), Position(0, 1), "x")
  const REPLACEMENT := TextEdit(Position(0, 1), Position(0, 2), "y")

  /** A request with two results: an insertion and a replacement at one position are both applied in one
      order, and in the other only the insertion survives. */
  lemma {:induction false} EqualStartsDependOnOrder()
    ensures Applicable("ab", [INSERTION, REPLACEMENT])
    ensures IsResult("ab", [INSERTION, REPLACEMENT], "axy")
    ensures IsResult("ab", [INSERTION, REPLACEMENT], "axb")
  {
    InsertAndReplace("ab");
    Pieces();
  }

  lemma Pieces()
    ensures "ab"[..1] + "x" + "ab"[1..1] + "y" + "ab"[2..] == "axy" && "ab"[..1] + "x" + "ab"[1..] == "axb"
  {
  }

  lemma {:induction false} InsertAndReplace(l: string)
    requires '\n' !in l && |l| == 2
    ensures Applicable(l, [INSERTION, REPLACEMENT])
    ensures IsResult(l, [INSERTION, REPLACEMENT], l[..1] + INSERTION.newText + l[1..1] + REPLACEMENT.newText + l[2..])
    ensures IsResult(l, [INSERTION, REPLACEMENT], l[..1] + INSERTION.newText + l[1..])
  {
    SplitLine(l);
    ReplacementFirst(l);
    InsertionFirst(l);
    BothOrders(INSERTION, REPLACEMENT);
  }

  lemma {:induction false} BothOrders(e: TextEdit, f: TextEdit)
    requires e.start == f.start
    ensures IsSorting([e, f], [e, f]) && IsSorting([f, e], [e, f])
  {
    assert multiset([f, e]) == multiset{e, f} == multiset([e, f]);
  }

  lemma {:induction false} ReplacementFirst(l: string)
    requires '\n' !in l && |l| == 2
    ensures AppliedTo(l, [REPLACEMENT, INSERTION],
              l[..1] + INSERTION.newText + l[1..1] + REPLACEMENT.newText + l[2..])
  {
    KeptOfTwo(REPLACEMENT, INSERTION);
    SplitLine(l);
    AtOnceTwo(l, REPLACEMENT, INSERTION);
  }

  lemma {:induction false} InsertionFirst(l: string)
    requires '\n' !in l && |l| == 2
    ensures AppliedTo(l, [INSERTION, REPLACEMENT], l[..1] + INSERTION.newText + l[1..])
  {
    KeptOfTwo(INSERTION, REPLACEMENT);
    SplitLine(l);
    AtOnceOne(l, INSERTION);
  }

  lemma {:induction false} AtOnceOne(content: string, e: TextEdit)
    requires WellPlaced(Split(content), e)
    ensures Placed(content, [e])
    ensures var s := SpanOf(Split(content), e);
      s.start <= s.end <= |content| && AtOnce(content, [e]) == content[..s.start] + s.text + content[s.end..]
  {
    assert Placed(content, [e]);
    PlacedSpans(content, [e]);
    var s := SpanOf(Split(content), e);
    assert [e][..0] == [] && Ascending(Split(content), [e]) == [s];
    SpansFromBound(|content|, 0, [s]);
    OneSpan(content, s);
  }

  lemma {:induction false} AtOnceTwo(content: string, e: TextEdit, f: TextEdit)
    requires WellPlaced(Split(content), e) && WellPlaced(Split(content), f) && AtOrBefore(f.end, e.start)
    ensures Placed(content, [e, f])
    ensures var s, t := SpanOf(Split(content), f), SpanOf(Split(content), e);
      && s.start <= s.end <= t.start <= t.end <= |content|
      && AtOnce(content, [e, f])
         == content[..s.start] + s.text + content[s.end..t.start] + t.text + content[t.end..]
  {
    assert Placed(content, [e, f]);
    PlacedSpans(content, [e, f]);
    var s, t := SpanOf(Split(content), f), SpanOf(Split(content), e);
    assert [e, f][..1] == [e] && [e][..0] == [];
    assert Ascending(Split(content), [e]) == [t] && Ascending(Split(content), [e, f]) == [s, t];
    SpansFromBound(|content|, 0, [s, t]);
    assert [s, t][1..] == [t] && s in [s, t] && t in [s, t];
    TwoSpans(content, s, t);
  }

  lemma {:induction false} OneSpan(text: string, s: Span)
    requires s.start <= s.end <= |text|
    ensures SpansFrom(|text|, 0, [s])
    ensures Woven(text, 0, [s]) == text[..s.start] + s.text + text[s.end..]
  {
    assert [s][1..] == [];
  }

  lemma {:induction false} TwoSpans(text: string, s: Span, t: Span)
    requires s.start <= s.end <= t.start <= t.end <= |text|
    ensures SpansFrom(|text|, 0, [s, t])
    ensures Woven(text, 0, [s, t]) == text[..s.start] + s.text + text[s.end..t.start] + t.text + text[t.end..]
  {
    assert [s, t][1..] == [t] && [t][1..] == [];
    assert Woven(text, s.end, [t]) == text[s.end..t.start] + t.text + text[t.end..];
  }

  // ---------------------------------------------------------------- edits past the end of the document

  function WithTexts(kept: seq<TextEdit>, texts: seq<string>): (edits: seq<TextEdit>)
    requires |texts| == |kept|
    ensures |edits| == |kept|
    ensures forall i | 0 <= i < |kept| :: edits[i] == TextEdit(kept[i].start, kept[i].end, texts[i])
  {
    seq(|kept|, i requires 0 <= i < |kept| => TextEdit(kept[i].start, kept[i].end, texts[i]))
  }

  lemma {:induction false} TextsKeepPlaces(content: string, kept: seq<TextEdit>, texts: seq<string>)
    requires Placed(content, kept) && |texts| == |kept|
    ensures Placed(content, WithTexts(kept, texts))
    ensures NoLateTail(Split(content), WithTexts(kept, texts)) <==> NoLateTail(Split(content), kept)
  {
    forall e | e in WithTexts(kept, texts) ensures WellPlaced(Split(content), e) {
      var i :| 0 <= i < |kept| && WithTexts(kept, texts)[i] == e;
      assert kept[i] in kept;
    }
  }

  /** Whatever the new texts are, splicing one edit after another gives what applying all at once gives. */
  ghost predicate AlwaysComposes(content: string, kept: seq<TextEdit>)
    requires Placed(content, kept)
  {
    forall texts | |texts| == |kept| ::
      (TextsKeepPlaces(content, kept, texts);
       LoopResult(content, WithTexts(kept, texts)) == Some(AtOnce(content, WithTexts(kept, texts))))
  }

  /** The exact condition, on positions only: the loop is simultaneous application, whatever the new texts,
      exactly when no kept edit after the first reaches past the end of the document. The first edit keeps or
      changes the number of lines, and later positions are clamped to the new end. */
  lemma {:induction false} TailsDecide(content: string, kept: seq<TextEdit>)
    requires Placed(content, kept)
    ensures NoLateTail(Split(content), kept) <==> AlwaysComposes(content, kept)
  {
    if NoLateTail(Split(content), kept) {
      forall texts: seq<string> | |texts| == |kept|
        ensures Placed(content, WithTexts(kept, texts))
        ensures LoopResult(content, WithTexts(kept, texts)) == Some(AtOnce(content, WithTexts(kept, texts)))
      {
        TextsKeepPlaces(content, kept, texts);
        Composes(content, WithTexts(kept, texts));
      }
    } else {
      var texts := seq(|kept|, i => if i == 0 then "x" else "y");
      TextsKeepPlaces(content, kept, texts);
      LateTailShifts(content, WithTexts(kept, texts));
    }
  }

  /** With a late tail, the first two edits lie past the end altogether. */
  lemma {:induction false} TailsFirst(lines: seq<string>, kept: seq<TextEdit>, i: nat)
    requires Chained(kept) && (forall e <- kept :: AtOrBefore(e.start, e.end))
    requires 0 < i < |kept| && PastEnd(lines, kept[i].end)
    ensures PastEnd(lines, kept[0].start) && PastEnd(lines, kept[0].end) && PastEnd(lines, kept[1].end)
    decreases i
  {
    assert kept[i - 1] in kept && kept[0] in kept;
    if i > 1 {
      TailsFirst(lines, kept, i - 1);
    }
  }

  ghost predicate EndsIn(s: string, c: char) {
    s != "" && s[|s| - 1] == c
  }

  /** Lines as strings.Split makes them, the last of which ends in `c`. */
  ghost predicate LastLineEndsIn(lines: seq<string>, c: char) {
    lines != [] && (forall l <- lines :: '\n' !in l) && EndsIn(lines[|lines| - 1], c)
  }

  lemma JoinEndsIn(lines: seq<string>, c: char)
    requires LastLineEndsIn(lines, c)
    ensures EndsIn(Join(lines), c)
  {
  }

  /** A splice of one character leaves the end of the lines alone or puts that character there. */
  lemma {:induction false} SpliceAtEnd(lines: seq<string>, edit: TextEdit, c: char)
    requires lines != [] && (forall l <- lines :: '\n' !in l) && edit.newText == [c] && c != '\n'
    requires PastEnd(lines, edit.end) || LastLineEndsIn(lines, c)
    ensures SpliceOne(lines, edit).Some? ==> LastLineEndsIn(SpliceOne(lines, edit).value, c)
  {
    var start, end := Clamp(lines, edit.start), Clamp(lines, edit.end);
    if Inside(lines, start) && Inside(lines, end) {
      var prefix, suffix := lines[start.line][..start.column], lines[end.line][end.column..];
      assert lines[start.line] in lines && lines[end.line] in lines;
      SplitLine(prefix + [c] + suffix);
      assert SpliceOne(lines, edit).value == lines[..start.line] + [prefix + [c] + suffix] + lines[end.line + 1..];
    }
  }

  lemma {:induction false} LoopEndsIn(lines: seq<string>, kept: seq<TextEdit>, c: char)
    requires LastLineEndsIn(lines, c) && c != '\n' && forall e <- kept :: e.newText == [c]
    ensures SpliceLoop(lines, kept).Some? ==> LastLineEndsIn(SpliceLoop(lines, kept).value, c)
    decreases kept
  {
    if kept != [] {
      SpliceAtEnd(lines, kept[0], c);
      if SpliceOne(lines, kept[0]).Some? {
        LoopEndsIn(SpliceOne(lines, kept[0]).value, kept[1..], c);
      }
    }
  }

  /** The first edit is appended to the last line, so the number of lines is the same. */
  lemma {:induction false} FirstTail(lines: seq<string>, edit: TextEdit, c: char)
    requires lines != [] && (forall l <- lines :: '\n' !in l) && edit.newText == [c] && c != '\n'
    requires PastEnd(lines, edit.start) && PastEnd(lines, edit.end)
    ensures SpliceOne(lines, edit).Some? && |SpliceOne(lines, edit).value| == |lines|
    ensures forall l <- SpliceOne(lines, edit).value :: '\n' !in l
  {
    var n := |lines| - 1;
    SpliceAtEnd(lines, edit, c);
    assert lines[n] in lines && lines[n][..|lines[n]|] == lines[n];
    SplitLine(lines[n] + [c]);
    assert lines[n][..|lines[n]|] + [c] + lines[n][|lines[n]|..] == lines[n] + [c];
    assert SpliceOne(lines, edit).value == lines[..n] + [lines[n] + [c]];
  }

  /** A span at the end of the text is where the woven text ends. */
  lemma {:induction false} WovenEndsIn(text: string, from: nat, spans: seq<Span>, c: char)
    requires SpansFrom(|text|, from, spans) && spans != []
    requires spans[|spans| - 1].end == |text| && EndsIn(spans[|spans| - 1].text, c)
    ensures EndsIn(Woven(text, from, spans), c)
    decreases spans
  {
    SpansFromBound(|text|, from, spans);
    if |spans| == 1 {
      assert Woven(text, spans[0].end, spans[1..]) == "";
    } else {
      WovenEndsIn(text, spans[0].end, spans[1..], c);
    }
  }

  lemma AscendingLast(lines: seq<string>, kept: seq<TextEdit>)
    requires lines != [] && kept != [] && forall e <- kept :: WellPlaced(lines, e)
    ensures Ascending(lines, kept)[|kept| - 1] == SpanOf(lines, kept[0])
  {
  }

  /** With "x" for the first edit and "y" for all others, applying at once puts the "x" last, and the loop, if
      it ends without an error, a "y". */
  lemma {:induction false} LateTailShifts(content: string, kept: seq<TextEdit>)
    requires Placed(content, kept) && !NoLateTail(Split(content), kept)
    requires kept[0].newText == "x" && forall e <- kept[1..] :: e.newText == "y"
    ensures LoopResult(content, kept) != Some(AtOnce(content, kept))
  {
    var lines := Split(content);
    var i :| 0 < i < |kept| && PastEnd(lines, kept[i].end);
    TailsFirst(lines, kept, i);
    FirstTailStandsLast(content, kept, 'x');
    TailLoopEndsIn(lines, kept);
  }

  lemma {:induction false} FirstTailStandsLast(content: string, kept: seq<TextEdit>, c: char)
    requires Placed(content, kept) && kept != [] && PastEnd(Split(content), kept[0].end) && EndsIn(kept[0].newText, c)
    ensures EndsIn(AtOnce(content, kept), c)
  {
    PlacedSpans(content, kept);
    EndOfText(content);
    AscendingLast(Split(content), kept);
    WovenEndsIn(content, 0, Ascending(Split(content), kept), c);
  }

  lemma {:induction false} TailLoopEndsIn(lines: seq<string>, kept: seq<TextEdit>)
    requires lines != [] && (forall l <- lines :: '\n' !in l) && |kept| > 1
    requires PastEnd(lines, kept[0].start) && PastEnd(lines, kept[0].end) && PastEnd(lines, kept[1].end)
    requires kept[0].newText == "x" && forall e <- kept[1..] :: e.newText == "y"
    ensures SpliceLoop(lines, kept).Some? ==> EndsIn(Join(SpliceLoop(lines, kept).value), 'y')
  {
    FirstTail(lines, kept[0], 'x');
    var once := SpliceOne(lines, kept[0]).value;
    var rest := kept[1..];
    assert rest[0] in rest && SpliceLoop(lines, kept) == SpliceLoop(once, rest);
    SpliceAtEnd(once, rest[0], 'y');
    if SpliceOne(once, rest[0]).Some? {
      assert forall e <- rest[1..] :: e in rest;
      assert SpliceLoop(once, rest) == SpliceLoop(SpliceOne(once, rest[0]).value, rest[1..]);
      LoopEndsIn(SpliceOne(once, rest[0]).value, rest[1..], 'y');
      if SpliceLoop(lines, kept).Some? {
        JoinEndsIn(SpliceLoop(lines, kept).value, 'y');
      }
    }
  }

  const LATER_TAIL := TextEdit(Position(2, 0), Position(2, 0), "x")
  const TAIL := TextEdit(Position(1, 0), Position(1, 0), "y")

  /** A request with distinct starts, in its only order, nothing of it dropped: the loop appends one text after
      the other, although the edit that comes later in the document was to stand last. */
  lemma {:induction false} TailEditsShift()
    ensures IsSorting([LATER_TAIL, TAIL], [TAIL, LATER_TAIL]) && Kept([LATER_TAIL, TAIL]) == [LATER_TAIL, TAIL]
    ensures Placed("a", [LATER_TAIL, TAIL]) && !NoLateTail(Split("a"), [LATER_TAIL, TAIL])
    ensures Forward([TAIL, LATER_TAIL]) && DistinctStarts([TAIL, LATER_TAIL])
    ensures LoopResult("a", [LATER_TAIL, TAIL]) == Some("axy")
    ensures AtOnce("a", [LATER_TAIL, TAIL]) == "ayx"
  {
    SplitLine("a");
    assert [LATER_TAIL, TAIL][1..] == [TAIL];
    KeptBelowOne(LATER_TAIL, TAIL);
    TailsInTurn("a");
    TailsAtOnce("a");
    assert "a" + ("x" + "y") == "axy" && "a" + ("y" + "x") == "ayx";
  }

  lemma {:induction false} TailsInTurn(l: string)
    requires '\n' !in l
    ensures LoopResult(l, [LATER_TAIL, TAIL]) == Some(l + (LATER_TAIL.newText + TAIL.newText))
  {
    var once := l + LATER_TAIL.newText;
    SplitLine(l);
    AppendTail(l, LATER_TAIL);
    AppendTail(once, TAIL);
    assert [LATER_TAIL, TAIL][1..] == [TAIL] && [TAIL][1..] == [];
    assert SpliceLoop([once], [TAIL]) == SpliceLoop([once + TAIL.newText], []);
    assert once + TAIL.newText == l + (LATER_TAIL.newText + TAIL.newText);
  }

  lemma {:induction false} KeptBelowOne(prev: TextEdit, e: TextEdit)
    requires AtOrBefore(e.end, prev.start)
    ensures KeptBelow(prev, [e]) == [e]
  {
    assert [e][1..] == [] && KeptBelow(e, []) == [];
  }

  lemma {:induction false} AppendTail(l: string, edit: TextEdit)
    requires '\n' !in l + edit.newText && edit.start.line > 0 && edit.end.line > 0
    ensures SpliceOne([l], edit) == Some([l + edit.newText])
  {
    var lines, whole := [l], l + edit.newText;
    assert l[..|l|] + edit.newText + l[|l|..] == whole;
    SplitLine(whole);
    assert lines[..0] + [whole] + lines[1..] == [whole];
  }

  lemma {:induction false} TailsAtOnce(l: string)
    requires '\n' !in l
    ensures Placed(l, [LATER_TAIL, TAIL])
    ensures AtOnce(l, [LATER_TAIL, TAIL]) == l + (TAIL.newText + LATER_TAIL.newText)
  {
    SplitLine(l);
    EndOfText(l);
    AtOnceTwo(l, LATER_TAIL, TAIL);
    BothAppended(l, TAIL.newText, LATER_TAIL.newText);
  }

  lemma {:induction false} BothAppended(l: string, s: string, t: string)
    ensures l[..|l|] + s + l[|l|..|l|] + t + l[|l|..] == l + (s + t)
  {
  }
}
