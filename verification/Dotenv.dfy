/** The dotenv parser (internal/dotenv/parser.go). The input is valid UTF-8 and a `char` stands for one
    code point; names outside ASCII are not modelled. The three regular expressions are written as scanners. */
module Dotenv {
  import opened Characters
  import opened Options

  type Vars = map<string, string>

  datatype Error = UnexpectedCharacter | ZeroLength | Unterminated
  datatype Result<T> = Ok(value: T) | Err(error: Error)

  /** Spaces other than line breaks. */
  predicate IsSpace(c: char) {
    c == '\t' || c == '\U{0B}' || c == '\U{0C}' || c == '\r' || c == ' ' || c == '\U{85}' || c == '\U{A0}'
  }

  predicate IsVisible(c: char) { !IsUnicodeSpace(c) }

  predicate IsNewline(c: char) { c == '\n' }

  predicate IsLineEnd(c: char) { c == '\n' || c == '\r' }

  predicate IsNameChar(c: char) {
    'A' <= c <= 'Z' || 'a' <= c <= 'z' || '0' <= c <= '9' || c == '_' || c == '.'
  }

  predicate IsVariableChar(c: char) { 'A' <= c <= 'Z' || '0' <= c <= '9' || c == '_' }

  /** bytes.IndexFunc, with the length of the text for "not found". */
  function IndexWhere(s: string, p: char -> bool): (i: nat)
    ensures i <= |s| && (i < |s| ==> p(s[i])) && forall j | 0 <= j < i :: !p(s[j])
  {
    if s == "" || p(s[0]) then 0 else 1 + IndexWhere(s[1..], p)
  }

  function ReplaceCRLF(s: string): string {
    if s == "" then ""
    else if |s| >= 2 && s[0] == '\r' && s[1] == '\n' then "\n" + ReplaceCRLF(s[2..])
    else [s[0]] + ReplaceCRLF(s[1..])
  }

  // ---------------------------------------------------------------- statements

  /** getStatementStart: skips white space and comment lines. */
  function StatementStart(src: string): (r: Option<string>)
    ensures r.Some? ==> r.value != "" && |r.value| <= |src| && !IsUnicodeSpace(r.value[0]) && r.value[0] != '#'
    decreases |src|, 1
  {
    var pos := IndexWhere(src, IsVisible);
    if pos == |src| then None else StartAt(src[pos..])
  }

  function StartAt(src: string): (r: Option<string>)
    requires src != "" && IsVisible(src[0])
    ensures r.Some? ==> r.value != "" && |r.value| <= |src| && !IsUnicodeSpace(r.value[0]) && r.value[0] != '#'
    decreases |src|, 0
  {
    if src[0] != '#' then Some(src)
    else
      var end := IndexWhere(src, IsNewline);
      if end == |src| then None else StatementStart(src[end..])
  }

  /** White space and comments only; a comment extends to the end of its line or of the text. */
  predicate Skippable(s: string)
    decreases |s|
  {
    s == "" || (IsUnicodeSpace(s[0]) && Skippable(s[1..])) || (s[0] == '#' && Skippable(s[IndexWhere(s, IsNewline)..]))
  }

  lemma {:induction false} SkipSpaces(a: string, b: string)
    requires forall c <- a :: IsUnicodeSpace(c)
    ensures Skippable(a + b) <==> Skippable(b)
  {
    if a == "" {
      assert a + b == b;
    } else {
      assert (a + b)[1..] == a[1..] + b && a[0] in a;
      SkipSpaces(a[1..], b);
    }
  }

  lemma {:induction false} IndexAfter(a: string, b: string, p: char -> bool)
    requires (forall c <- a :: !p(c)) && (b == "" || p(b[0]))
    ensures IndexWhere(a + b, p) == |a|
  {
    if a == "" {
      assert a + b == b;
    } else {
      assert (a + b)[1..] == a[1..] + b && a[0] in a;
      IndexAfter(a[1..], b, p);
    }
  }

  lemma {:induction false} SkipComment(a: string, b: string)
    requires a != "" && a[0] == '#' && '\n' !in a && (b == "" || b[0] == '\n')
    ensures Skippable(a + b) <==> Skippable(b)
  {
    IndexAfter(a, b, IsNewline);
    assert (a + b)[|a|..] == b && (a + b)[0] == '#';
  }

  /** A statement starts after everything that may be skipped, and there is none exactly when the whole text
      may be. */
  lemma {:induction false} StatementStartSkips(src: string) returns (skipped: string)
    ensures StatementStart(src).None? <==> Skippable(src)
    ensures StatementStart(src).Some? ==> src == skipped + StatementStart(src).value && Skippable(skipped)
    decreases |src|, 1
  {
    var pos := IndexWhere(src, IsVisible);
    var spaces, rest := src[..pos], src[pos..];
    assert src == spaces + rest;
    SkipSpaces(spaces, rest);
    skipped := spaces;
    SkipSpaces(spaces, "");
    assert spaces + "" == spaces;
    if rest != "" {
      var more := StartAtSkips(rest);
      skipped := spaces + more;
      SkipSpaces(spaces, more);
      Parted(src, spaces, rest, more, StatementStart(src));
    }
  }

  lemma {:induction false} Parted(src: string, a: string, rest: string, b: string, r: Option<string>)
    requires src == a + rest && (r.Some? ==> rest == b + r.value)
    ensures r.Some? ==> src == a + b + r.value
  {
  }

  lemma {:induction false} StartAtSkips(src: string) returns (skipped: string)
    requires src != "" && IsVisible(src[0])
    ensures StartAt(src).None? <==> Skippable(src)
    ensures StartAt(src).Some? ==> src == skipped + StartAt(src).value && Skippable(skipped)
    decreases |src|, 0
  {
    skipped := "";
    if src[0] == '#' {
      var end := IndexWhere(src, IsNewline);
      var comment, rest := src[..end], src[end..];
      assert src == comment + rest && comment[0] == '#';
      SkipComment(comment, rest);
      if rest != "" {
        var more := StatementStartSkips(rest);
        skipped := comment + more;
        Parted(src, comment, rest, more, StartAt(src));
        if StartAt(src).Some? {
          assert more != "";
          assert more[0] == rest[0];
          SkipComment(comment, more);
        }
      }
    }
  }

  function AfterExport(src: string): (r: string)
    ensures |r| <= |src|
    ensures src != "" && !IsSpace(src[0]) ==> r == "" || !IsSpace(r[0])
  {
    if "export" <= src && |src| > 6 && IsSpace(src[6]) then TrimLeft(src[6..], IsSpace) else src
  }

  /** The first separator, or None when an unexpected character comes before it; the length of the text
      when there is no separator at all. */
  function KeyEnd(src: string): (r: Option<nat>)
    ensures r.Some? ==> r.value <= |src| && forall j | 0 <= j < r.value :: IsSpace(src[j]) || IsNameChar(src[j])
    ensures r.Some? && r.value < |src| ==> src[r.value] == '=' || src[r.value] == ':'
  {
    if src == "" then Some(0)
    else if IsSpace(src[0]) || IsNameChar(src[0]) then
      var rest := KeyEnd(src[1..]);
      if rest.None? then None
      else
        assert forall j | 1 <= j < rest.value + 1 :: src[j] == src[1..][j - 1];
        Some(rest.value + 1)
    else if src[0] == '=' || src[0] == ':' then Some(0)
    else None
  }

  /** locateKeyName: the key and what follows its separator. */
  function LocateKeyName(src: string): Result<(string, string)> {
    var s := AfterExport(TrimLeft(src, IsSpace));
    var end := KeyEnd(s);
    if end.None? then Err(UnexpectedCharacter)
    else if s == "" then Err(ZeroLength)
    else if end.value == |s| then Ok(("", TrimLeft(s, IsSpace)))
    else Ok((TrimRight(s[..end.value], IsUnicodeSpace), TrimLeft(s[end.value + 1..], IsSpace)))
  }

  // ---------------------------------------------------------------- values

  /** Where a trailing comment begins: at the last '#' that follows a space. */
  function CommentStart(line: string, i: nat): (r: nat)
    requires i <= |line|
    ensures r <= |line|
  {
    if i == 0 then |line|
    else if line[i - 1] == '#' && i - 1 > 0 && IsSpace(line[i - 2]) then i - 1
    else CommentStart(line, i - 1)
  }

  /** The closing quote from position i on: the first one without a backslash before it. */
  function ClosingQuote(src: string, quote: char, i: nat): (r: Option<nat>)
    requires 1 <= i <= |src|
    ensures r.Some? ==> i <= r.value < |src| && src[r.value] == quote && src[r.value - 1] != '\\'
    ensures forall j | i <= j < (if r.Some? then r.value else |src|) :: src[j] != quote || src[j - 1] == '\\'
    decreases |src| - i
  {
    if i == |src| then None
    else if src[i] == quote && src[i - 1] != '\\' then Some(i)
    else ClosingQuote(src, quote, i + 1)
  }

  /** The regular expression for a backslash and any character but a line feed. */
  function UnescapeLineBreaks(s: string): string {
    if |s| >= 2 && s[0] == '\\' && s[1] != '\n' then
      (if s[1] == 'n' then "\n" else if s[1] == 'r' then "\r" else s[..2]) + UnescapeLineBreaks(s[2..])
    else if s == "" then ""
    else [s[0]] + UnescapeLineBreaks(s[1..])
  }

  /** The regular expression for a backslash and any character but a dollar sign. */
  function UnescapeOthers(s: string): string {
    if |s| >= 2 && s[0] == '\\' && s[1] != '$' then [s[1]] + UnescapeOthers(s[2..])
    else if s == "" then ""
    else [s[0]] + UnescapeOthers(s[1..])
  }

  function ExpandEscapes(s: string): string { UnescapeOthers(UnescapeLineBreaks(s)) }

  /** Stages of the expression after the dollar sign: "("?, "{"?, a name, "}"?. */
  datatype Stage = Paren | Brace | Name | Close

  function MatchLength(s: string, stage: Stage): (n: nat)
    ensures n <= |s|
    decreases |s|, match stage case Paren => 3 case Brace => 2 case Name => 1 case Close => 0
  {
    match stage
    case Paren => if s != "" && s[0] == '(' then 1 + MatchLength(s[1..], Brace) else MatchLength(s, Brace)
    case Brace => if s != "" && s[0] == '{' then 1 + MatchLength(s[1..], Name) else MatchLength(s, Name)
    case Name => if s != "" && IsVariableChar(s[0]) then 1 + MatchLength(s[1..], Name) else MatchLength(s, Close)
    case Close => if s != "" && s[0] == '}' then 1 else 0
  }

  /** The name inside a match: what is left of it without parenthesis and braces. */
  function NameOf(matched: string): string {
    var a := if matched != "" && matched[0] == '(' then matched[1..] else matched;
    var b := if a != "" && a[0] == '{' then a[1..] else a;
    if b != "" && b[|b| - 1] == '}' then b[..|b| - 1] else b
  }

  function Reference(matched: string, vars: Vars): string {
    var name := NameOf(matched);
    if name == "" then "$" + matched else if name in vars then vars[name] else ""
  }

  function TailLength(s: string): (n: nat)
    ensures n <= |s|
  {
    MatchLength(s, Paren)
  }

  /** A backslash keeps the match as it is; otherwise a name is looked up, also after "$(". */
  function ExpandVariables(s: string, vars: Vars): string
    decreases |s|
  {
    if s == "" then ""
    else if |s| >= 2 && s[0] == '\\' && s[1] == '$' then
      var n := TailLength(s[2..]);
      "$" + s[2..][..n] + ExpandVariables(s[2..][n..], vars)
    else if s[0] == '$' then
      var n := TailLength(s[1..]);
      Reference(s[1..][..n], vars) + ExpandVariables(s[1..][n..], vars)
    else [s[0]] + ExpandVariables(s[1..], vars)
  }

  lemma {:induction false} BraceMatchesNoParen(t: string)
    requires t != "" && t[0] == '('
    ensures MatchLength(t, Brace) == 0
  {
    assert MatchLength(t, Name) == MatchLength(t, Close) == 0;
  }

  lemma {:induction false} NameInParen(t: string)
    ensures MatchLength("(" + t, Paren) == 1 + MatchLength(t, Brace)
    ensures NameOf(("(" + t)[..1 + MatchLength(t, Brace)]) == NameOf(t[..MatchLength(t, Brace)])
  {
    var n := MatchLength(t, Brace);
    assert ("(" + t)[1..] == t && ("(" + t)[..1 + n][1..] == t[..n];
    if t != "" && t[0] == '(' {
      BraceMatchesNoParen(t);
    }
  }

  /** What the branch meant for "$(" compares is the dollar sign itself, so it is never taken: behind "$(" a
      name is looked up as anywhere else, and only without a name does the text stay. */
  lemma {:induction false} DollarParen(t: string, vars: Vars)
    ensures var n := MatchLength(t, Brace); var name := NameOf(t[..n]);
      ExpandVariables("$(" + t, vars)
      == (if name == "" then "$(" + t[..n] else if name in vars then vars[name] else "") + ExpandVariables(t[n..], vars)
  {
    var s, n := "$(" + t, MatchLength(t, Brace);
    NameInParen(t);
    assert s[1..] == "(" + t && ("(" + t)[1 + n..] == t[n..];
    assert "$" + ("(" + t)[..1 + n] == "$(" + t[..n];
  }

  /** So "$(" stays exactly when no name follows or the binding is that very text, and it loses its dollar
      sign, as the branch would have it, only by such a binding. */
  lemma {:induction false} DollarParenStays(t: string, vars: Vars)
    ensures var n := MatchLength(t, Brace);
      var name, rest := NameOf(t[..n]), ExpandVariables(t[n..], vars);
      && (ExpandVariables("$(" + t, vars) == "$(" + t[..n] + rest
          <==> name == "" || (name in vars && vars[name] == "$(" + t[..n]))
      && (ExpandVariables("$(" + t, vars) == "(" + t[..n] + rest
          <==> name != "" && name in vars && vars[name] == "(" + t[..n])
  {
    DollarParen(t, vars);
    var n := MatchLength(t, Brace);
    var name, rest := NameOf(t[..n]), ExpandVariables(t[n..], vars);
    var value := if name == "" then "$(" + t[..n] else if name in vars then vars[name] else "";
    SamePrefix(value, "$(" + t[..n], rest);
    SamePrefix(value, "(" + t[..n], rest);
    assert ("$(" + t[..n])[0] != ("(" + t[..n])[0];
  }

  lemma {:induction false} SamePrefix(a: string, b: string, rest: string)
    ensures a + rest == b + rest <==> a == b
  {
    assert (a + rest)[..|a + rest| - |rest|] == a && (b + rest)[..|b + rest| - |rest|] == b;
  }

  lemma {:induction false} NameBeforeParen()
    ensures MatchLength("A)", Brace) == 1 && NameOf("A)"[..1]) == "A"
  {
    assert "A)"[1..] == ")" && "A)"[..1] == "A";
    assert MatchLength(")", Name) == MatchLength(")", Close) == 0;
    assert MatchLength("A)", Brace) == MatchLength("A)", Name) == 1;
  }

  lemma {:induction false} CommandSubstitutionIsExpanded()
    ensures ExpandVariables("$(A)", map["A" := "v"]) == "v)"
  {
    var vars := map["A" := "v"];
    DollarParen("A)", vars);
    NameBeforeParen();
    assert "A)"[1..] == ")" && "$(A)" == "$(" + "A)" && ")"[1..] == "";
    assert ExpandVariables(")", vars) == ")" + ExpandVariables("", vars);
  }

  /** extractVarValue: the value and the rest of the input. */
  function ExtractVarValue(src: string, vars: Vars): (r: Result<(string, string)>)
    ensures r.Ok? ==> |r.value.1| <= |src| && r.value.1 == src[|src| - |r.value.1|..]
    ensures r.Ok? && src != "" && !IsLineEnd(src[0]) ==> |r.value.1| < |src|
  {
    if src != "" && (src[0] == '"' || src[0] == '\'') then
      var quote := src[0];
      var i := ClosingQuote(src, quote, 1);
      if i.None? then Err(Unterminated)
      else
        var raw := TrimLeft(TrimRight(src[..i.value], c => c == quote), c => c == quote);
        Ok((if quote == '"' then ExpandVariables(ExpandEscapes(raw), vars) else raw, src[i.value + 1..]))
    else
      var eol := IndexWhere(src, IsLineEnd);
      var line := src[..eol];
      var trimmed := TrimLeft(TrimRight(line[..CommentStart(line, |line|)], IsSpace), IsSpace);
      Ok((ExpandVariables(trimmed, vars), src[eol..]))
  }

  // ---------------------------------------------------------------- the whole file

  /** One statement: its binding and what is left. */
  function Statement(cutset: string, vars: Vars): (r: Result<(string, string, string)>)
    requires cutset != "" && !IsUnicodeSpace(cutset[0])
    ensures r.Ok? ==> |r.value.2| < |cutset|
  {
    var located := LocateKeyName(cutset);
    if located.Err? then Err(located.error)
    else
      var (key, left) := located.value;
      StatementProgress(cutset);
      var extracted := ExtractVarValue(left, vars);
      if extracted.Err? then Err(extracted.error) else Ok((key, extracted.value.0, extracted.value.1))
  }

  /** Either the key's separator is consumed, or what is left starts with a value character. */
  lemma StatementProgress(cutset: string)
    requires cutset != "" && !IsUnicodeSpace(cutset[0]) && LocateKeyName(cutset).Ok?
    ensures var left := LocateKeyName(cutset).value.1;
      |left| < |cutset| || (|left| == |cutset| && left != "" && !IsLineEnd(left[0]))
  {
    var s := AfterExport(TrimLeft(cutset, IsSpace));
    assert TrimLeft(cutset, IsSpace) == cutset;
    assert !IsSpace(s[0]);
    if KeyEnd(s).value == |s| {
      assert IsNameChar(s[0]);
      assert TrimLeft(s, IsSpace) == s;
    }
  }

  /** All statements of the input, each adding to the bindings the later ones may refer to. */
  function Parse(src: string, out: Vars): Result<Vars>
    decreases |src|
  {
    var cutset := StatementStart(src);
    if cutset.None? then Ok(out)
    else
      var r := Statement(cutset.value, out);
      if r.Err? then Err(r.error) else Parse(r.value.2, out[r.value.0 := r.value.1])
  }

  method ParseBytes(src: string, vars: Vars) returns (r: Result<Vars>)
    ensures r == Parse(ReplaceCRLF(src), vars)
  {
    var out := vars;
    var cutset := ReplaceCRLF(src);
    while true
      invariant Parse(cutset, out) == Parse(ReplaceCRLF(src), vars)
      decreases |cutset|
    {
      var start := StatementStart(cutset);
      if start.None? {
        return Ok(out);
      }
      var located := LocateKeyName(start.value);
      if located.Err? {
        return Err(located.error);
      }
      StatementProgress(start.value);
      var extracted := ExtractVarValue(located.value.1, out);
      if extracted.Err? {
        return Err(extracted.error);
      }
      out := out[located.value.0 := extracted.value.0];
      cutset := extracted.value.1;
    }
  }

  // ---------------------------------------------------------------- the printer the parser undoes

  function EscapedChar(c: char): string {
    if c == '\n' then "\\n" else if c == '\r' then "\\r"
    else if c == '\\' || c == '"' || c == '$' then ['\\', c]
    else [c]
  }

  function Escape(v: string): string {
    if v == "" then "" else EscapedChar(v[0]) + Escape(v[1..])
  }

  function PrintBinding(key: string, value: string): string { key + "=\"" + Escape(value) + "\"\n" }

  datatype Binding = Binding(key: string, value: string)

  function Print(bindings: seq<Binding>): string {
    if bindings == [] then "" else PrintBinding(bindings[0].key, bindings[0].value) + Print(bindings[1..])
  }

  function Bound(bindings: seq<Binding>, out: Vars): Vars
    decreases bindings
  {
    if bindings == [] then out else Bound(bindings[1..], out[bindings[0].key := bindings[0].value])
  }

  predicate ValidKey(key: string) { key != "" && forall c <- key :: IsNameChar(c) }

  /** What the closing-quote search and the quote trimming cannot tell from the closing quote. */
  predicate EndsQuotably(value: string) {
    value == "" || (value[|value| - 1] != '\\' && value[|value| - 1] != '"')
  }

  function HalfEscapedChar(c: char): string {
    if c == '\\' || c == '"' || c == '$' then ['\\', c] else [c]
  }

  /** After the first pass only line breaks are back. */
  function HalfEscape(v: string): string {
    if v == "" then "" else HalfEscapedChar(v[0]) + HalfEscape(v[1..])
  }

  function DollarEscapedChar(c: char): string { if c == '$' then "\\$" else [c] }

  /** After the second only dollar signs are still escaped. */
  function DollarEscape(v: string): string {
    if v == "" then "" else DollarEscapedChar(v[0]) + DollarEscape(v[1..])
  }

  lemma FirstPassChar(c: char, rest: string)
    ensures UnescapeLineBreaks(EscapedChar(c) + rest) == HalfEscapedChar(c) + UnescapeLineBreaks(rest)
  {
    var s := EscapedChar(c) + rest;
    if |EscapedChar(c)| == 2 {
      assert s[0] == '\\' && s[1] == EscapedChar(c)[1] && s[2..] == rest && s[..2] == EscapedChar(c);
    } else {
      assert s[0] == c && s[1..] == rest;
    }
  }

  lemma {:induction false} FirstPass(v: string, tail: string)
    ensures UnescapeLineBreaks(Escape(v) + tail) == HalfEscape(v) + UnescapeLineBreaks(tail)
    decreases v
  {
    if v == "" {
      assert Escape(v) + tail == tail;
    } else {
      assert Escape(v) + tail == EscapedChar(v[0]) + (Escape(v[1..]) + tail);
      FirstPassChar(v[0], Escape(v[1..]) + tail);
      FirstPass(v[1..], tail);
    }
  }

  lemma SecondPassChar(c: char, rest: string)
    ensures UnescapeOthers(HalfEscapedChar(c) + rest) == DollarEscapedChar(c) + UnescapeOthers(rest)
  {
    var s := HalfEscapedChar(c) + rest;
    if c == '$' {
      assert s[0] == '\\' && s[1] == '$' && s[1..] == "$" + rest && s[1..][1..] == rest;
      assert UnescapeOthers(s) == "\\" + UnescapeOthers(s[1..]);
      assert UnescapeOthers(s[1..]) == "$" + UnescapeOthers(rest);
    } else if c == '\\' || c == '"' {
      assert s[0] == '\\' && s[1] == c && s[2..] == rest;
    } else {
      assert s[0] == c && s[1..] == rest;
    }
  }

  lemma {:induction false} SecondPass(v: string, tail: string)
    ensures UnescapeOthers(HalfEscape(v) + tail) == DollarEscape(v) + UnescapeOthers(tail)
    decreases v
  {
    if v == "" {
      assert HalfEscape(v) + tail == tail;
    } else {
      assert HalfEscape(v) + tail == HalfEscapedChar(v[0]) + (HalfEscape(v[1..]) + tail);
      SecondPassChar(v[0], HalfEscape(v[1..]) + tail);
      SecondPass(v[1..], tail);
      assert DollarEscape(v) + UnescapeOthers(tail)
        == DollarEscapedChar(v[0]) + (DollarEscape(v[1..]) + UnescapeOthers(tail));
    }
  }

  /** The tail of a match sees the same characters with and without escaped dollar signs. */
  lemma {:induction false} MatchUnaffected(v: string, stage: Stage)
    ensures var n := MatchLength(DollarEscape(v), stage);
      n == MatchLength(v, stage) && DollarEscape(v)[..n] == v[..n] && DollarEscape(v)[n..] == DollarEscape(v[n..])
    decreases |v|, match stage case Paren => 3 case Brace => 2 case Name => 1 case Close => 0
  {
    var d := DollarEscape(v);
    if v == "" || v[0] == '$' {
      assert d == "" || d[0] == '\\';
      MatchNothing(d, stage);
      MatchNothing(v, stage);
    } else {
      assert d[0] == v[0] && d[1..] == DollarEscape(v[1..]);
      match stage
      case Paren => if v[0] == '(' { MatchOneMore(v, Brace); } else { MatchUnaffected(v, Brace); }
      case Brace => if v[0] == '{' { MatchOneMore(v, Name); } else { MatchUnaffected(v, Name); }
      case Name => if IsVariableChar(v[0]) { MatchOneMore(v, Name); } else { MatchUnaffected(v, Close); }
      case Close => assert d[..1] == v[..1] && d[0..] == d && v[0..] == v;
    }
  }

  lemma MatchNothing(s: string, stage: Stage)
    requires s == "" || s[0] == '$' || s[0] == '\\'
    ensures MatchLength(s, stage) == 0
    decreases match stage case Paren => 3 case Brace => 2 case Name => 1 case Close => 0
  {
    if stage.Paren? { MatchNothing(s, Brace); }
    if stage.Brace? { MatchNothing(s, Name); }
    if stage.Name? { MatchNothing(s, Close); }
  }

  lemma {:induction false} MatchOneMore(v: string, next: Stage)
    requires v != "" && v[0] != '$'
    ensures var d, n := DollarEscape(v), 1 + MatchLength(v[1..], next);
      n == 1 + MatchLength(d[1..], next) && n <= |d| && d[..n] == v[..n] && d[n..] == DollarEscape(v[n..])
    decreases |v|, 0
  {
    MatchUnaffected(v[1..], next);
    var d, k := DollarEscape(v), MatchLength(v[1..], next);
    assert d[1..] == DollarEscape(v[1..]);
    assert d[..1 + k] == [v[0]] + d[1..][..k] && v[..1 + k] == [v[0]] + v[1..][..k];
    assert d[1 + k..] == d[1..][k..] && v[1 + k..] == v[1..][k..];
  }

  lemma {:induction false} ExpandEscapedDollar(rest: string, vars: Vars)
    ensures ExpandVariables("\\$" + rest, vars)
         == "$" + rest[..TailLength(rest)] + ExpandVariables(rest[TailLength(rest)..], vars)
  {
    var s := "\\$" + rest;
    assert s[0] == '\\' && s[1] == '$' && s[2..] == rest;
  }

  lemma {:induction false} ExpandPlainChar(c: char, rest: string, vars: Vars)
    requires c != '$' && (rest == "" || rest[0] != '$')
    ensures ExpandVariables([c] + rest, vars) == [c] + ExpandVariables(rest, vars)
  {
    var s := [c] + rest;
    assert s[0] == c && s[1..] == rest;
    assert |s| >= 2 ==> s[1] == rest[0];
  }

  lemma {:induction false} ThirdPassDollar(t: string, vars: Vars)
    requires ExpandVariables(DollarEscape(t[TailLength(t)..]), vars) == t[TailLength(t)..]
    ensures ExpandVariables("\\$" + DollarEscape(t), vars) == "$" + t
  {
    MatchUnaffected(t, Paren);
    ExpandSameTail(DollarEscape(t), t, TailLength(t), vars);
  }

  lemma {:induction false} ExpandSameTail(d: string, t: string, n: nat, vars: Vars)
    requires n == TailLength(d) <= |t| && d[..n] == t[..n] && ExpandVariables(d[n..], vars) == t[n..]
    ensures ExpandVariables("\\$" + d, vars) == "$" + t
  {
    ExpandEscapedDollar(d, vars);
    assert "$" + t[..n] + t[n..] == "$" + t;
  }

  /** Variable expansion takes the escaped dollar signs for literal ones and expands nothing. */
  lemma {:induction false} ThirdPass(v: string, vars: Vars)
    ensures ExpandVariables(DollarEscape(v), vars) == v
    decreases |v|
  {
    if v != "" {
      var rest := DollarEscape(v[1..]);
      if v[0] == '$' {
        var t := v[1..];
        ThirdPass(t[TailLength(t)..], vars);
        ThirdPassDollar(t, vars);
        assert v == "$" + t;
      } else {
        DollarIsEscaped(v[1..]);
        ExpandPlainChar(v[0], rest, vars);
        ThirdPass(v[1..], vars);
        assert v == [v[0]] + v[1..];
      }
    }
  }

  /** An escaped text never starts with a bare dollar sign. */
  lemma DollarIsEscaped(v: string)
    ensures DollarEscape(v) == "" || DollarEscape(v)[0] != '$'
  {
  }

  lemma {:induction false} ValueRoundTrip(v: string, vars: Vars)
    ensures ExpandVariables(ExpandEscapes(Escape(v)), vars) == v
  {
    FirstPass(v, "");
    SecondPass(v, "");
    assert Escape(v) + "" == Escape(v) && HalfEscape(v) + "" == HalfEscape(v);
    assert DollarEscape(v) + "" == DollarEscape(v);
    ThirdPass(v, vars);
  }

  // ---------------------------------------------------------------- quotes

  /** Every quote inside an escaped text has a backslash before it. */
  lemma QuotesAreEscaped(v: string, i: nat)
    requires i < |Escape(v)| && Escape(v)[i] == '"'
    ensures i > 0 && Escape(v)[i - 1] == '\\'
  {
    var k := |EscapedChar(v[0])|;
    if i >= k {
      assert Escape(v)[i] == Escape(v[1..])[i - k];
      QuotesAreEscaped(v[1..], i - k);
      assert Escape(v)[i - 1] == Escape(v[1..])[i - k - 1];
    }
  }

  lemma {:induction false} LastEscaped(v: string)
    requires v != ""
    ensures Escape(v) != "" && Escape(v)[|Escape(v)| - 1] == EscapedChar(v[|v| - 1])[|EscapedChar(v[|v| - 1])| - 1]
  {
    if |v| == 1 {
      assert Escape(v[1..]) == "";
    } else {
      LastEscaped(v[1..]);
      assert v[1..][|v[1..]| - 1] == v[|v| - 1];
      assert Escape(v) == EscapedChar(v[0]) + Escape(v[1..]);
    }
  }

  lemma {:induction false} FindClosingQuote(src: string, i: nat, q: nat)
    requires 1 <= i <= q < |src| && src[q] == '"' && src[q - 1] != '\\'
    requires forall j | i <= j < q :: src[j] != '"' || src[j - 1] == '\\'
    ensures ClosingQuote(src, '"', i) == Some(q)
  {
    var r := ClosingQuote(src, '"', i);
    assert r.Some?;
  }

  predicate QuotesEscaped(e: string) {
    forall i | 0 <= i < |e| && e[i] == '"' :: i > 0 && e[i - 1] == '\\'
  }

  lemma EscapeEscapesQuotes(v: string)
    ensures QuotesEscaped(Escape(v))
  {
    forall i | 0 <= i < |Escape(v)| && Escape(v)[i] == '"' ensures i > 0 && Escape(v)[i - 1] == '\\' {
      QuotesAreEscaped(v, i);
    }
  }

  function TrimQuotes(s: string): string {
    TrimLeft(TrimRight(s, c => c == '"'), c => c == '"')
  }

  lemma {:induction false} QuotedLayout(e: string, rest: string)
    ensures var src, q := "\"" + e + "\"" + rest, |e| + 1;
      && q < |src| && src[0] == '"' && src[q] == '"' && src[..q] == "\"" + e && src[q + 1..] == rest
      && forall j | 1 <= j < q :: src[j] == e[j - 1]
  {
  }

  /** A double-quoted text without bare quotes extends to the quote after it, unless it ends in a backslash. */
  lemma {:induction false} QuotedText(e: string, rest: string, vars: Vars)
    requires QuotesEscaped(e) && (e == "" || e[|e| - 1] != '\\')
    ensures ExtractVarValue("\"" + e + "\"" + rest, vars)
         == Ok((ExpandVariables(ExpandEscapes(TrimQuotes("\"" + e)), vars), rest))
  {
    QuotedLayout(e, rest);
    FindClosingQuote("\"" + e + "\"" + rest, 1, |e| + 1);
  }

  /** A quoted printed value reads back, and the rest of the input is untouched. */
  lemma {:induction false} QuotedValue(v: string, rest: string, vars: Vars)
    requires EndsQuotably(v)
    ensures ExtractVarValue("\"" + Escape(v) + "\"" + rest, vars) == Ok((v, rest))
  {
    if v != "" { LastEscaped(v); }
    EscapeEscapesQuotes(v);
    QuotedText(Escape(v), rest, vars);
    UnquotedText(v);
    ValueRoundTrip(v, vars);
  }

  lemma {:induction false} UnquotedText(v: string)
    requires EndsQuotably(v)
    ensures TrimQuotes("\"" + Escape(v)) == Escape(v)
  {
    EscapeEscapesQuotes(v);
    if v != "" { LastEscaped(v); }
    TrimOpeningQuote(Escape(v));
  }

  lemma {:induction false} TrimOpeningQuote(e: string)
    requires QuotesEscaped(e) && (e == "" || e[|e| - 1] != '"')
    ensures TrimQuotes("\"" + e) == e
  {
    if e == "" {
      assert "\"" + e == "\"" && "\""[..0] == "";
    } else {
      assert e[0] != '"';
      assert ("\"" + e)[|e|] == e[|e| - 1] && ("\"" + e)[1..] == e;
    }
  }

  // ---------------------------------------------------------------- whole files

  lemma {:induction false} KeyIsFound(key: string, rest: string)
    requires ValidKey(key) && rest != "" && rest[0] == '"'
    ensures LocateKeyName(key + "=" + rest) == Ok((key, rest))
  {
    var src := key + "=" + rest;
    assert src[0] == key[0] && key[0] in key;
    NotExported(key, rest);
    SeparatorAt(key, rest);
    assert src[..|key|] == key && src[|key| + 1..] == rest;
    KeyIsTrimmed(key);
  }

  lemma KeyIsTrimmed(key: string)
    requires ValidKey(key)
    ensures TrimRight(key, IsUnicodeSpace) == key
  {
    assert key[|key| - 1] in key;
  }

  lemma {:induction false} NotExported(key: string, rest: string)
    requires ValidKey(key) && rest != "" && rest[0] == '"'
    ensures AfterExport(key + "=" + rest) == key + "=" + rest
  {
    var src := key + "=" + rest;
    assert src[|key|] == '=';
    assert |key| > 6 ==> src[6] == key[6] && key[6] in key;
    assert forall i | 0 <= i < 6 :: "export"[i] != '=';
    assert "export" <= src ==> forall i | 0 <= i < 6 :: src[i] == "export"[i];
  }

  lemma SeparatorAt(key: string, rest: string)
    requires forall c <- key :: IsNameChar(c)
    ensures KeyEnd(key + "=" + rest) == Some(|key|)
  {
    var src := key + "=" + rest;
    if key != "" {
      assert src[1..] == key[1..] + "=" + rest && key[0] in key;
      SeparatorAt(key[1..], rest);
    }
  }

  /** A printed line is one statement. */
  lemma {:induction false} OneLine(b: Binding, rest: string, vars: Vars)
    requires ValidKey(b.key) && EndsQuotably(b.value)
    ensures Parse(PrintBinding(b.key, b.value) + rest, vars) == Parse("\n" + rest, vars[b.key := b.value])
  {
    var quoted := "\"" + Escape(b.value) + "\"" + ("\n" + rest);
    var src := b.key + "=" + quoted;
    assert PrintBinding(b.key, b.value) + rest == src;
    assert src[0] == b.key[0] && b.key[0] in b.key;
    StartsAtOnce(src);
    KeyIsFound(b.key, quoted);
    QuotedValue(b.value, "\n" + rest, vars);
    OneStatement(src, vars, b.key, quoted, b.value, "\n" + rest);
  }

  lemma StartsAtOnce(src: string)
    requires src != "" && IsVisible(src[0]) && src[0] != '#'
    ensures StatementStart(src) == Some(src)
  {
  }

  lemma OneStatement(src: string, vars: Vars, key: string, left: string, value: string, rest: string)
    requires StatementStart(src) == Some(src)
    requires LocateKeyName(src) == Ok((key, left)) && ExtractVarValue(left, vars) == Ok((value, rest))
    ensures Parse(src, vars) == Parse(rest, vars[key := value])
  {
  }

  lemma {:induction false} LineBreakSkipped(rest: string, vars: Vars)
    ensures Parse("\n" + rest, vars) == Parse(rest, vars)
  {
    assert ("\n" + rest)[1..] == rest;
    StartAfterLineBreak(rest);
  }

  lemma {:induction false} StartAfterLineBreak(rest: string)
    ensures StatementStart("\n" + rest) == StatementStart(rest)
  {
    var src := "\n" + rest;
    var pos := IndexWhere(rest, IsVisible);
    assert src[1..] == rest;
    assert IndexWhere(src, IsVisible) == 1 + pos;
    if pos < |rest| {
      assert src[1 + pos..] == rest[pos..];
    }
  }

  lemma NoCarriageReturns(s: string)
    requires '\r' !in s
    ensures ReplaceCRLF(s) == s
  {
    if s != "" {
      assert s[0] in s;
      NoCarriageReturns(s[1..]);
      assert s == [s[0]] + s[1..];
    }
  }

  lemma EscapeHasNoCarriageReturn(v: string)
    ensures '\r' !in Escape(v)
  {
  }

  lemma PrintHasNoCarriageReturn(bindings: seq<Binding>)
    requires forall b <- bindings :: ValidKey(b.key)
    ensures '\r' !in Print(bindings)
  {
    if bindings != [] {
      var b := bindings[0];
      EscapeHasNoCarriageReturn(b.value);
      assert b in bindings && !IsNameChar('\r');
      PrintHasNoCarriageReturn(bindings[1..]);
    }
  }

  lemma {:induction false} ParsePrinted(bindings: seq<Binding>, vars: Vars)
    requires forall b <- bindings :: ValidKey(b.key) && EndsQuotably(b.value)
    ensures Parse(Print(bindings), vars) == Ok(Bound(bindings, vars))
    decreases bindings
  {
    if bindings == [] {
      assert StatementStart("") == None;
    } else {
      var b := bindings[0];
      assert b in bindings;
      OneLine(b, Print(bindings[1..]), vars);
      LineBreakSkipped(Print(bindings[1..]), vars[b.key := b.value]);
      ParsePrinted(bindings[1..], vars[b.key := b.value]);
    }
  }

  /** Parsing undoes printing for every list of bindings with valid names, the last binding of a name
      winning, whatever the values refer to. */
  lemma {:induction false} ParseUndoesPrint(bindings: seq<Binding>, vars: Vars)
    requires forall b <- bindings :: ValidKey(b.key) && EndsQuotably(b.value)
    ensures Parse(ReplaceCRLF(Print(bindings)), vars) == Ok(Bound(bindings, vars))
  {
    PrintHasNoCarriageReturn(bindings);
    NoCarriageReturns(Print(bindings));
    ParsePrinted(bindings, vars);
  }

  // ---------------------------------------------------------------- exactly which values survive

  lemma EscapeConcat(a: string, b: string)
    ensures Escape(a + b) == Escape(a) + Escape(b)
  {
    if a == "" {
      assert a + b == b;
    } else {
      assert (a + b)[1..] == a[1..] + b;
      EscapeConcat(a[1..], b);
    }
  }

  lemma DollarEscapeConcat(a: string, b: string)
    ensures DollarEscape(a + b) == DollarEscape(a) + DollarEscape(b)
  {
    if a == "" {
      assert a + b == b;
    } else {
      assert (a + b)[1..] == a[1..] + b;
      DollarEscapeConcat(a[1..], b);
    }
  }

  lemma {:induction false} LeftoverBackslash(v: string, vars: Vars)
    ensures ExpandVariables(ExpandEscapes(Escape(v) + "\\"), vars) == v + "\\"
  {
    assert "\\"[1..] == "";
    FirstPass(v, "\\");
    SecondPass(v, "\\");
    DollarEscapeConcat(v, "\\");
    assert DollarEscape("\\") == "\\";
    ThirdPass(v + "\\", vars);
  }

  /** A final quote is taken for the closing one's: its backslash is left over. */
  lemma {:induction false} FinalQuoteLost(v: string, rest: string, vars: Vars)
    ensures ExtractVarValue("\"" + Escape(v + "\"") + "\"" + rest, vars) == Ok((v + "\\", rest))
  {
    LastEscaped(v + "\"");
    EscapeEscapesQuotes(v + "\"");
    QuotedText(Escape(v + "\""), rest, vars);
    TrimmedFinalQuote(v);
    LeftoverBackslash(v, vars);
  }

  lemma {:induction false} TrimmedFinalQuote(v: string)
    ensures TrimQuotes("\"" + Escape(v + "\"")) == Escape(v) + "\\"
  {
    EscapeConcat(v, "\"");
    assert Escape("\"") == "\\\"" by { assert "\""[1..] == ""; }
    var kept := Escape(v) + "\\";
    var raw := "\"" + Escape(v + "\"");
    assert raw == ("\"" + kept) + "\"";
    TrimLastQuote("\"" + kept);
    EscapeEscapesQuotes(v);
    assert QuotesEscaped(kept);
    TrimOpeningQuote(kept);
  }

  lemma {:induction false} TrimLastQuote(s: string)
    ensures TrimQuotes(s + "\"") == TrimQuotes(s)
  {
    assert (s + "\"")[..|s|] == s;
  }

  /** A final backslash hides the closing quote. */
  lemma {:induction false} FinalBackslashUnterminated(v: string, vars: Vars)
    requires v != "" && v[|v| - 1] == '\\'
    ensures ExtractVarValue("\"" + Escape(v) + "\"" + "\n", vars) == Err(Unterminated)
  {
    LastEscaped(v);
    EscapeEscapesQuotes(v);
    HiddenQuote(Escape(v), vars);
  }

  lemma {:induction false} HiddenQuote(e: string, vars: Vars)
    requires QuotesEscaped(e) && e != "" && e[|e| - 1] == '\\'
    ensures ExtractVarValue("\"" + e + "\"" + "\n", vars) == Err(Unterminated)
  {
    var src := "\"" + e + "\"" + "\n";
    assert src[0] == '"' && src[|e| + 1] == '"' && src[|e|] == '\\' && src[|e| + 2] == '\n';
    assert forall j | 1 <= j <= |e| :: src[j] == e[j - 1];
    assert forall j | 1 <= j < |src| && src[j] == '"' :: src[j - 1] == '\\';
    assert ClosingQuote(src, '"', 1).None?;
  }

  /** One binding survives printing and parsing exactly when its value does not end in a backslash or a
      double quote. */
  lemma {:induction false} OneBindingRoundTrip(b: Binding, vars: Vars)
    requires ValidKey(b.key)
    ensures Parse(ReplaceCRLF(Print([b])), vars) == Ok(vars[b.key := b.value]) <==> EndsQuotably(b.value)
  {
    var v := b.value;
    if EndsQuotably(v) {
      ParseUndoesPrint([b], vars);
      assert Bound([b], vars) == Bound([], vars[b.key := v]);
    } else {
      UnquotableBinding(b, vars);
    }
  }

  lemma {:induction false} UnquotableBinding(b: Binding, vars: Vars)
    requires ValidKey(b.key) && !EndsQuotably(b.value)
    ensures Parse(ReplaceCRLF(Print([b])), vars) != Ok(vars[b.key := b.value])
  {
    var v := b.value;
    var quoted := "\"" + Escape(v) + "\"" + "\n";
    var src := b.key + "=" + quoted;
    PrintHasNoCarriageReturn([b]);
    NoCarriageReturns(Print([b]));
    PrintOne(b);
    assert src[0] == b.key[0] && b.key[0] in b.key;
    StartsAtOnce(src);
    KeyIsFound(b.key, quoted);
    UnquotableValue(v, vars);
    var extracted := ExtractVarValue(quoted, vars);
    if extracted.Ok? {
      OneStatement(src, vars, b.key, quoted, extracted.value.0, "\n");
      OnlyLineBreak(vars[b.key := extracted.value.0]);
      assert vars[b.key := extracted.value.0][b.key] != vars[b.key := v][b.key];
    } else {
      StatementFails(src, vars, b.key, quoted);
    }
  }

  /** Such a value comes back changed, or not at all. */
  lemma {:induction false} UnquotableValue(v: string, vars: Vars)
    requires !EndsQuotably(v)
    ensures var r := ExtractVarValue("\"" + Escape(v) + "\"" + "\n", vars);
      r.Ok? ==> r.value.0 != v && r.value.1 == "\n"
  {
    var init := v[..|v| - 1];
    if v[|v| - 1] == '"' {
      assert v == init + "\"";
      FinalQuoteLost(init, "\n", vars);
      assert (init + "\\")[|init|] != v[|init|];
    } else {
      FinalBackslashUnterminated(v, vars);
    }
  }

  lemma PrintOne(b: Binding)
    ensures Print([b]) == b.key + "=" + ("\"" + Escape(b.value) + "\"" + "\n")
  {
    assert [b][1..] == [] && Print([b]) == PrintBinding(b.key, b.value) + Print([]);
  }

  lemma StatementFails(src: string, vars: Vars, key: string, left: string)
    requires StatementStart(src) == Some(src) && LocateKeyName(src) == Ok((key, left))
    requires ExtractVarValue(left, vars).Err?
    ensures Parse(src, vars).Err?
  {
  }

  lemma OnlyLineBreak(vars: Vars)
    ensures Parse("\n", vars) == Ok(vars)
  {
    assert "\n"[1..] == "";
    assert StatementStart("\n") == None;
  }
}
