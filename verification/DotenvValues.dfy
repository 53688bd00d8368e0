/** What the parser of internal/dotenv/parser.go reads in lines people write by hand: unquoted values with
    spaces and comments around them, single-quoted values, references to earlier bindings, and the forms of
    a name. */
module DotenvValues {
  import opened Characters
  import opened Dotenv
  import opened Options

  // ---------------------------------------------------------------- texts and indices

  /** White space that does not end the line. */
  predicate AreBlanks(s: string) { forall c <- s :: IsSpace(c) && !IsLineEnd(c) }

  predicate OnOneLine(s: string) { forall c <- s :: !IsLineEnd(c) }

  predicate EndsLine(rest: string) { rest == "" || IsLineEnd(rest[0]) }

  predicate IsTrimmed(v: string) { v == "" || (!IsSpace(v[0]) && !IsSpace(v[|v| - 1])) }

  predicate EndsInBlank(s: string) { s != "" && IsSpace(s[|s| - 1]) }

  /** A number sign after a space. */
  predicate HasCommentAt(s: string, i: nat) { 0 < i < |s| && s[i] == '#' && IsSpace(s[i - 1]) }

  predicate NoComment(s: string) { forall i | 0 <= i < |s| :: !HasCommentAt(s, i) }

  lemma {:induction false} TrimsLeft(a: string, b: string)
    requires AreBlanks(a) && (b == "" || !IsSpace(b[0]))
    ensures TrimLeft(a + b, IsSpace) == b
  {
    if a == "" {
      assert a + b == b;
    } else {
      assert (a + b)[1..] == a[1..] + b && a[0] in a;
      TrimsLeft(a[1..], b);
    }
  }

  lemma {:induction false} TrimsRight(a: string, b: string, cut: char -> bool)
    requires (forall c <- b :: cut(c)) && (a == "" || !cut(a[|a| - 1]))
    ensures TrimRight(a + b, cut) == a
  {
    if b == "" {
      assert a + b == a;
    } else {
      var n := |a + b| - 1;
      assert (a + b)[n] == b[|b| - 1] && (a + b)[..n] == a + b[..|b| - 1];
      TrimsRight(a, b[..|b| - 1], cut);
    }
  }

  lemma {:induction false} TrimsBlanks(lead: string, v: string, trail: string)
    requires AreBlanks(lead) && AreBlanks(trail) && IsTrimmed(v)
    ensures TrimLeft(TrimRight(lead + v + trail, IsSpace), IsSpace) == v
  {
    if v == "" {
      AllTrimmed(lead + v + trail);
    } else {
      assert (lead + v)[|lead + v| - 1] == v[|v| - 1];
      TrimsRight(lead + v, trail, IsSpace);
      TrimsLeft(lead, v);
    }
  }

  lemma {:induction false} AllTrimmed(s: string)
    requires AreBlanks(s)
    ensures TrimRight(s, IsSpace) == ""
  {
    assert "" + s == s;
    TrimsRight("", s, IsSpace);
  }

  // ---------------------------------------------------------------- unquoted values

  lemma {:induction false} NoCommentAbove(line: string, from: nat, i: nat)
    requires from <= i <= |line| && forall j: nat | from <= j < i :: !HasCommentAt(line, j)
    ensures CommentStart(line, i) == CommentStart(line, from)
  {
    if from < i {
      assert !HasCommentAt(line, i - 1);
      NoCommentAbove(line, from, i - 1);
    }
  }

  /** A comment, if there is one, starts at the last number sign after a space. */
  lemma {:induction false} CutsComment(text: string, comment: string)
    requires comment == "" ==> NoComment(text)
    requires comment != "" ==> EndsInBlank(text) && comment[0] == '#' && NoComment(comment)
    ensures CommentStart(text + comment, |text + comment|) == |text|
  {
    var line := text + comment;
    if comment == "" {
      assert line == text;
      NoCommentAbove(line, 0, |line|);
    } else {
      assert HasCommentAt(line, |text|);
      forall j: nat | |text| + 1 <= j < |line| ensures !HasCommentAt(line, j) {
        assert line[j] == comment[j - |text|] && line[j - 1] == comment[j - |text| - 1];
        assert !HasCommentAt(comment, j - |text|);
      }
      NoCommentAbove(line, |text| + 1, |line|);
    }
  }

  /** The parts of an unquoted value: blanks, the value, blanks and perhaps a comment. */
  predicate AreParts(lead: string, v: string, trail: string, comment: string) {
    && AreBlanks(lead) && AreBlanks(trail) && IsTrimmed(v)
    && OnOneLine(v) && OnOneLine(comment)
    && (comment == "" ==> NoComment(lead + v + trail))
    && (comment != "" ==> EndsInBlank(lead + v + trail) && comment[0] == '#' && NoComment(comment))
    && !IsQuoted(lead + v + trail + comment)
  }

  predicate IsQuoted(s: string) { s != "" && (s[0] == '"' || s[0] == '\'') }

  /** An unquoted value is what is left of its line without the last comment and without the blanks around it,
      references replaced; the line end is left. */
  lemma {:induction false} UnquotedValue(lead: string, v: string, trail: string, comment: string, rest: string,
                                         vars: Vars)
    requires AreParts(lead, v, trail, comment) && EndsLine(rest)
    ensures ExtractVarValue(lead + v + trail + comment + rest, vars) == Ok((ExpandVariables(v, vars), rest))
  {
    var text := lead + v + trail;
    var line := text + comment;
    assert forall c <- line :: c in lead || c in v || c in trail || c in comment;
    IndexAfter(line, rest, IsLineEnd);
    CutsComment(text, comment);
    TrimsBlanks(lead, v, trail);
    LineOf(text, comment, rest, vars);
  }

  lemma {:induction false} LineOf(text: string, comment: string, rest: string, vars: Vars)
    requires !IsQuoted(text + comment) && EndsLine(rest)
    requires IndexWhere(text + comment + rest, IsLineEnd) == |text + comment|
    requires CommentStart(text + comment, |text + comment|) == |text|
    ensures ExtractVarValue(text + comment + rest, vars)
         == Ok((ExpandVariables(TrimLeft(TrimRight(text, IsSpace), IsSpace), vars), rest))
  {
    var src := text + comment + rest;
    assert src[..|text + comment|] == text + comment && src[|text + comment|..] == rest;
    assert (text + comment)[..|text|] == text;
    assert text + comment != "" ==> src[0] == (text + comment)[0];
    assert text + comment == "" ==> src == rest;
  }

  lemma {:induction false} NothingToExpand(v: string, vars: Vars)
    requires '$' !in v
    ensures ExpandVariables(v, vars) == v
  {
    if v != "" {
      assert v == [v[0]] + v[1..];
      assert v[0] in v && (|v| > 1 ==> v[1] in v);
      NothingToExpand(v[1..], vars);
    }
  }

  /** Without a dollar sign the value is taken as it is written. */
  lemma {:induction false} PlainValue(lead: string, v: string, trail: string, comment: string, rest: string,
                                      vars: Vars)
    requires AreParts(lead, v, trail, comment) && EndsLine(rest) && '$' !in v
    ensures ExtractVarValue(lead + v + trail + comment + rest, vars) == Ok((v, rest))
  {
    UnquotedValue(lead, v, trail, comment, rest, vars);
    NothingToExpand(v, vars);
  }

  // ---------------------------------------------------------------- single-quoted values

  /** No quote without a backslash before it, and neither at the end. */
  predicate SingleQuotable(v: string) {
    && (forall i | 0 <= i < |v| && v[i] == '\'' :: i > 0 && v[i - 1] == '\\')
    && (v == "" || (v[|v| - 1] != '\\' && v[|v| - 1] != '\''))
  }

  /** A single-quoted value is taken verbatim, nothing in it expanded, exactly when it is such a text. */
  lemma {:induction false} SingleQuotedValue(v: string, rest: string, vars: Vars)
    ensures ExtractVarValue("'" + v + "'" + rest, vars) == Ok((v, rest)) <==> SingleQuotable(v)
  {
    SingleQuoteLayout(v, rest);
    if SingleQuotable(v) {
      ClosesAtEnd(v, rest);
      TrimsOpeningQuote(v);
    }
    if ExtractVarValue("'" + v + "'" + rest, vars) == Ok((v, rest)) {
      ReadToTheEnd(v, rest, vars);
    }
  }

  lemma {:induction false} SingleQuoteLayout(v: string, rest: string)
    ensures var src, q := "'" + v + "'" + rest, |v| + 1;
      && q < |src| && src[0] == '\'' && src[q] == '\'' && src[..q] == "'" + v && src[q + 1..] == rest
      && forall j | 1 <= j < q :: src[j] == v[j - 1]
  {
  }

  lemma {:induction false} ClosesAtEnd(v: string, rest: string)
    requires SingleQuotable(v)
    ensures ClosingQuote("'" + v + "'" + rest, '\'', 1) == Some(|v| + 1)
  {
    var src, q := "'" + v + "'" + rest, |v| + 1;
    SingleQuoteLayout(v, rest);
    assert src[q - 1] != '\\';
    assert forall j | 1 <= j < q && src[j] == '\'' :: v[j - 1] == '\'' && src[j - 1] == v[j - 2];
    var r := ClosingQuote(src, '\'', 1);
    assert r.Some?;
  }

  lemma {:induction false} ReadToTheEnd(v: string, rest: string, vars: Vars)
    requires ExtractVarValue("'" + v + "'" + rest, vars) == Ok((v, rest))
    ensures SingleQuotable(v)
  {
    var src, q := "'" + v + "'" + rest, |v| + 1;
    SingleQuoteLayout(v, rest);
    var i := ClosingQuote(src, '\'', 1).value;
    assert |src[i + 1..]| == |rest| && i == q;
    assert src[q - 1] != '\\' && (v != "" ==> src[q - 1] == v[|v| - 1]);
    assert forall k | 0 <= k < |v| && v[k] == '\'' :: src[k + 1] == '\'' && src[k] == '\\';
    assert forall k | 0 < k < |v| :: src[k] == v[k - 1];
    if v != "" {
      FinalQuoteTrimmed(v);
    }
  }

  lemma {:induction false} TrimsOpeningQuote(v: string)
    requires SingleQuotable(v)
    ensures TrimLeft(TrimRight("'" + v, c => c == '\''), c => c == '\'') == v
  {
    var cut := (c: char) => c == '\'';
    if v == "" {
      assert "'" + v == "'" && "'"[..0] == "";
      assert TrimRight("'", cut) == "";
    } else {
      assert ("'" + v)[|v|] == v[|v| - 1] && ("'" + v)[1..] == v;
      assert TrimRight("'" + v, cut) == "'" + v;
      assert TrimLeft("'" + v, cut) == TrimLeft(v, cut);
    }
  }

  lemma {:induction false} FinalQuoteTrimmed(v: string)
    requires v != ""
    ensures v[|v| - 1] == '\'' ==> TrimLeft(TrimRight("'" + v, c => c == '\''), c => c == '\'') != v
  {
    var cut := (c: char) => c == '\'';
    var s := "'" + v;
    assert s[|s| - 1] == v[|v| - 1];
    var t := TrimRight(s, cut);
    assert v[|v| - 1] == '\'' ==> |t| < |s|;
    assert t != "" ==> t[0] == s[0] == '\'' && |TrimLeft(t, cut)| <= |t[1..]|;
  }

  // ---------------------------------------------------------------- references

  function BindingOf(name: string, vars: Vars): string {
    if name in vars then vars[name] else ""
  }

  predicate IsName(name: string) { name != "" && forall c <- name :: IsVariableChar(c) }

  lemma {:induction false} MatchName(name: string, tail: string)
    requires (forall c <- name :: IsVariableChar(c)) && (tail == "" || !IsVariableChar(tail[0]))
    ensures MatchLength(name + tail, Name) == |name| + MatchLength(tail, Close)
  {
    var s := name + tail;
    if name == "" {
      assert s == tail;
    } else {
      assert s[0] == name[0] && name[0] in name && s[1..] == name[1..] + tail;
      MatchName(name[1..], tail);
    }
  }

  /** What the expression matches of a name with or without braces around it. */
  lemma {:induction false} MatchReference(front: string, name: string, back: string, tail: string)
    requires IsReference(front, name, back, tail)
    ensures TailLength(front + name + back + tail) == |front + name + back|
    ensures NameOf(front + name + back) == name
  {
    var s := front + name + back + tail;
    assert name[0] in name && s[0] == (if front == "" then name[0] else '{');
    assert s[|front|..] == name + (back + tail);
    assert back != "" ==> (back + tail)[0] == '}';
    assert back == "" ==> back + tail == tail;
    MatchName(name, back + tail);
    assert MatchLength(back + tail, Close) == |back|;
    assert MatchLength(s, Paren) == MatchLength(s, Brace);
    NameWithin(front, name, back);
  }

  lemma {:induction false} NameWithin(front: string, name: string, back: string)
    requires IsName(name) && front in {"", "{"} && back in {"", "}"}
    ensures NameOf(front + name + back) == name
  {
    var m, inner := front + name + back, name + back;
    assert name[0] in name;
    assert m[0] == (if front == "" then name[0] else '{') && m[|front|..] == inner;
    WithoutBack(name, back);
  }

  lemma {:induction false} WithoutBack(name: string, back: string)
    requires IsName(name) && back in {"", "}"}
    ensures var s := name + back;
      && s != "" && s[0] != '{' && s[0] != '('
      && (if s[|s| - 1] == '}' then s[..|s| - 1] else s) == name
  {
    assert name[0] in name && name[|name| - 1] in name;
    assert (name + back)[..|name|] == name;
  }

  /** A name that does not go on, either brace there or missing. */
  predicate IsReference(front: string, name: string, back: string, tail: string) {
    && IsName(name) && front in {"", "{"} && back in {"", "}"}
    && (tail == "" || (back == "" ==> !IsVariableChar(tail[0]) && tail[0] != '}'))
  }

  /** `$NAME` and `${NAME}` become the binding, or nothing; so do the forms with only one of the braces. */
  lemma {:induction false} ReferenceIsReplaced(front: string, name: string, back: string, tail: string,
                                               vars: Vars)
    requires IsReference(front, name, back, tail)
    ensures ExpandVariables("$" + (front + name + back) + tail, vars)
         == BindingOf(name, vars) + ExpandVariables(tail, vars)
  {
    var m := front + name + back;
    var s := "$" + m + tail;
    MatchReference(front, name, back, tail);
    assert s[0] == '$' && s[1..] == m + tail && (m + tail)[..|m|] == m && (m + tail)[|m|..] == tail;
  }

  /** Behind a backslash the reference stays, and the backslash goes. */
  lemma {:induction false} EscapedReferenceStays(front: string, name: string, back: string, tail: string,
                                                 vars: Vars)
    requires IsReference(front, name, back, tail)
    ensures ExpandVariables("\\$" + ((front + name + back) + tail), vars)
         == "$" + (front + name + back) + ExpandVariables(tail, vars)
  {
    var m := front + name + back;
    MatchReference(front, name, back, tail);
    ExpandEscapedDollar(m + tail, vars);
    assert (m + tail)[..|m|] == m && (m + tail)[|m|..] == tail;
  }

  /** A dollar sign alone is an ordinary character. */
  lemma {:induction false} LoneDollar(tail: string, vars: Vars)
    requires tail == "" || (!IsVariableChar(tail[0]) && tail[0] !in "({}")
    ensures ExpandVariables("$" + tail, vars) == "$" + ExpandVariables(tail, vars)
  {
    var s := "$" + tail;
    assert s[0] == '$' && s[1..] == tail && tail[..0] == "" && tail[0..] == tail;
    if tail != "" {
      assert tail[0] != '(' && tail[0] != '{' && tail[0] != '}' by { Brackets(tail[0]); }
    }
    assert MatchLength(tail, Close) == 0 && MatchLength(tail, Name) == 0;
    assert MatchLength(tail, Brace) == 0 && MatchLength(tail, Paren) == 0;
    assert Reference("", vars) == "$" + "" == "$";
  }

  lemma Brackets(c: char)
    requires c !in "({}"
    ensures c != '(' && c != '{' && c != '}'
  {
    assert "({}"[0] == '(' && "({}"[1] == '{' && "({}"[2] == '}';
  }

  /** Text in front of a dollar sign is kept. */
  lemma {:induction false} TextBefore(a: string, s: string, vars: Vars)
    requires '$' !in a && (a == "" || a[|a| - 1] != '\\' || s == "" || s[0] != '$')
    ensures ExpandVariables(a + s, vars) == a + ExpandVariables(s, vars)
  {
    if a == "" {
      assert a + s == s;
    } else {
      FirstOff(a, s);
      FirstOff(a, ExpandVariables(s, vars));
      OneCharBefore(a[0], a[1..] + s, vars);
      TextBefore(a[1..], s, vars);
    }
  }

  lemma {:induction false} FirstOff(a: string, s: string)
    requires a != "" && '$' !in a
    ensures a + s == [a[0]] + (a[1..] + s) && a[0] in a && '$' !in a[1..]
    ensures |a| > 1 ==> (a[1..] + s)[0] != '$' && a[1..][|a[1..]| - 1] == a[|a| - 1]
    ensures |a| == 1 ==> a[1..] + s == s
  {
    assert |a| > 1 ==> a[1] in a;
  }

  lemma {:induction false} OneCharBefore(c: char, rest: string, vars: Vars)
    requires c != '$' && (c != '\\' || rest == "" || rest[0] != '$')
    ensures ExpandVariables([c] + rest, vars) == [c] + ExpandVariables(rest, vars)
  {
    var t := [c] + rest;
    assert t[0] == c && t[1..] == rest && (rest != "" ==> t[1] == rest[0]);
  }

  // ---------------------------------------------------------------- names

  lemma {:induction false} KeyEndsAt(name: string, rest: string)
    requires forall c <- name :: IsNameChar(c) || IsSpace(c)
    requires rest != "" && !IsNameChar(rest[0]) && !IsSpace(rest[0])
    ensures KeyEnd(name + rest) == if rest[0] == '=' || rest[0] == ':' then Some(|name|) else None
  {
    var src := name + rest;
    if name == "" {
      assert src == rest;
    } else {
      assert src[0] == name[0] && name[0] in name && src[1..] == name[1..] + rest;
      KeyEndsAt(name[1..], rest);
    }
  }

  /** A text that starts with a name and goes on with something else than a space is no export. */
  lemma {:induction false} NoExport(name: string, rest: string)
    requires ValidKey(name) && (name != "export" || rest == "" || !IsSpace(rest[0]))
    requires rest == "" || !IsNameChar(rest[0])
    ensures AfterExport(name + rest) == name + rest
  {
    var src := name + rest;
    assert forall i | 0 <= i < 6 :: IsNameChar("export"[i]);
    assert |name| < |src| ==> src[|name|] == rest[0];
    assert |name| > 6 ==> src[6] == name[6] && name[6] in name;
    assert "export" <= src ==> forall i | 0 <= i < 6 :: src[i] == "export"[i];
    assert "export" <= src && |name| == 6 ==> name == "export";
  }

  lemma {:induction false} Exported(blanks: string, rest: string)
    requires AreBlanks(blanks) && blanks != "" && rest != "" && !IsSpace(rest[0])
    ensures AfterExport("export" + blanks + rest) == rest
  {
    var src := "export" + blanks + rest;
    assert src[6] == blanks[0] && blanks[0] in blanks && src[6..] == blanks + rest && src[..6] == "export";
    TrimsLeft(blanks, rest);
  }

  /** The name stands between an optional `export` and an equals sign or a colon, with any blanks. */
  lemma {:induction false} NameIsRead(exported: string, key: string, blanks: string, sep: char, blanks': string,
                                      left: string)
    requires ValidKey(key) && AreBlanks(blanks) && AreBlanks(blanks') && sep in {'=', ':'}
    requires IsExport(exported) && (left == "" || !IsSpace(left[0])) && (key == "export" ==> blanks == "")
    ensures LocateKeyName(exported + (key + blanks + [sep] + blanks' + left)) == Ok((key, left))
  {
    var rest := blanks + [sep] + blanks' + left;
    TextAfterName(key, blanks, sep, blanks', left);
    StartsAtName(exported, key, rest);
    NameBeforeSeparator(key, blanks, sep, blanks' + left);
    TrimsLeft(blanks', left);
    LocateAt(exported + (key + rest), key + rest, |key + blanks|, key, blanks' + left, left);
  }

  lemma {:induction false} LocateAt(src: string, s: string, n: nat, key: string, after: string, left: string)
    requires AfterExport(TrimLeft(src, IsSpace)) == s && KeyEnd(s) == Some(n) && n < |s|
    requires TrimRight(s[..n], IsUnicodeSpace) == key && s[n + 1..] == after && TrimLeft(after, IsSpace) == left
    ensures LocateKeyName(src) == Ok((key, left))
  {
    LocateFrom(src, s, n);
  }

  lemma {:induction false} TextAfterName(key: string, blanks: string, sep: char, blanks': string, left: string)
    requires AreBlanks(blanks) && sep in {'=', ':'}
    ensures var rest := blanks + [sep] + blanks' + left;
      && rest != "" && !IsNameChar(rest[0]) && (blanks == "" ==> !IsSpace(rest[0]))
      && key + blanks + [sep] + blanks' + left == key + rest
      && key + rest == key + blanks + ([sep] + (blanks' + left))
  {
    assert blanks != "" ==> blanks[0] in blanks;
  }

  lemma {:induction false} LocateFrom(src: string, s: string, n: nat)
    requires AfterExport(TrimLeft(src, IsSpace)) == s && KeyEnd(s) == Some(n) && n < |s|
    ensures LocateKeyName(src) == Ok((TrimRight(s[..n], IsUnicodeSpace), TrimLeft(s[n + 1..], IsSpace)))
  {
  }

  lemma {:induction false} NameBeforeSeparator(key: string, blanks: string, sep: char, rest: string)
    requires ValidKey(key) && AreBlanks(blanks) && sep in {'=', ':'}
    ensures var s, n := key + blanks + ([sep] + rest), |key + blanks|;
      KeyEnd(s) == Some(n) && n < |s| && TrimRight(s[..n], IsUnicodeSpace) == key && s[n + 1..] == rest
  {
    var name := key + blanks;
    assert forall c <- name :: c in key || c in blanks;
    KeyEndsAt(name, [sep] + rest);
    assert (name + ([sep] + rest))[..|name|] == name;
    assert key[|key| - 1] in key;
    TrimsRight(key, blanks, IsUnicodeSpace);
  }

  predicate IsExport(exported: string) {
    exported == "" || (|exported| > 6 && exported[..6] == "export" && AreBlanks(exported[6..]))
  }

  lemma {:induction false} StartsAtName(exported: string, key: string, rest: string)
    requires ValidKey(key) && IsExport(exported) && rest != "" && !IsNameChar(rest[0])
    requires key == "export" ==> !IsSpace(rest[0])
    ensures AfterExport(TrimLeft(exported + (key + rest), IsSpace)) == key + rest
  {
    assert (key + rest)[0] == key[0] && key[0] in key;
    if exported == "" {
      assert exported + (key + rest) == key + rest;
      NoExport(key, rest);
    } else {
      assert exported + (key + rest) == "export" + exported[6..] + (key + rest);
      assert (exported + (key + rest))[0] == 'e';
      Exported(exported[6..], key + rest);
    }
  }

  /** Any other character after a name is an error. */
  lemma {:induction false} UnexpectedInName(name: string, c: char, rest: string)
    requires ValidKey(name) && !IsNameChar(c) && !IsSpace(c) && c != '=' && c != ':'
    ensures LocateKeyName(name + ([c] + rest)) == Err(UnexpectedCharacter)
  {
    var src := name + ([c] + rest);
    assert src[0] == name[0] && name[0] in name;
    NoExport(name, [c] + rest);
    KeyEndsAt(name, [c] + rest);
  }

  // ---------------------------------------------------------------- whole lines

  /** A line whose value is read up to its end binds the name for the lines after it. */
  lemma {:induction false} LineIsRead(exported: string, key: string, blanks: string, sep: char, blanks': string,
                                      left: string, value: string, rest: string, vars: Vars)
    requires ValidKey(key) && AreBlanks(blanks) && AreBlanks(blanks') && sep in {'=', ':'}
    requires IsExport(exported) && (left == "" || !IsSpace(left[0])) && (key == "export" ==> blanks == "")
    requires ExtractVarValue(left, vars) == Ok((value, "\n" + rest))
    ensures Parse(exported + (key + blanks + [sep] + blanks' + left), vars) == Parse(rest, vars[key := value])
  {
    var src := exported + (key + blanks + [sep] + blanks' + left);
    assert key[0] in key && src[0] == (if exported == "" then key[0] else exported[..6][0]);
    StartsAtOnce(src);
    NameIsRead(exported, key, blanks, sep, blanks', left);
    OneStatement(src, vars, key, left, value, "\n" + rest);
    LineBreakSkipped(rest, vars[key := value]);
  }

  /** An unquoted line, blanks and a comment around its value. */
  lemma {:induction false} UnquotedLine(key: string, v: string, trail: string, comment: string, rest: string,
                                        vars: Vars)
    requires ValidKey(key) && AreParts("", v, trail, comment) && v != ""
    ensures Parse(key + "=" + (v + trail + comment + ("\n" + rest)), vars)
         == Parse(rest, vars[key := ExpandVariables(v, vars)])
  {
    var left := v + trail + comment + ("\n" + rest);
    UnquotedValue("", v, trail, comment, "\n" + rest, vars);
    assert "" + v == v;
    assert left[0] == v[0];
    BareLine(key, left, ExpandVariables(v, vars), rest, vars);
  }

  lemma {:induction false} BareLine(key: string, left: string, value: string, rest: string, vars: Vars)
    requires ValidKey(key) && (left == "" || !IsSpace(left[0]))
    requires ExtractVarValue(left, vars) == Ok((value, "\n" + rest))
    ensures Parse(key + "=" + left, vars) == Parse(rest, vars[key := value])
  {
    LineIsRead("", key, "", '=', "", left, value, rest, vars);
    NothingBetween(key, left);
  }

  lemma {:induction false} NothingBetween(key: string, left: string)
    ensures "" + (key + "" + ['='] + "" + left) == key + "=" + left
  {
    assert "" + left == left && "" + key == key && key + "" == key;
  }

  lemma {:induction false} SingleQuotedLine(key: string, v: string, rest: string, vars: Vars)
    requires ValidKey(key) && SingleQuotable(v)
    ensures Parse(key + "=" + ("'" + v + "'" + ("\n" + rest)), vars) == Parse(rest, vars[key := v])
  {
    var left := "'" + v + "'" + ("\n" + rest);
    SingleQuotedValue(v, "\n" + rest, vars);
    assert left[0] == '\'';
    BareLine(key, left, v, rest, vars);
  }

  /** A last line without a separator binds the empty name to its text. */
  lemma {:induction false} NameAlone(name: string, vars: Vars)
    requires ValidKey(name)
    ensures Parse(name, vars) == Ok(vars["" := name])
  {
    assert name[0] in name && name + "" == name;
    StartsAtOnce(name);
    NoExport(name, "");
    NoSeparator(name);
    NameIsAValue(name, vars);
    OneStatement(name, vars, "", name, name, "");
    assert Parse("", vars["" := name]) == Ok(vars["" := name]);
  }

  lemma {:induction false} NoSeparator(name: string)
    requires forall c <- name :: IsNameChar(c)
    ensures KeyEnd(name) == Some(|name|)
  {
    if name != "" {
      assert name[0] in name;
      NoSeparator(name[1..]);
    }
  }

  lemma {:induction false} NameIsAValue(name: string, vars: Vars)
    requires ValidKey(name)
    ensures ExtractVarValue(name, vars) == Ok((name, ""))
  {
    assert name[0] in name && name[|name| - 1] in name;
    assert forall c <- name :: IsNameChar(c) && c != '$' && c != '#' && !IsLineEnd(c) && !IsSpace(c);
    assert "" + name + "" == name && name + "" + "" == name;
    PlainValue("", name, "", "", "", vars);
  }

  /** Line ends of two characters count as one. */
  lemma {:induction false} LineEndsAreOne(a: string, b: string)
    requires '\r' !in a
    ensures ReplaceCRLF(a + "\r\n" + b) == a + "\n" + ReplaceCRLF(b)
  {
    var s := a + "\r\n" + b;
    if a == "" {
      assert s[0] == '\r' && s[1] == '\n' && s[2..] == b;
    } else {
      assert s[0] == a[0] && a[0] in a && s[1..] == a[1..] + "\r\n" + b;
      LineEndsAreOne(a[1..], b);
    }
  }

  /** A carriage return alone stays. */
  lemma {:induction false} LoneReturnStays(b: string)
    requires b == "" || b[0] != '\n'
    ensures ReplaceCRLF("\r" + b) == "\r" + ReplaceCRLF(b)
  {
    var s := "\r" + b;
    assert s[0] == '\r' && s[1..] == b && (b != "" ==> s[1] == b[0]);
  }

  /** `export` with nothing behind it is an error. */
  lemma {:induction false} ExportAlone(blanks: string)
    requires AreBlanks(blanks) && blanks != ""
    ensures LocateKeyName("export" + blanks) == Err(ZeroLength)
  {
    var src := "export" + blanks;
    assert src[6] == blanks[0] && blanks[0] in blanks && src[6..] == blanks && src[..6] == "export";
    assert blanks + "" == blanks && src[0] == 'e';
    TrimsLeft(blanks, "");
    assert TrimLeft(src, IsSpace) == src;
  }

  /** An error ends the parsing and is the one returned. */
  lemma ErrorsEnd(src: string, vars: Vars)
    requires StatementStart(src) == Some(src)
    ensures LocateKeyName(src).Err? ==> Parse(src, vars) == Err(LocateKeyName(src).error)
    ensures LocateKeyName(src).Ok? && ExtractVarValue(LocateKeyName(src).value.1, vars).Err? ==>
      Parse(src, vars) == Err(ExtractVarValue(LocateKeyName(src).value.1, vars).error)
  {
  }

  // ---------------------------------------------------------------- the character classes

  /** The characters of names, written out. */
  lemma NameCharacters(c: char)
    ensures IsVariableChar(c) <==> c in "ABCDEFGHIJKLMNOPQRSTUVWXYZ" + "0123456789_"
    ensures IsNameChar(c) <==> IsVariableChar(c) || c in "abcdefghijklmnopqrstuvwxyz."
  {
  }

  lemma ValidKeys(key: string, more: string)
    requires key != "" && forall c <- key + more :: c in "ABCDEFGHIJKLMNOPQRSTUVWXYZ" + "0123456789_"
    ensures ValidKey(key) && IsName(key) && ValidKey(key + "." + more)
  {
    forall c | c in key + more ensures IsNameChar(c) && IsVariableChar(c) {
      NameCharacters(c);
    }
    assert forall c <- key :: c in key + more;
    assert forall c <- key + "." + more :: c == '.' || c in key + more;
  }

  /** The blanks of this format are the Latin-1 ones of the Unicode spaces, without the line feed. */
  lemma BlanksAreLatin1(c: char)
    ensures IsSpace(c) <==> IsUnicodeSpace(c) && c <= '\U{FF}' && c != '\n'
    ensures IsLineEnd(c) <==> c == '\n' || (IsSpace(c) && c == '\r')
  {
  }
}
