/** `quoteShellArg` and `sandboxWorktreeRootCommand` (internal/cli/service_sandbox.go) against the token
    recognition and quoting rules of sections 2.2 and 2.3 of the POSIX.1-2017 Shell Command Language. */
module ShellQuoting {
  import opened Options

  // ---------------------------------------------------------------- the shell's side

  /** A word after quote removal; `expands` says that the shell would still expand or match it. */
  datatype Token = Word(text: string, expands: bool) | Operator(symbol: char)

  datatype Mode = Unquoted | Escaped | Single | Double | DoubleEscaped | Dollar | Substitution | Unsupported

  /** `word` is the word being collected, if one has begun. */
  datatype Lexer = Lexer(tokens: seq<Token>, word: Option<Token>, mode: Mode)

  const START := Lexer([], None, Unquoted)

  predicate IsBlank(c: char) { c == ' ' || c == '\t' }

  predicate IsOperator(c: char) {
    c == '|' || c == '&' || c == ';' || c == '<' || c == '>' || c == '(' || c == ')' || c == '\n'
  }

  predicate IsPattern(c: char) { c == '*' || c == '?' || c == '[' || c == '~' }

  function Begun(l: Lexer): Token {
    if l.word.Some? && l.word.value.Word? then l.word.value else Word("", false)
  }

  function With(l: Lexer, c: char, mode: Mode): Lexer {
    var w := Begun(l);
    Lexer(l.tokens, Some(Word(w.text + [c], w.expands)), mode)
  }

  function Expanding(l: Lexer): Lexer {
    l.(word := Some(Word(Begun(l).text, true)))
  }

  function Ended(l: Lexer): Lexer {
    if l.word.None? then l else Lexer(l.tokens + [l.word.value], None, l.mode)
  }

  function InUnquoted(l: Lexer, c: char): Lexer {
    if c == '\'' then Lexer(l.tokens, Some(Begun(l)), Single)
    else if c == '"' then Lexer(l.tokens, Some(Begun(l)), Double)
    else if c == '\\' then Lexer(l.tokens, Some(Begun(l)), Escaped)
    else if IsBlank(c) then Ended(l).(mode := Unquoted)
    else if IsOperator(c) then Lexer(Ended(l).tokens + [Operator(c)], None, Unquoted)
    else if c == '$' then With(Expanding(l), c, Dollar)
    else if IsPattern(c) then With(Expanding(l), c, Unquoted)
    else if c == '`' || (c == '#' && l.word.None?) then l.(mode := Unsupported)
    else With(l, c, Unquoted)
  }

  function Step(l: Lexer, c: char): Lexer {
    if c == '\0' then l.(mode := Unsupported)
    else
      match l.mode
      case Unquoted => InUnquoted(l, c)
      case Escaped => if c == '\n' then l.(mode := Unquoted) else With(l, c, Unquoted)
      case Single => if c == '\'' then l.(mode := Unquoted) else With(l, c, Single)
      case Double =>
        if c == '"' then l.(mode := Unquoted)
        else if c == '\\' then l.(mode := DoubleEscaped)
        else if c == '`' then l.(mode := Unsupported)
        else if c == '$' then With(Expanding(l), c, Double)
        else With(l, c, Double)
      case DoubleEscaped =>
        if c == '\n' then l.(mode := Double)
        else if c == '$' || c == '`' || c == '"' || c == '\\' then With(l, c, Double)
        else With(With(l, '\\', Double), c, Double)
      case Dollar => if c == '(' then With(l, c, Substitution) else InUnquoted(l, c)
      case Substitution =>
        if c == ')' then With(l, c, Unquoted)
        else if c == '(' || c == '\'' || c == '"' || c == '\\' || c == '`' then l.(mode := Unsupported)
        else With(l, c, Substitution)
      case Unsupported => l
  }

  function Run(l: Lexer, s: string): Lexer
    decreases s
  {
    if s == "" then l else Run(Step(l, s[0]), s[1..])
  }

  /** The tokens of a complete command line, or None when a quote is left open. */
  function Tokens(s: string): Option<seq<Token>> {
    var l := Run(START, s);
    if l.mode.Unquoted? then Some(Ended(l).tokens) else None
  }

  /** The words after the last operator: the simple command that is run last. */
  function LastCommand(tokens: seq<Token>): seq<Token> {
    if tokens == [] || tokens[|tokens| - 1].Operator? then []
    else LastCommand(tokens[..|tokens| - 1]) + [tokens[|tokens| - 1]]
  }

  function Literals(args: seq<string>): seq<Token> {
    if args == [] then [] else [Word(args[0], false)] + Literals(args[1..])
  }

  // ---------------------------------------------------------------- the program's side

  /** strings.ReplaceAll(s, "'", "'\\''"). */
  function EscapeQuotes(s: string): string {
    if s == "" then "" else (if s[0] == '\'' then "'\\''" else [s[0]]) + EscapeQuotes(s[1..])
  }

  function QuoteShellArg(s: string): string { "'" + EscapeQuotes(s) + "'" }

  /** strings.Join over the quoted arguments with a blank. */
  function QuoteAll(args: seq<string>): string {
    if args == [] then "" else if |args| == 1 then QuoteShellArg(args[0])
    else QuoteShellArg(args[0]) + " " + QuoteAll(args[1..])
  }

  /** The script that moves to the repository root, in the pieces the lexer sees. */
  const REV_PARSE := "/usr/bin/git" + (" rev-parse" + (" --show" + "-toplevel"))
  const FIND_ROOT := "repo_root=" + ("$(" + (REV_PARSE + ") || "))
  const ENTER_ROOT := "cd" + (" \"$" + ("repo_root" + "\" || "))
  const OR_EXIT := "exit" + (" " + ("1" + "; "))
  const TO_ROOT := FIND_ROOT + (OR_EXIT + (ENTER_ROOT + OR_EXIT))

  function SandboxWorktreeRootCommand(script: string): string {
    "/bin/sh -lc " + QuoteShellArg(TO_ROOT + script)
  }

  // ---------------------------------------------------------------- proofs

  lemma {:induction false} RunConcat(l: Lexer, a: string, b: string)
    ensures Run(l, a + b) == Run(Run(l, a), b)
    decreases a
  {
    if a == "" {
      assert a + b == b;
    } else {
      assert (a + b)[1..] == a[1..] + b;
      RunConcat(Step(l, a[0]), a[1..], b);
    }
  }

  predicate NoNul(s: string) { '\0' !in s }

  /** Inside single quotes the escaped text reads back as the text itself. */
  lemma {:induction false} RunEscaped(l: Lexer, s: string)
    requires l.mode == Single && l.word.Some? && l.word.value.Word? && NoNul(s)
    ensures Run(l, EscapeQuotes(s)) == l.(word := Some(Word(l.word.value.text + s, l.word.value.expands)))
    decreases s
  {
    var w := l.word.value;
    if s == "" {
      assert w.text + s == w.text;
    } else {
      var next := With(l, s[0], Single);
      assert w.text + s == (w.text + [s[0]]) + s[1..];
      if s[0] == '\'' {
        RunConcat(l, "'\\''", EscapeQuotes(s[1..]));
        RunEscapedQuote(l);
      } else {
        RunConcat(l, [s[0]], EscapeQuotes(s[1..]));
        assert Run(l, [s[0]]) == Run(Step(l, s[0]), []) == next;
      }
      RunEscaped(next, s[1..]);
    }
  }

  lemma {:induction false} RunEscapedQuote(l: Lexer)
    requires l.mode == Single && l.word.Some? && l.word.value.Word?
    ensures Run(l, "'\\''") == With(l, '\'', Single)
  {
    var s := "'\\''";
    assert s[1..] == "\\''" && s[1..][1..] == "''" && s[1..][1..][1..] == "'" && s[1..][1..][1..][1..] == "";
    var l1 := Step(l, '\'');
    var l2 := Step(l1, '\\');
    var l3 := Step(l2, '\'');
    assert Step(l3, '\'') == With(l, '\'', Single);
    assert Run(l3, "'") == Run(Step(l3, '\''), "");
    assert Run(l2, "''") == Run(l3, "'") && Run(l1, "\\''") == Run(l2, "''");
  }

  /** A quoted argument between words is one literal word. */
  lemma {:induction false} RunQuoted(l: Lexer, arg: string)
    requires l.mode == Unquoted && l.word.None? && NoNul(arg)
    ensures Run(l, QuoteShellArg(arg)) == l.(word := Some(Word(arg, false)))
  {
    var open := Lexer(l.tokens, Some(Word("", false)), Single);
    assert QuoteShellArg(arg) == "'" + (EscapeQuotes(arg) + "'");
    RunConcat(l, "'", EscapeQuotes(arg) + "'");
    assert "'"[1..] == "";
    assert Run(l, "'") == Run(Step(l, '\''), "") == open;
    RunConcat(open, EscapeQuotes(arg), "'");
    RunEscaped(open, arg);
    assert "" + arg == arg;
    var closed := Lexer(l.tokens, Some(Word(arg, false)), Single);
    assert Run(closed, "'") == Run(Step(closed, '\''), "");
  }

  lemma {:induction false} ThenLiterals(tokens: seq<Token>, args: seq<string>)
    requires args != []
    ensures tokens + [Word(args[0], false)] + Literals(args[1..]) == tokens + Literals(args)
  {
    var w, ws := [Word(args[0], false)], Literals(args[1..]);
    assert tokens + w + ws == tokens + (w + ws);
  }

  lemma {:induction false} RunQuoteAll(l: Lexer, args: seq<string>)
    requires l.mode == Unquoted && l.word.None? && forall a <- args :: NoNul(a)
    ensures Run(l, QuoteAll(args)).mode == Unquoted
    ensures Ended(Run(l, QuoteAll(args))).tokens == l.tokens + Literals(args)
    decreases args
  {
    if args == [] {
      assert Run(l, "") == l;
    } else {
      RunQuoted(l, args[0]);
      if |args| > 1 {
        QuotedThenBlank(l, args[0], QuoteAll(args[1..]));
        RunQuoteAll(Lexer(l.tokens + [Word(args[0], false)], None, Unquoted), args[1..]);
        ThenLiterals(l.tokens, args);
      } else {
        assert Literals(args[1..]) == [] && Literals(args) == [Word(args[0], false)];
      }
    }
  }

  lemma {:induction false} QuotedThenBlank(l: Lexer, arg: string, rest: string)
    requires l.mode == Unquoted && l.word.None? && NoNul(arg)
    ensures Run(l, QuoteShellArg(arg) + " " + rest) == Run(Lexer(l.tokens + [Word(arg, false)], None, Unquoted), rest)
  {
    RunQuoted(l, arg);
    var quoted := Lexer(l.tokens, Some(Word(arg, false)), Unquoted);
    assert QuoteShellArg(arg) + " " + rest == QuoteShellArg(arg) + (" " + rest);
    RunConcat(l, QuoteShellArg(arg), " " + rest);
    assert (" " + rest)[1..] == rest;
  }

  /** Word splitting gives back exactly the argument list. */
  lemma {:induction false} QuotingRoundTrip(args: seq<string>)
    requires forall a <- args :: NoNul(a)
    ensures Tokens(QuoteAll(args)) == Some(Literals(args))
  {
    RunQuoteAll(START, args);
    assert [] + Literals(args) == Literals(args);
  }

  // ---------------------------------------------------------------- the second level

  /** A character with no meaning to the shell. */
  predicate IsPlain(c: char) {
    c != '\0' && c != '\'' && c != '"' && c != '\\' && !IsBlank(c) && !IsOperator(c) && c != '$' && !IsPattern(c)
    && c != '`' && c != '#'
  }

  lemma {:induction false} RunPlain(l: Lexer, s: string)
    requires l.mode == Unquoted && s != "" && forall c <- s :: IsPlain(c)
    requires l.word.Some? ==> l.word.value.Word?
    ensures Run(l, s) == Lexer(l.tokens, Some(Word(Begun(l).text + s, Begun(l).expands)), Unquoted)
    decreases s
  {
    var next := With(l, s[0], Unquoted);
    assert s[0] in s && Step(l, s[0]) == next;
    assert Begun(l).text + s == Begun(next).text + s[1..];
    if |s| > 1 {
      RunPlain(next, s[1..]);
    } else {
      assert s[1..] == "" && Begun(next).text == Begun(l).text + s;
    }
  }

  /** Plain words, each followed by a blank. */
  function PlainCommand(words: seq<string>): string {
    if words == [] then "" else words[0] + " " + PlainCommand(words[1..])
  }

  predicate PlainWords(words: seq<string>) {
    forall w <- words :: w != "" && forall c <- w :: IsPlain(c)
  }

  /** Words of letters, digits, slashes and dashes are plain. */
  lemma OrdinaryWords(words: seq<string>)
    requires forall w <- words :: w != "" && forall c <- w :: IsOrdinary(c)
    ensures PlainWords(words)
  {
  }

  predicate IsOrdinary(c: char) { 'a' <= c <= 'z' || 'A' <= c <= 'Z' || '0' <= c <= '9' || c == '/' || c == '-' }

  lemma {:induction false} OtherWordsArePlain(words: seq<string>)
    requires PlainWords(words) && words != []
    ensures PlainWords(words[1..])
  {
    assert forall w <- words[1..] :: w in words;
  }

  lemma {:induction false} RunPlainCommand(l: Lexer, words: seq<string>)
    requires l.mode == Unquoted && l.word.None? && PlainWords(words)
    ensures Run(l, PlainCommand(words)) == Lexer(l.tokens + Literals(words), None, Unquoted)
    decreases words
  {
    if words == [] {
      assert l.tokens + [] == l.tokens;
    } else {
      assert words[0] in words;
      PlainThenBlank(l, words[0]);
      RunConcat(l, words[0] + " ", PlainCommand(words[1..]));
      var next := Lexer(l.tokens + [Word(words[0], false)], None, Unquoted);
      OtherWordsArePlain(words);
      RunPlainCommand(next, words[1..]);
      ThenLiterals(l.tokens, words);
    }
  }

  lemma {:induction false} PlainThenBlank(l: Lexer, s: string)
    requires l.mode == Unquoted && l.word.None? && s != "" && forall c <- s :: IsPlain(c)
    ensures Run(l, s + " ") == Lexer(l.tokens + [Word(s, false)], None, Unquoted)
  {
    RunPlain(l, s);
    RunConcat(l, s, " ");
    assert "" + s == s;
    var word := Lexer(l.tokens, Some(Word(s, false)), Unquoted);
    assert Run(word, " ") == Run(Step(word, ' '), "");
  }

  lemma {:induction false} LastCommandAfterOperator(before: seq<Token>, args: seq<string>)
    requires before != [] && before[|before| - 1].Operator?
    ensures LastCommand(before + Literals(args)) == Literals(args)
    decreases args
  {
    LastCommandWords(before, Literals(args));
    LiteralsAreWords(args);
  }

  lemma LiteralsAreWords(args: seq<string>)
    ensures |Literals(args)| == |args| && forall t <- Literals(args) :: t.Word?
  {
  }

  lemma {:induction false} LastCommandWords(before: seq<Token>, words: seq<Token>)
    requires before != [] && before[|before| - 1].Operator?
    ensures (forall t <- words :: t.Word?) ==> LastCommand(before + words) == words
    decreases words
  {
    if words == [] {
      assert before + words == before;
    } else if forall t <- words :: t.Word? {
      var init := words[..|words| - 1];
      assert (before + words)[..|before + words| - 1] == before + init;
      assert forall t <- init :: t in words;
      LastCommandWords(before, init);
      assert words == init + [words[|words| - 1]];
      assert words[|words| - 1] in words;
    }
  }

  /** Between words. */
  predicate Clean(l: Lexer) { l.mode == Unquoted && l.word.None? }

  predicate InWord(l: Lexer, mode: Mode) { l.mode == mode && l.word.Some? && l.word.value.Word? }

  predicate AfterSemicolon(l: Lexer) {
    Clean(l) && l.tokens != [] && l.tokens[|l.tokens| - 1] == Operator(';')
  }

  lemma {:induction false} Run2(l: Lexer, a: char, b: char)
    ensures Run(l, [a, b]) == Step(Step(l, a), b)
  {
    assert [a, b][1..] == [b] && [b][1..] == "";
    assert Run(Step(l, a), [b]) == Run(Step(Step(l, a), b), "");
  }

  lemma {:induction false} Run5(l: Lexer, a: char, b: char, c: char, d: char, e: char)
    ensures Run(l, [a, b, c, d, e]) == Step(Step(Step(Step(Step(l, a), b), c), d), e)
  {
    assert [a, b, c, d, e] == [a, b] + ([c, d] + [e]);
    RunConcat(l, [a, b], [c, d] + [e]);
    RunConcat(Run(l, [a, b]), [c, d], [e]);
    Run2(l, a, b);
    Run2(Run(l, [a, b]), c, d);
    assert [e][1..] == "";
    assert Run(Run(Run(l, [a, b]), [c, d]), [e]) == Run(Step(Run(Run(l, [a, b]), [c, d]), e), "");
  }

  /** Inside double quotes or a substitution, ordinary characters just accumulate. */
  lemma {:induction false} RunInside(l: Lexer, s: string)
    requires InWord(l, Double) || InWord(l, Substitution)
    requires forall c <- s :: IsPlain(c) || c == ' '
    ensures InWord(Run(l, s), l.mode)
    decreases s
  {
    if s != "" {
      assert s[0] in s;
      RunInside(Step(l, s[0]), s[1..]);
    }
  }

  lemma {:induction false} RunOrExit(l: Lexer)
    requires Clean(l)
    ensures AfterSemicolon(Run(l, OR_EXIT))
  {
    assert OR_EXIT == ("exit" + " ") + ("1" + "; ");
    RunConcat(l, "exit" + " ", "1" + "; ");
    PlainThenBlank(l, "exit");
    var l1 := Run(l, "exit" + " ");
    RunConcat(l1, "1", "; ");
    RunPlain(l1, "1");
    Run2(Run(l1, "1"), ';', ' ');
  }

  predicate AllPlain(s: string) { forall c <- s :: IsPlain(c) }

  predicate PlainOrBlank(s: string) { forall c <- s :: IsPlain(c) || c == ' ' }

  lemma {:induction false} RunSubstitution(l: Lexer, name: string, command: string)
    requires Clean(l) && name != "" && AllPlain(name) && PlainOrBlank(command)
    ensures Clean(Run(l, name + ("$(" + (command + ") || "))))
  {
    RunConcat(l, name, "$(" + (command + ") || "));
    RunPlain(l, name);
    var l1 := Run(l, name);
    RunConcat(l1, "$(", command + ") || ");
    Run2(l1, '$', '(');
    var l2 := Run(l1, "$(");
    RunConcat(l2, command, ") || ");
    RunInside(l2, command);
    Run5(Run(l2, command), ')', ' ', '|', '|', ' ');
  }

  lemma {:induction false} RunQuotedVariable(l: Lexer, command: string, variable: string)
    requires Clean(l) && command != "" && AllPlain(command) && PlainOrBlank(variable)
    ensures Clean(Run(l, command + (" \"$" + (variable + "\" || "))))
  {
    var rest := variable + "\" || ";
    assert command + (" \"$" + rest) == (command + " ") + ("\"$" + rest);
    RunConcat(l, command + " ", "\"$" + rest);
    PlainThenBlank(l, command);
    var l1 := Run(l, command + " ");
    RunConcat(l1, "\"$", rest);
    Run2(l1, '"', '$');
    var l2 := Run(l1, "\"$");
    RunConcat(l2, variable, "\" || ");
    RunInside(l2, variable);
    Run5(Run(l2, variable), '"', ' ', '|', '|', ' ');
  }

  lemma {:induction false} PlainPieces(a: string, b: string, c: string)
    requires PlainOrBlank(a) && PlainOrBlank(b) && PlainOrBlank(c)
    ensures PlainOrBlank(a + (b + c))
  {
  }

  lemma {:induction false} GitIsPlain() ensures PlainOrBlank("/usr/bin/git") {}
  lemma {:induction false} SubcommandIsPlain() ensures PlainOrBlank(" rev-parse") {}
  lemma {:induction false} ShowIsPlain() ensures PlainOrBlank(" --show") {}
  lemma {:induction false} TopLevelIsPlain() ensures PlainOrBlank("-toplevel") {}

  lemma {:induction false} RevParseIsPlain()
    ensures PlainOrBlank(REV_PARSE)
  {
    GitIsPlain();
    SubcommandIsPlain();
    ShowIsPlain();
    TopLevelIsPlain();
    PlainPieces(" rev-parse", " --show", "-toplevel");
    PlainPieces("/usr/bin/git", " rev-parse" + (" --show" + "-toplevel"), "");
  }

  lemma {:induction false} RepoRootIsPlain() ensures AllPlain("repo_root=") {}

  lemma {:induction false} RunFindRoot()
    ensures Clean(Run(START, FIND_ROOT))
  {
    RevParseIsPlain();
    RepoRootIsPlain();
    RunSubstitution(START, "repo_root=", REV_PARSE);
  }

  lemma {:induction false} RunEnterRoot(l: Lexer)
    requires Clean(l)
    ensures Clean(Run(l, ENTER_ROOT))
  {
    RunQuotedVariable(l, "cd", "repo_root");
  }

  lemma {:induction false} RunToRoot()
    ensures AfterSemicolon(Run(START, TO_ROOT))
  {
    RunConcat(START, FIND_ROOT, OR_EXIT + (ENTER_ROOT + OR_EXIT));
    RunFindRoot();
    var l1 := Run(START, FIND_ROOT);
    RunConcat(l1, OR_EXIT, ENTER_ROOT + OR_EXIT);
    RunOrExit(l1);
    var l2 := Run(l1, OR_EXIT);
    RunConcat(l2, ENTER_ROOT, OR_EXIT);
    RunEnterRoot(l2);
    RunOrExit(Run(l2, ENTER_ROOT));
  }

  /** The outer shell passes the whole script on as one argument of `/bin/sh -lc`. */
  lemma {:induction false} OuterShellPassesScript(script: string)
    requires NoNul(script)
    ensures Tokens(SandboxWorktreeRootCommand(script)) == Some(Literals(["/bin/sh", "-lc", TO_ROOT + script]))
  {
    ToRootHasNoNul();
    assert "/bin/sh -lc " == "/bin/sh" + " " + ("-lc" + " ");
    RunTwoPlainWords("/bin/sh", "-lc", QuoteShellArg(TO_ROOT + script));
    RunQuoted(Lexer([Word("/bin/sh", false), Word("-lc", false)], None, Unquoted), TO_ROOT + script);
    LiteralsOfThree("/bin/sh", "-lc", TO_ROOT + script);
    var tokens := [Word("/bin/sh", false), Word("-lc", false)];
    ThirdToken(Word("/bin/sh", false), Word("-lc", false), Word(TO_ROOT + script, false));
  }

  lemma {:induction false} ThirdToken(a: Token, b: Token, c: Token)
    ensures [a, b] + [c] == [a, b, c]
  {
  }

  lemma {:induction false} RunTwoPlainWords(a: string, b: string, rest: string)
    requires a != "" && AllPlain(a) && b != "" && AllPlain(b)
    ensures Run(START, (a + " " + (b + " ")) + rest)
      == Run(Lexer([Word(a, false), Word(b, false)], None, Unquoted), rest)
  {
    RunConcat(START, a + " " + (b + " "), rest);
    RunConcat(START, a + " ", b + " ");
    PlainThenBlank(START, a);
    PlainThenBlank(Lexer([Word(a, false)], None, Unquoted), b);
    assert START.tokens + [Word(a, false)] == [Word(a, false)];
    assert [Word(a, false)] + [Word(b, false)] == [Word(a, false), Word(b, false)];
  }

  lemma {:induction false} ToRootHasNoNul()
    ensures NoNul(TO_ROOT)
  {
  }

  lemma {:induction false} LiteralsOfThree(a: string, b: string, c: string)
    ensures Literals([a, b, c]) == [Word(a, false), Word(b, false), Word(c, false)]
  {
    assert [a, b, c][1..] == [b, c] && [b, c][1..] == [c] && [c][1..] == [];
    assert Literals([c]) == [Word(c, false)] + Literals([]);
    assert Literals([b, c]) == [Word(b, false)] + Literals([c]);
  }

  /** Both levels together: what the inner shell runs last, from the repository root, is the command with
      exactly the arguments given, whatever characters they hold. */
  lemma {:induction false} ArgumentsSurviveBothShells(command: seq<string>, args: seq<string>)
    requires PlainWords(command) && forall a <- args :: NoNul(a)
    ensures var script := PlainCommand(command) + QuoteAll(args);
      && Tokens(SandboxWorktreeRootCommand(script)) == Some(Literals(["/bin/sh", "-lc", TO_ROOT + script]))
      && Tokens(TO_ROOT + script).Some?
      && LastCommand(Tokens(TO_ROOT + script).value) == Literals(command + args)
  {
    ScriptHasNoNul(command, args);
    OuterShellPassesScript(PlainCommand(command) + QuoteAll(args));
    RunToRoot();
    InnerShellRunsCommand(TO_ROOT, command, args);
  }

  lemma {:induction false} InnerShellRunsCommand(prefix: string, command: seq<string>, args: seq<string>)
    requires AfterSemicolon(Run(START, prefix)) && PlainWords(command) && forall a <- args :: NoNul(a)
    ensures var tokens := Tokens(prefix + (PlainCommand(command) + QuoteAll(args)));
      tokens.Some? && LastCommand(tokens.value) == Literals(command + args)
  {
    RunConcat(START, prefix, PlainCommand(command) + QuoteAll(args));
    var l := Run(START, prefix);
    RunCommand(l, command, args);
    LastCommandAfterOperator(l.tokens, command + args);
  }

  lemma {:induction false} LiteralsConcat(a: seq<string>, b: seq<string>)
    ensures Literals(a + b) == Literals(a) + Literals(b)
  {
    if a == [] {
      assert a + b == b;
    } else {
      assert (a + b)[1..] == a[1..] + b;
      LiteralsConcat(a[1..], b);
    }
  }

  lemma EscapeHasNoNul(s: string)
    requires NoNul(s)
    ensures NoNul(EscapeQuotes(s))
  {
  }

  lemma {:induction false} QuoteAllHasNoNul(args: seq<string>)
    requires forall a <- args :: NoNul(a)
    ensures NoNul(QuoteAll(args))
  {
    if args != [] {
      EscapeHasNoNul(args[0]);
      QuoteAllHasNoNul(args[1..]);
    }
  }

  lemma {:induction false} PlainHasNoNul(words: seq<string>)
    requires PlainWords(words)
    ensures NoNul(PlainCommand(words))
  {
    if words != [] {
      assert words[0] in words && !IsPlain('\0');
      assert forall w <- words[1..] :: w in words;
      PlainHasNoNul(words[1..]);
    }
  }

  lemma {:induction false} ScriptHasNoNul(command: seq<string>, args: seq<string>)
    requires PlainWords(command) && forall a <- args :: NoNul(a)
    ensures NoNul(PlainCommand(command) + QuoteAll(args))
  {
    PlainHasNoNul(command);
    QuoteAllHasNoNul(args);
  }

  // ---------------------------------------------------------------- scripts that go on after the arguments

  function Behind(p: seq<Token>, l: Lexer): Lexer { l.(tokens := p + l.tokens) }

  lemma {:induction false} EndedBehind(p: seq<Token>, l: Lexer)
    ensures Ended(Behind(p, l)) == Behind(p, Ended(l))
  {
    if l.word.Some? {
      assert p + l.tokens + [l.word.value] == p + (l.tokens + [l.word.value]);
    }
  }

  /** What was read before has no influence on the tokens that follow. */
  lemma {:induction false} OperatorBehind(p: seq<Token>, l: Lexer, c: char)
    requires IsOperator(c)
    ensures InUnquoted(Behind(p, l), c) == Behind(p, InUnquoted(l, c))
  {
    EndedBehind(p, l);
    assert p + Ended(l).tokens + [Operator(c)] == p + (Ended(l).tokens + [Operator(c)]);
  }

  lemma {:induction false} UnquotedBehind(p: seq<Token>, l: Lexer, c: char)
    ensures InUnquoted(Behind(p, l), c) == Behind(p, InUnquoted(l, c))
  {
    if IsOperator(c) {
      OperatorBehind(p, l, c);
    } else if IsBlank(c) {
      EndedBehind(p, l);
    }
  }

  /** What was read before has no influence on the tokens that follow. */
  lemma {:induction false} StepBehind(p: seq<Token>, l: Lexer, c: char)
    ensures Step(Behind(p, l), c) == Behind(p, Step(l, c))
  {
    if c != '\0' && (l.mode == Unquoted || (l.mode == Dollar && c != '(')) {
      UnquotedBehind(p, l, c);
    }
  }

  lemma {:induction false} RunBehind(p: seq<Token>, l: Lexer, s: string)
    ensures Run(Behind(p, l), s) == Behind(p, Run(l, s))
    decreases s
  {
    if s != "" {
      StepBehind(p, l, s[0]);
      RunBehind(p, Step(l, s[0]), s[1..]);
    }
  }

  /** A blank ends the words read so far; the rest is read as if it stood alone. */
  lemma {:induction false} AfterBlank(l: Lexer, rest: string)
    requires l.mode == Unquoted
    ensures Run(l, " " + rest) == Behind(Ended(l).tokens, Run(START, rest))
  {
    RunConcat(l, " ", rest);
    assert " "[1..] == "" && Run(l, " ") == Run(Step(l, ' '), "");
    RunBehind(Ended(l).tokens, START, rest);
    assert Ended(l).tokens + [] == Ended(l).tokens;
    assert Behind(Ended(l).tokens, START) == Lexer(Ended(l).tokens, None, Unquoted);
  }

  lemma {:induction false} RunCommand(l: Lexer, command: seq<string>, args: seq<string>)
    requires Clean(l) && PlainWords(command) && forall a <- args :: NoNul(a)
    ensures Run(l, PlainCommand(command) + QuoteAll(args)).mode == Unquoted
    ensures Ended(Run(l, PlainCommand(command) + QuoteAll(args))).tokens == l.tokens + Literals(command + args)
  {
    RunConcat(l, PlainCommand(command), QuoteAll(args));
    RunPlainCommand(l, command);
    RunQuoteAll(Run(l, PlainCommand(command)), args);
    LiteralsConcat(command, args);
    assert l.tokens + Literals(command) + Literals(args) == l.tokens + Literals(command + args);
  }

  /** Scripts that go on after the quoted arguments, with a redirection or a further command: the inner shell
      sees the tokens of the way to the root, the command with exactly its arguments, and the tokens of the
      rest. */
  lemma {:induction false} ArgumentsSurviveBefore(command: seq<string>, args: seq<string>, rest: string)
    requires PlainWords(command) && (forall a <- args :: NoNul(a)) && NoNul(rest) && Tokens(rest).Some?
    ensures var script := PlainCommand(command) + QuoteAll(args) + (" " + rest);
      && Tokens(SandboxWorktreeRootCommand(script)) == Some(Literals(["/bin/sh", "-lc", TO_ROOT + script]))
      && Tokens(TO_ROOT).Some? && LastCommand(Tokens(TO_ROOT).value) == []
      && Tokens(TO_ROOT + script) == Some(Tokens(TO_ROOT).value + Literals(command + args) + Tokens(rest).value)
  {
    var words := PlainCommand(command) + QuoteAll(args);
    ScriptHasNoNul(command, args);
    OuterShellPassesScript(words + (" " + rest));
    RunToRoot();
    var l := Run(START, TO_ROOT);
    RunConcat(START, TO_ROOT, words + (" " + rest));
    RunConcat(l, words, " " + rest);
    RunCommand(l, command, args);
    AfterBlank(Run(l, words), rest);
    EndedBehind(l.tokens + Literals(command + args), Run(START, rest));
  }

  /** A rest may hold anything without quotes and expansions. */
  lemma {:induction false} SimpleRest(l: Lexer, s: string)
    requires l.mode == Unquoted && forall c <- s :: IsPlain(c) || IsBlank(c) || IsOperator(c)
    ensures Run(l, s).mode == Unquoted
    decreases s
  {
    if s != "" {
      assert s[0] in s;
      SimpleRest(Step(l, s[0]), s[1..]);
    }
  }

  /** An operator at its start ends the command. */
  lemma {:induction false} OperatorFirst(op: char, rest: string)
    requires IsOperator(op) && Tokens(rest).Some?
    ensures Tokens([op] + rest) == Some([Operator(op)] + Tokens(rest).value)
  {
    assert ([op] + rest)[0] == op && ([op] + rest)[1..] == rest;
    assert Step(START, op) == Behind([Operator(op)], START);
    RunBehind([Operator(op)], START, rest);
    EndedBehind([Operator(op)], Run(START, rest));
  }
}
