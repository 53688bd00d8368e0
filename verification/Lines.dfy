/** Splitting a text into lines and joining them again, as strings.Split and strings.Join do with "\n". */
module Lines {

  /** strings.Split(s, "\n"). */
  function Split(s: string): (lines: seq<string>)
    ensures |lines| >= 1
    ensures forall l <- lines :: '\n' !in l
  {
    if s == "" then [""]
    else
      var rest := Split(s[1..]);
      if s[0] == '\n' then [""] + rest else [[s[0]] + rest[0]] + rest[1..]
  }

  /** strings.Join(lines, "\n"). */
  function Join(lines: seq<string>): string {
    if lines == [] then "" else if |lines| == 1 then lines[0] else lines[0] + "\n" + Join(lines[1..])
  }

  /** Every line followed by a newline. Unlike Join it distributes over concatenation. */
  function Unlines(lines: seq<string>): string {
    if lines == [] then "" else lines[0] + "\n" + Unlines(lines[1..])
  }

  lemma UnlinesConcat(a: seq<string>, b: seq<string>)
    ensures Unlines(a + b) == Unlines(a) + Unlines(b)
  {
    if a == [] {
      assert a + b == b;
    } else {
      assert (a + b)[1..] == a[1..] + b;
      UnlinesConcat(a[1..], b);
    }
  }

  /** The text before, on and after a line. */
  lemma UnlinesAround(lines: seq<string>, line: nat)
    requires line < |lines|
    ensures Unlines(lines) == Unlines(lines[..line]) + (lines[line] + "\n" + Unlines(lines[line + 1..]))
    ensures line + 1 < |lines| ==> |Unlines(lines[line + 1..])| >= 1
  {
    var b := lines[line + 1..];
    assert lines == lines[..line] + ([lines[line]] + b);
    UnlinesConcat(lines[..line], [lines[line]] + b);
    assert ([lines[line]] + b)[1..] == b;
  }

  lemma UnlinesJoin(lines: seq<string>)
    requires lines != []
    ensures Unlines(lines) == Join(lines) + "\n"
  {
  }

  lemma UnlinesSplit(s: string)
    ensures Unlines(Split(s)) == s + "\n"
  {
    if s != "" {
      UnlinesSplit(s[1..]);
      var rest := Split(s[1..]);
      if s[0] == '\n' {
        assert Split(s)[1..] == rest;
      } else {
        assert Split(s)[1..] == rest[1..] && Split(s)[0] == [s[0]] + rest[0];
        assert s == [s[0]] + s[1..] && s + "\n" == [s[0]] + (s[1..] + "\n");
        assert Unlines(Split(s)) == ([s[0]] + rest[0]) + "\n" + Unlines(rest[1..]) == [s[0]] + Unlines(rest);
        assert Unlines(rest) == rest[0] + "\n" + Unlines(rest[1..]);
      }
    }
  }

  lemma {:induction false} JoinSplit(s: string)
    ensures Join(Split(s)) == s
  {
    UnlinesSplit(s);
    UnlinesJoin(Split(s));
    assert (Join(Split(s)) + "\n")[..|Join(Split(s))|] == (s + "\n")[..|s|];
  }

  lemma SplitLine(l: string)
    requires '\n' !in l
    ensures Split(l) == [l]
  {
    if l != "" {
      SplitLine(l[1..]);
      assert l == [l[0]] + l[1..];
    }
  }

  lemma SplitAtNewline(l: string, s: string)
    requires '\n' !in l
    ensures Split(l + "\n" + s) == [l] + Split(s)
  {
    if l != "" {
      assert (l + "\n" + s)[1..] == l[1..] + "\n" + s;
      SplitAtNewline(l[1..], s);
      assert l == [l[0]] + l[1..];
    } else {
      assert ("" + "\n" + s)[1..] == s;
    }
  }

  /** The first line of a text keeps every newline-free prefix of that text. */
  lemma FirstLinePrefix(p: string, x: string)
    requires '\n' !in p
    ensures p <= Split(p + x)[0]
  {
    if p != "" {
      assert (p + x)[1..] == p[1..] + x;
      FirstLinePrefix(p[1..], x);
    }
  }

  /** Offset of the first character of a line. */
  function LineStart(lines: seq<string>, line: nat): nat
    requires line <= |lines|
  {
    |Unlines(lines[..line])|
  }

  lemma LineStartMonotone(lines: seq<string>, i: nat, j: nat)
    requires i < j <= |lines|
    ensures LineStart(lines, i) + |lines[i]| + 1 <= LineStart(lines, j)
  {
    assert lines[..j] == lines[..i] + ([lines[i]] + lines[i + 1..j]);
    UnlinesConcat(lines[..i], [lines[i]] + lines[i + 1..j]);
  }
}
