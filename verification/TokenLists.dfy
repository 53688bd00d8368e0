/** Reading a text as a list of tokens, with any scanner for the leading token. */
module TokenLists {
  import opened Options

  datatype Token<T> = Token(token: T, length: nat)

  function Tokens<T>(scan: string -> Option<Token<T>>, s: string): Option<seq<T>> {
    if s == "" then Some([])
    else
      var first := scan(s);
      if first.None? || first.value.length == 0 || first.value.length > |s| then None
      else PrependAll([first.value.token], Tokens(scan, s[first.value.length..]))
  }

  function PrependAll<T>(first: seq<T>, rest: Option<seq<T>>): Option<seq<T>> {
    if rest.None? then None else Some(first + rest.value)
  }

  /** The scanner finds the leading token of s also when t follows s. */
  predicate Undisturbed<T(==)>(scan: string -> Option<Token<T>>, s: string, t: string) {
    scan(s).Some? ==> scan(s + t) == scan(s)
  }

  lemma {:induction false} OneToken<T>(scan: string -> Option<Token<T>>, s: string)
    requires s != "" && scan(s).Some? && scan(s).value.length == |s|
    ensures Tokens(scan, s) == Some([scan(s).value.token])
  {
    assert s[|s|..] == "";
    assert [scan(s).value.token] + [] == [scan(s).value.token];
  }

  /** Lists of tokens written one after the other. */
  lemma {:induction false} TokensConcat<T>(scan: string -> Option<Token<T>>, s: string, t: string)
    requires Tokens(scan, s).Some? && Tokens(scan, t).Some?
    requires forall a: string :: Undisturbed(scan, a, t)
    ensures Tokens(scan, s + t) == Some(Tokens(scan, s).value + Tokens(scan, t).value)
  {
    if s == "" {
      assert s + t == t && [] + Tokens(scan, t).value == Tokens(scan, t).value;
    } else {
      assert Undisturbed(scan, s, t);
      var n := scan(s).value.length;
      TokensConcat(scan, s[n..], t);
      assert (s + t)[n..] == s[n..] + t;
      var first, a, b := [scan(s).value.token], Tokens(scan, s[n..]).value, Tokens(scan, t).value;
      assert Tokens(scan, s + t) == PrependAll(first, Tokens(scan, s[n..] + t));
      assert first + (a + b) == first + a + b;
    }
  }

  lemma {:induction false} PrependTwice<T>(a: seq<T>, b: seq<T>, rest: Option<seq<T>>)
    ensures PrependAll(a, PrependAll(b, rest)) == PrependAll(a + b, rest)
    ensures PrependAll([], rest) == rest
  {
    if rest.Some? {
      assert a + (b + rest.value) == a + b + rest.value;
      assert [] + rest.value == rest.value;
    }
  }
}
