// Escaping of user text for the Lucene query syntax
// (de.mpg.imeji.logic.search.elasticsearch.factory.util.ElasticSearchFactoryUtil.escape).
module ElasticSearchFactoryUtil {

  /** The sixteen characters that are part of the query syntax; the wildcards `*`, `?` and `"` are not among them. */
  const SyntaxCharacters: string := "\\+-!():^[]{}~|&/"

  predicate IsSyntaxCharacter(c: char)
    ensures IsSyntaxCharacter(c) <==> c in SyntaxCharacters
  {
    c == '\\' || c == '+' || c == '-' || c == '!' || c == '(' || c == ')' || c == ':' || c == '^'
    || c == '[' || c == ']' || c == '{' || c == '}' || c == '~' || c == '|' || c == '&' || c == '/'
  }

  /** What the loop appends for one character. */
  function EscapeOne(c: char): (r: string)
    ensures IsSyntaxCharacter(c) ==> r == ['\\', c]
    ensures !IsSyntaxCharacter(c) ==> r == [c]
  {
    if IsSyntaxCharacter(c) then ['\\', c] else [c]
  }

  /** The text the builder holds after reading all of `s`. */
  function Escaped(s: string): string
    decreases |s|
  {
    if |s| == 0 then "" else Escaped(s[..|s| - 1]) + EscapeOne(s[|s| - 1])
  }

  /** `escape(s)`: one pass over `s`, appending a '\' before every syntax character. */
  method Escape(s: string) returns (r: string)
    ensures r == Escaped(s)
  {
    r := "";
    var i := 0;
    while i < |s|
      invariant 0 <= i <= |s|
      invariant r == Escaped(s[..i])
    {
      var c := s[i];
      if IsSyntaxCharacter(c) {
        r := r + ['\\'];
      }
      r := r + [c];
      assert s[..i + 1][..i] == s[..i];
      i := i + 1;
    }
    assert s[..|s|] == s;
  }

  /** The number of syntax characters in `s`. */
  function CountSyntax(s: string): nat
    decreases |s|
  {
    if |s| == 0 then 0 else (if IsSyntaxCharacter(s[0]) then 1 else 0) + CountSyntax(s[1..])
  }

  /** Escaping distributes over concatenation. */
  lemma {:induction false} EscapedConcat(a: string, b: string)
    ensures Escaped(a + b) == Escaped(a) + Escaped(b)
    decreases |b|
  {
    if |b| == 0 {
      assert a + b == a;
    } else {
      var b' := b[..|b| - 1];
      assert (a + b)[..|a + b| - 1] == a + b';
      EscapedConcat(a, b');
    }
  }

  /** Escaping a text starting with `c` starts with `c` escaped. */
  lemma {:induction false} EscapedCons(s: string)
    requires |s| > 0
    ensures Escaped(s) == EscapeOne(s[0]) + Escaped(s[1..])
  {
    var head := [s[0]];
    assert s == head + s[1..];
    EscapedConcat(head, s[1..]);
    assert head[..0] == [];
    assert Escaped(head) == Escaped([]) + EscapeOne(s[0]);
  }

  /** The output grows by exactly one character per syntax character of the input. */
  lemma {:induction false} EscapedLength(s: string)
    ensures |Escaped(s)| == |s| + CountSyntax(s)
    decreases |s|
  {
    if |s| > 0 {
      EscapedCons(s);
      EscapedLength(s[1..]);
    }
  }

  /** A text without syntax characters, wildcards included, is copied unchanged. */
  lemma {:induction false} EscapedPlain(s: string)
    requires forall i :: 0 <= i < |s| ==> !IsSyntaxCharacter(s[i])
    ensures Escaped(s) == s
    decreases |s|
  {
    if |s| > 0 {
      EscapedCons(s);
      EscapedPlain(s[1..]);
      assert s == [s[0]] + s[1..];
    }
  }

  /** Letters and digits are never escaped. */
  lemma EscapedAlphanumeric(s: string)
    requires forall i :: 0 <= i < |s| ==> 'A' <= s[i] <= 'Z' || 'a' <= s[i] <= 'z' || '0' <= s[i] <= '9'
    ensures Escaped(s) == s
  {
    EscapedPlain(s);
  }

  /** The wildcards '*', '?' and '"' are never escaped; '\' and '/' are. */
  lemma WildcardsKept()
    ensures Escaped("*?\"") == "*?\""
    ensures Escaped("\\/") == "\\\\\\/"
  {
    EscapedPlain("*?\"");
    EscapedCons("\\/");
    EscapedCons("/");
    assert "\\/"[1..] == "/";
    assert "/"[1..] == "";
  }

  /** Deletes each '\' that precedes a syntax character, keeping that character. */
  function Unescaped(t: string): string
    decreases |t|
  {
    if |t| == 0 then ""
    else if |t| >= 2 && t[0] == '\\' && IsSyntaxCharacter(t[1]) then [t[1]] + Unescaped(t[2..])
    else [t[0]] + Unescaped(t[1..])
  }

  /** Removing the inserted backslashes restores the input. */
  lemma {:induction false} UnescapedEscaped(s: string)
    ensures Unescaped(Escaped(s)) == s
    decreases |s|
  {
    if |s| > 0 {
      EscapedCons(s);
      UnescapedEscaped(s[1..]);
      var t := Escaped(s);
      if IsSyntaxCharacter(s[0]) {
        assert t[2..] == Escaped(s[1..]);
      } else {
        assert t[1..] == Escaped(s[1..]);
      }
      assert s == [s[0]] + s[1..];
    }
  }
}
