// The java.lang.String operations the modelled code relies on, written out
// with their Java semantics: `trim` removes every leading and trailing
// character up to U+0020, `split` with a literal separator drops trailing
// empty fields, `indexOf`/`lastIndexOf` answer -1 when nothing is found,
// `replace` rewrites every non-overlapping occurrence from left to right.
// Case mapping is ASCII-only (see README).
module JavaStrings {
  import opened Wrappers

  // ---------------------------------------------------------------------
  // Prefixes, suffixes and occurrences

  predicate StartsWith(s: string, p: string) {
    |p| <= |s| && s[..|p|] == p
  }

  predicate EndsWith(s: string, t: string) {
    |t| <= |s| && s[|s| - |t|..] == t
  }

  predicate OccursAt(s: string, t: string, i: int) {
    0 <= i && i + |t| <= |s| && s[i..i + |t|] == t
  }

  /** Java's `s.indexOf(t, from)` for `from` inside the string. */
  function IndexOfFrom(s: string, t: string, from: nat): (r: int)
    ensures r == -1 || (from <= r && OccursAt(s, t, r))
    decreases |s| - from
  {
    if from + |t| > |s| then -1
    else if s[from..from + |t|] == t then from
    else IndexOfFrom(s, t, from + 1)
  }

  /** No occurrence starts between `from` and the index found (or anywhere after `from`, if none is). */
  lemma {:induction false} IndexOfFromFirst(s: string, t: string, from: nat, j: int)
    requires from <= j
    requires IndexOfFrom(s, t, from) == -1 || j < IndexOfFrom(s, t, from)
    ensures !OccursAt(s, t, j)
    decreases |s| - from
  {
    if from + |t| <= |s| && s[from..from + |t|] != t && from < j {
      IndexOfFromFirst(s, t, from + 1, j);
    }
  }

  function IndexOf(s: string, t: string): (r: int)
    ensures r == -1 || OccursAt(s, t, r)
  {
    IndexOfFrom(s, t, 0)
  }

  /** `indexOf` finds the first occurrence, and -1 only when there is none. */
  lemma IndexOfFirst(s: string, t: string, j: int)
    requires 0 <= j && (IndexOf(s, t) == -1 || j < IndexOf(s, t))
    ensures !OccursAt(s, t, j)
  {
    IndexOfFromFirst(s, t, 0, j);
  }

  predicate Contains(s: string, t: string) {
    IndexOf(s, t) >= 0
  }

  lemma ContainsAt(s: string, t: string, i: int)
    requires OccursAt(s, t, i)
    ensures Contains(s, t)
  {
    if IndexOf(s, t) == -1 {
      IndexOfFirst(s, t, i);
    }
  }

  /** An occurrence with none before it is the one `indexOf` finds. */
  lemma IndexOfIs(s: string, t: string, i: int)
    requires OccursAt(s, t, i)
    requires forall j :: 0 <= j < i ==> !OccursAt(s, t, j)
    ensures IndexOf(s, t) == i
  {
    var r := IndexOf(s, t);
    if r == -1 || i < r {
      IndexOfFirst(s, t, i);
    }
  }

  /** A text without the character `c` does not contain the one-character string `[c]`. */
  lemma NoCharNoContains(s: string, c: char)
    requires c !in s
    ensures !Contains(s, [c])
  {
    forall j | 0 <= j < |s| ensures !OccursAt(s, [c], j) {
      assert s[j..j + 1][0] == s[j] != c;
    }
  }

  /** A one-character string occurs exactly when its character does. */
  lemma ContainsChar(s: string, c: char)
    ensures Contains(s, [c]) <==> c in s
  {
    if c in s {
      var i :| 0 <= i < |s| && s[i] == c;
      assert s[i..i + 1] == [c];
      ContainsAt(s, [c], i);
    } else {
      NoCharNoContains(s, c);
    }
  }

  lemma EndsWithContains(s: string, t: string)
    ensures EndsWith(s, t) ==> Contains(s, t)
  {
    if EndsWith(s, t) {
      ContainsAt(s, t, |s| - |t|);
    }
  }

  /** `s.indexOf(c)` for a single character. */
  function IndexOfChar(s: string, c: char): (r: int)
    ensures -1 <= r < |s|
    ensures r >= 0 ==> s[r] == c
  {
    if |s| == 0 then -1
    else if s[0] == c then 0
    else
      var k := IndexOfChar(s[1..], c);
      if k < 0 then -1 else k + 1
  }

  lemma {:induction false} IndexOfCharFirst(s: string, c: char, j: int)
    requires 0 <= j < |s| && (IndexOfChar(s, c) == -1 || j < IndexOfChar(s, c))
    ensures s[j] != c
  {
    if s[0] != c && j > 0 {
      IndexOfCharFirst(s[1..], c, j - 1);
    }
  }

  /** The first occurrence of `c` is found where it is. */
  lemma {:induction false} IndexOfCharIs(s: string, c: char, i: int)
    requires 0 <= i < |s| && s[i] == c && c !in s[..i]
    ensures IndexOfChar(s, c) == i
  {
    if i > 0 {
      assert s[0] == s[..i][0];
      assert s[1..][..i - 1] == s[..i][1..];
      IndexOfCharIs(s[1..], c, i - 1);
    }
  }

  /** Searching for the one-character string `[c]` finds what searching for `c` finds. */
  lemma IndexOfSingle(s: string, c: char)
    ensures IndexOf(s, [c]) == IndexOfChar(s, c)
  {
    var k := IndexOfChar(s, c);
    if k >= 0 {
      assert c !in s[..k] by {
        forall j | 0 <= j < k ensures s[j] != c { IndexOfCharFirst(s, c, j); }
      }
      assert s[k..k + 1] == [c];
      forall j | 0 <= j < k ensures !OccursAt(s, [c], j) {
        assert s[j..j + 1][0] == s[j];
      }
      IndexOfIs(s, [c], k);
    } else {
      assert c !in s by {
        forall j | 0 <= j < |s| ensures s[j] != c { IndexOfCharFirst(s, c, j); }
      }
      NoCharNoContains(s, c);
    }
  }

  /** `s.lastIndexOf(c)` for a single character. */
  function LastIndexOfChar(s: string, c: char): (r: int)
    ensures -1 <= r < |s|
    ensures r >= 0 ==> s[r] == c
  {
    if |s| == 0 then -1
    else if s[|s| - 1] == c then |s| - 1
    else LastIndexOfChar(s[..|s| - 1], c)
  }

  lemma {:induction false} LastIndexOfCharLast(s: string, c: char, j: int)
    requires LastIndexOfChar(s, c) < j < |s|
    ensures s[j] != c
  {
    if s[|s| - 1] != c && j < |s| - 1 {
      LastIndexOfCharLast(s[..|s| - 1], c, j);
    }
  }

  /** The text after the last `c`; all of `s` when `c` does not occur. */
  function AfterLast(s: string, c: char): (r: string)
    ensures EndsWith(s, r)
  {
    var k := LastIndexOfChar(s, c);
    s[k + 1..]
  }

  lemma AfterLastProperties(s: string, c: char)
    ensures c !in AfterLast(s, c)
    ensures c in s ==> |AfterLast(s, c)| < |s| && s[|s| - |AfterLast(s, c)| - 1] == c
    ensures c !in s ==> AfterLast(s, c) == s
  {
    var k := LastIndexOfChar(s, c);
    var r := AfterLast(s, c);
    forall j | 0 <= j < |r| ensures r[j] != c {
      LastIndexOfCharLast(s, c, k + 1 + j);
    }
  }

  lemma AfterLastAppend(a: string, c: char, b: string)
    requires c !in b
    ensures AfterLast(a + [c] + b, c) == b
  {
    var s := a + [c] + b;
    assert s[|a|] == c;
    assert s[|a| + 1..] == b;
    if LastIndexOfChar(s, c) < |a| {
      LastIndexOfCharLast(s, c, |a|);
    }
  }

  // ---------------------------------------------------------------------
  // trim

  predicate IsSpace(c: char) { c <= ' ' }

  function TrimStart(s: string): (r: string)
    ensures EndsWith(s, r)
    ensures |r| > 0 ==> !IsSpace(r[0])
  {
    if |s| > 0 && IsSpace(s[0]) then TrimStart(s[1..]) else s
  }

  function TrimEnd(s: string): (r: string)
    ensures StartsWith(s, r)
    ensures |r| > 0 ==> !IsSpace(r[|r| - 1])
  {
    if |s| > 0 && IsSpace(s[|s| - 1]) then TrimEnd(s[..|s| - 1]) else s
  }

  /** Java's `String.trim`. */
  function Trim(s: string): (r: string)
    ensures |r| <= |s|
    ensures |r| > 0 ==> !IsSpace(r[0]) && !IsSpace(r[|r| - 1])
  {
    TrimEnd(TrimStart(s))
  }

  /** `StringHelper.isNullOrEmptyTrim`: null, or empty once trimmed. */
  predicate IsNullOrEmptyTrim(s: Option<string>) {
    s.None? || Trim(s.value) == ""
  }

  /** Guava's `Strings.isNullOrEmpty`: null or the empty string, without trimming. */
  predicate NullOrEmpty(s: Option<string>) {
    s.None? || s.value == ""
  }

  /** `Character.isWhitespace`: the Unicode space separators other than the no-break spaces, and the ASCII controls TAB to CR and FS to US. */
  predicate IsWhitespace(c: char) {
    ('\t' <= c <= '\r') || ('\U{1C}' <= c <= ' ') || c == '\U{1680}' ||
    ('\U{2000}' <= c <= '\U{2006}') || ('\U{2008}' <= c <= '\U{200A}') ||
    c == '\U{2028}' || c == '\U{2029}' || c == '\U{205F}' || c == '\U{3000}'
  }

  /** `String.isBlank` (Java 11): empty or only whitespace in the sense of `Character.isWhitespace`. */
  predicate IsWhitespaceOnly(s: string) {
    forall i :: 0 <= i < |s| ==> IsWhitespace(s[i])
  }

  /** True when `s.trim()` is empty. */
  predicate IsBlank(s: string) {
    forall i :: 0 <= i < |s| ==> IsSpace(s[i])
  }

  lemma {:induction false} TrimStartBlank(s: string)
    ensures TrimStart(s) == "" <==> IsBlank(s)
  {
    if |s| > 0 && IsSpace(s[0]) {
      TrimStartBlank(s[1..]);
      assert forall i :: 0 < i < |s| ==> s[i] == s[1..][i - 1];
    }
  }

  lemma {:induction false} TrimEndBlank(s: string)
    ensures TrimEnd(s) == "" <==> IsBlank(s)
  {
    if |s| > 0 && IsSpace(s[|s| - 1]) {
      TrimEndBlank(s[..|s| - 1]);
      assert forall i :: 0 <= i < |s| - 1 ==> s[i] == s[..|s| - 1][i];
    }
  }

  /** `s.trim()` is empty exactly when `s` holds only characters up to U+0020. */
  lemma TrimBlank(s: string)
    ensures Trim(s) == "" <==> IsBlank(s)
  {
    TrimStartBlank(s);
    TrimEndBlank(TrimStart(s));
  }

  lemma TrimNoSpace(s: string)
    requires |s| > 0 ==> !IsSpace(s[0]) && !IsSpace(s[|s| - 1])
    ensures Trim(s) == s
  {
  }

  lemma TrimIdempotent(s: string)
    ensures Trim(Trim(s)) == Trim(s)
  {
    TrimNoSpace(Trim(s));
  }

  /** A text ending in a non-space character keeps that last character when trimmed. */
  lemma TrimKeepsLast(s: string)
    requires |s| > 0 && !IsSpace(s[|s| - 1])
    ensures |Trim(s)| > 0 && Trim(s)[|Trim(s)| - 1] == s[|s| - 1]
  {
    TrimStartBlank(s);
    var a := TrimStart(s);
    assert a[|a| - 1] == s[|s| - 1];
  }

  /** The trimmed text is a piece of the original. */
  lemma TrimContained(s: string)
    ensures Contains(s, Trim(s))
  {
    var a := TrimStart(s);
    var k := |s| - |a|;
    assert a == s[k..];
    assert Trim(s) == s[k..k + |Trim(s)|];
    ContainsAt(s, Trim(s), k);
  }

  // ---------------------------------------------------------------------
  // Regular expressions

  /** The characters `.` does not match in a Java regular expression without DOTALL. */
  predicate IsLineTerminator(c: char) {
    c == '\n' || c == '\r' || c == '\U{85}' || c == '\U{2028}' || c == '\U{2029}'
  }

  /** The text matches `.*`. */
  predicate NoLineTerminator(s: string) {
    forall i :: 0 <= i < |s| ==> !IsLineTerminator(s[i])
  }

  // ---------------------------------------------------------------------
  // replace

  /** Java's `s.replace(t, r)` for a non-empty target: every occurrence, left to right. */
  function Replace(s: string, t: string, r: string): string
    requires |t| > 0
    decreases |s|
  {
    if |s| < |t| then s
    else if s[..|t|] == t then r + Replace(s[|t|..], t, r)
    else [s[0]] + Replace(s[1..], t, r)
  }

  lemma {:induction false} ReplaceAbsent(s: string, t: string, r: string)
    requires |t| > 0
    requires !Contains(s, t)
    ensures Replace(s, t, r) == s
    decreases |s|
  {
    if |s| >= |t| {
      IndexOfFirst(s, t, 0);
      if Contains(s[1..], t) {
        var k := IndexOf(s[1..], t);
        assert s[1..][k..k + |t|] == s[k + 1..k + 1 + |t|];
        ContainsAt(s, t, k + 1);
      }
      ReplaceAbsent(s[1..], t, r);
    }
  }

  /** JavaScript's `s.replace(t, r)` with a string pattern: the first occurrence only. */
  function ReplaceFirst(s: string, t: string, r: string): (res: string)
    ensures !Contains(s, t) ==> res == s
    ensures Contains(s, t) ==>
      var i := IndexOf(s, t);
      res == s[..i] + r + s[i + |t|..]
  {
    var i := IndexOf(s, t);
    if i < 0 then s else s[..i] + r + s[i + |t|..]
  }

  // ---------------------------------------------------------------------
  // split with a literal separator

  /** All fields of `s` between occurrences of `sep`, empty ones included. */
  function Fields(s: string, sep: string): (r: seq<string>)
    requires |sep| > 0
    ensures |r| >= 1
    ensures !Contains(s, sep) ==> r == [s]
    decreases |s|
  {
    var i := IndexOf(s, sep);
    if i < 0 then [s] else [s[..i]] + Fields(s[i + |sep|..], sep)
  }

  function Join(xs: seq<string>, sep: string): string {
    if |xs| == 0 then ""
    else if |xs| == 1 then xs[0]
    else xs[0] + sep + Join(xs[1..], sep)
  }

  lemma {:induction false} JoinFields(s: string, sep: string)
    requires |sep| > 0
    ensures Join(Fields(s, sep), sep) == s
    decreases |s|
  {
    var i := IndexOf(s, sep);
    if i >= 0 {
      var rest := s[i + |sep|..];
      FieldsStep(s, sep);
      JoinFields(rest, sep);
      JoinCons(s[..i], Fields(rest, sep), sep);
    }
  }

  lemma FieldsStep(s: string, sep: string)
    requires |sep| > 0 && Contains(s, sep)
    ensures var i := IndexOf(s, sep);
      Fields(s, sep) == [s[..i]] + Fields(s[i + |sep|..], sep) &&
      s == s[..i] + sep + s[i + |sep|..]
  {
    var i := IndexOf(s, sep);
    assert s == s[..i] + s[i..i + |sep|] + s[i + |sep|..];
  }

  /** No field holds the separator character. */
  lemma {:induction false} FieldsNoChar(s: string, c: char)
    ensures forall k :: 0 <= k < |Fields(s, [c])| ==> c !in Fields(s, [c])[k]
    decreases |s|
  {
    var i := IndexOf(s, [c]);
    if i < 0 {
      ContainsChar(s, c);
    } else {
      forall j | 0 <= j < i ensures s[j] != c {
        IndexOfFirst(s, [c], j);
        assert s[j..j + 1][0] == s[j];
      }
      assert c !in s[..i];
      FieldsNoChar(s[i + 1..], c);
    }
  }

  /** No piece of a split holds the separator character. */
  lemma SplitNoChar(s: string, c: char)
    ensures forall k :: 0 <= k < |Split(s, [c])| ==> c !in Split(s, [c])[k]
  {
    FieldsNoChar(s, c);
    ContainsChar(s, c);
  }

  /** Splitting at a separator splits the fields: the fields of `a c b` are those of `a`, then those of `b`. */
  lemma {:induction false} FieldsAppend(a: string, c: char, b: string)
    ensures Fields(a + [c] + b, [c]) == Fields(a, [c]) + Fields(b, [c])
    decreases |a|
  {
    var s := a + [c] + b;
    if Contains(a, [c]) {
      var k := IndexOf(a, [c]);
      FirstIndexInPrefix(a, [c] + b, c);
      assert s == a + ([c] + b);
      assert s[..k] == a[..k];
      assert s[k + 1..] == a[k + 1..] + [c] + b;
      FieldsAppend(a[k + 1..], c, b);
    } else {
      FirstIndexAfterPrefix(a, b, c);
      assert s[..|a|] == a;
      assert s[|a| + 1..] == b;
    }
  }

  /** A character found in a prefix is first found at the same place in the whole text. */
  lemma FirstIndexInPrefix(a: string, rest: string, c: char)
    requires Contains(a, [c])
    ensures IndexOf(a + rest, [c]) == IndexOf(a, [c])
  {
    var s := a + rest;
    var k := IndexOf(a, [c]);
    assert OccursAt(s, [c], k) by { assert s[k..k + 1] == a[k..k + 1]; }
    forall j | 0 <= j < k ensures !OccursAt(s, [c], j) {
      IndexOfFirst(a, [c], j);
      assert s[j..j + 1] == a[j..j + 1];
    }
    IndexOfIs(s, [c], k);
  }

  /** A character missing from a prefix is first found right after it when it follows. */
  lemma FirstIndexAfterPrefix(a: string, b: string, c: char)
    requires !Contains(a, [c])
    ensures IndexOf(a + [c] + b, [c]) == |a|
  {
    var s := a + [c] + b;
    assert OccursAt(s, [c], |a|) by { assert s[|a|..|a| + 1] == [c]; }
    forall j | 0 <= j < |a| ensures !OccursAt(s, [c], j) {
      IndexOfFirst(a, [c], j);
      assert s[j..j + 1] == a[j..j + 1];
    }
    IndexOfIs(s, [c], |a|);
  }

  /** The last field is empty exactly when the text is empty or ends with the separator. */
  lemma {:induction false} FieldsLastEmpty(s: string, c: char)
    ensures LastField(s, c) == "" <==> s == "" || EndsWith(s, [c])
    decreases |s|
  {
    if Contains(s, [c]) {
      var i := IndexOf(s, [c]);
      assert OccursAt(s, [c], i);
      assert s[i] == c by { assert s[i..i + 1][0] == s[i]; }
      LastFieldStep(s, c);
      FieldsLastEmpty(s[i + 1..], c);
      EndsWithTail(s, i + 1, c);
    } else {
      LastFieldWithoutSeparator(s, c);
    }
  }

  /** Without the separator the last field is the text, which then cannot end with it. */
  lemma LastFieldWithoutSeparator(s: string, c: char)
    requires !Contains(s, [c])
    ensures LastField(s, c) == "" <==> s == "" || EndsWith(s, [c])
  {
    if |s| > 0 && s[|s| - 1] == c {
      assert OccursAt(s, [c], |s| - 1) by { assert s[|s| - 1..] == [c]; }
      ContainsAt(s, [c], |s| - 1);
    }
  }

  /** The last of the fields of `s` between occurrences of `c`. */
  function LastField(s: string, c: char): (r: string)
    ensures !Contains(s, [c]) ==> r == s
  {
    var f := Fields(s, [c]);
    f[|f| - 1]
  }

  lemma LastFieldStep(s: string, c: char)
    requires Contains(s, [c])
    ensures LastField(s, c) == LastField(s[IndexOf(s, [c]) + 1..], c)
  {
    FieldsStep(s, [c]);
  }

  lemma EndsWithTail(s: string, k: int, c: char)
    requires 0 < k <= |s| && s[k - 1] == c
    ensures (s[k..] == "" || EndsWith(s[k..], [c])) <==> EndsWith(s, [c])
  {
    var t := s[k..];
    if |t| > 0 {
      assert t[|t| - 1..] == s[|s| - 1..];
    } else {
      assert s[|s| - 1..] == [s[k - 1]];
    }
  }

  /** Splitting `a c b` on `c`, where `b` is not empty and holds no `c`, ends with `b`. */
  lemma SplitEndsWith(a: string, c: char, b: string)
    requires c !in b && b != ""
    ensures var r := Split(a + [c] + b, [c]); |r| > 0 && r[|r| - 1] == b
  {
    var s := a + [c] + b;
    FieldsAppend(a, c, b);
    NoCharNoContains(b, c);
    assert s[|a|..|a| + 1] == [c];
    ContainsAt(s, [c], |a|);
    var f := Fields(s, [c]);
    assert f[|f| - 1] == b;
  }

  lemma JoinCons(x: string, xs: seq<string>, sep: string)
    requires |xs| >= 1
    ensures Join([x] + xs, sep) == x + sep + Join(xs, sep)
  {
    assert ([x] + xs)[1..] == xs;
  }

  function DropTrailingEmpty(xs: seq<string>): (r: seq<string>)
    ensures |r| <= |xs| && r == xs[..|r|]
    ensures |r| > 0 ==> r[|r| - 1] != ""
  {
    if |xs| > 0 && xs[|xs| - 1] == "" then DropTrailingEmpty(xs[..|xs| - 1]) else xs
  }

  /** Only empty fields are dropped. */
  lemma {:induction false} DropTrailingEmptyOnlyEmpty(xs: seq<string>, i: int)
    requires |DropTrailingEmpty(xs)| <= i < |xs|
    ensures xs[i] == ""
  {
    if |xs| > 0 && xs[|xs| - 1] == "" && i < |xs| - 1 {
      DropTrailingEmptyOnlyEmpty(xs[..|xs| - 1], i);
    }
  }

  /**
   * Java's `s.split(sep)` for a separator without regular-expression
   * meaning: `[s]` when `sep` does not occur, otherwise the fields with the
   * trailing empty ones removed (so `"#".split("#")` is empty).
   */
  function Split(s: string, sep: string): (r: seq<string>)
    requires |sep| > 0
    ensures !Contains(s, sep) ==> r == [s]
    ensures Contains(s, sep) ==> r == DropTrailingEmpty(Fields(s, sep))
  {
    if !Contains(s, sep) then [s] else DropTrailingEmpty(Fields(s, sep))
  }

  /** Splitting `a c b` on `c`, where neither part holds `c` and `b` is not empty, gives `[a, b]`. */
  lemma SplitOnce(a: string, c: char, b: string)
    requires c !in a && c !in b && b != ""
    ensures Split(a + [c] + b, [c]) == [a, b]
  {
    var s := a + [c] + b;
    assert OccursAt(s, [c], |a|) by { assert s[|a|..|a| + 1] == [c]; }
    forall j | 0 <= j < |a| ensures !OccursAt(s, [c], j) {
      assert s[j..j + 1][0] == a[j];
    }
    IndexOfIs(s, [c], |a|);
    assert s[..|a|] == a;
    assert s[|a| + 1..] == b;
    NoCharNoContains(b, c);
    assert Fields(s, [c]) == [a, b];
  }

  // ---------------------------------------------------------------------
  // ASCII case mapping

  function LowerChar(c: char): char {
    if 'A' <= c <= 'Z' then (c as int + 32) as char else c
  }

  function UpperChar(c: char): char {
    if 'a' <= c <= 'z' then (c as int - 32) as char else c
  }

  function ToLower(s: string): (r: string)
    ensures |r| == |s|
    ensures forall i :: 0 <= i < |s| ==> r[i] == LowerChar(s[i])
  {
    seq(|s|, i requires 0 <= i < |s| => LowerChar(s[i]))
  }

  function ToUpper(s: string): (r: string)
    ensures |r| == |s|
    ensures forall i :: 0 <= i < |s| ==> r[i] == UpperChar(s[i])
  {
    seq(|s|, i requires 0 <= i < |s| => UpperChar(s[i]))
  }

  predicate EqualsIgnoreCase(a: string, b: string) {
    ToLower(a) == ToLower(b)
  }

  // ---------------------------------------------------------------------
  // Decimal numbers

  predicate IsDigit(c: char) { '0' <= c <= '9' }

  predicate AllDigits(s: string) {
    forall i :: 0 <= i < |s| ==> IsDigit(s[i])
  }

  function DigitValue(c: char): nat
    requires IsDigit(c)
  {
    c as int - '0' as int
  }

  function DigitChar(d: nat): (c: char)
    requires d < 10
    ensures IsDigit(c) && DigitValue(c) == d
  {
    ('0' as int + d) as char
  }

  /**
   * The zero of the run of ten decimal digits holding `c`: the runs of
   * the Basic Multilingual Plane (Unicode general category Nd, Unicode 6.2
   * as in Java 8), in ascending order.
   */
  function RunZero(c: char): (z: Option<int>)
    ensures z.Some? ==> 0x30 <= z.value <= c as int < z.value + 10
  {
    var x := c as int;
    if 0x0030 <= x < 0x003A then Some(0x0030)
    else if 0x0660 <= x < 0x066A then Some(0x0660)
    else if 0x06F0 <= x < 0x06FA then Some(0x06F0)
    else if 0x07C0 <= x < 0x07CA then Some(0x07C0)
    else if 0x0966 <= x < 0x0970 then Some(0x0966)
    else if 0x09E6 <= x < 0x09F0 then Some(0x09E6)
    else if 0x0A66 <= x < 0x0A70 then Some(0x0A66)
    else if 0x0AE6 <= x < 0x0AF0 then Some(0x0AE6)
    else if 0x0B66 <= x < 0x0B70 then Some(0x0B66)
    else if 0x0BE6 <= x < 0x0BF0 then Some(0x0BE6)
    else if 0x0C66 <= x < 0x0C70 then Some(0x0C66)
    else if 0x0CE6 <= x < 0x0CF0 then Some(0x0CE6)
    else if 0x0D66 <= x < 0x0D70 then Some(0x0D66)
    else if 0x0E50 <= x < 0x0E5A then Some(0x0E50)
    else if 0x0ED0 <= x < 0x0EDA then Some(0x0ED0)
    else if 0x0F20 <= x < 0x0F2A then Some(0x0F20)
    else if 0x1040 <= x < 0x104A then Some(0x1040)
    else if 0x1090 <= x < 0x109A then Some(0x1090)
    else if 0x17E0 <= x < 0x17EA then Some(0x17E0)
    else if 0x1810 <= x < 0x181A then Some(0x1810)
    else if 0x1946 <= x < 0x1950 then Some(0x1946)
    else if 0x19D0 <= x < 0x19DA then Some(0x19D0)
    else if 0x1A80 <= x < 0x1A8A then Some(0x1A80)
    else if 0x1A90 <= x < 0x1A9A then Some(0x1A90)
    else if 0x1B50 <= x < 0x1B5A then Some(0x1B50)
    else if 0x1BB0 <= x < 0x1BBA then Some(0x1BB0)
    else if 0x1C40 <= x < 0x1C4A then Some(0x1C40)
    else if 0x1C50 <= x < 0x1C5A then Some(0x1C50)
    else if 0xA620 <= x < 0xA62A then Some(0xA620)
    else if 0xA8D0 <= x < 0xA8DA then Some(0xA8D0)
    else if 0xA900 <= x < 0xA90A then Some(0xA900)
    else if 0xA9D0 <= x < 0xA9DA then Some(0xA9D0)
    else if 0xAA50 <= x < 0xAA5A then Some(0xAA50)
    else if 0xABF0 <= x < 0xABFA then Some(0xABF0)
    else if 0xFF10 <= x < 0xFF1A then Some(0xFF10)
    else None
  }

  /**
   * `Character.digit(c, 10)`, through which `Integer.parseInt` and
   * `Long.parseLong` read their digits: the value of a decimal digit of
   * any script, its offset from its run's zero; `None` (Java's -1) for
   * every other character. A character outside the Basic Multilingual
   * Plane is two UTF-16 units in Java, neither of which is a digit.
   */
  function JavaDigit(c: char): (r: Option<nat>)
    ensures r.Some? <==> RunZero(c).Some?
    ensures r.Some? ==> r.value < 10 && r.value == c as int - RunZero(c).value
    ensures IsDigit(c) ==> r == Some(DigitValue(c))
    ensures c as int < 0x660 ==> (r.Some? <==> IsDigit(c))
  {
    match RunZero(c)
    case None => None
    case Some(z) => Some(c as int - z)
  }

  /** Fullwidth, Arabic-Indic and Devanagari threes read as 3, and the fullwidth "３" parses as the int 3. */
  lemma JavaDigitFullwidth()
    ensures JavaDigit('\U{FF13}') == Some(3)
    ensures JavaDigit('\U{0663}') == Some(3) && JavaDigit('\U{0969}') == Some(3)
    ensures ParseInt("\U{FF13}") == Some(3)
  {
    assert JavaDigitsValue("\U{FF13}") == 3 by {
      assert "\U{FF13}"[..0] == "";
    }
  }

  predicate AllJavaDigits(s: string) {
    forall i :: 0 <= i < |s| ==> JavaDigit(s[i]).Some?
  }

  /** The value of a run of digits as `parseInt` accumulates it. */
  function JavaDigitsValue(s: string): nat
    requires AllJavaDigits(s)
  {
    if |s| == 0 then 0 else JavaDigitsValue(s[..|s| - 1]) * 10 + JavaDigit(s[|s| - 1]).value
  }

  /** On ASCII digits Java's digits and their value are the plain ones. */
  lemma {:induction false} AsciiJavaDigits(s: string)
    ensures AllDigits(s) ==> AllJavaDigits(s) && JavaDigitsValue(s) == DigitsValue(s)
  {
    if |s| > 0 && AllDigits(s) {
      AsciiJavaDigits(s[..|s| - 1]);
    }
  }

  /** The value of a run of decimal digits. */
  function DigitsValue(s: string): nat
    requires AllDigits(s)
  {
    if |s| == 0 then 0 else DigitsValue(s[..|s| - 1]) * 10 + DigitValue(s[|s| - 1])
  }

  /** The decimal text of `n`, as Java prints a non-negative number. */
  function NatToString(n: nat): (r: string)
    ensures |r| > 0 && AllDigits(r)
    ensures '/' !in r && '-' !in r && '.' !in r
  {
    if n < 10 then [DigitChar(n)] else NatToString(n / 10) + [DigitChar(n % 10)]
  }

  function IntToString(i: int): string {
    if i < 0 then "-" + NatToString(-i) else NatToString(i)
  }

  lemma {:induction false} NatToStringValue(n: nat)
    ensures DigitsValue(NatToString(n)) == n
  {
    if n >= 10 {
      NatToStringValue(n / 10);
      var s := NatToString(n);
      assert s[..|s| - 1] == NatToString(n / 10);
    }
  }

  lemma NatToStringInjective(m: nat, n: nat)
    requires NatToString(m) == NatToString(n)
    ensures m == n
  {
    NatToStringValue(m);
    NatToStringValue(n);
  }

  const IntMin: int := -0x8000_0000
  const IntMax: int := 0x7fff_ffff
  const LongMin: int := -0x8000_0000_0000_0000
  const LongMax: int := 0x7fff_ffff_ffff_ffff

  /**
   * `Integer.parseInt` / `Long.parseLong` with bounds `lo..hi`: an optional
   * sign, at least one digit in the sense of `Character.digit` (any
   * script's decimal digits), and a value inside the bounds; anything else
   * is the NumberFormatException, `None`.
   */
  function ParseInteger(s: string, lo: int, hi: int): (r: Option<int>)
    ensures r.Some? ==> lo <= r.value <= hi
    ensures AllJavaDigits(s) && |s| > 0 && lo <= JavaDigitsValue(s) <= hi ==> r == Some(JavaDigitsValue(s))
    ensures AllDigits(s) && |s| > 0 && lo <= DigitsValue(s) <= hi ==> r == Some(DigitsValue(s))
    ensures |s| == 0 ==> r == None
    ensures r.Some? ==> |s| > 0 && (s[0] == '-' || s[0] == '+' || JavaDigit(s[0]).Some?)
  {
    AsciiJavaDigits(s);
    if |s| == 0 then None
    else if s[0] == '-' || s[0] == '+' then
      var body := s[1..];
      if |body| == 0 || !AllJavaDigits(body) then None
      else
        var v: int := if s[0] == '-' then -(JavaDigitsValue(body) as int) else JavaDigitsValue(body);
        if lo <= v <= hi then Some(v) else None
    else if !AllJavaDigits(s) then None
    else if lo <= JavaDigitsValue(s) <= hi then Some(JavaDigitsValue(s))
    else None
  }

  function ParseInt(s: string): Option<int> { ParseInteger(s, IntMin, IntMax) }

  function ParseLong(s: string): Option<int> { ParseInteger(s, LongMin, LongMax) }

  lemma ParseNatToString(n: nat, lo: int, hi: int)
    requires lo <= n <= hi
    ensures ParseInteger(NatToString(n), lo, hi) == Some(n)
  {
    NatToStringValue(n);
  }

  /** Java's integer division, which truncates toward zero. */
  function JavaDiv(a: int, b: int): (r: int)
    requires b != 0
    ensures a >= 0 && b > 0 ==> r == a / b
    ensures -b < a < 0 && b > 0 ==> r == 0
  {
    if a >= 0 then (if b > 0 then a / b else -(a / -b))
    else (if b > 0 then -((-a) / b) else (-a) / (-b))
  }

  /** Java's two's-complement 32-bit wrap-around of an exact result. */
  function ToInt32(x: int): (r: int)
    ensures IntMin <= r <= IntMax
    ensures IntMin <= x <= IntMax ==> r == x
  {
    (x - IntMin) % 0x1_0000_0000 + IntMin
  }
}
