// The URL search-query language: the reader loop that splits query text into
// nested groups joined by AND/OR, and the serialiser that writes search
// elements back to query text (de.mpg.imeji.logic.search.SearchQueryParser).
module SearchQueryParser {
  import opened Wrappers
  import opened JavaStrings

  // ---------------------------------------------------------------------
  // Search elements

  datatype Operator = REGEX | EQUALS | GREATER | LESSER | GREATER_EQUALS | LESSER_EQUALS

  datatype Relation = AND | OR

  /**
   * A search element. `field`, `index` and `labelText` hold the index names as
   * they are written in a query (`all` is the free-text field).
   */
  datatype Element =
    | Pair(field: string, op: Operator, value: string, not: bool)
    | Metadata(index: string, mdField: Option<string>, op: Operator, value: string, not: bool)
    | CollectionMetadata(labelText: string, op: Operator, value: string, not: bool)
    | Technical(labelText: string, op: Operator, value: string, not: bool)
    | LogicalRelation(relation: Relation)
    | Group(elements: seq<Element>, not: bool)

  const AllField: string := "all"
  const EscapeCharacter: char := '\\'
  /** Declared in this (unsorted) order in the source. */
  const SpecialCharacters: seq<char> := ['(', ')', '=', '>', '<']

  // ---------------------------------------------------------------------
  // Special characters and escaping

  /**
   * `Arrays.binarySearch` over `a[low..high]` (inclusive bounds), step by
   * step as the JDK runs it; on unsorted input it can miss a key.
   */
  function BinarySearch(a: seq<char>, key: char, low: int, high: int): (r: int)
    requires 0 <= low && high < |a|
    ensures r >= 0 ==> r < |a| && a[r] == key
    decreases high - low + 1
  {
    if low > high then -(low + 1)
    else
      var mid := (low + high) / 2;
      if a[mid] < key then BinarySearch(a, key, mid + 1, high)
      else if a[mid] > key then BinarySearch(a, key, low, mid - 1)
      else mid
  }

  predicate IsSpecialCharacter(c: char) {
    BinarySearch(SpecialCharacters, c, 0, |SpecialCharacters| - 1) >= 0
  }

  /** The binary search finds '(' ')' '=' '>' and misses '<', the last, out-of-order entry. */
  lemma SpecialCharactersFound(c: char)
    ensures IsSpecialCharacter(c) <==> c == '(' || c == ')' || c == '=' || c == '>'
    ensures '<' in SpecialCharacters && !IsSpecialCharacter('<')
  {
    var a := SpecialCharacters;
    assert a[2] == '=' && a[0] == '(' && a[1] == ')' && a[3] == '>' && a[4] == '<';
    if c < '=' {
      assert BinarySearch(a, c, 0, 4) == BinarySearch(a, c, 0, 1);
      if c > '(' {
        assert BinarySearch(a, c, 0, 1) == BinarySearch(a, c, 1, 1);
      }
    } else if c > '=' {
      assert BinarySearch(a, c, 0, 4) == BinarySearch(a, c, 3, 4);
      if c > '>' {
        assert BinarySearch(a, c, 3, 4) == BinarySearch(a, c, 4, 4);
      }
    }
    assert BinarySearch(a, '<', 0, 4) == BinarySearch(a, '<', 0, 1);
    assert BinarySearch(a, '<', 0, 1) == BinarySearch(a, '<', 1, 1);
    assert BinarySearch(a, '<', 1, 1) == BinarySearch(a, '<', 2, 1);
  }

  /** `isEscaped(index, s)`: a special character preceded by the escape character. */
  predicate IsEscaped(index: int, s: string)
    requires 0 <= index < |s|
  {
    IsSpecialCharacter(s[index]) && index > 0 && s[index - 1] == EscapeCharacter
  }

  /** One character as `escape` writes it: a '\' first when the binary search finds it. */
  function EscapeCharAsWritten(c: char): string {
    if IsSpecialCharacter(c) then [EscapeCharacter, c] else [c]
  }

  /** `escape(s)` as written: each character the binary search recognises gets a leading '\'. */
  function EscapeAsWritten(s: string): (r: string)
    ensures |r| >= |s|
  {
    if |s| == 0 then "" else EscapeCharAsWritten(s[0]) + EscapeAsWritten(s[1..])
  }

  /** One character as `escape` is meant to write it: every entry of the special characters is escaped. */
  function EscapeChar(c: char): (r: string)
    ensures c in SpecialCharacters ==> r == [EscapeCharacter, c]
    ensures c !in SpecialCharacters ==> r == [c]
  {
    if c in SpecialCharacters then [EscapeCharacter, c] else [c]
  }

  /** `escape(s)` with the membership test the special-character list calls for. */
  function Escape(s: string): (r: string)
    ensures |r| >= |s|
  {
    if |s| == 0 then "" else EscapeChar(s[0]) + Escape(s[1..])
  }

  /** `unescape(s)`: every '\' is deleted. */
  function Unescape(s: string): (r: string)
    ensures EscapeCharacter !in r
  {
    UnescapeRemovesAll(s);
    Replace(s, [EscapeCharacter], "")
  }

  lemma {:induction false} UnescapeRemovesAll(s: string)
    ensures EscapeCharacter !in Replace(s, [EscapeCharacter], "")
    decreases |s|
  {
    if |s| >= 1 {
      UnescapeRemovesAll(s[1..]);
    }
  }

  lemma {:induction false} ReplaceCharAppend(a: string, b: string, c: char)
    ensures Replace(a + b, [c], "") == Replace(a, [c], "") + Replace(b, [c], "")
    decreases |a|
  {
    if |a| == 0 {
      assert a + b == b;
    } else {
      assert (a + b)[1..] == a[1..] + b;
      assert (a + b)[..1] == a[..1];
      assert (a + b)[0] == a[0];
      ReplaceCharAppend(a[1..], b, c);
    }
  }

  /** As written, escaping prefixes exactly '(' ')' '=' '>'; '<' is copied unescaped. */
  lemma EscapeCharAsWrittenMisses(c: char)
    ensures EscapeCharAsWritten(c) == if c in "()=>" then [EscapeCharacter, c] else [c]
    ensures '<' in SpecialCharacters && EscapeAsWritten("<") == "<" && Escape("<") == "\\<"
  {
    SpecialCharactersFound(c);
    SpecialCharactersFound('<');
    assert "<"[1..] == "";
  }

  /** The two escapes agree on every text without '<'. */
  lemma {:induction false} EscapeAgreesWithoutLess(s: string)
    requires '<' !in s
    ensures EscapeAsWritten(s) == Escape(s)
    decreases |s|
  {
    if |s| > 0 {
      SpecialCharactersFound(s[0]);
      EscapeAgreesWithoutLess(s[1..]);
    }
  }

  /** unescape undoes escape for any text without a backslash of its own. */
  lemma {:induction false} UnescapeEscape(s: string)
    requires EscapeCharacter !in s
    ensures Unescape(Escape(s)) == s
    decreases |s|
  {
    if |s| > 0 {
      var c, rest := s[0], s[1..];
      assert EscapeCharacter !in rest && c != EscapeCharacter by {
        assert forall i :: 0 <= i < |rest| ==> rest[i] == s[i + 1];
      }
      UnescapeEscape(rest);
      assert Escape(s) == EscapeChar(c) + Escape(rest);
      ReplaceCharAppend(EscapeChar(c), Escape(rest), EscapeCharacter);
      UnescapeEscapeChar(c);
      assert Unescape(Escape(s)) == [c] + Unescape(Escape(rest));
      assert s == [c] + rest;
    }
  }

  /** Deleting the backslashes of one escaped character gives the character back. */
  lemma UnescapeEscapeChar(c: char)
    requires c != EscapeCharacter
    ensures Replace(EscapeChar(c), [EscapeCharacter], "") == [c]
  {
    var t := [EscapeCharacter];
    assert Replace([c], t, "") == [c] + Replace([], t, "");
    if c in SpecialCharacters {
      assert EscapeChar(c)[..1] == t && EscapeChar(c)[1..] == [c];
    }
  }

  // ---------------------------------------------------------------------
  // Operators

  /** `stringOperator2SearchOperator`: unknown strings fall back to EQUALS. */
  function StringToOperator(str: string): (op: Operator)
    ensures op != REGEX
    ensures str !in {"=", ">", "<", ">=", "<="} ==> op == EQUALS
  {
    if str == "=" then EQUALS
    else if str == ">" then GREATER
    else if str == "<" then LESSER
    else if str == ">=" then GREATER_EQUALS
    else if str == "<=" then LESSER_EQUALS
    else EQUALS
  }

  /** `operator2URL`: REGEX has no symbol of its own and is written as "=". */
  function OperatorToUrl(op: Operator): (s: string)
    ensures s in {"=", ">", "<", ">=", "<="}
  {
    match op
    case GREATER => ">"
    case LESSER => "<"
    case GREATER_EQUALS => ">="
    case LESSER_EQUALS => "<="
    case EQUALS => "="
    case REGEX => "="
  }

  lemma OperatorRoundTrip(op: Operator)
    ensures op != REGEX ==> StringToOperator(OperatorToUrl(op)) == op
    ensures StringToOperator(OperatorToUrl(REGEX)) == EQUALS
  {
  }

  // ---------------------------------------------------------------------
  // Relations and stop words

  /** `readRelation`: OR iff the text ends with "OR". */
  function ReadRelation(s: string): (r: Relation)
    ensures r == OR <==> EndsWith(s, "OR")
  {
    if EndsWith(s, "OR") then OR else AND
  }

  /** `removeRelation`: delete every " AND", then every " OR", then trim. */
  function RemoveRelation(s: string): string {
    Trim(Replace(Replace(s, " AND", ""), " OR", ""))
  }

  lemma {:induction false} RemoveRelationPlain(s: string)
    requires !Contains(s, " AND") && !Contains(s, " OR")
    ensures RemoveRelation(s) == Trim(s)
  {
    ReplaceAbsent(s, " AND", "");
    ReplaceAbsent(s, " OR", "");
  }

  /**
   * `endsWithStopWord`; `None` is the exception thrown when the text ends
   * with ')' and holds no '(' (the lookup of index -1).
   */
  function EndsWithStopWord(s: string): Option<bool> {
    if (Trim(s) != "AND" && EndsWith(s, " AND ")) || (Trim(s) != "OR" && EndsWith(s, " OR ")) then Some(true)
    else if !EndsWith(s, ")") then Some(false)
    else
      var k := LastIndexOfChar(s, '(');
      if k < 0 then None else Some(!IsEscaped(k, s))
  }

  /** A " AND " / " OR " suffix is a stop word unless the whole trimmed text is the bare keyword. */
  lemma StopWordSuffix(s: string)
    ensures EndsWith(s, " AND ") ==> (EndsWithStopWord(s) == Some(true) <==> Trim(s) != "AND")
    ensures EndsWith(s, " OR ") ==> (EndsWithStopWord(s) == Some(true) <==> Trim(s) != "OR")
  {
    if EndsWith(s, " AND ") {
      assert s[|s| - 1] == ' ';
      assert !EndsWith(s, " OR ") by { assert s[|s| - 2] == 'D'; }
      assert !EndsWith(s, ")");
    }
    if EndsWith(s, " OR ") {
      assert s[|s| - 1] == ' ';
      assert !EndsWith(s, " AND ") by { assert s[|s| - 2] == 'R'; }
      assert !EndsWith(s, ")");
    }
  }

  // ---------------------------------------------------------------------
  // Parsing: the reader loop of parseGroup

  /**
   * What the reader loop hands to the search factory: a leaf text (before
   * its classification as a pair, metadata or free text) or a sub-group,
   * each with the NOT flag in force, together with the relation it is
   * added with.
   */
  datatype Parsed = Leaf(text: string, not: bool) | SubGroup(entries: seq<Entry>, not: bool)
  datatype Entry = Entry(element: Parsed, relation: Relation)

  /** Every exception inside the loop is rethrown as an UnprocessableError. */
  datatype ParseError = UnprocessableError

  datatype ParseState = ParseState(
    part: string, brackets: int, inBracket: bool, not: bool,
    relation: Relation, entries: seq<Entry>)

  const InitialState: ParseState := ParseState("", 0, false, false, AND, [])

  /** The elements `parseGroup(group)` adds, in order, or its error. */
  function Parse(group: string): Result<seq<Entry>, ParseError>
    decreases |group| + 1, 3, 0
  {
    ParseFrom(group, 0, InitialState)
  }

  /** `parseStringQuery` on already decoded text: a null query reads as "". */
  function ParseStringQuery(query: Option<string>): Result<seq<Entry>, ParseError> {
    Parse(query.GetOr(""))
  }

  /** The loop from character `i` on, in state `st`, followed by the final flush. */
  function ParseFrom(group: string, i: nat, st: ParseState): Result<seq<Entry>, ParseError>
    requires i <= |group| && |st.part| <= i
    decreases |group| + 1, 2, |group| - i
  {
    if i == |group| then Success(Finish(st))
    else
      match Step(group, i, st)
      case Failure(e) => Failure(e)
      case Success(next) => ParseFrom(group, i + 1, next)
  }

  /** After the loop: a non-blank remainder becomes a last leaf. */
  function Finish(st: ParseState): seq<Entry> {
    if !IsBlank(st.part) then
      st.entries + [Entry(Leaf(RemoveRelation(Trim(st.part)), st.not), st.relation)]
    else st.entries
  }

  /** The bracket and NOT bookkeeping at the start of a turn. */
  datatype Scanned = Scanned(part: string, brackets: int, inBracket: bool, not: bool)

  /**
   * Append `group[i]` to the pending text, count an unescaped bracket, and
   * turn a pending text that trims to "NOT" into the NOT flag.
   */
  function Scan(group: string, i: nat, st: ParseState): (sc: Scanned)
    requires i < |group|
    ensures sc.part == "" || sc.part == st.part + [group[i]]
    ensures sc.inBracket == (st.inBracket || (group[i] == '(' && !IsEscaped(i, group)))
    ensures sc.not == (st.not || sc.part == "")
  {
    var c := group[i];
    var opening := c == '(' && !IsEscaped(i, group);
    var closing := !opening && c == ')' && !IsEscaped(i, group);
    var brackets := if opening then st.brackets + 1 else if closing then st.brackets - 1 else st.brackets;
    var isNot := Trim(st.part + [c]) == "NOT";
    Scanned(if isNot then "" else st.part + [c], brackets, opening || st.inBracket, isNot || st.not)
  }

  /** One turn of the reader loop, on character `group[i]`. */
  function Step(group: string, i: nat, st: ParseState): (r: Result<ParseState, ParseError>)
    requires i < |group| && |st.part| <= i
    ensures r.Success? ==> |r.value.part| <= i + 1
    decreases |group| + 1, 1, 0
  {
    Dispatch(group, i, Scan(group, i, st), st.relation, st.entries)
  }

  /**
   * The rest of a turn: a closed outermost bracket becomes a sub-group, a
   * pending text ending with a stop word becomes a leaf. Entries only grow,
   * by one entry added with the current relation, and the relation changes
   * only when a leaf is added.
   */
  function Dispatch(group: string, i: nat, sc: Scanned, relation: Relation, entries: seq<Entry>): (r: Result<ParseState, ParseError>)
    requires i < |group| && |sc.part| <= i + 1
    ensures r.Success? ==> |r.value.part| <= i + 1
    ensures r.Success? ==> entries <= r.value.entries && |r.value.entries| <= |entries| + 1
    ensures r.Success? && |r.value.entries| > |entries| ==> r.value.entries[|entries|].relation == relation
    ensures r.Success? && r.value.relation != relation ==> |r.value.entries| > |entries|
    decreases |group| + 1, 0, 0
  {
    if sc.inBracket && sc.brackets == 0 then
      match SubGroupEntries(sc.part, sc.not, relation, entries)
      case Failure(e) => Failure(e)
      case Success(es) => Success(ParseState("", sc.brackets, false, false, relation, es))
    else if !sc.inBracket then
      match EndsWithStopWord(sc.part)
      case None => Failure(UnprocessableError)
      case Some(stop) =>
        if stop then
          var p := Trim(sc.part);
          Success(ParseState("", sc.brackets, false, false, ReadRelation(p),
                             entries + [Entry(Leaf(RemoveRelation(p), sc.not), relation)]))
        else Success(ParseState(sc.part, sc.brackets, false, sc.not, relation, entries))
    else Success(ParseState(sc.part, sc.brackets, true, sc.not, relation, entries))
  }

  /**
   * A closed outermost bracket: the trimmed pending text without its first
   * and last character is parsed as a group of its own; a text shorter than
   * two characters fails.
   */
  function SubGroupEntries(part: string, not: bool, relation: Relation, entries: seq<Entry>): (r: Result<seq<Entry>, ParseError>)
    ensures |Trim(part)| < 2 ==> r.Failure?
    ensures r.Success? ==> |r.value| == |entries| + 1 && r.value[..|entries|] == entries
    decreases |part|, 4, 0
  {
    var p := Trim(part);
    if |p| < 2 then Failure(UnprocessableError)
    else
      match Parse(p[1..|p| - 1])
      case Failure(e) => Failure(e)
      case Success(sub) => Success(entries + [Entry(SubGroup(sub, not), relation)])
  }

  method CloseGroup(part: string, not: bool, relation: Relation, entries: seq<Entry>) returns (r: Result<seq<Entry>, ParseError>)
    ensures r == SubGroupEntries(part, not, relation, entries)
    decreases |part|, 0
  {
    var p := Trim(part);
    if |p| < 2 {
      return Failure(UnprocessableError);
    }
    var g := ParseGroup(p[1..|p| - 1]);
    if g.Failure? {
      return Failure(g.error);
    }
    return Success(entries + [Entry(SubGroup(g.value, not), relation)]);
  }

  /** `parseGroup`: the reader loop itself; its local variables are held in a `ParseState`. */
  method ParseGroup(group: string) returns (r: Result<seq<Entry>, ParseError>)
    ensures r == Parse(group)
    decreases |group| + 1, 1
  {
    var st := InitialState;
    var index := 0;
    while index < |group|
      invariant 0 <= index <= |group| && |st.part| <= index
      invariant Parse(group) == ParseFrom(group, index, st)
    {
      var next := ReadCharacter(group, index, st);
      if next.Failure? {
        ParseFromFailure(group, index, st);
        return Failure(next.error);
      }
      ParseFromSuccess(group, index, st, next.value);
      st := next.value;
      index := index + 1;
    }
    var entries := Flush(st);
    ParseFromEnd(group, st);
    return Success(entries);
  }

  /** After the loop: a non-blank remainder is added as a last element. */
  method Flush(st: ParseState) returns (entries: seq<Entry>)
    ensures entries == Finish(st)
  {
    entries := st.entries;
    if !IsBlank(st.part) {
      var part := Trim(st.part);
      entries := entries + [Entry(Leaf(RemoveRelation(part), st.not), st.relation)];
    }
  }

  /** The body of the reader loop, on character `group[index]`. */
  method ReadCharacter(group: string, index: nat, st: ParseState) returns (r: Result<ParseState, ParseError>)
    requires index < |group| && |st.part| <= index
    ensures r == Step(group, index, st)
    decreases |group| + 1, 0
  {
    var part, brackets, inBracket, not, relation, entries :=
      st.part, st.brackets, st.inBracket, st.not, st.relation, st.entries;
    var c := group[index];
    part := part + [c];
    if c == '(' && !IsEscaped(index, group) {
      brackets := brackets + 1;
      inBracket := true;
    } else if c == ')' && !IsEscaped(index, group) {
      brackets := brackets - 1;
    }
    if Trim(part) == "NOT" {
      not := true;
      part := "";
    }
    ghost var sc := Scanned(part, brackets, inBracket, not);
    assert Scan(group, index, st) == sc;
    if inBracket && brackets == 0 {
      var closed := CloseGroup(part, not, relation, entries);
      if closed.Failure? {
        return Failure(closed.error);
      }
      DispatchSubGroup(group, index, sc, relation, entries, closed.value);
      entries := closed.value;
      part := "";
      inBracket := false;
      not := false;
    } else if !inBracket {
      var stop := EndsWithStopWord(part);
      if stop.None? {
        return Failure(UnprocessableError);
      }
      if stop.value {
        DispatchLeaf(group, index, sc, relation, entries);
        part := Trim(part);
        entries := entries + [Entry(Leaf(RemoveRelation(part), not), relation)];
        relation := ReadRelation(part);
        part := "";
        not := false;
      } else {
        DispatchPending(group, index, sc, relation, entries);
      }
    } else {
      DispatchInBracket(group, index, sc, relation, entries);
    }
    return Success(ParseState(part, brackets, inBracket, not, relation, entries));
  }

  lemma ParseFromSuccess(group: string, i: nat, st: ParseState, next: ParseState)
    requires i < |group| && |st.part| <= i
    requires Step(group, i, st) == Success(next)
    ensures ParseFrom(group, i, st) == ParseFrom(group, i + 1, next)
  {
  }

  lemma ParseFromEnd(group: string, st: ParseState)
    requires |st.part| <= |group|
    ensures ParseFrom(group, |group|, st) == Success(Finish(st))
  {
  }

  lemma ParseFromFailure(group: string, i: nat, st: ParseState)
    requires i < |group| && |st.part| <= i
    requires Step(group, i, st).Failure?
    ensures ParseFrom(group, i, st) == Failure(Step(group, i, st).error)
  {
  }

  lemma DispatchSubGroup(group: string, i: nat, sc: Scanned, relation: Relation, entries: seq<Entry>, es: seq<Entry>)
    requires i < |group| && |sc.part| <= i + 1
    requires sc.inBracket && sc.brackets == 0
    requires SubGroupEntries(sc.part, sc.not, relation, entries) == Success(es)
    ensures Dispatch(group, i, sc, relation, entries) == Success(ParseState("", 0, false, false, relation, es))
  {
  }

  lemma DispatchLeaf(group: string, i: nat, sc: Scanned, relation: Relation, entries: seq<Entry>)
    requires i < |group| && |sc.part| <= i + 1
    requires !sc.inBracket && EndsWithStopWord(sc.part) == Some(true)
    ensures Dispatch(group, i, sc, relation, entries)
         == Success(ParseState("", sc.brackets, false, false, ReadRelation(Trim(sc.part)),
                               entries + [Entry(Leaf(RemoveRelation(Trim(sc.part)), sc.not), relation)]))
  {
  }

  lemma DispatchPending(group: string, i: nat, sc: Scanned, relation: Relation, entries: seq<Entry>)
    requires i < |group| && |sc.part| <= i + 1
    requires !sc.inBracket && EndsWithStopWord(sc.part) == Some(false)
    ensures Dispatch(group, i, sc, relation, entries)
         == Success(ParseState(sc.part, sc.brackets, false, sc.not, relation, entries))
  {
  }

  lemma DispatchInBracket(group: string, i: nat, sc: Scanned, relation: Relation, entries: seq<Entry>)
    requires i < |group| && |sc.part| <= i + 1
    requires sc.inBracket && sc.brackets != 0
    ensures Dispatch(group, i, sc, relation, entries)
         == Success(ParseState(sc.part, sc.brackets, true, sc.not, relation, entries))
  {
  }

  // Properties of the parser

  lemma ParseNullQuery()
    ensures ParseStringQuery(None) == Success([])
  {
  }

  predicate FirstRelationAnd(st: ParseState) {
    (|st.entries| == 0 ==> st.relation == AND) &&
    (|st.entries| > 0 ==> st.entries[0].relation == AND)
  }

  /** The first element of every group is added with AND, the loop's initial relation. */
  lemma {:induction false} ParseFirstRelation(group: string, i: nat, st: ParseState)
    requires i <= |group| && |st.part| <= i
    requires FirstRelationAnd(st)
    ensures ParseFrom(group, i, st).Success? && |ParseFrom(group, i, st).value| > 0 ==>
      ParseFrom(group, i, st).value[0].relation == AND
    decreases |group| - i
  {
    if i < |group| {
      var r := Step(group, i, st);
      if r.Success? {
        ParseFirstRelation(group, i + 1, r.value);
      }
    }
  }

  /** Text without brackets, NOT, " AND " or " OR " is one leaf: its trimmed text, added with AND. */
  predicate PlainText(s: string) {
    '(' !in s && ')' !in s && !Contains(s, "NOT") && !Contains(s, " AND ") && !Contains(s, " OR ")
  }

  lemma {:induction false} PlainPrefix(s: string, n: nat)
    requires PlainText(s) && n <= |s|
    ensures PlainText(s[..n])
  {
    forall t | t in {"NOT", " AND ", " OR "} ensures !Contains(s[..n], t) {
      if Contains(s[..n], t) {
        var k := IndexOf(s[..n], t);
        assert s[..n][k..k + |t|] == s[k..k + |t|];
        ContainsAt(s, t, k);
      }
    }
    assert forall j :: 0 <= j < n ==> s[..n][j] == s[j];
  }

  lemma {:induction false} PlainRun(group: string, i: nat, st: ParseState)
    requires i <= |group| && PlainText(group)
    requires st.part == group[..i] && st.brackets == 0 && !st.inBracket && !st.not
    ensures ParseFrom(group, i, st) == Success(Finish(ParseState(group, 0, false, false, st.relation, st.entries)))
    decreases |group| - i
  {
    if i == |group| {
      assert group[..i] == group;
    } else {
      var part := group[..i + 1];
      assert st.part + [group[i]] == part;
      PlainPrefix(group, i + 1);
      PlainStep(part);
      assert Step(group, i, st) == Success(ParseState(part, 0, false, false, st.relation, st.entries));
      PlainRun(group, i + 1, ParseState(part, 0, false, false, st.relation, st.entries));
    }
  }

  lemma PlainStep(part: string)
    requires PlainText(part)
    ensures Trim(part) != "NOT"
    ensures EndsWithStopWord(part) == Some(false)
  {
    TrimContained(part);
    EndsWithContains(part, " AND ");
    EndsWithContains(part, " OR ");
    assert !EndsWith(part, ")") by {
      assert |part| > 0 ==> part[|part| - 1] in part;
    }
  }

  lemma ParsePlain(group: string)
    requires PlainText(group)
    ensures IsBlank(group) ==> Parse(group) == Success([])
    ensures !IsBlank(group) ==> Parse(group) == Success([Entry(Leaf(RemoveRelation(Trim(group)), false), AND)])
  {
    var last := ParseState(group, 0, false, false, AND, []);
    PlainRun(group, 0, InitialState);
    if IsBlank(group) {
      assert Finish(last) == [];
    } else {
      assert Finish(last) == [Entry(Leaf(RemoveRelation(Trim(group)), false), AND)];
    }
  }

  /**
   * Outside brackets, a ')' (escaped or not) whose pending text holds no '('
   * makes the turn, and so the whole query, fail.
   */
  lemma StrayClosingBracket(group: string, i: nat, st: ParseState)
    requires i < |group| && |st.part| <= i
    requires group[i] == ')' && !st.inBracket && '(' !in st.part
    ensures Step(group, i, st).Failure?
    ensures ParseFrom(group, i, st).Failure?
  {
    var part := st.part + [group[i]];
    assert '(' !in part;
    StrayPart(part);
    var sc := Scan(group, i, st);
    assert sc.part == part && !sc.inBracket;
  }

  /** A text ending with ')' and holding no '(' is not "NOT" once trimmed and has no stop-word answer. */
  lemma StrayPart(part: string)
    requires |part| > 0 && part[|part| - 1] == ')' && '(' !in part
    ensures Trim(part) != "NOT"
    ensures EndsWithStopWord(part) == None
  {
    TrimKeepsLast(part);
    assert Trim(part) != "NOT";
    assert LastIndexOfChar(part, '(') == -1;
    assert !EndsWith(part, " AND ") && !EndsWith(part, " OR ");
  }

  // ---------------------------------------------------------------------
  // Serialising: transform2URL

  function ElementSize(e: Element): (r: nat)
    ensures r >= 1
    decreases e, 1
  {
    match e
    case Group(es, _) => 1 + ElementsSize(es)
    case _ => 1
  }

  function ElementsSize(es: seq<Element>): nat
    decreases es, 0
  {
    if |es| == 0 then 0 else ElementsSize(es[..|es| - 1]) + ElementSize(es[|es| - 1])
  }

  /** `getMetadataIndex`. */
  function MetadataIndex(index: string, mdField: Option<string>): string {
    "md." + index + (if mdField.None? then "" else "." + mdField.value)
  }

  function NotPrefix(not: bool): string { if not then "NOT " else "" }

  /** The text one element contributes inside the loop of transform2URL. */
  function ElementToUrl(e: Element): string
    decreases ElementSize(e), 1
  {
    match e
    case Group(es, not) => GroupToUrl(es, not)
    case LogicalRelation(rel) => if rel == AND then "AND" else "OR"
    case Pair(field, op, value, not) => NotPrefix(not) + field + OperatorToUrl(op) + Escape(value)
    case Metadata(index, mdField, op, value, not) =>
      NotPrefix(not) + MetadataIndex(index, mdField) + OperatorToUrl(op) + Escape(value)
    case CollectionMetadata(labelText, op, value, not) => NotPrefix(not) + labelText + OperatorToUrl(op) + Escape(value)
    case Technical(labelText, op, value, not) =>
      NotPrefix(not) + "technical[" + labelText + "]" + OperatorToUrl(op) + Escape(value)
  }

  /** `searchGroupToStringQuery`. */
  function GroupToUrl(es: seq<Element>, not: bool): (r: string)
    ensures Trim(ToUrl(es)) == "" ==> r == ""
    ensures Trim(ToUrl(es)) != "" ==> r == NotPrefix(not) + "(" + ToUrl(es) + ")"
    decreases ElementsSize(es) + 1, 0
  {
    var q := ToUrl(es);
    if Trim(q) == "" then "" else NotPrefix(not) + "(" + q + ")"
  }

  /** The loop variable of transform2URL after the first `|es|` elements. */
  function Accumulate(es: seq<Element>): string
    decreases ElementsSize(es), 2
  {
    if |es| == 0 then ""
    else
      var q := Accumulate(es[..|es| - 1]);
      (if q == "" then q else q + " ") + ElementToUrl(es[|es| - 1])
  }

  /** `transform2URL`. */
  function ToUrl(es: seq<Element>): (r: string)
    ensures r == Trim(r)
    decreases ElementsSize(es), 3
  {
    TrimIdempotent(Accumulate(es));
    Trim(Accumulate(es))
  }

  method Transform2Url(es: seq<Element>) returns (query: string)
    ensures query == ToUrl(es)
    decreases ElementsSize(es), 3
  {
    query := "";
    var i := 0;
    while i < |es|
      invariant 0 <= i <= |es|
      invariant query == Accumulate(es[..i])
    {
      query := if query == "" then query else query + " ";
      ElementsSizePrefix(es, i + 1);
      var text := ElementText(es[i]);
      AccumulateStep(es, i);
      query := query + text;
      i := i + 1;
    }
    assert es[..|es|] == es;
    query := Trim(query);
  }

  /** The body of the loop of transform2URL: a group is serialised by `searchGroupToStringQuery`. */
  method ElementText(se: Element) returns (text: string)
    ensures text == ElementToUrl(se)
    decreases ElementSize(se), 2
  {
    if se.Group? {
      text := SearchGroupToStringQuery(se.elements, se.not);
    } else {
      text := ElementToUrl(se);
    }
  }

  /** One more element adds its text to the accumulated query, after a space unless the query is empty. */
  lemma AccumulateStep(es: seq<Element>, i: nat)
    requires i < |es|
    ensures Accumulate(es[..i]) == "" ==> Accumulate(es[..i + 1]) == ElementToUrl(es[i])
    ensures Accumulate(es[..i]) != "" ==> Accumulate(es[..i + 1]) == Accumulate(es[..i]) + " " + ElementToUrl(es[i])
  {
    assert es[..i + 1][..i] == es[..i];
  }

  method SearchGroupToStringQuery(es: seq<Element>, not: bool) returns (r: string)
    ensures r == GroupToUrl(es, not)
    decreases ElementsSize(es) + 1, 0
  {
    var q := Transform2Url(es);
    r := if Trim(q) == "" then "" else NotPrefix(not) + "(" + q + ")";
  }

  lemma {:induction false} ElementsSizePrefix(es: seq<Element>, n: nat)
    requires 0 < n <= |es|
    ensures ElementsSize(es[..n]) >= ElementsSize(es[..n - 1]) + ElementSize(es[n - 1])
    ensures ElementsSize(es) >= ElementsSize(es[..n])
    decreases |es|
  {
    assert es[..n][..n - 1] == es[..n - 1];
    if n < |es| {
      assert es[..|es| - 1][..n] == es[..n];
      ElementsSizePrefix(es[..|es| - 1], n);
    } else {
      assert es[..n] == es;
    }
  }

  /** A single element serialises to its own text, trimmed. */
  lemma SingleElement(e: Element)
    ensures ToUrl([e]) == Trim(ElementToUrl(e))
  {
    assert [e][..0] == [];
    assert Accumulate([e]) == ElementToUrl(e);
  }

  /** An empty group serialises to "", whatever its NOT flag. */
  lemma EmptyGroup(not: bool)
    ensures ElementToUrl(Group([], not)) == ""
  {
  }

  /** `isSimpleSearch`: some top-level pair searches the free-text field. */
  function IsSimpleSearch(es: seq<Element>): (r: bool)
    ensures r <==> exists i :: 0 <= i < |es| && es[i].Pair? && es[i].field == AllField
  {
    if |es| == 0 then false
    else if es[0].Pair? && es[0].field == AllField then true
    else
      var r := IsSimpleSearch(es[1..]);
      assert forall i :: 0 < i < |es| ==> es[i] == es[1..][i - 1];
      r
  }
}
