// The small pure helpers of the Elasticsearch query factory
// (de.mpg.imeji.logic.search.elasticsearch.factory.ElasticQueryFactory):
// the from/to range parser, the status value normaliser, the AND/OR group
// decision, the status filter and the negation of a query. Query builders
// are abstracted as the `Query` datatype.
module ElasticQueryFactory {
  import opened Wrappers
  import opened JavaStrings
  import SearchQueryParser
  import ElasticSearchFactoryUtil

  type Element = SearchQueryParser.Element
  type Operator = SearchQueryParser.Operator

  /** The query builders the helpers produce. */
  datatype Query =
    | MatchAll
    | Match(field: string, text: string)
    | GreaterThan(field: string, value: string)
    | LessThan(field: string, value: string)
    | MustNot(query: Query)

  datatype IndexError = StringIndexOutOfBounds | ArrayIndexOutOfBounds

  /** The name of the status field, in the index and in the query language. */
  const StatusField: string := "status"

  // ---------------------------------------------------------------------
  // negate and fieldQuery

  function Depth(q: Query): nat {
    if q.MustNot? then 1 + Depth(q.query) else 0
  }

  /** `negate(q, not)`: wrap in a must-not clause exactly when `not` holds. */
  function Negate(q: Query, not: bool): (r: Query)
    ensures r == q <==> !not
    ensures not ==> r.MustNot? && r.query == q
  {
    assert Depth(MustNot(q)) > Depth(q);
    if not then MustNot(q) else q
  }

  /**
   * `fieldQuery`: a missing operator means EQUALS; EQUALS matches the
   * Lucene-escaped value, GREATER and LESSER build range queries, and every
   * other operator matches the raw value.
   */
  function FieldQuery(field: string, value: string, op: Option<Operator>, not: bool): Query {
    var o := op.GetOr(SearchQueryParser.EQUALS);
    var q := match o
      case EQUALS => Match(field, ElasticSearchFactoryUtil.Escaped(value))
      case GREATER => GreaterThan(field, value)
      case LESSER => LessThan(field, value)
      case _ => Match(field, value);
    Negate(q, not)
  }

  /** A null operator behaves as EQUALS; NOT wraps the positive query; the escaped text still reads as the value. */
  lemma FieldQueryProperties(field: string, value: string, op: Option<Operator>)
    ensures FieldQuery(field, value, None, false) == FieldQuery(field, value, Some(SearchQueryParser.EQUALS), false)
    ensures FieldQuery(field, value, op, true) == MustNot(FieldQuery(field, value, op, false))
    ensures op.GetOr(SearchQueryParser.EQUALS) == SearchQueryParser.EQUALS ==>
      var q := FieldQuery(field, value, op, false);
      q.Match? && ElasticSearchFactoryUtil.Unescaped(q.text) == value
  {
    ElasticSearchFactoryUtil.UnescapedEscaped(value);
  }

  // ---------------------------------------------------------------------
  // parseFromValue / parseToValue

  /**
   * `parseFromValue`: null without "from"; otherwise the text between the
   * first "from" and the first "to" (or the end). A "to" that starts before
   * the end of "from" makes `substring` throw.
   */
  function ParseFromValue(s: string): (r: Result<Option<string>, IndexError>)
    ensures !Contains(s, "from") <==> r == Success(None)
    ensures r.Success? && r.value.Some? ==> Contains(s, "from") && Contains(s, "from" + r.value.value)
  {
    var fromIndex := IndexOf(s, "from");
    var toIndex := IndexOf(s, "to");
    var end := if toIndex != -1 then toIndex else |s|;
    if fromIndex == -1 then Success(None)
    else if fromIndex + 4 <= end then
      assert s[fromIndex..end] == "from" + s[fromIndex + 4..end];
      ContainsAt(s, "from" + s[fromIndex + 4..end], fromIndex);
      Success(Some(s[fromIndex + 4..end]))
    else Failure(StringIndexOutOfBounds)
  }

  /** `parseToValue`: null without "to"; otherwise everything after the first "to". */
  function ParseToValue(s: string): (r: Option<string>)
    ensures !Contains(s, "to") <==> r == None
    ensures r.Some? ==> EndsWith(s, r.value) && Contains(s, "to" + r.value)
  {
    var toIndex := IndexOf(s, "to");
    if toIndex == -1 then None
    else
      assert s[toIndex..] == "to" + s[toIndex + 2..];
      ContainsAt(s, "to" + s[toIndex + 2..], toIndex);
      Some(s[toIndex + 2..])
  }

  /** "from a to b", with no "to" inside `a`, parses back to `a` and `b`. */
  lemma FromToRoundTrip(a: string, b: string)
    requires !Contains(a, "to")
    ensures ParseFromValue("from" + a + "to" + b) == Success(Some(a))
    ensures ParseToValue("from" + a + "to" + b) == Some(b)
  {
    var s := "from" + a + "to" + b;
    var n := 4 + |a|;
    assert s[..4] == "from" && s[4..n] == a && s[n..n + 2] == "to" && s[n + 2..] == b;
    IndexOfIs(s, "from", 0);
    forall j | 0 <= j < n ensures !OccursAt(s, "to", j) {
      assert s[j..j + 2][0] == s[j] && s[j..j + 2][1] == s[j + 1];
      if j <= 3 {
        assert s[j] == "from"[j] != 't';
      } else if j == n - 1 {
        assert s[j + 1] == 't';
      } else {
        assert s[j..j + 2] == a[j - 4..j - 2];
        if a[j - 4..j - 2] == "to" {
          ContainsAt(a, "to", j - 4);
        }
      }
    }
    IndexOfIs(s, "to", n);
  }

  /** A "to" before "from" makes parseFromValue throw. */
  lemma ToBeforeFrom(b: string)
    ensures ParseFromValue("to" + b + "from").Failure?
  {
    var s := "to" + b + "from";
    assert s[..2] == "to";
    IndexOfIs(s, "to", 0);
    assert s[|s| - 4..] == "from";
    ContainsAt(s, "from", |s| - 4);
  }

  // ---------------------------------------------------------------------
  // formatStatusSearchValue

  /** The user-facing status names and their indexed form. */
  function StatusName(status: string): (r: string)
    ensures status !in {"private", "public", "discarded"} ==> r == status
  {
    if status == "private" then "PENDING"
    else if status == "public" then "RELEASED"
    else if status == "discarded" then "WITHDRAWN"
    else status
  }

  /**
   * `formatStatusSearchValue`: the part after '#' (the second field of the
   * split, which throws when the split yields fewer than two fields), the
   * status names mapped, then upper-cased.
   */
  function FormatStatusSearchValue(value: string): Result<string, IndexError> {
    var status :=
      if Contains(value, "#") then
        var parts := Split(value, "#");
        if |parts| < 2 then Failure(ArrayIndexOutOfBounds) else Success(parts[1])
      else Success(value);
    match status
    case Failure(e) => Failure(e)
    case Success(st) => Success(ToUpper(StatusName(st)))
  }

  lemma FormatStatusPlain(value: string)
    requires '#' !in value
    ensures FormatStatusSearchValue(value) == Success(ToUpper(StatusName(value)))
  {
    NoCharNoContains(value, '#');
  }

  /** With one '#', only the text after it counts. */
  lemma FormatStatusTagged(a: string, b: string)
    requires '#' !in a && '#' !in b && b != ""
    ensures FormatStatusSearchValue(a + "#" + b) == Success(ToUpper(StatusName(b)))
  {
    var s := a + "#" + b;
    SplitOnce(a, '#', b);
    assert s[|a|..|a| + 1] == "#";
    ContainsAt(s, "#", |a|);
  }

  /** A trailing '#' leaves a single field after the split, so the lookup of the second throws. */
  lemma FormatStatusTrailingHash(a: string)
    requires '#' !in a
    ensures FormatStatusSearchValue(a + "#").Failure?
  {
    var s := a + "#";
    assert OccursAt(s, "#", |a|);
    forall j | 0 <= j < |a| ensures !OccursAt(s, "#", j) {
      assert s[j..j + 1][0] == a[j];
    }
    IndexOfIs(s, "#", |a|);
    assert s[..|a|] == a && s[|a| + 1..] == "";
    NoCharNoContains("", '#');
    assert Fields(s, "#") == [a, ""];
    assert [a, ""][..1] == [a];
  }

  /** The three user-facing names map to the indexed statuses. */
  lemma StatusNamesMapped()
    ensures StatusName("private") == "PENDING"
    ensures StatusName("public") == "RELEASED"
    ensures StatusName("discarded") == "WITHDRAWN"
  {
  }

  // ---------------------------------------------------------------------
  // isORSearchGroup

  /** `isORSearchGroup`: the first logical relation decides; without one the group is OR. */
  function IsORSearchGroup(es: seq<Element>): bool {
    if |es| == 0 then true
    else if es[0].LogicalRelation? then es[0].relation == SearchQueryParser.OR
    else IsORSearchGroup(es[1..])
  }

  /** The first logical relation of the list decides. */
  lemma {:induction false} IsORSearchGroupFirst(es: seq<Element>, i: int)
    requires 0 <= i < |es| && es[i].LogicalRelation?
    requires forall j :: 0 <= j < i ==> !es[j].LogicalRelation?
    ensures IsORSearchGroup(es) <==> es[i].relation == SearchQueryParser.OR
    decreases i
  {
    if i > 0 {
      assert !es[0].LogicalRelation?;
      IsORSearchGroupFirst(es[1..], i - 1);
    }
  }

  /** Without a logical relation the group is an OR group. */
  lemma {:induction false} IsORSearchGroupNone(es: seq<Element>)
    requires forall j :: 0 <= j < |es| ==> !es[j].LogicalRelation?
    ensures IsORSearchGroup(es)
    decreases |es|
  {
    if |es| > 0 {
      assert !es[0].LogicalRelation?;
      IsORSearchGroupNone(es[1..]);
    }
  }

  // ---------------------------------------------------------------------
  // hasStatusQuery and buildStatusQuery

  predicate IsStatusPair(e: Element) {
    e.Pair? && e.field == StatusField
  }

  /** An element is about the status: a status pair, or a group holding one at any depth. */
  predicate HasStatus(e: Element)
    decreases e, 1
  {
    IsStatusPair(e) || (e.Group? && HasStatusQuery(e.elements))
  }

  /** `hasStatusQuery`: the loop over the elements, descending into groups. */
  predicate HasStatusQuery(es: seq<Element>)
    decreases es, 0
  {
    if |es| == 0 then false
    else if IsStatusPair(es[0]) then true
    else if es[0].Group? && HasStatusQuery(es[0].elements) then true
    else HasStatusQuery(es[1..])
  }

  /** The loop answers true exactly when some element is about the status. */
  lemma {:induction false} HasStatusQueryExists(es: seq<Element>)
    ensures HasStatusQuery(es) <==> exists i :: 0 <= i < |es| && HasStatus(es[i])
    decreases |es|
  {
    if |es| > 0 {
      HasStatusQueryExists(es[1..]);
      if exists i :: 0 <= i < |es| && HasStatus(es[i]) {
        var i :| 0 <= i < |es| && HasStatus(es[i]);
        if i > 0 {
          assert es[1..][i - 1] == es[i];
        }
      }
      if exists i :: 0 <= i < |es[1..]| && HasStatus(es[1..][i]) {
        var i :| 0 <= i < |es[1..]| && HasStatus(es[1..][i]);
        assert es[i + 1] == es[1..][i];
      }
    }
  }

  /**
   * `buildStatusQuery`: without a user only released objects; a query that
   * mentions the status anywhere is not filtered; otherwise withdrawn
   * objects are excluded.
   */
  function BuildStatusQuery(query: Option<seq<Element>>, loggedIn: bool): Query {
    if !loggedIn then FieldQuery(StatusField, "RELEASED", Some(SearchQueryParser.EQUALS), false)
    else if query.Some? && HasStatusQuery(query.value) then MatchAll
    else FieldQuery(StatusField, "WITHDRAWN", Some(SearchQueryParser.EQUALS), true)
  }

  /** Without a user only released objects are found. */
  lemma StatusFilterAnonymous(query: Option<seq<Element>>)
    ensures BuildStatusQuery(query, false) == Match(StatusField, "RELEASED")
  {
    ElasticSearchFactoryUtil.EscapedAlphanumeric("RELEASED");
  }

  /** A logged-in user's query that mentions the status is not filtered; otherwise withdrawn objects are excluded. */
  lemma StatusFilterLoggedIn(query: Option<seq<Element>>)
    ensures query.Some? && HasStatusQuery(query.value) ==> BuildStatusQuery(query, true) == MatchAll
    ensures query.None? || !HasStatusQuery(query.value) ==>
      BuildStatusQuery(query, true) == MustNot(Match(StatusField, "WITHDRAWN"))
  {
    ElasticSearchFactoryUtil.EscapedAlphanumeric("WITHDRAWN");
  }
}
