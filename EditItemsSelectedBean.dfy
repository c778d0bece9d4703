// Paging through the table of selected items and adding or removing its
// metadata columns (de.mpg.imeji.presentation.item.edit.selected.EditItemsSelectedBean).
// A table row is represented only by its count; a column by the index of
// its statement.
module EditItemsSelectedBean {
  import opened Wrappers
  import opened JavaStrings

  /** Rows shown on one table page (`tableLenght`). */
  const TableLength: int := 40
  /** Page links around the current page (`paginationLength`). */
  const PaginationLength: int := 20

  // ---------------------------------------------------------------------
  // Page arithmetic

  /** `getTotalNumberOfPages`: the row count divided by 40, rounded up. */
  function TotalPages(rows: nat): (r: nat)
  {
    (rows + TableLength - 1) / TableLength
  }

  lemma TotalPagesCeiling(rows: nat)
    ensures rows == 0 ==> TotalPages(rows) == 0
    ensures rows > 0 ==> (TotalPages(rows) - 1) * TableLength < rows <= TotalPages(rows) * TableLength
  {
  }

  /** The first row shown on page `p`. */
  function TableOffset(p: int): int {
    TableLength * (p - 1)
  }

  /** One past the last row shown on page `p`: 40 rows on, or the end of the table. */
  function TableSize(p: int, rows: nat): int {
    if TableLength + TableOffset(p) < rows then TableLength + TableOffset(p) else rows
  }

  /** Every existing page shows a non-empty run of at most 40 rows, and consecutive pages meet. */
  lemma TableWindow(p: int, rows: nat)
    requires 1 <= p <= TotalPages(rows)
    ensures 0 <= TableOffset(p) < TableSize(p, rows) <= rows
    ensures TableSize(p, rows) - TableOffset(p) <= TableLength
    ensures p < TotalPages(rows) ==> TableSize(p, rows) == TableOffset(p + 1)
  {
    TotalPagesCeiling(rows);
  }

  /** `IntStream.rangeClosed(start, end)`: start, start+1, ..., end (empty when end < start). */
  function RangeClosed(start: int, end: int): (r: seq<int>)
    ensures |r| == if end >= start then end - start + 1 else 0
    ensures forall i :: 0 <= i < |r| ==> r[i] == start + i
  {
    if end < start then [] else seq(end - start + 1, i => start + i)
  }

  /**
   * `initPageList` as written: ten pages before the current one, moved to
   * 1 when that is below 1, or back to `total - 20` when the window would
   * pass the last page.
   */
  function PageListAsWritten(p: int, total: int): seq<int> {
    var start := p - PaginationLength / 2;
    var start := if start < 1 then 1 else if start + PaginationLength > total then total - PaginationLength else start;
    var end := if start + PaginationLength < total then start + PaginationLength else total;
    RangeClosed(start, end)
  }

  /** With fewer than 20 pages, moving the window back lists page numbers below 1. */
  lemma PageListAsWrittenStartsBelowOne()
    ensures var l := PageListAsWritten(11, 15); |l| == 21 && l[0] == -5 && l[5] == 0
  {
  }

  /** `initPageList` with the window moved back no further than page 1. */
  function PageList(p: int, total: int): seq<int> {
    var start := p - PaginationLength / 2;
    var start := if start < 1 then 1 else if start + PaginationLength > total then Max(1, total - PaginationLength) else start;
    var end := if start + PaginationLength < total then start + PaginationLength else total;
    RangeClosed(start, end)
  }

  function Max(a: int, b: int): int { if a >= b then a else b }

  /**
   * The page list holds consecutive existing pages, at most 21 of them,
   * and includes the current page when it exists.
   */
  lemma PageListBounds(p: int, total: int)
    ensures var l := PageList(p, total);
      (forall i :: 0 <= i < |l| ==> 1 <= l[i] <= total) &&
      |l| <= PaginationLength + 1 &&
      (1 <= p <= total ==> p in l)
  {
    var l := PageList(p, total);
    if 1 <= p <= total {
      assert l[p - l[0]] == p;
    }
  }

  /** The two page lists agree on tables with more than 20 pages. */
  lemma PageListAgrees(p: int, total: int)
    requires total > PaginationLength
    ensures PageListAsWritten(p, total) == PageList(p, total)
  {
  }

  // ---------------------------------------------------------------------
  // Columns

  /** The headers whose statement index differs from `index`, in order. */
  function WithoutIndex(headers: seq<string>, index: string): (r: seq<string>)
    ensures forall i :: 0 <= i < |r| ==> r[i] != index
    ensures |r| <= |headers|
  {
    if |headers| == 0 then []
    else (if headers[0] == index then [] else [headers[0]]) + WithoutIndex(headers[1..], index)
  }

  function Count(headers: seq<string>, index: string): nat {
    if |headers| == 0 then 0 else (if headers[0] == index then 1 else 0) + Count(headers[1..], index)
  }

  /** Exactly the headers with the given index are removed; every other one is kept. */
  lemma {:induction false} WithoutIndexKeepsOthers(headers: seq<string>, index: string)
    ensures |WithoutIndex(headers, index)| + Count(headers, index) == |headers|
    ensures forall h :: h in headers && h != index ==> h in WithoutIndex(headers, index)
    decreases |headers|
  {
    if |headers| > 0 {
      WithoutIndexKeepsOthers(headers[1..], index);
      forall h | h in headers && h != index ensures h in WithoutIndex(headers, index) {
        if h != headers[0] {
          assert h in headers[1..];
        }
      }
    }
  }

  // ---------------------------------------------------------------------
  // The bean

  class EditItemsSelectedBean {
    var rows: nat
    var headers: seq<string>
    var displayedColumns: seq<string>
    var tableSize: int
    var tableOffset: int
    var pageNumber: int
    var pageList: Option<seq<int>>

    /** The bean after `init` has loaded `rows` editable items; `initHeaders` displays every column. */
    constructor(rows: nat, headers: seq<string>)
      ensures this.rows == rows && this.headers == headers && displayedColumns == headers
      ensures tableSize == (if rows > TableLength then TableLength else rows)
      ensures tableOffset == 0 && pageNumber == 1 && pageList == None
    {
      this.rows := rows;
      this.headers := headers;
      displayedColumns := headers;
      tableSize := if rows > TableLength then TableLength else rows;
      tableOffset := 0;
      pageNumber := 1;
      pageList := None;
    }

    function TotalNumberOfPages(): nat
      reads this
    {
      TotalPages(rows)
    }

    /** `gotToPage`: a page beyond the last is ignored; otherwise the table window moves to it. */
    method GotToPage(p: int)
      modifies this
      ensures p > old(TotalNumberOfPages()) ==>
        tableOffset == old(tableOffset) && tableSize == old(tableSize) &&
        pageNumber == old(pageNumber) && pageList == old(pageList)
      ensures p <= old(TotalNumberOfPages()) ==>
        tableOffset == TableOffset(p) && tableSize == TableSize(p, rows) &&
        pageNumber == p && pageList == Some(PageList(p, TotalNumberOfPages()))
      ensures rows == old(rows) && headers == old(headers) && displayedColumns == old(displayedColumns)
    {
      if p <= TotalNumberOfPages() {
        tableOffset := TableLength * (p - 1);
        tableSize := if TableLength + tableOffset < rows then TableLength + tableOffset else rows;
        pageNumber := p;
        InitPageList();
      }
    }

    method InitPageList()
      modifies this
      ensures pageList == Some(PageList(pageNumber, TotalNumberOfPages()))
      ensures rows == old(rows) && headers == old(headers) && displayedColumns == old(displayedColumns)
      ensures tableSize == old(tableSize) && tableOffset == old(tableOffset) && pageNumber == old(pageNumber)
    {
      pageList := Some(PageList(pageNumber, TotalNumberOfPages()));
    }

    /** `getPageList`: computed on first use. */
    method GetPageList() returns (l: seq<int>)
      modifies this
      ensures old(pageList).Some? ==> l == old(pageList).value && pageList == old(pageList)
      ensures old(pageList).None? ==> l == PageList(pageNumber, TotalNumberOfPages()) && pageList == Some(l)
      ensures rows == old(rows) && pageNumber == old(pageNumber)
      ensures headers == old(headers) && displayedColumns == old(displayedColumns)
      ensures tableSize == old(tableSize) && tableOffset == old(tableOffset)
    {
      if pageList.None? {
        InitPageList();
      }
      l := pageList.value;
    }

    /** `addColumn`: a statement with a null or empty index adds nothing. */
    method AddColumn(index: Option<string>)
      modifies this
      ensures index.None? || index.value == "" ==> headers == old(headers) && displayedColumns == old(displayedColumns)
      ensures index.Some? && index.value != "" ==>
        headers == old(headers) + [index.value] && displayedColumns == old(displayedColumns) + [index.value]
      ensures rows == old(rows) && pageNumber == old(pageNumber) && pageList == old(pageList)
      ensures tableSize == old(tableSize) && tableOffset == old(tableOffset)
    {
      if index.Some? && index.value != "" {
        headers := headers + [index.value];
        displayedColumns := displayedColumns + [index.value];
      }
    }

    /** `removeColumn`: a blank index removes nothing; otherwise every header with that index goes. */
    method RemoveColumn(index: Option<string>)
      modifies this
      ensures IsNullOrEmptyTrim(index) ==> headers == old(headers)
      ensures !IsNullOrEmptyTrim(index) ==> headers == WithoutIndex(old(headers), index.value)
      ensures rows == old(rows) && displayedColumns == old(displayedColumns) && pageList == old(pageList)
      ensures tableSize == old(tableSize) && tableOffset == old(tableOffset) && pageNumber == old(pageNumber)
    {
      if !IsNullOrEmptyTrim(index) {
        headers := WithoutIndex(headers, index.value);
      }
    }
  }
}
