/**
 * The feed query of `fetchQuotes`: the quotes table, filtered by category when
 * a category list is given, ordered newest first, cut to the window of one page.
 */
module QuotesService {
  import opened Domain

  const PageSize: nat := 10

  /** The row filter `.in('category', categories)`, applied only to a non-empty list. */
  predicate InFilter(q: Quote, categories: seq<string>) {
    |categories| == 0 || q.category in categories
  }

  /** The rows of the table that pass the category filter, in table order. */
  function Matching(table: seq<Quote>, categories: seq<string>): (r: seq<Quote>)
    ensures forall i :: 0 <= i < |r| ==> InFilter(r[i], categories)
    ensures forall x :: multiset(r)[x] == if InFilter(x, categories) then multiset(table)[x] else 0
  {
    if table == [] then []
    else
      assert table == [table[0]] + table[1..];
      var rest := Matching(table[1..], categories);
      if InFilter(table[0], categories) then [table[0]] + rest else rest
  }

  /** `.order('created_at', { ascending: false })`: every row is at least as new as the rows after it. */
  predicate NewestFirst(s: seq<Quote>) {
    forall i, j :: 0 <= i < j < |s| ==> s[i].createdAt >= s[j].createdAt
  }

  function InsertByDate(q: Quote, s: seq<Quote>): (r: seq<Quote>)
    requires NewestFirst(s)
    ensures NewestFirst(r)
    ensures multiset(r) == multiset(s) + multiset{q}
  {
    if s == [] || q.createdAt >= s[0].createdAt then [q] + s
    else
      var rest := InsertByDate(q, s[1..]);
      HeadPrecedesInsert(q, s, rest);
      [s[0]] + rest
  }

  /** Putting the head of a newest-first list back in front of the insertion into its tail. */
  lemma HeadPrecedesInsert(q: Quote, s: seq<Quote>, rest: seq<Quote>)
    requires NewestFirst(s) && s != [] && q.createdAt < s[0].createdAt
    requires NewestFirst(rest) && multiset(rest) == multiset(s[1..]) + multiset{q}
    ensures NewestFirst([s[0]] + rest)
    ensures multiset([s[0]] + rest) == multiset(s) + multiset{q}
  {
    assert s == [s[0]] + s[1..];
    forall k | 0 <= k < |rest| ensures s[0].createdAt >= rest[k].createdAt {
      assert rest[k] in multiset(rest);
      if rest[k] != q {
        assert rest[k] in multiset(s[1..]);
        assert rest[k] in s[1..];
      }
    }
  }

  /**
   * The database's ordering of the rows. Rows with equal `created_at` come out
   * in one fixed order here; the database leaves their order unspecified.
   */
  function SortNewestFirst(s: seq<Quote>): (r: seq<Quote>)
    ensures NewestFirst(r)
    ensures multiset(r) == multiset(s)
  {
    if s == [] then []
    else
      assert s == [s[0]] + s[1..];
      InsertByDate(s[0], SortNewestFirst(s[1..]))
  }

  /** The whole feed for a category list: filtered rows, newest first. */
  function Feed(table: seq<Quote>, categories: seq<string>): (r: seq<Quote>)
    ensures NewestFirst(r)
    ensures forall i :: 0 <= i < |r| ==> InFilter(r[i], categories)
    ensures forall x :: multiset(r)[x] == if InFilter(x, categories) then multiset(table)[x] else 0
  {
    var r := SortNewestFirst(Matching(table, categories));
    assert forall i :: 0 <= i < |r| ==> r[i] in multiset(Matching(table, categories));
    r
  }

  function Min(a: int, b: int): int { if a <= b then a else b }

  /** The first and last index `fetchQuotes` asks for on a page. */
  function PageFrom(page: nat): nat { page * PageSize }
  function PageTo(page: nat): int { (page + 1) * PageSize - 1 }

  /** The rows of one page of a list: `.range(from, to)` takes both ends inclusive, clipped to the rows that exist. */
  function Page(s: seq<Quote>, page: nat): (r: seq<Quote>)
    ensures |r| == if page * PageSize >= |s| then 0 else Min(PageSize, |s| - page * PageSize)
    ensures forall i :: 0 <= i < |r| ==> r[i] == s[page * PageSize + i]
  {
    s[Min(PageFrom(page), |s|)..Min(PageTo(page) + 1, |s|)]
  }

  /**
   * `fetchQuotes(page, categories)` against a table; `fault` is the error the
   * backend answers with, if it fails the request.
   */
  function FetchQuotes(table: seq<Quote>, page: nat, categories: seq<string>, fault: Option<DbError>): (r: QueryResult<seq<Quote>>)
    ensures fault.Some? ==> r.data.None? && r.error == fault
    ensures fault.None? ==> r.error.None? && r.data == Some(Page(Feed(table, categories), page))
    ensures fault.None? ==> |r.data.value| <= PageSize
    ensures fault.None? ==> NewestFirst(r.data.value)
    ensures fault.None? ==> forall i :: 0 <= i < |r.data.value| ==> InFilter(r.data.value[i], categories)
    ensures fault.None? ==> forall i :: 0 <= i < |r.data.value| ==> r.data.value[i] in table
  {
    match fault
    case Some(e) => QueryResult(None, Some(e))
    case None =>
      var feed := Feed(table, categories);
      PageOfSortedList(feed, page);
      FeedRowsComeFromTable(table, categories);
      QueryResult(Some(Page(feed, page)), None)
  }

  /** A page of a newest-first list is itself newest first, holds at most ten rows, and only rows of the list. */
  lemma PageOfSortedList(s: seq<Quote>, page: nat)
    requires NewestFirst(s)
    ensures NewestFirst(Page(s, page))
    ensures |Page(s, page)| <= PageSize
    ensures forall i :: 0 <= i < |Page(s, page)| ==> Page(s, page)[i] in s
  {
    var lo := Min(PageFrom(page), |s|);
    assert forall i :: 0 <= i < |Page(s, page)| ==> Page(s, page)[i] == s[lo + i];
  }

  /** Every row of the feed is a row of the table. */
  lemma FeedRowsComeFromTable(table: seq<Quote>, categories: seq<string>)
    ensures forall x :: x in Feed(table, categories) ==> x in table
  {
    forall x | x in Feed(table, categories) ensures x in table {
      assert multiset(Feed(table, categories))[x] > 0;
    }
  }

  /** Consecutive pages are disjoint and contiguous: page p ends one before page p+1 starts. */
  lemma PagesAreContiguous(s: seq<Quote>, page: nat)
    ensures Page(s, page) + Page(s, page + 1) == s[Min(page * PageSize, |s|)..Min((page + 2) * PageSize, |s|)]
  {
  }

  /** Pages 0 to k-1 laid end to end. */
  function FirstPages(s: seq<Quote>, k: nat): seq<Quote> {
    if k == 0 then [] else FirstPages(s, k - 1) + Page(s, k - 1)
  }

  /** Loading pages 0, 1, ..., k-1 in turn yields the first 10k rows of the feed, without gaps or repeats. */
  lemma {:induction false} FirstPagesArePrefix(s: seq<Quote>, k: nat)
    ensures FirstPages(s, k) == s[..Min(k * PageSize, |s|)]
  {
    if k > 0 {
      FirstPagesArePrefix(s, k - 1);
      assert s[..Min((k - 1) * PageSize, |s|)] + Page(s, k - 1) == s[..Min(k * PageSize, |s|)];
    }
  }

  /** A successful `fetchQuotes(0, ...)` answers exactly the first page of the feed. */
  lemma FirstFetchIsFirstPage(table: seq<Quote>, categories: seq<string>)
    ensures FetchQuotes(table, 0, categories, None).data == Some(FirstPages(Feed(table, categories), 1))
  {
    var feed := Feed(table, categories);
    assert FetchQuotes(table, 0, categories, None) == QueryResult(Some(Page(feed, 0)), None);
    assert FirstPages(feed, 1) == [] + Page(feed, 0) == Page(feed, 0);
  }

  /** With the default empty category list no row is filtered out. */
  lemma {:induction false} EmptyFilterKeepsAll(table: seq<Quote>)
    ensures Matching(table, []) == table
  {
    if table != [] {
      EmptyFilterKeepsAll(table[1..]);
      assert table == [table[0]] + table[1..];
    }
  }

  /** The filter is applied exactly when the list is non-empty: then a row is kept iff its category is listed. */
  lemma FilterAppliedIffNonEmpty(table: seq<Quote>, categories: seq<string>, q: Quote)
    requires |categories| > 0
    ensures q in Matching(table, categories) <==> q in table && q.category in categories
  {
    assert q in Matching(table, categories) <==> multiset(Matching(table, categories))[q] > 0;
  }
}
