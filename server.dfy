/**
 * The book API (backend/server.js): `GET /api/books` filters, sorts and
 * pages the stored books, and `GET /api/books/:id` looks one up.
 *
 * Both handlers are modelled over a snapshot of the stored documents.
 * Query parameters arrive already parsed; prices are in pence, so the
 * default upper price bound of 1000 pounds is 100000.
 */
module Server {
  import opened Wrappers
  import opened Text
  import opened BookModel

  const DefaultPage: int := 1
  const DefaultLimit: nat := 20
  const DefaultMaxPrice: int := 100000

  /** The query string of `GET /api/books`; `None` marks an absent parameter. */
  datatype RawQuery = RawQuery(
    page: Option<int>,
    limit: Option<nat>,
    search: Option<string>,
    minRating: Option<int>,
    maxRating: Option<int>,
    minPrice: Option<int>,
    maxPrice: Option<int>,
    stock: Option<string>)

  /** The parameters once the defaults are filled in. */
  datatype Params = Params(
    page: int,
    limit: nat,
    search: string,
    minRating: int,
    maxRating: int,
    minPrice: int,
    maxPrice: int,
    stock: string)

  /** The destructuring with defaults at the top of the handler. */
  function WithDefaults(q: RawQuery): (p: Params)
    ensures q.page.None? ==> p.page == 1
    ensures q.limit.None? ==> p.limit == 20
    ensures q.search.None? ==> p.search == ""
    ensures q.minRating.None? ==> p.minRating == 0
    ensures q.maxRating.None? ==> p.maxRating == 5
    ensures q.minPrice.None? ==> p.minPrice == 0
    ensures q.maxPrice.None? ==> p.maxPrice == 100000
    ensures q.stock.None? ==> p.stock == "all"
  {
    Params(
      q.page.GetOr(DefaultPage),
      q.limit.GetOr(DefaultLimit),
      q.search.GetOr(""),
      q.minRating.GetOr(0),
      q.maxRating.GetOr(5),
      q.minPrice.GetOr(0),
      q.maxPrice.GetOr(DefaultMaxPrice),
      q.stock.GetOr("all"))
  }

  const NoParameters := RawQuery(None, None, None, None, None, None, None, None)

  /** A request without parameters asks for page 1 of 20, any title, 0 to 5 stars, 0 to 1000 pounds, any stock. */
  lemma DefaultQuery()
    ensures WithDefaults(NoParameters) == Params(1, 20, "", 0, 5, 0, 100000, "all")
  {
  }

  /** Parameters that are present are used as given. */
  lemma GivenParametersKept(p: Params)
    ensures WithDefaults(RawQuery(Some(p.page), Some(p.limit), Some(p.search), Some(p.minRating),
      Some(p.maxRating), Some(p.minPrice), Some(p.maxPrice), Some(p.stock))) == p
  {
  }

  // ---------------------------------------------------------------------------
  // the filter

  /** `{ $gte: lo, $lte: hi }`. */
  datatype Range = Range(lo: int, hi: int)

  /** The query document handed to `find` and `countDocuments`. */
  datatype Filter = Filter(rating: Range, price: Range, title: Option<string>, stock: Option<string>)

  predicate InRange(x: int, r: Range) {
    r.lo <= x <= r.hi
  }

  /** How the store evaluates the query document against one book. */
  predicate Admits(f: Filter, b: Book)
    ensures Admits(f, b) ==> f.rating.lo <= f.rating.hi && f.price.lo <= f.price.hi
    ensures Admits(f, b) && f.title.Some? ==> |f.title.value| <= |b.title|
  {
    && InRange(b.rating, f.rating)
    && InRange(b.price, f.price)
    && (f.title.Some? ==> ContainsIgnoringCase(b.title, f.title.value))
    && (f.stock.Some? ==> b.stock == f.stock.value)
  }

  /** Which books a request asks for, condition by condition. */
  predicate Matches(p: Params, b: Book)
    ensures Matches(p, b) ==> p.minRating <= p.maxRating && p.minPrice <= p.maxPrice
    ensures Matches(p, b) && p.search != "" ==> |p.search| <= |b.title|
    ensures Matches(p, b) && p.stock != "all" ==> b.stock == (if p.stock == "in-stock" then InStock else OutOfStock)
  {
    && p.minRating <= b.rating <= p.maxRating
    && p.minPrice <= b.price <= p.maxPrice
    && (p.search != "" ==> ContainsIgnoringCase(b.title, p.search))
    && (p.stock == "in-stock" ==> b.stock == InStock)
    && (p.stock != "all" && p.stock != "in-stock" ==> b.stock == OutOfStock)
  }

  /**
   * The filter construction: the two ranges first, then a title condition
   * only for a non-empty search and a stock condition only when stock is not
   * `all`.
   */
  method BuildFilter(p: Params) returns (f: Filter)
    ensures forall b :: Admits(f, b) <==> Matches(p, b)
    ensures f.title.Some? <==> p.search != ""
    ensures f.stock.Some? <==> p.stock != "all"
  {
    f := Filter(Range(p.minRating, p.maxRating), Range(p.minPrice, p.maxPrice), None, None);
    if p.search != "" {
      f := f.(title := Some(p.search));
    }
    if p.stock != "all" {
      f := f.(stock := Some(if p.stock == "in-stock" then InStock else OutOfStock));
    }
  }

  /** The elements of `s` that `keep` accepts, in order. */
  function Select<T(!new)>(s: seq<T>, keep: T -> bool): (r: seq<T>)
    ensures |r| <= |s|
    ensures multiset(r) <= multiset(s)
    ensures forall x :: x in r <==> x in s && keep(x)
  {
    if s == [] then []
    else
      assert s == [s[0]] + s[1..];
      (if keep(s[0]) then [s[0]] else []) + Select(s[1..], keep)
  }

  /** Two tests that agree on every element select the same elements. */
  lemma {:induction false} SelectAgrees<T(!new)>(s: seq<T>, keep: T -> bool, keep': T -> bool)
    requires forall x :: x in s ==> keep(x) == keep'(x)
    ensures Select(s, keep) == Select(s, keep')
  {
    if s != [] {
      SelectAgrees(s[1..], keep, keep');
    }
  }

  /** The stored documents a request matches, in store order. */
  function Matching(docs: seq<Doc>, p: Params): seq<Doc> {
    Select(docs, (d: Doc) => Matches(p, d.book))
  }

  // ---------------------------------------------------------------------------
  // sort({ title: 1 })

  predicate SortedByTitle(s: seq<Doc>) {
    forall i, j :: 0 <= i < j < |s| ==> StringLe(s[i].book.title, s[j].book.title)
  }

  /** Inserts `d` after every leading document whose title is not greater. */
  function Insert(d: Doc, s: seq<Doc>): (r: seq<Doc>)
    ensures |r| == |s| + 1
    ensures multiset(r) == multiset(s) + multiset{d}
  {
    if s == [] then [d]
    else if StringLe(s[0].book.title, d.book.title) then
      assert s == [s[0]] + s[1..];
      [s[0]] + Insert(d, s[1..])
    else [d] + s
  }

  /**
   * Ascending title order. Equal titles keep their store order; the store
   * itself does not promise an order for them, and this fixed one is what
   * makes the pages of a result line up.
   */
  function SortByTitle(s: seq<Doc>): (r: seq<Doc>)
    ensures |r| == |s|
    ensures multiset(r) == multiset(s)
  {
    if s == [] then []
    else
      assert s == s[..|s| - 1] + [s[|s| - 1]];
      Insert(s[|s| - 1], SortByTitle(s[..|s| - 1]))
  }

  lemma {:induction false} InsertSorted(d: Doc, s: seq<Doc>)
    requires SortedByTitle(s)
    ensures SortedByTitle(Insert(d, s))
  {
    if s != [] {
      if StringLe(s[0].book.title, d.book.title) {
        var tail := Insert(d, s[1..]);
        InsertSorted(d, s[1..]);
        InsertBounded(d, s[1..], s[0].book.title);
        var r := [s[0]] + tail;
        forall i, j | 0 <= i < j < |r|
          ensures StringLe(r[i].book.title, r[j].book.title)
        {
          if i > 0 {
            assert r[i] == tail[i - 1] && r[j] == tail[j - 1];
          } else {
            assert r[j] == tail[j - 1];
          }
        }
      } else {
        StringLeTotal(s[0].book.title, d.book.title);
        var r := [d] + s;
        forall i, j | 0 <= i < j < |r|
          ensures StringLe(r[i].book.title, r[j].book.title)
        {
          if i == 0 {
            if j > 1 {
              StringLeTransitive(d.book.title, s[0].book.title, s[j - 1].book.title);
            }
          }
        }
      }
    }
  }

  /** Inserting a document no lower than `lo` into documents no lower than `lo` keeps them all no lower. */
  lemma InsertBounded(d: Doc, s: seq<Doc>, lo: string)
    requires StringLe(lo, d.book.title)
    requires forall i :: 0 <= i < |s| ==> StringLe(lo, s[i].book.title)
    ensures forall i :: 0 <= i < |Insert(d, s)| ==> StringLe(lo, Insert(d, s)[i].book.title)
  {
    var r := Insert(d, s);
    forall i | 0 <= i < |r|
      ensures StringLe(lo, r[i].book.title)
    {
      assert r[i] in multiset(r);
      if r[i] != d {
        assert r[i] in multiset(s);
      }
    }
  }

  /** The sort returns the same documents, in ascending title order. */
  lemma {:induction false} SortByTitleSorts(s: seq<Doc>)
    ensures SortedByTitle(SortByTitle(s))
    ensures multiset(SortByTitle(s)) == multiset(s)
  {
    if s != [] {
      SortByTitleSorts(s[..|s| - 1]);
      InsertSorted(s[|s| - 1], SortByTitle(s[..|s| - 1]));
    }
  }

  // ---------------------------------------------------------------------------
  // skip / limit and the page count

  /** `.skip(skip).limit(limit)`; a limit of 0 means no limit. */
  function Window<T>(s: seq<T>, skip: nat, limit: nat): (r: seq<T>)
    ensures limit > 0 ==> |r| <= limit
  {
    var from := if skip <= |s| then skip else |s|;
    var to := if limit == 0 || from + limit > |s| then |s| else from + limit;
    s[from..to]
  }

  /** `Math.ceil(total / limit)`: the fewest pages of `limit` that hold `total` items. */
  function CeilDiv(total: nat, limit: nat): (pages: nat)
    requires limit > 0
    ensures pages <= total
    ensures pages == 0 <==> total == 0
  {
    if total == 0 then 0 else 1 + CeilDiv(if total <= limit then 0 else total - limit, limit)
  }

  /** `CeilDiv(total, limit)` pages hold `total` items, and one page fewer would not. */
  lemma {:induction false} CeilDivBounds(total: nat, limit: nat)
    requires limit > 0
    ensures CeilDiv(total, limit) * limit >= total
    ensures CeilDiv(total, limit) == 0 || (CeilDiv(total, limit) - 1) * limit < total
  {
    if total > 0 {
      var rest := if total <= limit then 0 else total - limit;
      CeilDivBounds(rest, limit);
      var n := CeilDiv(rest, limit);
      assert (n + 1) * limit == n * limit + limit;
    }
  }

  /** Pages 1..n of `s`, `limit` to a page, one after the other. */
  function Pages<T>(s: seq<T>, limit: nat, n: nat): seq<T>
    requires limit > 0
  {
    if n == 0 then [] else Pages(s, limit, n - 1) + Window(s, (n - 1) * limit, limit)
  }

  lemma {:induction false} PagesArePrefix<T>(s: seq<T>, limit: nat, n: nat)
    requires limit > 0
    ensures Pages(s, limit, n) == s[..if n * limit <= |s| then n * limit else |s|]
  {
    if n > 0 {
      PagesArePrefix(s, limit, n - 1);
      assert (n - 1) * limit + limit == n * limit;
    }
  }

  /** `f(1) + f(2) + ... + f(n)`. */
  function Concat<T>(f: nat -> seq<T>, n: nat): seq<T> {
    if n == 0 then [] else Concat(f, n - 1) + f(n)
  }

  /** Pieces that are the successive windows of `s` concatenate to the pages of `s`. */
  lemma {:induction false} ConcatOfWindows<T>(f: nat -> seq<T>, s: seq<T>, limit: nat, n: nat)
    requires limit > 0
    requires forall k: nat :: 1 <= k <= n ==> f(k) == Window(s, (k - 1) * limit, limit)
    ensures Concat(f, n) == Pages(s, limit, n)
  {
    if n > 0 {
      ConcatOfWindows(f, s, limit, n - 1);
    }
  }

  /** Reading pages 1..ceil(|s| / limit) in turn gives back `s`, nothing missing and nothing twice. */
  lemma PagesCoverAll<T>(s: seq<T>, limit: nat)
    requires limit > 0
    ensures Pages(s, limit, CeilDiv(|s|, limit)) == s
  {
    PagesArePrefix(s, limit, CeilDiv(|s|, limit));
    CeilDivBounds(|s|, limit);
  }

  // ---------------------------------------------------------------------------
  // GET /api/books

  /** The JSON body of a listing; `totalPages` is null (`None`) when the limit is 0. */
  datatype Listing = Listing(books: seq<Doc>, currentPage: int, totalPages: Option<nat>, totalBooks: nat)

  /** Error replies: a 404 with its message, or a 500. */
  datatype HttpError = NotFound(message: string) | InternalError

  /**
   * What `GET /api/books` answers for a request: the matching documents in
   * title order, skipping `(page - 1) * limit` of them and taking `limit`,
   * with the count of all matches. A negative skip is refused by the store,
   * which the handler turns into a 500.
   */
  function BooksQuery(docs: seq<Doc>, p: Params): (r: Result<Listing, HttpError>)
    ensures r.Failure? ==> r.error == InternalError
    ensures r.Success? ==> r.value.currentPage == p.page
    ensures r.Success? ==> (r.value.totalPages.None? <==> p.limit == 0)
    ensures r.Success? ==> r.value.totalBooks <= |docs|
  {
    var skip := (p.page - 1) * p.limit;
    if skip < 0 then Failure(InternalError)
    else
      var matches := Matching(docs, p);
      var pages := if p.limit == 0 then None else Some(CeilDiv(|matches|, p.limit));
      Success(Listing(Window(SortByTitle(matches), skip, p.limit), p.page, pages, |matches|))
  }

  /** The handler: defaults, filter, then `find` with sort, skip and limit, and `countDocuments`. */
  method GetBooks(docs: seq<Doc>, q: RawQuery) returns (r: Result<Listing, HttpError>)
    ensures r == BooksQuery(docs, WithDefaults(q))
  {
    var p := WithDefaults(q);
    var filter := BuildFilter(p);
    var skip := (p.page - 1) * p.limit;
    if skip < 0 {
      return Failure(InternalError);
    }
    var admitted := (d: Doc) => Admits(filter, d.book);
    SelectAgrees(docs, admitted, (d: Doc) => Matches(p, d.book));
    var books := Window(SortByTitle(Select(docs, admitted)), skip, p.limit);
    var total := |Select(docs, admitted)|;
    var totalPages := if p.limit == 0 then None else Some(CeilDiv(total, p.limit));
    r := Success(Listing(books, p.page, totalPages, total));
  }

  /** A window holds only elements of the sequence, and keeps its order. */
  lemma WindowOfSorted(s: seq<Doc>, skip: nat, limit: nat)
    ensures forall d :: d in Window(s, skip, limit) ==> d in s
    ensures SortedByTitle(s) ==> SortedByTitle(Window(s, skip, limit))
  {
  }

  /** The sorted matches are the matches: stored documents the request matches. */
  lemma SortedMatchesMatch(docs: seq<Doc>, p: Params)
    ensures SortedByTitle(SortByTitle(Matching(docs, p)))
    ensures forall d :: d in SortByTitle(Matching(docs, p)) ==> d in docs && Matches(p, d.book)
  {
    var matches := Matching(docs, p);
    SortByTitleSorts(matches);
    forall d | d in SortByTitle(matches)
      ensures d in docs && Matches(p, d.book)
    {
      assert d in multiset(SortByTitle(matches));
      assert d in multiset(matches);
    }
  }

  /**
   * A listing holds at most `limit` documents, every one a stored document
   * the request matches, in ascending title order.
   */
  lemma ListingContents(docs: seq<Doc>, p: Params)
    requires BooksQuery(docs, p).Success?
    ensures p.limit > 0 ==> |BooksQuery(docs, p).value.books| <= p.limit
    ensures forall d :: d in BooksQuery(docs, p).value.books ==> d in docs && Matches(p, d.book)
    ensures SortedByTitle(BooksQuery(docs, p).value.books)
  {
    var sorted := SortByTitle(Matching(docs, p));
    var skip: nat := (p.page - 1) * p.limit;
    assert BooksQuery(docs, p).value.books == Window(sorted, skip, p.limit);
    SortedMatchesMatch(docs, p);
    WindowOfSorted(sorted, skip, p.limit);
  }

  /** A listing never holds more books than the request matches in all. */
  lemma ListingWithinMatches(docs: seq<Doc>, p: Params)
    requires BooksQuery(docs, p).Success?
    ensures |BooksQuery(docs, p).value.books| <= BooksQuery(docs, p).value.totalBooks
  {
    assert BooksQuery(docs, p).value.books == Window(SortByTitle(Matching(docs, p)), (p.page - 1) * p.limit, p.limit);
  }

  /** The skip is negative exactly for a page before the first with a limit set. */
  lemma SkipSign(page: int, limit: nat)
    ensures (page - 1) * limit < 0 <==> page < 1 && limit > 0
  {
    if page < 1 && limit > 0 {
      assert (page - 1) * limit <= -(limit as int);
    }
  }

  /** Only page 1 and up are answered when a limit is set; a page before the first fails. */
  lemma QueryFailsOnlyBeforeFirstPage(docs: seq<Doc>, p: Params)
    ensures BooksQuery(docs, p).Failure? <==> p.page < 1 && p.limit > 0
  {
    SkipSign(p.page, p.limit);
  }

  /** The total is the number of all matches, whichever page and page size was asked for. */
  lemma {:induction false} TotalIgnoresPaging(docs: seq<Doc>, p: Params, page: int, limit: nat)
    requires BooksQuery(docs, p).Success?
    requires BooksQuery(docs, p.(page := page, limit := limit)).Success?
    ensures BooksQuery(docs, p.(page := page, limit := limit)).value.totalBooks
         == BooksQuery(docs, p).value.totalBooks
         == |Select(docs, (d: Doc) => Matches(p, d.book))|
  {
    var p' := p.(page := page, limit := limit);
    SelectAgrees(docs, (d: Doc) => Matches(p, d.book), (d: Doc) => Matches(p', d.book));
  }

  /** Which documents match does not depend on the page or the page size. */
  lemma MatchingIgnoresPaging(docs: seq<Doc>, p: Params, page: int, limit: nat)
    ensures Matching(docs, p.(page := page, limit := limit)) == Matching(docs, p)
  {
    var p' := p.(page := page, limit := limit);
    SelectAgrees(docs, (d: Doc) => Matches(p', d.book), (d: Doc) => Matches(p, d.book));
  }

  /** The documents a request shows on page `k`. */
  function PageOf(docs: seq<Doc>, p: Params, k: int): seq<Doc> {
    match BooksQuery(docs, p.(page := k))
    case Success(listing) => listing.books
    case Failure(_) => []
  }

  /** Pages 1..n of a request, one after the other. */
  function PagesOf(docs: seq<Doc>, p: Params, n: nat): seq<Doc> {
    Concat((k: nat) => PageOf(docs, p, k), n)
  }

  /** Page `k` (from 1) of a request is the `k`-th window of its sorted matches. */
  lemma PageOfIsWindow(docs: seq<Doc>, p: Params, k: int)
    requires p.limit > 0 && k >= 1
    ensures PageOf(docs, p, k) == Window(SortByTitle(Matching(docs, p)), (k - 1) * p.limit, p.limit)
  {
    MatchingIgnoresPaging(docs, p, k, p.limit);
    SkipSign(k, p.limit);
  }

  lemma PagesOfAreWindows(docs: seq<Doc>, p: Params, n: nat)
    requires p.limit > 0
    ensures PagesOf(docs, p, n) == Pages(SortByTitle(Matching(docs, p)), p.limit, n)
  {
    var sorted := SortByTitle(Matching(docs, p));
    forall k: nat | 1 <= k <= n
      ensures PageOf(docs, p, k) == Window(sorted, (k - 1) * p.limit, p.limit)
    {
      PageOfIsWindow(docs, p, k);
    }
    ConcatOfWindows((k: nat) => PageOf(docs, p, k), sorted, p.limit, n);
  }

  /**
   * The pagination law: with a page size set, the pages 1..totalPages that
   * the first page announces, read in turn, are exactly the matches in title
   * order; so every match is shown once and nothing else is shown.
   */
  lemma PaginationLaw(docs: seq<Doc>, p: Params)
    requires p.limit > 0
    ensures BooksQuery(docs, p.(page := 1)).Success?
    ensures BooksQuery(docs, p.(page := 1)).value.totalPages.Some?
    ensures var n := BooksQuery(docs, p.(page := 1)).value.totalPages.value;
      && PagesOf(docs, p, n) == SortByTitle(Matching(docs, p))
      && multiset(PagesOf(docs, p, n)) == multiset(Matching(docs, p))
  {
    var p1 := p.(page := 1);
    SelectAgrees(docs, (d: Doc) => Matches(p1, d.book), (d: Doc) => Matches(p, d.book));
    var sorted := SortByTitle(Matching(docs, p));
    var n := CeilDiv(|sorted|, p.limit);
    PagesOfAreWindows(docs, p, n);
    PagesCoverAll(sorted, p.limit);
  }

  /** A page past the last one is empty. */
  lemma PagePastTheEndIsEmpty(docs: seq<Doc>, p: Params, k: int)
    requires p.limit > 0 && k > CeilDiv(|Matching(docs, p)|, p.limit)
    ensures PageOf(docs, p, k) == []
  {
    var sorted := SortByTitle(Matching(docs, p));
    PageOfIsWindow(docs, p, k);
    PastLastPage(|sorted|, p.limit, k);
    WindowPastEnd(sorted, (k - 1) * p.limit, p.limit);
  }

  /** A page from the first to the last holds at least one document. */
  lemma PageWithinRangeNonEmpty(docs: seq<Doc>, p: Params, k: int)
    requires p.limit > 0 && 1 <= k <= CeilDiv(|Matching(docs, p)|, p.limit)
    ensures PageOf(docs, p, k) != []
  {
    var sorted := SortByTitle(Matching(docs, p));
    var skip := (k - 1) * p.limit;
    WithinLastPage(|Matching(docs, p)|, p.limit, k);
    PageOfIsWindow(docs, p, k);
    WindowBeforeEnd(sorted, skip, p.limit);
  }

  /** Every page up to the last one starts before the end. */
  lemma WithinLastPage(total: nat, limit: nat, k: int)
    requires limit > 0 && 1 <= k <= CeilDiv(total, limit)
    ensures 0 <= (k - 1) * limit < total
  {
    var n := CeilDiv(total, limit);
    CeilDivBounds(total, limit);
    MulMonotone(n - 1, k - 1, limit);
    MulNonNegative(k - 1, limit);
  }

  /** A window that starts before the end holds something. */
  lemma WindowBeforeEnd<T>(s: seq<T>, skip: nat, limit: nat)
    requires skip < |s| && limit > 0
    ensures Window(s, skip, limit) != []
  {
  }

  /** Every page after the last one starts at or beyond the end. */
  lemma PastLastPage(total: nat, limit: nat, k: int)
    requires limit > 0 && k > CeilDiv(total, limit)
    ensures (k - 1) * limit >= total
  {
    var n := CeilDiv(total, limit);
    CeilDivBounds(total, limit);
    assert (k - 1) * limit >= n * limit by {
      MulMonotone(k - 1, n, limit);
    }
  }

  lemma MulNonNegative(a: nat, b: nat)
    ensures a * b >= 0
  {
  }

  lemma MulMonotone(a: nat, b: nat, c: nat)
    requires a >= b
    ensures a * c >= b * c
  {
  }

  /** A window that starts at or beyond the end is empty. */
  lemma WindowPastEnd<T>(s: seq<T>, skip: nat, limit: nat)
    requires skip >= |s|
    ensures Window(s, skip, limit) == []
  {
  }

  // ---------------------------------------------------------------------------
  // GET /api/books/:id

  /** The `:id` path segment: a well-formed identifier, or text the store cannot read as one. */
  datatype IdParam = ObjectId(id: nat) | Malformed(text: string)

  /** `findById`: the document with that identifier, if any. */
  function FindById(docs: seq<Doc>, id: nat): (r: Option<Doc>)
    ensures r.Some? ==> r.value in docs && r.value.id == id
    ensures r.None? ==> forall d :: d in docs ==> d.id != id
  {
    if docs == [] then None
    else if docs[0].id == id then Some(docs[0])
    else FindById(docs[1..], id)
  }

  /** The handler: the stored book, a 404 "Book not found", or a 500 when the identifier cannot be read. */
  function GetBookById(docs: seq<Doc>, param: IdParam): (r: Result<Doc, HttpError>)
    ensures param.Malformed? ==> r == Failure(InternalError)
    ensures r.Success? ==> r.value in docs && r.value.id == param.id
    ensures param.ObjectId? && r.Failure? ==> r.error == NotFound("Book not found") && forall d :: d in docs ==> d.id != param.id
  {
    match param
    case Malformed(_) => Failure(InternalError)
    case ObjectId(id) =>
      match FindById(docs, id)
      case Some(d) => Success(d)
      case None => Failure(NotFound("Book not found"))
  }

  predicate UniqueIds(docs: seq<Doc>) {
    forall i, j :: 0 <= i < j < |docs| ==> docs[i].id != docs[j].id
  }

  /** Looking up a stored document by its identifier returns that document; any other identifier is a 404. */
  lemma LookupById(docs: seq<Doc>, id: nat)
    requires UniqueIds(docs)
    ensures (exists d :: d in docs && d.id == id) ==>
      exists d :: d in docs && d.id == id && GetBookById(docs, ObjectId(id)) == Success(d)
    ensures forall d :: d in docs && d.id == id ==> GetBookById(docs, ObjectId(id)) == Success(d)
    ensures (forall d :: d in docs ==> d.id != id) ==>
      GetBookById(docs, ObjectId(id)) == Failure(NotFound("Book not found"))
  {
    forall d | d in docs && d.id == id
      ensures GetBookById(docs, ObjectId(id)) == Success(d)
    {
      var found := FindById(docs, id).value;
      var i :| 0 <= i < |docs| && docs[i] == d;
      var j :| 0 <= j < |docs| && docs[j] == found;
    }
  }

  /** An identifier handed out before a refresh is a 404 afterwards: every document a refresh stores has a newer identifier. */
  lemma StaleIdNotFound(docs: seq<Doc>, firstNew: nat, id: nat)
    requires forall d :: d in docs ==> d.id >= firstNew
    requires id < firstNew
    ensures GetBookById(docs, ObjectId(id)) == Failure(NotFound("Book not found"))
  {
  }
}
