/**
 * The catalogue scraper (scraper/scraper.js): it walks the listing pages of
 * books.toscrape.com one after the other, turns every product node into a
 * book record, and then replaces the stored collection with what it found.
 *
 * The browser is not modelled. The site is the finite list of its listing
 * pages, and each listing node is given by the elements the extraction
 * queries for.
 */
module Scraper {
  import opened Wrappers
  import opened Text
  import opened BookModel

  const SiteBase: string := "https://books.toscrape.com/"
  const CataloguePrefix: string := "https://books.toscrape.com/catalogue/page-"
  const PageSuffix: string := ".html"

  // ---------------------------------------------------------------------------
  // page addresses

  /** The address the crawler opens for listing page `n`. */
  function PageUrl(n: nat): (url: string)
    requires n >= 1
    ensures IsPrefix(SiteBase, url)
    ensures url == SiteBase <==> n == 1
  {
    if n == 1 then SiteBase else CataloguePrefix + Decimal(n) + PageSuffix
  }

  /** Which listing page an address names, if any: the site's side of the address scheme. */
  function PageNumberOf(url: string): Option<nat> {
    if url == SiteBase then Some(1)
    else if |url| > |CataloguePrefix| + |PageSuffix| && IsPrefix(CataloguePrefix, url) && IsSuffix(PageSuffix, url) then
      var digits := url[|CataloguePrefix|..|url| - |PageSuffix|];
      if AllDigits(digits) then Some(ParseDecimal(digits)) else None
    else None
  }

  /** Every address the crawler builds names the page it was built for. */
  lemma PageUrlRoundTrip(n: nat)
    requires n >= 1
    ensures PageNumberOf(PageUrl(n)) == Some(n)
  {
    if n > 1 {
      var d := Decimal(n);
      var url := PageUrl(n);
      assert url[..|CataloguePrefix|] == CataloguePrefix;
      assert url[|url| - |PageSuffix|..] == PageSuffix;
      assert url[|CataloguePrefix|..|url| - |PageSuffix|] == d;
      assert url != SiteBase by {
        assert |url| > |SiteBase|;
      }
      DecimalRoundTrip(n);
    }
  }

  /** Distinct pages are fetched from distinct addresses. */
  lemma PageUrlInjective(m: nat, n: nat)
    requires m >= 1 && n >= 1 && PageUrl(m) == PageUrl(n)
    ensures m == n
  {
    PageUrlRoundTrip(m);
    PageUrlRoundTrip(n);
  }

  // ---------------------------------------------------------------------------
  // the listing DOM

  /** An element: its attributes and its text content. */
  datatype Element = Element(attributes: map<string, string>, textContent: string)

  /** `el.getAttribute(name)`, with `None` for null. */
  function GetAttribute(el: Element, name: string): Option<string> {
    if name in el.attributes then Some(el.attributes[name]) else None
  }

  /** `el.className`: the class attribute, or the empty string. */
  function ClassName(el: Element): string {
    GetAttribute(el, "class").GetOr("")
  }

  /**
   * `el?.getAttribute(name)` as string concatenation renders it: a missing
   * element is `undefined` and a missing attribute is `null`.
   */
  function AttributeText(el: Option<Element>, name: string): string {
    match el
    case None => "undefined"
    case Some(e) =>
      match GetAttribute(e, name)
      case None => "null"
      case Some(v) => v
  }

  /**
   * One `.product_pod` node, by what the extraction looks up inside it:
   * the title link `h3 a`, the amount shown in `.price_color` (already in
   * pence; `None` when the element is absent or empty), the
   * `.instock.availability` paragraph, the star-rating paragraph and the
   * cover `img`.
   */
  datatype ListingNode = ListingNode(
    link: Option<Element>,
    listedPrice: Option<int>,
    availability: Option<Element>,
    ratingTag: Option<Element>,
    image: Option<Element>)

  /** One listing page as served: its product nodes and whether a `.next` marker is present. */
  datatype CatalogPage = CatalogPage(nodes: seq<ListingNode>, hasNext: bool)

  // ---------------------------------------------------------------------------
  // per-node extraction

  const RatingWords: seq<string> := ["One", "Two", "Three", "Four", "Five"]

  /** The star-rating class word for `k` stars. */
  function RatingWord(k: int): string
    requires 1 <= k <= 5
  {
    RatingWords[k - 1]
  }

  /** `ratingMap[className.split(' ')[1]] || 0`. */
  function RatingOf(className: string): (r: int)
    ensures 0 <= r <= 5
  {
    var parts := Split(className, ' ');
    if |parts| > 1 && parts[1] in RatingWords then
      if parts[1] == "One" then 1
      else if parts[1] == "Two" then 2
      else if parts[1] == "Three" then 3
      else if parts[1] == "Four" then 4
      else 5
    else 0
  }

  /** A rating is `k` stars exactly when the second class token is the word for `k`. */
  lemma RatingOfWord(className: string, k: int)
    requires 1 <= k <= 5
    ensures RatingOf(className) == k <==>
      (|Split(className, ' ')| > 1 && Split(className, ' ')[1] == RatingWord(k))
  {
  }

  /** The class `star-rating <Word>` the site uses reads back as its number of stars. */
  lemma RatingOfStarClass(k: int)
    requires 1 <= k <= 5
    ensures RatingOf("star-rating " + RatingWord(k)) == k
  {
    var w := RatingWord(k);
    assert ' ' !in w;
    SplitWithoutSeparator(w, ' ');
    SplitAfterPiece("star-rating", ' ', w);
    assert "star-rating" + [' '] + w == "star-rating " + w;
    RatingOfWord("star-rating " + w, k);
  }

  /** The trimmed availability text, or the empty string. */
  function AvailabilityText(n: ListingNode): string {
    match n.availability
    case None => ""
    case Some(e) => Trim(e.textContent)
  }

  /** The book one listing node becomes. */
  function ExtractBook(n: ListingNode): (b: Book)
    ensures 0 <= b.rating <= 5
    ensures b.stock == InStock || b.stock == OutOfStock
    ensures IsPrefix(SiteBase, b.detailUrl) && IsPrefix(SiteBase, b.imageUrl)
  {
    var title := match n.link
      case None => ""
      case Some(e) => GetAttribute(e, "title").GetOr("");
    var price := n.listedPrice.GetOr(0);
    var stock := if Contains(AvailabilityText(n), InStock) then InStock else OutOfStock;
    var rating := match n.ratingTag
      case None => 0
      case Some(e) => RatingOf(ClassName(e));
    var detailUrl := SiteBase + AttributeText(n.link, "href");
    var imageUrl := SiteBase + AttributeText(n.image, "src");
    assert (SiteBase + AttributeText(n.link, "href"))[..|SiteBase|] == SiteBase;
    assert (SiteBase + AttributeText(n.image, "src"))[..|SiteBase|] == SiteBase;
    Book(title, price, stock, rating, detailUrl, imageUrl)
  }

  /** A node whose title is missing still yields a book, with an empty title. */
  lemma ExtractTitle(n: ListingNode)
    ensures ExtractBook(n).title == "" <==>
      n.link.None? || GetAttribute(n.link.value, "title") in {None, Some("")}
    ensures n.link.Some? && GetAttribute(n.link.value, "title").Some? ==>
      ExtractBook(n).title == GetAttribute(n.link.value, "title").value
  {
  }

  /** The stock is "In stock" exactly when the availability text mentions it, whatever white space surrounds it. */
  lemma ExtractStock(n: ListingNode)
    ensures ExtractBook(n).stock == InStock <==>
      n.availability.Some? && Contains(n.availability.value.textContent, InStock)
  {
    if n.availability.Some? {
      TrimKeepsMarker(n.availability.value.textContent, InStock);
    } else {
      assert !Contains("", InStock);
    }
  }

  /** The detail and image addresses are the base followed by the node's relative paths. */
  lemma ExtractUrls(n: ListingNode)
    ensures ExtractBook(n).detailUrl[|SiteBase|..] == AttributeText(n.link, "href")
    ensures ExtractBook(n).imageUrl[|SiteBase|..] == AttributeText(n.image, "src")
  {
  }

  /** `Array.from(bookElements).map(...)`: one book per node, in node order. */
  function ExtractPage(nodes: seq<ListingNode>): (books: seq<Book>)
    ensures |books| == |nodes|
  {
    seq(|nodes|, i requires 0 <= i < |nodes| => ExtractBook(nodes[i]))
  }

  // ---------------------------------------------------------------------------
  // the crawl

  /** The listing page `n` as served; past the last page the site answers with an empty page without a next marker. */
  function Fetch(site: seq<CatalogPage>, n: nat): CatalogPage {
    if 1 <= n <= |site| then site[n - 1] else CatalogPage([], false)
  }

  /** What `page.goto(url)` loads. */
  function Goto(site: seq<CatalogPage>, url: string): CatalogPage {
    match PageNumberOf(url)
    case Some(n) => Fetch(site, n)
    case None => CatalogPage([], false)
  }

  /** Opening the address of page `n` loads page `n`. */
  lemma GotoPage(site: seq<CatalogPage>, n: nat)
    requires n >= 1
    ensures Goto(site, PageUrl(n)) == Fetch(site, n)
  {
    PageUrlRoundTrip(n);
  }

  /** The shape every extracted book has, whatever its node: one of the two stock texts and both addresses on the site. */
  predicate Extracted(b: Book) {
    (b.stock == InStock || b.stock == OutOfStock) && IsPrefix(SiteBase, b.detailUrl) && IsPrefix(SiteBase, b.imageUrl)
  }

  /** The books of pages 1..n, in page order. */
  function Harvest(site: seq<CatalogPage>, n: nat): (books: seq<Book>)
    ensures forall i :: 0 <= i < |books| ==> Extracted(books[i])
  {
    if n == 0 then [] else Harvest(site, n - 1) + ExtractPage(Fetch(site, n).nodes)
  }

  /** The number of listing nodes on pages 1..n. */
  function NodeCount(site: seq<CatalogPage>, n: nat): nat {
    if n == 0 then 0 else NodeCount(site, n - 1) + |Fetch(site, n).nodes|
  }

  /** The harvest holds one book per listing node of the pages visited. */
  lemma {:induction false} HarvestLength(site: seq<CatalogPage>, n: nat)
    ensures |Harvest(site, n)| == NodeCount(site, n)
  {
    if n > 0 {
      HarvestLength(site, n - 1);
    }
  }

  /** The addresses of listing pages 1..n, in order. */
  function Addresses(n: nat): (urls: seq<string>)
    ensures |urls| == n
  {
    seq(n, i requires 0 <= i < n => PageUrl(i + 1))
  }

  /** The `i`-th of the first `n` addresses is that of listing page `i + 1`, and reads back as that page number. */
  lemma AddressOfPage(n: nat, i: nat)
    requires i < n
    ensures Addresses(n)[i] == PageUrl(i + 1)
    ensures PageNumberOf(Addresses(n)[i]) == Some(i + 1)
  {
    PageUrlRoundTrip(i + 1);
  }

  lemma AddressesStep(n: nat)
    ensures Addresses(n + 1) == Addresses(n) + [PageUrl(n + 1)]
  {
  }

  /** `page.goto` on the address of listing page `n`: the address opened and the page it loads. */
  method OpenPage(site: seq<CatalogPage>, n: nat) returns (url: string, page: CatalogPage)
    requires n >= 1
    ensures url == PageUrl(n)
    ensures page == Fetch(site, n)
  {
    url := PageUrl(n);
    page := Goto(site, url);
    GotoPage(site, n);
  }

  /**
   * `scrapeBooksToScrape`'s loop: visits pages 1, 2, ... and stops right after
   * the first page without a next marker, collecting the books of every page
   * visited. `visited` lists the addresses opened, in order.
   */
  method CrawlCatalog(site: seq<CatalogPage>) returns (allBooks: seq<Book>, visited: seq<string>)
    ensures |visited| >= 1
    ensures visited == Addresses(|visited|)
    ensures forall k :: 1 <= k < |visited| ==> Fetch(site, k).hasNext
    ensures !Fetch(site, |visited|).hasNext
    ensures allBooks == Harvest(site, |visited|)
  {
    var currentPage: nat := 1;
    var hasNextPage := true;
    allBooks, visited := [], [];
    while hasNextPage
      invariant currentPage == |visited| + 1
      invariant visited == Addresses(|visited|)
      invariant forall k :: 1 <= k < |visited| ==> Fetch(site, k).hasNext
      invariant hasNextPage <==> (|visited| == 0 || Fetch(site, |visited|).hasNext)
      invariant allBooks == Harvest(site, |visited|)
      decreases |site| + 1 - |visited|
    {
      var url, page := OpenPage(site, currentPage);
      var books := ExtractPage(page.nodes);
      allBooks := allBooks + books;
      AddressesStep(|visited|);
      visited := visited + [url];
      hasNextPage := page.hasNext;
      currentPage := currentPage + 1;
    }
  }

  /**
   * The whole scraper run: crawl, then `deleteMany({})` and `insertMany` of
   * the crawled books. The save succeeds exactly when every crawled book has
   * a title, and then the store holds exactly the crawled books, in crawl
   * order, under identifiers it never used before. Otherwise the insert is
   * rejected after the delete has run, and the store is left empty.
   */
  method ScrapeBooksToScrape(site: seq<CatalogPage>, store: BookStore) returns (allBooks: seq<Book>, visited: seq<string>, saved: bool)
    requires store.Valid()
    modifies store
    ensures store.Valid()
    ensures |visited| >= 1
    ensures visited == Addresses(|visited|)
    ensures forall k :: 1 <= k < |visited| ==> Fetch(site, k).hasNext
    ensures !Fetch(site, |visited|).hasNext
    ensures allBooks == Harvest(site, |visited|)
    ensures saved <==> forall i :: 0 <= i < |allBooks| ==> allBooks[i].title != ""
    ensures saved ==> Books(store.docs) == allBooks
    ensures saved ==> forall d :: d in store.docs ==> old(store.nextId) <= d.id < store.nextId
    ensures !saved ==> store.docs == []
  {
    allBooks, visited := CrawlCatalog(site);
    store.DeleteMany();
    assert forall i :: 0 <= i < |allBooks| ==> (Admissible(allBooks[i]) <==> allBooks[i].title != "");
    saved := store.InsertMany(allBooks);
    if saved {
      assert store.docs == Stamped(allBooks, old(store.nextId));
    }
  }
}
