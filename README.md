# Book scraper, modelled in Dafny

The modelled system has four parts:

- A scraper that walks the listing pages of books.toscrape.com and turns every product node into a book record. It then replaces the stored collection with what it found.
- An API server whose `GET /api/books` filters, sorts and pages the stored books, and whose `GET /api/books/:id` looks one book up.
- A web client that keeps the filter state, fetches one page of 20 books and draws a pagination bar.
- A book card that draws a rating as a line of stars and picks a style class for the stock text.

The project has one module per source file:

- `Wrappers`: the Option and Result types.
- `Text`: the JavaScript string operations the code relies on, namely `split`, `includes`, `trim`, lower-casing, decimal numerals and code-point order.
- `BookModel`: the book record and the store.
- `Scraper`: scraper/scraper.js.
- `Server`: backend/server.js.
- `App`: frontend/src/App.tsx.
- `BookCard`: frontend/src/components/BookCard.tsx.

Modelling choices:

- Prices are whole pence.
- The website is a finite list of listing pages. An address past the last page serves an empty page without a "next" marker.
- The stored collection is a sequence of documents, each with an identifier that the store hands out from a counter.
- The store's title sort is a stable sort in code-point order, so equal titles keep their store order.

## Model

| member | source | states |
|---|---|---|
| BookModel.Books | scraper/models/book.js:3-11 | the books of the stored documents, one per document |
| BookModel.Stamped | scraper/models/book.js:3-11 | inserted documents carry the given books in order, with consecutive fresh identifiers |
| BookModel.BookStore.DeleteMany | scraper/scraper.js:65 | the store is empty afterwards and its identifiers stay unique and below the counter |
| BookModel.BookStore.InsertMany | scraper/scraper.js:68 | every book is checked against the schema's required fields before any is written; the insert succeeds exactly when no book has an empty text field, and then the store gains one document per book, in order, after the old ones, with identifiers never used before; otherwise nothing changes |
| Scraper.PageUrl | scraper/scraper.js:22-24 | every address is on the site, and it is the site root exactly for page 1 |
| Scraper.PageUrlRoundTrip | scraper/scraper.js:22-24 | page 1 is the site root, page n is `catalogue/page-n.html`, and every address built reads back as its page number |
| Scraper.PageUrlInjective | scraper/scraper.js:22-24 | different pages are fetched from different addresses |
| Scraper.RatingOf | scraper/scraper.js:40-42 | the rating from the star class is always between 0 and 5, reading the table by its own words only |
| Scraper.RatingOfWord | scraper/scraper.js:41-42 | the rating is k exactly when the second space-separated class token is the k-th word of One..Five |
| Scraper.RatingOfStarClass | scraper/scraper.js:40-42 | the class `star-rating <Word>` reads back as its number of stars |
| Scraper.ExtractBook | scraper/scraper.js:32-49 | every node yields a book with rating in 0..5 (the table read by its own words), stock "In stock" or "Out of stock", and both URLs starting with the site base |
| Scraper.ExtractTitle | scraper/scraper.js:33 | the title is empty exactly when the link or its title attribute is missing or empty; otherwise it is that attribute |
| Scraper.ExtractStock | scraper/scraper.js:37-38 | the stock is "In stock" exactly when the availability text contains "In stock", whatever white space surrounds it |
| Scraper.ExtractUrls | scraper/scraper.js:44-47 | after the base, the URLs are the link's href and the image's src as concatenation renders them |
| Scraper.ExtractPage | scraper/scraper.js:30-32 | one book per listing node |
| Scraper.GotoPage | scraper/scraper.js:26 | opening the address of page n loads page n |
| Scraper.Harvest | scraper/scraper.js:53 | every collected book has one of the two stock texts and both addresses on the site, so the schema can only refuse it for an empty title |
| Scraper.HarvestLength | scraper/scraper.js:53 | the books collected from pages 1..n number as many as their listing nodes |
| Scraper.AddressOfPage | scraper/scraper.js:22-24 | the i-th visited address is that of page i+1 and names that page |
| Scraper.OpenPage | scraper/scraper.js:22-26 | the address built for page n, and the page it loads |
| Scraper.CrawlCatalog | scraper/scraper.js:15-59 | the loop visits pages 1..N in order and N is the first page without a next marker; every earlier page has one; the books are the pages' books concatenated in page order |
| Scraper.ScrapeBooksToScrape | scraper/scraper.js:15-68 | the crawl as above; the save succeeds exactly when every crawled book has a title, and then the store holds exactly the crawled books, in crawl order, under fresh identifiers; otherwise the store is left empty, because the delete has already run |
| Server.WithDefaults | backend/server.js:22-31 | each absent parameter takes its default on its own, whatever the others are: page 1, limit 20, empty search, rating 0 and 5, price 0 and 1000 pounds, stock "all" |
| Server.DefaultQuery | backend/server.js:22-31 | absent parameters mean page 1, limit 20, empty search, rating 0..5, price 0..1000 pounds, stock "all" |
| Server.GivenParametersKept | backend/server.js:22-31 | parameters that are present are used as given |
| Server.Matches | backend/server.js:33-44 | a request whose rating or price range is inverted matches nothing; a title shorter than a non-empty search never matches; a stock choice other than "all" keeps only "In stock" for "in-stock" and only "Out of stock" for any other value |
| Server.Admits | backend/server.js:33-44 | the filter document admits nothing when a range is inverted, and no title shorter than its title condition |
| Server.BuildFilter | backend/server.js:33-44 | the filter admits a book exactly when its rating and price lie in the inclusive ranges, its title contains the search (ignoring case) when the search is non-empty, and its stock is the one `stock` asks for unless "all" |
| Server.SelectAgrees | backend/server.js:46-51 | two filters that agree on every stored book select the same books |
| Server.SortByTitle | backend/server.js:49 | the sort keeps the number of documents and exactly the same documents |
| Server.SortByTitleSorts | backend/server.js:49 | sorting keeps exactly the same documents and puts them in ascending title order |
| Server.CeilDiv | backend/server.js:56 | there are never more pages than matches, and no pages exactly when nothing matches |
| Server.CeilDivBounds | backend/server.js:56 | the page count is the smallest number of pages of `limit` that holds all matches |
| Server.PagesCoverAll | backend/server.js:47-56 | reading pages 1..ceil(n/limit) of a sequence in turn gives back the sequence |
| Server.BooksQuery | backend/server.js:20-62 | the only failure is a 500; a listing echoes the page asked for, has a null page count exactly when no limit is set, and counts no more matches than are stored |
| Server.GetBooks | backend/server.js:20-62 | the handler answers with the listing the request asks for, or with a 500 |
| Server.ListingContents | backend/server.js:46-49 | a listing holds at most `limit` books, each a stored book the request matches, in ascending title order |
| Server.ListingWithinMatches | backend/server.js:46-57 | a listing never holds more books than `totalBooks`, the count of all matches |
| Server.QueryFailsOnlyBeforeFirstPage | backend/server.js:48-61 | a request fails exactly when a limit is set and the page is before the first, because the skip is then negative |
| Server.TotalIgnoresPaging | backend/server.js:51-57 | `totalBooks` is the number of all matches whatever page and limit were asked for |
| Server.MatchingIgnoresPaging | backend/server.js:33-51 | which books match does not depend on page or limit |
| Server.PageOfIsWindow | backend/server.js:46-49 | page k is the k-th window of `limit` of the sorted matches |
| Server.PagesOfAreWindows | backend/server.js:46-49 | pages 1..n of a request read in turn are the first n windows of the sorted matches |
| Server.PaginationLaw | backend/server.js:46-57 | with a limit set, pages 1..totalPages read in turn are exactly the sorted matches, each match once and nothing else |
| Server.PagePastTheEndIsEmpty | backend/server.js:46-56 | a page after `totalPages` is empty |
| Server.PageWithinRangeNonEmpty | backend/server.js:46-56 | every page from 1 to `totalPages` holds at least one book |
| Server.FindById | backend/server.js:66 | a found document is stored and has the identifier; none found means no stored document has it |
| Server.GetBookById | backend/server.js:64-74 | a malformed identifier is a 500; a book returned is stored and carries the identifier; a 404 "Book not found" comes only when no stored book carries it |
| Server.LookupById | backend/server.js:64-74 | with unique identifiers, a stored identifier returns its document and any other identifier is a 404 "Book not found" |
| Server.StaleIdNotFound | backend/server.js:66-69 | an identifier older than every stored document is a 404 |
| App.Bar | frontend/src/App.tsx:152-203 | the bar has at most nine elements, and on a page that exists the current page's button is among them, marked active |
| App.PaginationControls | frontend/src/App.tsx:163-193 | the bar as drawn has dots exactly when currentPage > 4 or currentPage < totalPages - 3 |
| App.GaplessControls | frontend/src/App.tsx:163-193 | the corrected bar has dots exactly when currentPage > 3 or currentPage < totalPages - 2 |
| App.PreviousButton | frontend/src/App.tsx:154-161 | the bar holds one "Previous" exactly when the page is after the first; it comes first and opens the page before |
| App.NextButton | frontend/src/App.tsx:195-202 | the bar holds one "Next" exactly when the page is before the last; it comes last and opens the page after |
| App.OneActivePage | frontend/src/App.tsx:170-184 | on a page that exists, exactly the current page is marked active |
| App.WindowNumbers | frontend/src/App.tsx:170-184 | the window's numbers increase, lie between cur-1 and cur+1, and name pages that exist |
| App.PageNumbersInOrder | frontend/src/App.tsx:163-193 | on a page that exists the page numbers increase along the bar, so no number is drawn twice |
| App.PageNumbersExist | frontend/src/App.tsx:163-193 | on a page that exists every numbered button names a page from 1 to totalPages |
| App.TargetsExist | frontend/src/App.tsx:152-203 | on a page that exists every button opens a page from 1 to totalPages |
| App.AsDrawnMarks | frontend/src/App.tsx:163-193 | the bar as drawn starts with page 1 except on page 3, ends with the last page except two before it, has leading dots from page 5 and trailing dots up to four before the last |
| App.AsDrawnHidesEnds | frontend/src/App.tsx:163-193 | on page 3 of 5 the bar draws only 2, 3, 4, so pages 1 and 5 have no button |
| App.AsDrawnSkipsWithoutDots | frontend/src/App.tsx:163-193 | on page 4 of 7 the bar draws 1, 3, 4, 5, 7, skipping pages 2 and 6 without dots |
| App.GaplessBar | frontend/src/App.tsx:163-193 | the corrected bar reads 1 first and totalPages last, consecutive numbers are adjacent pages, and dots stand exactly where pages are skipped |
| App.ShortcutsShrink | frontend/src/App.tsx:163-193 | the corrected shortcuts differ from the written ones only on pages 3, 4, total-3 and total-2, where they add elements |
| App.AsDrawnAgrees | frontend/src/App.tsx:163-193 | the written and corrected bars are equal exactly off pages 3, 4, total-3 and total-2 |
| App.BrowserState.constructor | frontend/src/App.tsx:12-23 | the initial state is page 1 of 1, no books, empty search, rating 1..5, price 0..100 pounds, stock "all" |
| App.BrowserState.Request | frontend/src/App.tsx:28-37 | every fetch sends the current page, limit 20 and the current filter values, and the server reads them back unchanged |
| App.BrowserState.OnSearchChange | frontend/src/App.tsx:114 | only the search changes; the page stays |
| App.BrowserState.OnRatingChange | frontend/src/App.tsx:115-119 | the new rating bounds, and back to page 1; nothing else in the request changes |
| App.BrowserState.OnPriceChange | frontend/src/App.tsx:120-124 | the new price bounds, and back to page 1; nothing else in the request changes |
| App.BrowserState.OnStockChange | frontend/src/App.tsx:125-128 | the new stock choice, and back to page 1; nothing else in the request changes |
| App.BrowserState.OnPageChange | frontend/src/App.tsx:58-61 | only the page changes, to the one the button opens |
| App.BrowserState.FetchBooks | frontend/src/App.tsx:25-48 | on success the listing's books and counts replace the shown ones and the error is cleared; on failure the message is shown and the rest kept |
| App.FetchShowsPage | frontend/src/App.tsx:28-40 | a fetch for page k of 20 succeeds, shows page k of the matches and counts the pages as ceil(matches / 20) |
| App.EveryButtonOpensBooks | frontend/src/App.tsx:152-203 | after a fetch, on a page that exists, every button of the bar opens a page holding at least one book |
| BookCard.Copies | frontend/src/components/BookCard.tsx:12 | n copies of a character |
| BookCard.Repeat | frontend/src/components/BookCard.tsx:12 | `repeat` fails with a RangeError exactly for a negative count, and otherwise gives exactly that many copies |
| BookCard.RenderStars | frontend/src/components/BookCard.tsx:11-13 | the line exists exactly for ratings 0..5; it has 5 characters, position i is a full star exactly when i < rating and an empty star otherwise (the same expression draws the stars at App.tsx:218) |
| BookCard.StarsRoundTrip | frontend/src/components/BookCard.tsx:12 | counting the full stars of a drawn line gives back the rating |
| BookCard.StarsInjective | frontend/src/components/BookCard.tsx:12 | different ratings draw different lines |
| BookCard.StarsAtTheEnds | frontend/src/components/BookCard.tsx:12 | rating 0 draws five empty stars and rating 5 five full ones |
| BookCard.StockClass | frontend/src/components/BookCard.tsx:24 | the class is "in-stock" exactly when the stock is "In stock", else "out-stock" (the same choice is made at App.tsx:219) |
| BookCard.ScrapedRatingDraws | scraper/scraper.js:40-42 | every scraped rating draws a star line, and the line reads back as the node's star class |
| BookCard.ScrapedStockClass | scraper/scraper.js:37-38 | a scraped book is styled in stock exactly when its availability text mentions "In stock" |
| Text.Split | scraper/scraper.js:42 | `split` gives at least one piece, and no piece holds the separator |
| Text.JoinSplit | scraper/scraper.js:42 | joining the pieces of `split` with the separator gives back the text |
| Text.SplitJoin | scraper/scraper.js:42 | splitting pieces joined with a separator they do not contain gives back the pieces |
| Text.TrimKeepsMarker | scraper/scraper.js:37-38 | trimming never changes whether the text contains a marker that starts and ends with a visible character |
| Text.Trim | scraper/scraper.js:37 | the trimmed text is never longer, has no white space at either end, and text without white space at its ends is kept as it is |
| Text.ContainsIgnoringCase | backend/server.js:39 | an exact occurrence is also a case-insensitive one, and a search longer than the title never occurs |
| Text.DecimalRoundTrip | scraper/scraper.js:24 | the numeral of a page number reads back as that number |
| Text.StringLeTotal | backend/server.js:49 | any two titles are ordered one way or the other |
| Text.StringLeTransitive | backend/server.js:49 | the title order is transitive |
| Text.StringLeAntisymmetric | backend/server.js:49 | titles ordered both ways are equal |

Helpers (`Server.Matching`, `Server.Select`, `Server.PageOf`, `Server.PagesOf`, `Scraper.Fetch`, `Scraper.Goto`, `App.Slot`, `App.Back`, `App.Lead`, `App.Middle`, `App.Trail`, `App.Forward`, `Collect`, `DotsOfBar`, `WindowShape`, `AsDrawnFront`, `AsDrawnBack`, `Extracted`, `Admissible`, the white-space position lemmas of `Trim`, `Concat`, `Window`, the chain-joining lemmas, the arithmetic lemmas and the piece-by-piece reading lemmas of the bar) have no row.

## Left out

- The browser is not modelled: Puppeteer, `page.goto`, `page.evaluate` and `querySelector`. Pages and listing nodes are input values, and every page loads. In the code a `page.goto` that fails rejects the scrape before `deleteMany` runs, so the store is left as it was.
- Console logging is not modelled.
- Prices: the `parseFloat` of the price text is left out. A node's price is given in pence, and a node without a price element has price 0. The code would produce NaN for unreadable price text. The schema refuses NaN, so in the code such a book makes `insertMany` fail and, as for an empty title, leaves the store empty after `deleteMany`; the model has no NaN and cannot take that path.
- Scraper.RatingOf: the `ratingMap` lookup is modelled as a lookup of the table's own five words, and any other token gives 0. In the code the lookup is on a plain object, so a token naming an inherited member (`constructor`, `toString`, `__proto__`) gives a function or `Object.prototype`, which `|| 0` keeps. The schema then refuses that rating, `insertMany` fails, and the store is left empty. Scraper.ExtractBook's 0..5 rating bound, and so ScrapedRatingDraws, hold only for the own-key reading. The site never serves such a class.
- Scraper.CrawlCatalog: the site is a finite list of pages. A site that offered a "next" marker forever would make the real loop run forever; the model cannot express that site.
- Scraper.ScrapeBooksToScrape: in the model the save fails only for an empty title. The failures from a NaN price or an inherited-member rating, described on the price and Scraper.RatingOf lines, cannot arise in the model; in the code they too leave the store empty.
- BookModel.BookStore.InsertMany: of the schema's checks, only `required` on the text fields is modelled. The casts of the number fields are not, because the model's numbers are always numbers (see the price and rating lines).
- The `scrapedAt` timestamp and the database's identifier format are not modelled. Identifiers are natural numbers from a counter.
- Query strings are not modelled. Parameters arrive as parsed integers, and the `parseInt`/`parseFloat`/`limit * 1` coercions, including NaN, are left out.
- A negative limit is not modelled, because the limit is a natural number.
- Server.Matches: `$regex` is modelled as a case-insensitive substring match, with ASCII case folding only. Regular-expression syntax in the search text is not interpreted.
- Server.SortByTitle: the store's order for equal titles is unspecified. The model keeps store order, which is one order the store may return, and the same order on every request. Server.PaginationLaw rests on that fixed tie order. In the code two page requests may order equal titles differently, so a book whose title ties with another can appear on two pages or on none.
- `Math.ceil` on a float division is integer ceiling division. A limit of 0 (no limit) gives a null page count.
- Server.GetBookById: an identifier the store cannot parse is a 500. Which texts are well-formed identifiers is not modelled.
- Scraper child processes, the cron schedule, the refresh endpoint, the health endpoint, Express routing, CORS and JSON serialisation are not modelled.
- Atomicity and concurrency are not modelled: a refresh running beside a query, and the gap between `deleteMany` and `insertMany`. In the client a fetch starts on every search keystroke and nothing cancels the earlier ones (frontend/src/App.tsx:25-52). Replies can arrive out of order, and an older reply then overwrites a newer one. In the model each fetch completes before the next handler runs.
- React rendering is not modelled: the loading flag, the result text, the book grid, the modal, `alert` and `window.scrollTo`.
- The refresh button handler is not modelled.
- The `useEffect` re-fetch is an explicit call of `FetchBooks` after a handler.
- App.BrowserState.FetchBooks: the network is not modelled. A failed request is the server's failure. A null page count (never sent for limit 20) is stored as 0.
- frontend/src/components/SearchFilters.tsx and frontend/src/services/api.ts are not part of this model. They only wire events and forward the request.

## Findings

| source | as written | input that shows it | evidently intended | confidence | as-written member | corrected member |
|---|---|---|---|---|---|---|
| frontend/src/App.tsx:163-168 | the first-page shortcut appears only when `currentPage > 3` and its dots only when `currentPage > 4`, although the window reaches only one page back | currentPage 3 of 5: no button for page 1 (window 2, 3, 4); currentPage 4 of 7: 1 then 3 with no dots for page 2 | page 1 always has a button, and dots stand exactly where pages are skipped (`> 2` and `> 3`) | medium, not executed | App.PaginationControls, App.AsDrawnHidesEnds, App.AsDrawnSkipsWithoutDots | App.GaplessControls, App.GaplessBar |
| frontend/src/App.tsx:186-193 | the last-page shortcut appears only when `currentPage < totalPages - 2` and its dots only when `currentPage < totalPages - 3`, although the window reaches only one page ahead | currentPage 3 of 5: no button for page 5; currentPage 4 of 7: 5 then 7 with no dots for page 6 | the last page always has a button, and dots stand exactly where pages are skipped (`< totalPages - 1` and `< totalPages - 2`) | medium, not executed | App.PaginationControls, App.AsDrawnHidesEnds, App.AsDrawnSkipsWithoutDots | App.GaplessControls, App.GaplessBar |

The bar lemmas (`PreviousButton`, `NextButton`, `OneActivePage`, `PageNumbersInOrder`, `PageNumbersExist`, `TargetsExist`, `EveryButtonOpensBooks`) hold for both placements of the shortcuts. They take the reach as a parameter.
