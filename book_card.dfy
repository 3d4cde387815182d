/**
 * The book card of the web client (frontend/src/components/BookCard.tsx):
 * the star line drawn for a rating and the style class chosen for the stock
 * text. The detail view of frontend/src/App.tsx draws the same two things
 * with the same expressions.
 */
module BookCard {
  import opened Wrappers
  import opened Text
  import opened BookModel
  import opened Scraper

  const FullStar: char := '\U{2605}'
  const EmptyStar: char := '\U{2606}'

  /** `n` copies of `c`. */
  function Copies(c: char, n: nat): (s: string)
    ensures |s| == n
    ensures forall i :: 0 <= i < n ==> s[i] == c
  {
    if n == 0 then [] else [c] + Copies(c, n - 1)
  }

  /**
   * `c.repeat(n)` for a one-character string and an integer count: a
   * negative count is a RangeError, modelled as `None`.
   */
  function Repeat(c: char, n: int): (r: Option<string>)
    ensures r.Some? <==> n >= 0
    ensures r.Some? ==> |r.value| == n && forall i :: 0 <= i < n ==> r.value[i] == c
  {
    if n < 0 then None else Some(Copies(c, n))
  }

  /**
   * `renderStars(rating)`: `rating` full stars, then `5 - rating` empty ones.
   * Either count below zero throws; the line exists exactly for ratings 0 to 5.
   */
  function RenderStars(rating: int): (line: Option<string>)
    ensures line.Some? <==> 0 <= rating <= 5
    ensures line.Some? ==> |line.value| == 5
    ensures line.Some? ==> forall i :: 0 <= i < 5 ==> (line.value[i] == FullStar <==> i < rating)
    ensures line.Some? ==> forall i :: 0 <= i < 5 ==> (line.value[i] == EmptyStar <==> rating <= i)
  {
    match Repeat(FullStar, rating)
    case None => None
    case Some(full) =>
      match Repeat(EmptyStar, 5 - rating)
      case None => None
      case Some(empty) => Some(full + empty)
  }

  /** How many full stars a line holds. */
  function StarCount(s: string): (k: nat)
    ensures k <= |s|
  {
    if s == [] then 0 else (if s[0] == FullStar then 1 else 0) + StarCount(s[1..])
  }

  lemma {:induction false} StarCountAppend(a: string, b: string)
    ensures StarCount(a + b) == StarCount(a) + StarCount(b)
  {
    if a == [] {
      assert a + b == b;
    } else {
      StarCountAppend(a[1..], b);
      assert (a + b)[0] == a[0];
      assert (a + b)[1..] == a[1..] + b;
    }
  }

  lemma {:induction false} StarCountOfCopies(c: char, n: nat)
    ensures StarCount(Copies(c, n)) == if c == FullStar then n else 0
  {
    if n > 0 {
      StarCountOfCopies(c, n - 1);
      var s := Copies(c, n);
      assert s[0] == c && s[1..] == Copies(c, n - 1);
    }
  }

  /** Counting the full stars of a drawn line gives back the rating. */
  lemma {:induction false} StarsRoundTrip(rating: int)
    requires 0 <= rating <= 5
    ensures StarCount(RenderStars(rating).value) == rating
  {
    StarCountOfCopies(FullStar, rating);
    StarCountOfCopies(EmptyStar, 5 - rating);
    StarCountAppend(Copies(FullStar, rating), Copies(EmptyStar, 5 - rating));
  }

  /** Two ratings that draw the same line are the same rating. */
  lemma StarsInjective(r1: int, r2: int)
    requires RenderStars(r1).Some? && RenderStars(r1) == RenderStars(r2)
    ensures r1 == r2
  {
    StarsRoundTrip(r1);
    StarsRoundTrip(r2);
  }

  /** No stars is five empty stars; five stars is five full ones. */
  lemma StarsAtTheEnds()
    ensures RenderStars(0) == Some([EmptyStar, EmptyStar, EmptyStar, EmptyStar, EmptyStar])
    ensures RenderStars(5) == Some([FullStar, FullStar, FullStar, FullStar, FullStar])
  {
    assert RenderStars(0).value == [EmptyStar, EmptyStar, EmptyStar, EmptyStar, EmptyStar];
    assert RenderStars(5).value == [FullStar, FullStar, FullStar, FullStar, FullStar];
  }

  /** The style class of the stock line. */
  function StockClass(stock: string): (cls: string)
    ensures cls == "in-stock" || cls == "out-stock"
    ensures cls == "in-stock" <==> stock == InStock
  {
    if stock == InStock then "in-stock" else "out-stock"
  }

  /** Every scraped book draws a star line, and the line reads back as the star class of its node. */
  lemma ScrapedRatingDraws(n: ListingNode)
    ensures RenderStars(ExtractBook(n).rating).Some?
    ensures StarCount(RenderStars(ExtractBook(n).rating).value) ==
      if n.ratingTag.None? then 0 else RatingOf(ClassName(n.ratingTag.value))
  {
    StarsRoundTrip(ExtractBook(n).rating);
  }

  /** A scraped book is styled in stock exactly when its availability text mentions "In stock". */
  lemma ScrapedStockClass(n: ListingNode)
    ensures StockClass(ExtractBook(n).stock) == "in-stock" <==>
      n.availability.Some? && Contains(n.availability.value.textContent, InStock)
  {
    ExtractStock(n);
  }
}
