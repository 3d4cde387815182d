/**
 * The browsing page of the web client (frontend/src/App.tsx): the state it
 * keeps, the handlers that change that state, the request `fetchBooks`
 * sends, and the pagination bar drawn under the results.
 *
 * A request goes straight to the modelled `GET /api/books` handler; the
 * network, the loading flag and the rendering are not modelled. Prices are
 * in pence, so the initial upper bound of 100 pounds is 10000.
 */
module App {
  import opened Wrappers
  import opened BookModel
  import opened Server

  /** Every request asks for 20 books. */
  const PageSize: nat := 20
  const InitialMaxPrice: int := 10000
  const FetchFailed: string := "Failed to fetch books. Make sure the backend is running!"

  // ---------------------------------------------------------------------------
  // the pagination bar

  /** One element of the bar: a button with the page it opens, or a run of dots. */
  datatype Control =
    | Previous(target: int)
    | PageButton(page: int, active: bool)
    | Dots
    | Next(target: int)

  /** One slot of the three-wide window: the button for `page` if that page exists, active when it is the current one. */
  function Slot(cur: int, page: int, total: int): seq<Control> {
    if 1 <= page <= total then [PageButton(page, cur == page)] else []
  }

  /**
   * The bar for page `cur` of `total`: "Previous", the first-page shortcut
   * and its dots, the window `cur - 1`, `cur`, `cur + 1`, the dots and the
   * last-page shortcut, "Next". The shortcuts are placed as if the window
   * reached `reach` pages on either side of the current one: the first page
   * gets a button when `cur > reach + 1` and dots when `cur > reach + 2`,
   * the last page a button when `cur < total - reach` and dots when
   * `cur < total - reach - 1`.
   */
  function Bar(cur: int, total: int, reach: int): (cs: seq<Control>)
    ensures |cs| <= 9
    ensures 1 <= cur <= total ==> PageButton(cur, true) in cs
  {
    Back(cur) + Lead(cur, reach) + Middle(cur, total) + Trail(cur, total, reach) + Forward(cur, total)
  }

  function Back(cur: int): seq<Control> {
    if cur > 1 then [Previous(cur - 1)] else []
  }

  function Lead(cur: int, reach: int): seq<Control> {
    if cur > reach + 1 then [PageButton(1, false)] + (if cur > reach + 2 then [Dots] else []) else []
  }

  function Middle(cur: int, total: int): seq<Control> {
    Slot(cur, cur - 1, total) + Slot(cur, cur, total) + Slot(cur, cur + 1, total)
  }

  function Trail(cur: int, total: int, reach: int): seq<Control> {
    if cur < total - reach then (if cur < total - reach - 1 then [Dots] else []) + [PageButton(total, false)] else []
  }

  function Forward(cur: int, total: int): seq<Control> {
    if cur < total then [Next(cur + 1)] else []
  }

  /**
   * The bar as the page draws it: first page from `currentPage > 3`, leading
   * dots from `currentPage > 4`, last page while `currentPage < totalPages - 2`,
   * trailing dots while `currentPage < totalPages - 3`.
   */
  function PaginationControls(cur: int, total: int): (cs: seq<Control>)
    ensures Dots in cs <==> cur > 4 || cur < total - 3
  {
    DotsOfBar(cur, total, 2);
    Bar(cur, total, 2)
  }

  /**
   * The bar with the shortcuts placed for the window the page actually
   * draws, which reaches one page on either side.
   */
  function GaplessControls(cur: int, total: int): (cs: seq<Control>)
    ensures Dots in cs <==> cur > 3 || cur < total - 2
  {
    DotsOfBar(cur, total, 1);
    Bar(cur, total, 1)
  }

  /** Dots come only from the shortcuts: before the window past `reach + 2`, after it before `total - reach - 1`. */
  lemma DotsOfBar(cur: int, total: int, reach: int)
    ensures Dots in Bar(cur, total, reach) <==> cur > reach + 2 || cur < total - reach - 1
  {
    assert Dots !in Back(cur) && Dots !in Middle(cur, total) && Dots !in Forward(cur, total);
    assert Dots in Lead(cur, reach) <==> cur > reach + 2;
    assert Dots in Trail(cur, total, reach) <==> cur < total - reach - 1;
  }

  // ---------------------------------------------------------------------------
  // reading a bar

  /** The elements `f` picks out of `s`, in order. */
  function Collect<A, B>(s: seq<A>, f: A -> Option<B>): (r: seq<B>)
    ensures |r| <= |s|
  {
    if s == [] then []
    else
      match f(s[0])
      case Some(b) => [b] + Collect(s[1..], f)
      case None => Collect(s[1..], f)
  }

  lemma {:induction false} CollectAppend<A, B>(s: seq<A>, t: seq<A>, f: A -> Option<B>)
    ensures Collect(s + t, f) == Collect(s, f) + Collect(t, f)
  {
    if s == [] {
      assert s + t == t;
    } else {
      var st := s + t;
      assert st[0] == s[0];
      assert st[1..] == s[1..] + t;
      CollectAppend(s[1..], t, f);
      var rest := Collect(s[1..], f);
      match f(s[0])
      case Some(b) =>
        assert [b] + (rest + Collect(t, f)) == [b] + rest + Collect(t, f);
      case None =>
    }
  }

  /** What a reader sees of the bar: the page numbers and the dots between them. */
  datatype Mark = Num(n: int) | Gap

  function MarkOf(c: Control): Option<Mark> {
    match c
    case PageButton(page, _) => Some(Num(page))
    case Dots => Some(Gap)
    case _ => None
  }

  function NumberOf(c: Control): Option<int> {
    if c.PageButton? then Some(c.page) else None
  }

  function ActiveOf(c: Control): Option<int> {
    if c.PageButton? && c.active then Some(c.page) else None
  }

  function TargetOf(c: Control): Option<int> {
    match c
    case Previous(t) => Some(t)
    case PageButton(page, _) => Some(page)
    case Dots => None
    case Next(t) => Some(t)
  }

  function Marks(cs: seq<Control>): seq<Mark> {
    Collect(cs, MarkOf)
  }

  /** The numbered buttons, in order. */
  function PageNumbers(cs: seq<Control>): seq<int> {
    Collect(cs, NumberOf)
  }

  /** The pages of the buttons marked active. */
  function ActivePages(cs: seq<Control>): seq<int> {
    Collect(cs, ActiveOf)
  }

  /** Every page a click on the bar can open. */
  function Targets(cs: seq<Control>): seq<int> {
    Collect(cs, TargetOf)
  }

  predicate Increasing(s: seq<int>) {
    forall i, j :: 0 <= i < j < |s| ==> s[i] < s[j]
  }

  /**
   * The page numbers read 1 first and `total` last, each number is the next
   * page after the one before it unless dots stand between them, and dots
   * stand only between two numbers that skip at least one page.
   */
  predicate Gapless(ms: seq<Mark>, total: int) {
    Chain(ms, 1, total)
  }

  /** A single element is read on its own. */
  lemma CollectOne<A, B>(x: A, f: A -> Option<B>)
    ensures Collect([x], f) == if f(x).Some? then [f(x).value] else []
  {
    assert [x][1..] == [];
  }

  /** The pieces of a bar are read one after the other. */
  lemma CollectFive<A, B>(a: seq<A>, b: seq<A>, c: seq<A>, d: seq<A>, e: seq<A>, f: A -> Option<B>)
    ensures Collect(a + b + c + d + e, f) == Collect(a, f) + Collect(b, f) + Collect(c, f) + Collect(d, f) + Collect(e, f)
  {
    CollectAppend(a + b + c + d, e, f);
    CollectAppend(a + b + c, d, f);
    CollectAppend(a + b, c, f);
    CollectAppend(a, b, f);
  }

  /** The pieces of a bar whose ends carry nothing `f` picks are read as the middle three. */
  lemma CollectInner<A, B>(a: seq<A>, b: seq<A>, c: seq<A>, d: seq<A>, e: seq<A>, f: A -> Option<B>)
    requires Collect(a, f) == [] && Collect(e, f) == []
    ensures Collect(a + b + c + d + e, f) == Collect(b, f) + Collect(c, f) + Collect(d, f)
  {
    CollectFive(a, b, c, d, e, f);
    var inner := Collect(b, f) + Collect(c, f) + Collect(d, f);
    assert [] + Collect(b, f) + Collect(c, f) + Collect(d, f) == inner;
    assert inner + [] == inner;
  }

  lemma ReadSlot(cur: int, page: int, total: int)
    ensures var s := Slot(cur, page, total);
      && PageNumbers(s) == (if 1 <= page <= total then [page] else [])
      && Targets(s) == PageNumbers(s)
      && ActivePages(s) == (if 1 <= page <= total && page == cur then [page] else [])
  {
    if 1 <= page <= total {
      var x := PageButton(page, cur == page);
      CollectOne(x, NumberOf);
      CollectOne(x, TargetOf);
      CollectOne(x, ActiveOf);
    }
  }

  lemma ReadLead(cur: int, reach: int)
    ensures var s := Lead(cur, reach);
      && PageNumbers(s) == (if cur > reach + 1 then [1] else [])
      && Targets(s) == PageNumbers(s)
      && ActivePages(s) == []
  {
    if cur > reach + 1 {
      var x := PageButton(1, false);
      CollectOne(x, NumberOf);
      CollectOne(x, TargetOf);
      CollectOne(x, ActiveOf);
      if cur > reach + 2 {
        CollectOne(Dots, NumberOf);
        CollectOne(Dots, TargetOf);
        CollectOne(Dots, ActiveOf);
        CollectFive([x], [Dots], [], [], [], NumberOf);
        CollectFive([x], [Dots], [], [], [], TargetOf);
        CollectFive([x], [Dots], [], [], [], ActiveOf);
        assert Lead(cur, reach) == [x] + [Dots] + [] + [] + [];
      }
    }
  }

  lemma ReadTrail(cur: int, total: int, reach: int)
    ensures var s := Trail(cur, total, reach);
      && PageNumbers(s) == (if cur < total - reach then [total] else [])
      && Targets(s) == PageNumbers(s)
      && ActivePages(s) == []
  {
    if cur < total - reach {
      var x := PageButton(total, false);
      CollectOne(x, NumberOf);
      CollectOne(x, TargetOf);
      CollectOne(x, ActiveOf);
      if cur < total - reach - 1 {
        CollectOne(Dots, NumberOf);
        CollectOne(Dots, TargetOf);
        CollectOne(Dots, ActiveOf);
        CollectFive([Dots], [x], [], [], [], NumberOf);
        CollectFive([Dots], [x], [], [], [], TargetOf);
        CollectFive([Dots], [x], [], [], [], ActiveOf);
        assert Trail(cur, total, reach) == [Dots] + [x] + [] + [] + [];
      }
    }
  }

  /** The arrows open the pages either side of the current one. */
  lemma ReadEnds(cur: int, total: int)
    ensures Targets(Back(cur)) == if cur > 1 then [cur - 1] else []
    ensures Targets(Forward(cur, total)) == if cur < total then [cur + 1] else []
  {
    if cur > 1 {
      CollectOne(Previous(cur - 1), TargetOf);
    }
    if cur < total {
      CollectOne(Next(cur + 1), TargetOf);
    }
  }

  /** How a reader sees the window: the pages around the current one that exist. */
  lemma ReadMiddle(cur: int, total: int)
    ensures var s := Middle(cur, total);
      && PageNumbers(s) == (if 1 <= cur - 1 <= total then [cur - 1] else []) + (if 1 <= cur <= total then [cur] else [])
                         + (if 1 <= cur + 1 <= total then [cur + 1] else [])
      && Targets(s) == PageNumbers(s)
      && ActivePages(s) == (if 1 <= cur <= total then [cur] else [])
  {
    var a, b, c := Slot(cur, cur - 1, total), Slot(cur, cur, total), Slot(cur, cur + 1, total);
    ReadSlot(cur, cur - 1, total);
    ReadSlot(cur, cur, total);
    ReadSlot(cur, cur + 1, total);
    assert Middle(cur, total) == a + b + c + [] + [];
    CollectFive(a, b, c, [], [], NumberOf);
    CollectFive(a, b, c, [], [], TargetOf);
    CollectFive(a, b, c, [], [], ActiveOf);
  }

  // What a reader sees of each piece, written out.

  function NumIf(page: int, total: int): seq<Mark> {
    if 1 <= page <= total then [Num(page)] else []
  }

  function LeadMarks(cur: int, reach: int): seq<Mark> {
    if cur > reach + 1 then [Num(1)] + (if cur > reach + 2 then [Gap] else []) else []
  }

  function WindowMarks(cur: int, total: int): seq<Mark> {
    NumIf(cur - 1, total) + NumIf(cur, total) + NumIf(cur + 1, total)
  }

  function TrailMarks(cur: int, total: int, reach: int): seq<Mark> {
    if cur < total - reach then (if cur < total - reach - 1 then [Gap] else []) + [Num(total)] else []
  }

  lemma MarksOfSlot(cur: int, page: int, total: int)
    ensures Marks(Slot(cur, page, total)) == NumIf(page, total)
  {
    if 1 <= page <= total {
      CollectOne(PageButton(page, cur == page), MarkOf);
    }
  }

  lemma MarksOfLead(cur: int, reach: int)
    ensures Marks(Lead(cur, reach)) == LeadMarks(cur, reach)
  {
    if cur > reach + 1 {
      var x := PageButton(1, false);
      CollectOne(x, MarkOf);
      if cur > reach + 2 {
        CollectOne(Dots, MarkOf);
        CollectFive([x], [Dots], [], [], [], MarkOf);
        assert Lead(cur, reach) == [x] + [Dots] + [] + [] + [];
      }
    }
  }

  lemma MarksOfTrail(cur: int, total: int, reach: int)
    ensures Marks(Trail(cur, total, reach)) == TrailMarks(cur, total, reach)
  {
    if cur < total - reach {
      var x := PageButton(total, false);
      CollectOne(x, MarkOf);
      if cur < total - reach - 1 {
        CollectOne(Dots, MarkOf);
        CollectFive([Dots], [x], [], [], [], MarkOf);
        assert Trail(cur, total, reach) == [Dots] + [x] + [] + [] + [];
      }
    }
  }

  lemma MarksOfMiddle(cur: int, total: int)
    ensures Marks(Middle(cur, total)) == WindowMarks(cur, total)
  {
    var a, b, c := Slot(cur, cur - 1, total), Slot(cur, cur, total), Slot(cur, cur + 1, total);
    MarksOfSlot(cur, cur - 1, total);
    MarksOfSlot(cur, cur, total);
    MarksOfSlot(cur, cur + 1, total);
    assert Middle(cur, total) == a + b + c + [] + [];
    CollectFive(a, b, c, [], [], MarkOf);
  }

  /** A reader sees the numbers and dots of the shortcuts and the window; the arrows carry neither. */
  lemma ReadBarMarks(cur: int, total: int, reach: int)
    ensures Marks(Bar(cur, total, reach)) == LeadMarks(cur, reach) + WindowMarks(cur, total) + TrailMarks(cur, total, reach)
  {
    CollectNone(Back(cur), MarkOf);
    CollectNone(Forward(cur, total), MarkOf);
    CollectInner(Back(cur), Lead(cur, reach), Middle(cur, total), Trail(cur, total, reach), Forward(cur, total), MarkOf);
    MarksOfLead(cur, reach);
    MarksOfMiddle(cur, total);
    MarksOfTrail(cur, total, reach);
  }

  lemma ReadBarNumbers(cur: int, total: int, reach: int)
    ensures PageNumbers(Bar(cur, total, reach))
         == PageNumbers(Lead(cur, reach)) + PageNumbers(Middle(cur, total)) + PageNumbers(Trail(cur, total, reach))
  {
    CollectNone(Back(cur), NumberOf);
    CollectNone(Forward(cur, total), NumberOf);
    CollectInner(Back(cur), Lead(cur, reach), Middle(cur, total), Trail(cur, total, reach), Forward(cur, total), NumberOf);
  }

  lemma ReadBarActive(cur: int, total: int, reach: int)
    ensures ActivePages(Bar(cur, total, reach)) == ActivePages(Middle(cur, total))
  {
    CollectNone(Back(cur), ActiveOf);
    CollectNone(Lead(cur, reach), ActiveOf);
    CollectNone(Trail(cur, total, reach), ActiveOf);
    CollectNone(Forward(cur, total), ActiveOf);
    CollectFive(Back(cur), Lead(cur, reach), Middle(cur, total), Trail(cur, total, reach), Forward(cur, total), ActiveOf);
  }

  /** The buttons between the arrows open the pages they are numbered with. */
  lemma ReadBarTargets(cur: int, total: int, reach: int)
    ensures Targets(Bar(cur, total, reach))
         == Targets(Back(cur)) + PageNumbers(Lead(cur, reach)) + PageNumbers(Middle(cur, total))
          + PageNumbers(Trail(cur, total, reach)) + Targets(Forward(cur, total))
  {
    ReadLead(cur, reach);
    ReadMiddle(cur, total);
    ReadTrail(cur, total, reach);
    CollectFive(Back(cur), Lead(cur, reach), Middle(cur, total), Trail(cur, total, reach), Forward(cur, total), TargetOf);
  }

  // ---------------------------------------------------------------------------
  // runs of page numbers

  /** Consecutive marks: numbers one apart, or two numbers at least two apart with dots between. */
  predicate Steps(ms: seq<Mark>) {
    && (forall i :: 0 <= i < |ms| - 1 && ms[i].Num? && ms[i + 1].Num? ==> ms[i + 1].n == ms[i].n + 1)
    && (forall i :: 0 < i < |ms| - 1 && ms[i].Gap? ==>
          ms[i - 1].Num? && ms[i + 1].Num? && ms[i + 1].n > ms[i - 1].n + 1)
  }

  /** The marks read from page `first` to page `last`, with dots for every skipped run. */
  predicate Chain(ms: seq<Mark>, first: int, last: int) {
    |ms| > 0 && ms[0] == Num(first) && ms[|ms| - 1] == Num(last) && Steps(ms)
  }

  lemma ChainOne(n: int)
    ensures Chain([Num(n)], n, n)
  {
  }

  lemma JoinChains(a: seq<Mark>, b: seq<Mark>, lo: int, x: int, hi: int)
    requires Chain(a, lo, x) && Chain(b, x + 1, hi)
    ensures Chain(a + b, lo, hi)
  {
    var ab := a + b;
    forall i | 0 <= i < |ab| - 1 && ab[i].Num? && ab[i + 1].Num?
      ensures ab[i + 1].n == ab[i].n + 1
    {
      if i < |a| - 1 {
        assert ab[i] == a[i] && ab[i + 1] == a[i + 1];
      } else if i >= |a| {
        assert ab[i] == b[i - |a|] && ab[i + 1] == b[i - |a| + 1];
      }
    }
    forall i | 0 < i < |ab| - 1 && ab[i].Gap?
      ensures ab[i - 1].Num? && ab[i + 1].Num? && ab[i + 1].n > ab[i - 1].n + 1
    {
      if i < |a| - 1 {
        assert ab[i - 1] == a[i - 1] && ab[i] == a[i] && ab[i + 1] == a[i + 1];
      } else if i > |a| {
        assert ab[i - 1] == b[i - |a| - 1] && ab[i] == b[i - |a|] && ab[i + 1] == b[i - |a| + 1];
      }
    }
  }

  lemma JoinChainsWithGap(a: seq<Mark>, b: seq<Mark>, lo: int, x: int, y: int, hi: int)
    requires Chain(a, lo, x) && Chain(b, y, hi) && y > x + 1
    ensures Chain(a + [Gap] + b, lo, hi)
  {
    var ab := a + [Gap] + b;
    forall i | 0 <= i < |ab| - 1 && ab[i].Num? && ab[i + 1].Num?
      ensures ab[i + 1].n == ab[i].n + 1
    {
      if i < |a| - 1 {
        assert ab[i] == a[i] && ab[i + 1] == a[i + 1];
      } else if i > |a| {
        assert ab[i] == b[i - |a| - 1] && ab[i + 1] == b[i - |a|];
      }
    }
    forall i | 0 < i < |ab| - 1 && ab[i].Gap?
      ensures ab[i - 1].Num? && ab[i + 1].Num? && ab[i + 1].n > ab[i - 1].n + 1
    {
      if i < |a| - 1 {
        assert ab[i - 1] == a[i - 1] && ab[i] == a[i] && ab[i + 1] == a[i + 1];
      } else if i > |a| + 1 {
        assert ab[i - 1] == b[i - |a| - 2] && ab[i] == b[i - |a| - 1] && ab[i + 1] == b[i - |a|];
      } else if i == |a| {
        assert ab[i - 1] == a[|a| - 1] && ab[i + 1] == b[0];
      }
    }
  }

  lemma JoinChainsAcrossGap(a: seq<Mark>, b: seq<Mark>, lo: int, x: int, y: int, hi: int)
    requires Chain(a, lo, x) && Chain(b, y, hi) && y > x + 1
    ensures Chain(a + ([Gap] + b), lo, hi)
  {
    JoinChainsWithGap(a, b, lo, x, y, hi);
    assert a + ([Gap] + b) == a + [Gap] + b;
  }

  // ---------------------------------------------------------------------------
  // what the bar promises

  function PreviousOf(c: Control): Option<int> {
    if c.Previous? then Some(c.target) else None
  }

  function NextOf(c: Control): Option<int> {
    if c.Next? then Some(c.target) else None
  }

  /** Nothing is picked out of a piece none of whose elements `f` picks. */
  lemma {:induction false} CollectNone<A, B>(s: seq<A>, f: A -> Option<B>)
    requires forall x :: x in s ==> f(x).None?
    ensures Collect(s, f) == []
  {
    if s != [] {
      assert s[0] in s;
      assert forall x :: x in s[1..] ==> x in s;
      CollectNone(s[1..], f);
    }
  }

  /** The shortcuts, the dots and the window carry no arrow. */
  lemma NoArrowsInside(cur: int, total: int, reach: int)
    ensures Collect(Lead(cur, reach), PreviousOf) == [] && Collect(Lead(cur, reach), NextOf) == []
    ensures Collect(Middle(cur, total), PreviousOf) == [] && Collect(Middle(cur, total), NextOf) == []
    ensures Collect(Trail(cur, total, reach), PreviousOf) == [] && Collect(Trail(cur, total, reach), NextOf) == []
  {
    CollectNone(Lead(cur, reach), PreviousOf);
    CollectNone(Lead(cur, reach), NextOf);
    CollectNone(Middle(cur, total), PreviousOf);
    CollectNone(Middle(cur, total), NextOf);
    CollectNone(Trail(cur, total, reach), PreviousOf);
    CollectNone(Trail(cur, total, reach), NextOf);
  }

  /** The bar holds one "Previous", first, exactly when there is a page before, and it opens that page. */
  lemma PreviousButton(cur: int, total: int, reach: int)
    ensures Collect(Bar(cur, total, reach), PreviousOf) == if cur > 1 then [cur - 1] else []
    ensures cur > 1 ==> Bar(cur, total, reach)[0] == Previous(cur - 1)
  {
    NoArrowsInside(cur, total, reach);
    CollectFive(Back(cur), Lead(cur, reach), Middle(cur, total), Trail(cur, total, reach), Forward(cur, total), PreviousOf);
    if cur > 1 {
      CollectOne(Previous(cur - 1), PreviousOf);
    }
    if cur < total {
      CollectOne(Next(cur + 1), PreviousOf);
    }
  }

  /** The bar holds one "Next", last, exactly when there is a page after, and it opens that page. */
  lemma NextButton(cur: int, total: int, reach: int)
    ensures Collect(Bar(cur, total, reach), NextOf) == if cur < total then [cur + 1] else []
    ensures cur < total ==> var cs := Bar(cur, total, reach); cs[|cs| - 1] == Next(cur + 1)
  {
    NoArrowsInside(cur, total, reach);
    CollectFive(Back(cur), Lead(cur, reach), Middle(cur, total), Trail(cur, total, reach), Forward(cur, total), NextOf);
    if cur > 1 {
      CollectOne(Previous(cur - 1), NextOf);
    }
    if cur < total {
      CollectOne(Next(cur + 1), NextOf);
    }
  }

  lemma IncreasingJoin(a: seq<int>, b: seq<int>)
    requires Increasing(a) && Increasing(b)
    requires |a| > 0 && |b| > 0 ==> a[|a| - 1] < b[0]
    ensures Increasing(a + b)
  {
    var ab := a + b;
    forall i, j | 0 <= i < j < |ab|
      ensures ab[i] < ab[j]
    {
      if j < |a| {
        assert ab[i] == a[i] && ab[j] == a[j];
      } else if i >= |a| {
        assert ab[i] == b[i - |a|] && ab[j] == b[j - |a|];
      } else {
        assert ab[i] == a[i] <= a[|a| - 1] < b[0] <= b[j - |a|] == ab[j];
      }
    }
  }

  /** On a page that exists, exactly the current page is marked active. */
  lemma OneActivePage(cur: int, total: int, reach: int)
    requires 1 <= cur <= total
    ensures ActivePages(Bar(cur, total, reach)) == [cur]
  {
    ReadBarActive(cur, total, reach);
    ReadMiddle(cur, total);
  }

  /** The window's numbers climb from `cur - 1` at the least to `cur + 1` at the most. */
  lemma WindowNumbers(cur: int, total: int)
    ensures var w := PageNumbers(Middle(cur, total));
      && Increasing(w)
      && (forall k :: k in w ==> cur - 1 <= k <= cur + 1 && 1 <= k <= total)
      && (|w| > 0 ==> w[0] >= cur - 1 && w[|w| - 1] <= cur + 1)
  {
    ReadMiddle(cur, total);
  }

  /**
   * On a page that exists the page numbers are increasing, so none is drawn
   * twice, whenever the shortcuts stay outside the window (`reach >= 1`).
   */
  lemma PageNumbersInOrder(cur: int, total: int, reach: int)
    requires 1 <= cur <= total && reach >= 1
    ensures Increasing(PageNumbers(Bar(cur, total, reach)))
  {
    ReadBarNumbers(cur, total, reach);
    ReadLead(cur, reach);
    ReadTrail(cur, total, reach);
    WindowNumbers(cur, total);
    var lead := PageNumbers(Lead(cur, reach));
    var window := PageNumbers(Middle(cur, total));
    var trail := PageNumbers(Trail(cur, total, reach));
    IncreasingJoin(lead, window);
    IncreasingJoin(lead + window, trail);
  }

  /** On a page that exists every numbered button names a page that exists. */
  lemma PageNumbersExist(cur: int, total: int, reach: int)
    requires 1 <= cur <= total
    ensures forall k :: k in PageNumbers(Bar(cur, total, reach)) ==> 1 <= k <= total
  {
    ReadBarNumbers(cur, total, reach);
    ReadLead(cur, reach);
    ReadTrail(cur, total, reach);
    WindowNumbers(cur, total);
  }

  /** Every button opens a page that exists, on a page that exists. */
  lemma TargetsExist(cur: int, total: int, reach: int)
    requires 1 <= cur <= total
    ensures forall t :: t in Targets(Bar(cur, total, reach)) ==> 1 <= t <= total
  {
    ReadBarTargets(cur, total, reach);
    ReadBarNumbers(cur, total, reach);
    PageNumbersExist(cur, total, reach);
    ReadEnds(cur, total);
    forall t | t in Targets(Bar(cur, total, reach))
      ensures 1 <= t <= total
    {
      if t in PageNumbers(Lead(cur, reach)) || t in PageNumbers(Middle(cur, total)) || t in PageNumbers(Trail(cur, total, reach)) {
        assert t in PageNumbers(Bar(cur, total, reach));
      }
    }
  }

  /**
   * What a reader of the bar as drawn sees on a page that exists: page 1
   * comes first except on page 3, the last page comes last except two pages
   * before it, dots follow page 1 from page 5 on and precede the last page
   * up to four pages before it.
   */
  lemma AsDrawnMarks(cur: int, total: int)
    requires 1 <= cur <= total
    ensures var ms := Marks(PaginationControls(cur, total));
      && |ms| > 0
      && (ms[0] == Num(1) <==> cur != 3)
      && (ms[|ms| - 1] == Num(total) <==> cur != total - 2)
      && (|ms| > 1 && ms[1] == Gap <==> cur > 4)
      && (|ms| > 1 && ms[|ms| - 2] == Gap <==> cur < total - 3)
  {
    ReadBarMarks(cur, total, 2);
    AsDrawnFront(cur, total);
    AsDrawnBack(cur, total);
  }

  /** The window on a page that exists: the page before if any, the page, the page after if any. */
  lemma WindowShape(cur: int, total: int)
    requires 1 <= cur <= total
    ensures WindowMarks(cur, total) ==
      (if cur > 1 then [Num(cur - 1)] else []) + [Num(cur)] + (if cur < total then [Num(cur + 1)] else [])
  {
  }

  lemma AsDrawnFront(cur: int, total: int)
    requires 1 <= cur <= total
    ensures var ms := LeadMarks(cur, 2) + WindowMarks(cur, total) + TrailMarks(cur, total, 2);
      && (ms[0] == Num(1) <==> cur != 3)
      && (|ms| > 1 && ms[1] == Gap <==> cur > 4)
  {
    WindowShape(cur, total);
    var w, t := WindowMarks(cur, total), TrailMarks(cur, total, 2);
    if cur > 4 {
      assert LeadMarks(cur, 2) == [Num(1), Gap];
    } else if cur > 3 {
      assert LeadMarks(cur, 2) + w + t == [Num(1)] + w + t;
      assert w[0] == Num(cur - 1);
    } else if cur > 1 {
      assert LeadMarks(cur, 2) + w + t == w + t;
      assert w[0] == Num(cur - 1) && w[1] == Num(cur);
    } else if cur < total {
      assert LeadMarks(cur, 2) + w + t == w + t;
      assert w[0] == Num(1) && w[1] == Num(2);
    } else {
      assert LeadMarks(cur, 2) + w + t == [Num(1)];
    }
  }

  lemma AsDrawnBack(cur: int, total: int)
    requires 1 <= cur <= total
    ensures var ms := LeadMarks(cur, 2) + WindowMarks(cur, total) + TrailMarks(cur, total, 2);
      && (ms[|ms| - 1] == Num(total) <==> cur != total - 2)
      && (|ms| > 1 && ms[|ms| - 2] == Gap <==> cur < total - 3)
  {
    WindowShape(cur, total);
    var l, w := LeadMarks(cur, 2), WindowMarks(cur, total);
    var ms := l + w + TrailMarks(cur, total, 2);
    if cur < total - 3 {
      assert ms == l + w + [Gap, Num(total)];
    } else if cur < total - 2 {
      assert ms == l + w + [Num(total)];
      assert w[|w| - 1] == Num(cur + 1);
    } else if cur < total {
      assert ms == l + w;
      assert w[|w| - 1] == Num(cur + 1) && w[|w| - 2] == Num(cur);
    } else if cur > 1 {
      assert ms == l + w;
      assert w[|w| - 1] == Num(total) && w[|w| - 2] == Num(total - 1);
    } else {
      assert ms == [Num(1)];
    }
  }

  // ---------------------------------------------------------------------------
  // the bar as drawn hides pages, and the bar with the shortcuts moved in

  /** On page 3 of 5 the bar draws 2, 3, 4 only: neither page 1 nor page 5 has a button. */
  lemma AsDrawnHidesEnds()
    ensures Marks(PaginationControls(3, 5)) == [Num(2), Num(3), Num(4)]
    ensures !Gapless(Marks(PaginationControls(3, 5)), 5)
  {
    ReadBarMarks(3, 5, 2);
  }

  /** On page 4 of 7 the bar draws 1, 3, 4, 5, 7: pages 2 and 6 are skipped without dots. */
  lemma AsDrawnSkipsWithoutDots()
    ensures Marks(PaginationControls(4, 7)) == [Num(1), Num(3), Num(4), Num(5), Num(7)]
    ensures !Gapless(Marks(PaginationControls(4, 7)), 7)
  {
    ReadBarMarks(4, 7, 2);
    var ms := Marks(PaginationControls(4, 7));
    assert ms[0].Num? && ms[1].Num? && ms[1].n != ms[0].n + 1;
  }

  /** Placing the shortcuts for a wider window never adds an element, and changes the bar only on four pages. */
  lemma ShortcutsShrink(cur: int, total: int)
    ensures |Lead(cur, 2)| <= |Lead(cur, 1)| && |Trail(cur, total, 2)| <= |Trail(cur, total, 1)|
    ensures Lead(cur, 2) == Lead(cur, 1) <==> cur != 3 && cur != 4
    ensures Trail(cur, total, 2) == Trail(cur, total, 1) <==> cur != total - 3 && cur != total - 2
  {
    if cur == 3 || cur == 4 {
      assert |Lead(cur, 2)| < |Lead(cur, 1)|;
    }
    if cur == total - 3 || cur == total - 2 {
      assert |Trail(cur, total, 2)| < |Trail(cur, total, 1)|;
    }
  }

  /** The drawn bar and the corrected one differ exactly on pages 3 and 4 and three and two pages before the last. */
  lemma AsDrawnAgrees(cur: int, total: int)
    ensures PaginationControls(cur, total) == GaplessControls(cur, total) <==>
      cur != 3 && cur != 4 && cur != total - 3 && cur != total - 2
  {
    ShortcutsShrink(cur, total);
    var a, b := PaginationControls(cur, total), GaplessControls(cur, total);
    assert |a| == |Back(cur)| + |Lead(cur, 2)| + |Middle(cur, total)| + |Trail(cur, total, 2)| + |Forward(cur, total)|;
    assert |b| == |Back(cur)| + |Lead(cur, 1)| + |Middle(cur, total)| + |Trail(cur, total, 1)| + |Forward(cur, total)|;
  }

  /**
   * With the shortcuts placed for the window as drawn, the bar on any page
   * that exists starts at page 1, ends at the last page, and marks every
   * skipped run of pages with dots.
   */
  lemma GaplessBar(cur: int, total: int)
    requires 1 <= cur <= total
    ensures Gapless(Marks(GaplessControls(cur, total)), total)
  {
    var hi := if cur < total then cur + 1 else cur;
    var left := LeadMarks(cur, 1) + WindowMarks(cur, total);
    ReadBarMarks(cur, total, 1);
    LeftChain(cur, total);
    if cur < total - 2 {
      ChainOne(total);
      JoinChainsAcrossGap(left, [Num(total)], 1, hi, total, total);
    } else if cur == total - 2 {
      ChainOne(total);
      JoinChains(left, [Num(total)], 1, hi, total);
    } else {
      assert left + TrailMarks(cur, total, 1) == left;
    }
  }

  /** The first-page shortcut and the window read from page 1 to the window's last page. */
  lemma LeftChain(cur: int, total: int)
    requires 1 <= cur <= total
    ensures Chain(LeadMarks(cur, 1) + WindowMarks(cur, total), 1, if cur < total then cur + 1 else cur)
  {
    if cur > 3 {
      LeftChainWithDots(cur, total);
    } else if cur == 3 {
      LeftChainAdjacent(cur, total);
    } else {
      LeftChainFromFirst(cur, total);
    }
  }

  lemma LeftChainWithDots(cur: int, total: int)
    requires 3 < cur <= total
    ensures Chain(LeadMarks(cur, 1) + WindowMarks(cur, total), 1, if cur < total then cur + 1 else cur)
  {
    var window := WindowMarks(cur, total);
    WindowChain(cur, total);
    ChainOne(1);
    JoinChainsWithGap([Num(1)], window, 1, 1, cur - 1, if cur < total then cur + 1 else cur);
    assert LeadMarks(cur, 1) + window == [Num(1)] + [Gap] + window;
  }

  lemma LeftChainAdjacent(cur: int, total: int)
    requires cur == 3 <= total
    ensures Chain(LeadMarks(cur, 1) + WindowMarks(cur, total), 1, if cur < total then cur + 1 else cur)
  {
    var window := WindowMarks(cur, total);
    WindowChain(cur, total);
    ChainOne(1);
    JoinChains([Num(1)], window, 1, 1, if cur < total then cur + 1 else cur);
    assert LeadMarks(cur, 1) + window == [Num(1)] + window;
  }

  lemma LeftChainFromFirst(cur: int, total: int)
    requires 1 <= cur <= 2 && cur <= total
    ensures Chain(LeadMarks(cur, 1) + WindowMarks(cur, total), 1, if cur < total then cur + 1 else cur)
  {
    var window, last := WindowMarks(cur, total), if cur < total then cur + 1 else cur;
    WindowChain(cur, total);
    assert Chain(window, 1, last);
    assert LeadMarks(cur, 1) + window == window;
  }

  /** The window reads as one run of consecutive pages. */
  lemma WindowChain(cur: int, total: int)
    requires 1 <= cur <= total
    ensures Chain(WindowMarks(cur, total), if cur > 1 then cur - 1 else cur, if cur < total then cur + 1 else cur)
  {
    if cur > 1 {
      WindowFromBefore(cur, total);
    } else {
      WindowFromCurrent(cur, total);
    }
  }

  lemma WindowFromBefore(cur: int, total: int)
    requires 1 < cur <= total
    ensures Chain(WindowMarks(cur, total), cur - 1, if cur < total then cur + 1 else cur)
  {
    var left := [Num(cur - 1)] + [Num(cur)];
    ChainOne(cur - 1);
    ChainOne(cur);
    JoinChains([Num(cur - 1)], [Num(cur)], cur - 1, cur - 1, cur);
    if cur < total {
      ChainOne(cur + 1);
      JoinChains(left, [Num(cur + 1)], cur - 1, cur, cur + 1);
      assert WindowMarks(cur, total) == left + [Num(cur + 1)];
    } else {
      assert WindowMarks(cur, total) == left;
    }
  }

  lemma WindowFromCurrent(cur: int, total: int)
    requires cur == 1 <= total
    ensures Chain(WindowMarks(cur, total), cur, if cur < total then cur + 1 else cur)
  {
    ChainOne(cur);
    if cur < total {
      ChainOne(cur + 1);
      JoinChains([Num(cur)], [Num(cur + 1)], cur, cur, cur + 1);
      assert WindowMarks(cur, total) == [Num(cur)] + [Num(cur + 1)];
    } else {
      assert WindowMarks(cur, total) == [Num(cur)];
    }
  }

  // ---------------------------------------------------------------------------
  // the page state

  class BrowserState {
    var currentPage: int
    var totalPages: int
    var totalBooks: nat
    var books: seq<Doc>
    var error: Option<string>
    var search: string
    var minRating: int
    var maxRating: int
    var minPrice: int
    var maxPrice: int
    var stock: string

    /** The initial state: page 1 of 1, no books, any title, 1 to 5 stars, 0 to 100 pounds, any stock. */
    constructor ()
      ensures currentPage == 1 && totalPages == 1 && totalBooks == 0 && books == [] && error == None
      ensures search == "" && minRating == 1 && maxRating == 5
      ensures minPrice == 0 && maxPrice == InitialMaxPrice && stock == "all"
    {
      currentPage, totalPages, totalBooks, books, error := 1, 1, 0, [], None;
      search, minRating, maxRating, minPrice, maxPrice, stock := "", 1, 5, 0, InitialMaxPrice, "all";
    }

    /** The query string `fetchBooks` sends: every parameter given, 20 to a page. */
    function Request(): (q: RawQuery)
      reads this`currentPage, this`search, this`minRating, this`maxRating, this`minPrice, this`maxPrice, this`stock
      ensures WithDefaults(q) == Params(currentPage, PageSize, search, minRating, maxRating, minPrice, maxPrice, stock)
    {
      var q := RawQuery(Some(currentPage), Some(PageSize), Some(search), Some(minRating),
        Some(maxRating), Some(minPrice), Some(maxPrice), Some(stock));
      GivenParametersKept(Params(currentPage, PageSize, search, minRating, maxRating, minPrice, maxPrice, stock));
      q
    }

    /** `setSearch`: the new search text; the page stays where it was. */
    method OnSearchChange(value: string)
      modifies this`search
      ensures search == value
      ensures Request() == old(Request()).(search := Some(value))
    {
      search := value;
    }

    /** The rating handler: new bounds, back to page 1. */
    method OnRatingChange(min: int, max: int)
      modifies this`minRating, this`maxRating, this`currentPage
      ensures minRating == min && maxRating == max && currentPage == 1
      ensures Request() == old(Request()).(page := Some(1), minRating := Some(min), maxRating := Some(max))
    {
      minRating, maxRating := min, max;
      currentPage := 1;
    }

    /** The price handler: new bounds, back to page 1. */
    method OnPriceChange(min: int, max: int)
      modifies this`minPrice, this`maxPrice, this`currentPage
      ensures minPrice == min && maxPrice == max && currentPage == 1
      ensures Request() == old(Request()).(page := Some(1), minPrice := Some(min), maxPrice := Some(max))
    {
      minPrice, maxPrice := min, max;
      currentPage := 1;
    }

    /** The stock handler: the new choice, back to page 1. */
    method OnStockChange(value: string)
      modifies this`stock, this`currentPage
      ensures stock == value && currentPage == 1
      ensures Request() == old(Request()).(page := Some(1), stock := Some(value))
    {
      stock := value;
      currentPage := 1;
    }

    /** `handlePageChange`: the page a bar button opens. */
    method OnPageChange(page: int)
      modifies this`currentPage
      ensures currentPage == page
      ensures Request() == old(Request()).(page := Some(page))
    {
      currentPage := page;
    }

    /**
     * `fetchBooks`: the listing for the current request replaces the books
     * and counts shown, or the error message is shown and the rest kept. A
     * null page count compares like 0 in the bar, so it is stored as 0.
     */
    method FetchBooks(docs: seq<Doc>)
      modifies this`books, this`totalPages, this`totalBooks, this`error
      ensures var r := BooksQuery(docs, WithDefaults(Request()));
        && (r.Success? ==> books == r.value.books && totalPages == r.value.totalPages.GetOr(0)
                           && totalBooks == r.value.totalBooks && error == None)
        && (r.Failure? ==> books == old(books) && totalPages == old(totalPages)
                           && totalBooks == old(totalBooks) && error == Some(FetchFailed))
    {
      var q := Request();
      var r := GetBooks(docs, q);
      match r {
        case Success(listing) =>
          books := listing.books;
          totalPages := listing.totalPages.GetOr(0);
          totalBooks := listing.totalBooks;
          error := None;
        case Failure(_) =>
          error := Some(FetchFailed);
      }
      assert Request() == q;
    }
  }

  // ---------------------------------------------------------------------------
  // the page and the server together

  /**
   * A fetch for page `k` of 20 shows that page of the matches and counts the
   * pages as the server does.
   */
  lemma FetchShowsPage(docs: seq<Doc>, p: Params)
    requires p.page >= 1 && p.limit == PageSize
    ensures BooksQuery(docs, p).Success?
    ensures BooksQuery(docs, p).value.books == PageOf(docs, p, p.page)
    ensures BooksQuery(docs, p).value.totalPages.GetOr(0) == CeilDiv(|Matching(docs, p)|, PageSize)
  {
    QueryFailsOnlyBeforeFirstPage(docs, p);
    assert p.(page := p.page) == p;
  }

  /**
   * After a fetch, every button of the bar on a page that exists opens a page
   * that holds at least one book.
   */
  lemma EveryButtonOpensBooks(docs: seq<Doc>, p: Params, reach: int)
    requires p.limit == PageSize
    requires 1 <= p.page <= CeilDiv(|Matching(docs, p)|, PageSize)
    ensures forall t :: t in Targets(Bar(p.page, CeilDiv(|Matching(docs, p)|, PageSize), reach)) ==>
      PageOf(docs, p, t) != []
  {
    var total := CeilDiv(|Matching(docs, p)|, PageSize);
    TargetsExist(p.page, total, reach);
    forall t | t in Targets(Bar(p.page, total, reach))
      ensures PageOf(docs, p, t) != []
    {
      PageWithinRangeNonEmpty(docs, p, t);
    }
  }
}
