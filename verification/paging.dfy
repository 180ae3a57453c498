/**
 * Django's `Paginator(object_list, per_page).get_page(number)` as every
 * listing view uses it: no orphans, an empty first page allowed. The
 * paginator's source is not part of this model; its documented behaviour
 * is encoded here: page k is the slice [per_page*(k-1), per_page*k), a
 * missing or non-integer page number selects page 1, and a number outside
 * 1..num_pages selects the last page.
 */
module Paging {

  /** Posts shown on one listing page (`POSTS_PER_PAGE`). */
  const PostsPerPage: nat := 10

  /** The `page` query parameter as the paginator receives it. */
  datatype PageParam = Absent | NotInteger | Number(n: int)

  /** One page of a listing: its 1-based number, its items, and how many pages there are. */
  datatype Page<T> = Page(number: nat, items: seq<T>, numPages: nat)

  function Min(a: int, b: int): int { if a <= b then a else b }

  /**
   * The number of pages for `count` records: the least number of
   * 10-record pages holding them all, and one page when there are none.
   */
  function NumPages(count: nat): (r: nat)
    ensures r >= 1
    ensures count == 0 ==> r == 1
    ensures count > 0 ==> (r - 1) * PostsPerPage < count <= r * PostsPerPage
  {
    if count == 0 then 1 else (count + PostsPerPage - 1) / PostsPerPage
  }

  /** The page number `get_page` settles on. */
  function ResolvePage(param: PageParam, count: nat): (k: nat)
    ensures 1 <= k <= NumPages(count)
    ensures param.Number? && 1 <= param.n <= NumPages(count) ==> k == param.n
    ensures !param.Number? ==> k == 1
  {
    match param
    case Absent => 1
    case NotInteger => 1
    case Number(n) => if 1 <= n <= NumPages(count) then n else NumPages(count)
  }

  /** Where page `k` starts in the listing. */
  lemma PageStartInRange(count: nat, k: nat)
    requires 1 <= k <= NumPages(count)
    ensures (k - 1) * PostsPerPage <= count
    ensures k < NumPages(count) ==> k * PostsPerPage <= count
  {
  }

  /** `Paginator.get_page(param)` over `items`. */
  function GetPage<T(!new)>(items: seq<T>, param: PageParam): (r: Page<T>)
    ensures r.numPages == NumPages(|items|)
    ensures 1 <= r.number <= r.numPages
    ensures param.Number? && 1 <= param.n <= r.numPages ==> r.number == param.n
    ensures param.Number? && !(1 <= param.n <= r.numPages) ==> r.number == r.numPages
    ensures !param.Number? ==> r.number == 1
    ensures |r.items| <= PostsPerPage
    ensures r.number < r.numPages ==> |r.items| == PostsPerPage
    ensures r.number == r.numPages ==> |r.items| == |items| - (r.number - 1) * PostsPerPage
    ensures forall i :: 0 <= i < |r.items| ==> r.items[i] == items[(r.number - 1) * PostsPerPage + i]
    ensures forall x :: x in r.items ==> x in items
  {
    var k := ResolvePage(param, |items|);
    PageStartInRange(|items|, k);
    var bottom := (k - 1) * PostsPerPage;
    var top := Min(bottom + PostsPerPage, |items|);
    Page(k, items[bottom..top], NumPages(|items|))
  }

  /** Clamping is idempotent: asking again for the page that was served serves it again. */
  lemma ResolveStable(param: PageParam, count: nat)
    ensures ResolvePage(Number(ResolvePage(param, count)), count) == ResolvePage(param, count)
  {
  }

  /** With more than one page of records, page 1 is full and page 2 holds the rest, up to a page. */
  lemma FirstAndSecondPage<T(!new)>(items: seq<T>)
    requires |items| > PostsPerPage
    ensures |GetPage(items, Absent).items| == PostsPerPage
    ensures |GetPage(items, Number(1)).items| == PostsPerPage
    ensures |GetPage(items, Number(2)).items| == Min(|items| - PostsPerPage, PostsPerPage)
  {
  }

  /** Every record sits on exactly the page its position says: record i is item i mod 10 of page i div 10 + 1. */
  lemma EveryItemOnItsPage<T(!new)>(items: seq<T>, i: nat)
    requires i < |items|
    ensures 1 <= i / PostsPerPage + 1 <= NumPages(|items|)
    ensures var page := GetPage(items, Number(i / PostsPerPage + 1));
      i % PostsPerPage < |page.items| && page.items[i % PostsPerPage] == items[i]
  {
  }

  /** Every record of the listing is served on some page. */
  lemma OnSomePage<T(!new)>(items: seq<T>, x: T)
    requires x in items
    ensures exists k :: 1 <= k <= NumPages(|items|) && x in GetPage(items, Number(k)).items
  {
    var i :| 0 <= i < |items| && items[i] == x;
    EveryItemOnItsPage(items, i);
    var k := i / PostsPerPage + 1;
    assert GetPage(items, Number(k)).items[i % PostsPerPage] == x;
  }

  /** Pages 1..n laid end to end. */
  function Pages<T(!new)>(items: seq<T>, n: nat): seq<T>
    requires n <= NumPages(|items|)
  {
    if n == 0 then [] else Pages(items, n - 1) + GetPage(items, Number(n)).items
  }

  /** Pages 1..n laid end to end are the first min(10n, count) records. */
  /** An in-range page is the slice of the listing between its start and the next page's start. */
  lemma PageIsSlice<T(!new)>(items: seq<T>, n: nat)
    requires 1 <= n <= NumPages(|items|)
    ensures (n - 1) * PostsPerPage <= Min(n * PostsPerPage, |items|)
    ensures GetPage(items, Number(n)).items == items[(n - 1) * PostsPerPage..Min(n * PostsPerPage, |items|)]
  {
    PageStartInRange(|items|, n);
  }

  /** Two adjacent slices from the front join into one prefix. */
  lemma JoinPrefix<T>(items: seq<T>, lo: nat, hi: nat)
    requires lo <= hi <= |items|
    ensures items[..lo] + items[lo..hi] == items[..hi]
  {
  }

  lemma {:induction false} PagesArePrefix<T(!new)>(items: seq<T>, n: nat)
    requires n <= NumPages(|items|)
    ensures Pages(items, n) == items[..Min(n * PostsPerPage, |items|)]
  {
    if n > 0 {
      PagesArePrefix(items, n - 1);
      PageIsSlice(items, n);
      var lo := (n - 1) * PostsPerPage;
      var hi := Min(n * PostsPerPage, |items|);
      assert Min(lo, |items|) == lo;
      JoinPrefix(items, lo, hi);
    }
  }

  /** The pages of a listing partition it: all of them laid end to end give back the listing. */
  lemma PagesCoverListing<T(!new)>(items: seq<T>)
    ensures Pages(items, NumPages(|items|)) == items
  {
    PagesArePrefix(items, NumPages(|items|));
    assert items[..|items|] == items;
  }
}
