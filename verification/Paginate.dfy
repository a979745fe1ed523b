/** Cutting a list into pages. */
module Paginate {
  const DEFAULT_PAGE_SIZE: nat := 80

  datatype Page<T> = Page(items: seq<T>, total: nat, pages: nat, page: nat)

  function SizeOf(pageSize: int): (n: nat)
    ensures n > 0 && (pageSize > 0 ==> n == pageSize)
  {
    if pageSize <= 0 then DEFAULT_PAGE_SIZE else pageSize
  }

  function PageCount(total: nat, size: nat): (n: nat)
    requires size > 0
    ensures n >= 1
  {
    var whole := total / size + if total % size != 0 then 1 else 0;
    if whole < 1 then 1 else whole
  }

  function Clamp(page: int, pages: nat): (n: nat)
    requires pages >= 1
    ensures 1 <= n <= pages && (1 <= page <= pages ==> n == page)
    ensures (page < 1 ==> n == 1) && (page > pages ==> n == pages)
  {
    if page < 1 then 1 else if page > pages then pages else page
  }

  /** Where a page starts. */
  function StartOf(page: nat, size: nat): nat
    requires page >= 1
  {
    (page - 1) * size
  }

  /** slicePage. */
  function SlicePage<T>(all: seq<T>, page: int, pageSize: int): Page<T> {
    var size := SizeOf(pageSize);
    var pages := PageCount(|all|, size);
    var out := Clamp(page, pages);
    var start := StartOf(out, size);
    if start >= |all| then Page([], |all|, pages, out)
    else
      var end := if start + size > |all| then |all| else start + size;
      Page(all[start..end], |all|, pages, out)
  }

  /** The first `n` pages, one after the other. */
  function FirstPages<T>(all: seq<T>, pageSize: int, n: nat): seq<T> {
    if n == 0 then [] else FirstPages(all, pageSize, n - 1) + SlicePage(all, n, pageSize).items
  }

  /** Only the last page may end before a full page does, and it ends the list. */
  lemma PageBounds(total: nat, size: nat, page: nat)
    requires size > 0 && 1 <= page <= PageCount(total, size)
    ensures var pages := PageCount(total, size);
            && (page < pages ==> page * size < total)
            && (page == pages ==> (page - 1) * size <= total <= page * size)
            && (page == pages && total > 0 ==> (page - 1) * size < total)
  {
    var pages, q, r := PageCount(total, size), total / size, total % size;
    assert total == q * size + r && 0 <= r < size;
    assert pages == q || pages == q + 1;
    if page < pages {
      assert page <= q && (r == 0 ==> page < q);
      assert page * size <= q * size by { Monotone(page, q, size); }
      if r == 0 { Monotone(page + 1, q, size); }
    } else {
      assert q * size == (q - 1) * size + size;
      assert (q + 1) * size == q * size + size;
    }
  }

  lemma Monotone(a: nat, b: nat, c: nat)
    requires a <= b
    ensures a * c <= b * c && (a + 1) * c == a * c + c
  {
    assert b * c == a * c + (b - a) * c;
  }

  lemma PageItems<T>(all: seq<T>, pageSize: int, n: nat)
    requires 1 <= n <= PageCount(|all|, SizeOf(pageSize))
    ensures var size := SizeOf(pageSize);
            var start := StartOf(n, size);
            && start <= |all| && n * size == start + size
            && (n < PageCount(|all|, size) ==>
                  start + size <= |all| && SlicePage(all, n, pageSize).items == all[start..start + size])
            && (n == PageCount(|all|, size) ==> SlicePage(all, n, pageSize).items == all[start..])
  {
    var size := SizeOf(pageSize);
    var start := StartOf(n, size);
    PageBounds(|all|, size, n);
    Monotone(n - 1, n, size);
    hide PageCount, SizeOf;
    assert n * size == start + size;
    assert Clamp(n, PageCount(|all|, size)) == n;
    if start < |all| {
      assert all[start..] == all[start..|all|];
    }
  }

  /** The first `n` pages are the first `n * size` elements, as far as there are so many. */
  lemma {:induction false} PagesPrefix<T>(all: seq<T>, pageSize: int, n: nat)
    requires n <= PageCount(|all|, SizeOf(pageSize))
    ensures n < PageCount(|all|, SizeOf(pageSize)) ==>
              n * SizeOf(pageSize) <= |all| && FirstPages(all, pageSize, n) == all[..n * SizeOf(pageSize)]
    ensures n == PageCount(|all|, SizeOf(pageSize)) ==> FirstPages(all, pageSize, n) == all
  {
    hide PageCount, SlicePage, SizeOf;
    if n > 0 {
      PageItems(all, pageSize, n);
      PagesPrefix(all, pageSize, n - 1);
      var start := StartOf(n, SizeOf(pageSize));
      assert all == all[..start] + all[start..];
    }
  }

  /** The pages partition the list, every page but the last is full, the last is
      empty only when the list is, and any requested page is clamped into range. A
      page holds as many as asked for, or 80. */
  lemma PagesPartition<T>(all: seq<T>, pageSize: int, page: int)
    ensures var size := if pageSize > 0 then pageSize else 80;
            var p := SlicePage(all, page, pageSize);
            && p.total == |all| && 1 <= p.page <= p.pages
            && (p.page < p.pages ==> |p.items| == size)
            && |p.items| <= size && (p.items == [] ==> all == [])
            && (p.page == page || (p.page == 1 && page < 1) || (p.page == p.pages && page > p.pages))
            && p == SlicePage(all, p.page, pageSize)
            && FirstPages(all, pageSize, p.pages) == all
  {
    var size := SizeOf(pageSize);
    var pages := PageCount(|all|, size);
    var out := Clamp(page, pages);
    PageBounds(|all|, size, out);
    PagesPrefix(all, pageSize, pages);
    assert out * size == (out - 1) * size + size by { Monotone(out - 1, out, size); }
    hide PageCount;
  }
}
