/** Package `pkg/pagination`: the metadata attached to a page of results. */
module Pagination {

  /** Go's `/` on `int`: the quotient truncated toward zero (Dafny's own
      `/` is Euclidean, which differs for a negative dividend or divisor). */
  function GoDiv(a: int, b: int): (q: int)
    requires b != 0
    ensures a >= 0 && b > 0 ==> q == a / b
    ensures (a >= 0) == (b > 0) || a == 0 ==> q >= 0
    ensures q * b == a - GoRem(a, b)
  {
    var m := (if a < 0 then -a else a) / (if b < 0 then -b else b);
    if (a < 0) != (b < 0) then -m else m
  }

  /** Go's `%` on `int`: the remainder has the sign of the dividend. */
  function GoRem(a: int, b: int): int
    requires b != 0
  {
    var m := (if a < 0 then -a else a) % (if b < 0 then -b else b);
    if a < 0 then -m else m
  }

  datatype PaginationMeta = PaginationMeta(
    totalItems: int,
    currentPage: int,
    itemsPerPage: int,
    totalPages: int,
    hasPreviousPage: bool,
    hasNextPage: bool,
    isFirstPage: bool,
    isLastPage: bool)

  datatype Paginated<T> = Paginated(data: seq<T>, meta: PaginationMeta)

  /** `newPaginationMeta`. The inputs are copied as they are; for a
      non-negative item count and a positive page size the page count is
      the ceiling of their quotient, which is zero exactly when there are no
      items. A page size of zero is a division by zero in the source. */
  function NewPaginationMeta(totalItems: int, currentPage: int, itemsPerPage: int): (r: PaginationMeta)
    requires itemsPerPage != 0
    ensures r.totalItems == totalItems && r.currentPage == currentPage && r.itemsPerPage == itemsPerPage
    ensures totalItems >= 0 && itemsPerPage > 0 ==>
              r.totalPages >= 0 && (r.totalPages - 1) * itemsPerPage < totalItems <= r.totalPages * itemsPerPage
    ensures r.hasPreviousPage == (currentPage > 1) && r.hasNextPage == (currentPage < r.totalPages)
    ensures r.isFirstPage == (currentPage == 1) && r.isLastPage == (currentPage == r.totalPages)
  {
    var totalPages := GoDiv(totalItems + itemsPerPage - 1, itemsPerPage);
    assert totalItems >= 0 && itemsPerPage > 0 ==>
             totalPages >= 0 && (totalPages - 1) * itemsPerPage < totalItems <= totalPages * itemsPerPage by {
      if totalItems >= 0 && itemsPerPage > 0 {
        CeilingBounds(totalItems, itemsPerPage);
      }
    }
    PaginationMeta(
      totalItems, currentPage, itemsPerPage, totalPages,
      currentPage > 1, currentPage < totalPages, currentPage == 1, currentPage == totalPages)
  }

  /** `(n + p - 1) / p` is the ceiling of `n / p`. */
  lemma CeilingBounds(n: int, p: int)
    requires n >= 0 && p > 0
    ensures var c := GoDiv(n + p - 1, p);
            c >= 0 && (c - 1) * p < n <= c * p
  {
    var a := n + p - 1;
    var c := a / p;
    var r := a % p;
    assert a == c * p + r && 0 <= r < p;
    assert (c - 1) * p == c * p - p;
  }

  /** `New`: the data goes out untouched beside its metadata. */
  function New<T>(data: seq<T>, totalItems: int, currentPage: int, itemsPerPage: int): (r: Paginated<T>)
    requires itemsPerPage != 0
    ensures r.data == data
    ensures r.meta.totalItems == totalItems && r.meta.currentPage == currentPage
            && r.meta.itemsPerPage == itemsPerPage
  {
    Paginated(data, NewPaginationMeta(totalItems, currentPage, itemsPerPage))
  }

  /** There are no pages exactly when there are no items. */
  lemma NoPagesIffNoItems(totalItems: int, currentPage: int, itemsPerPage: int)
    requires totalItems >= 0 && itemsPerPage > 0
    ensures NewPaginationMeta(totalItems, currentPage, itemsPerPage).totalPages == 0 <==> totalItems == 0
  {
  }

  /** On a page that exists, a next page is there exactly when this page is
      not the last one, and a previous page exactly when it is not the first. */
  lemma NavigationFlags(totalItems: int, currentPage: int, itemsPerPage: int)
    requires itemsPerPage != 0
    requires 1 <= currentPage <= NewPaginationMeta(totalItems, currentPage, itemsPerPage).totalPages
    ensures var m := NewPaginationMeta(totalItems, currentPage, itemsPerPage);
            m.hasNextPage == !m.isLastPage && m.hasPreviousPage == !m.isFirstPage
            && (m.isFirstPage <==> currentPage == 1) && (m.isLastPage <==> currentPage == m.totalPages)
  {
  }

  /** With no items there are no pages, and page 1 is first but, since the
      page count is zero, not last; no neighbour page is reported. */
  lemma EmptyCollection(itemsPerPage: int)
    requires itemsPerPage > 0
    ensures var m := NewPaginationMeta(0, 1, itemsPerPage);
            m.totalPages == 0 && m.isFirstPage && !m.isLastPage && !m.hasNextPage && !m.hasPreviousPage
  {
    CeilingBounds(0, itemsPerPage);
  }

  /** Every item lies on some page: the last page holds between one item
      and a full page. */
  lemma LastPageHolds(totalItems: int, itemsPerPage: int)
    requires totalItems > 0 && itemsPerPage > 0
    ensures var c := NewPaginationMeta(totalItems, 1, itemsPerPage).totalPages;
            c >= 1 && 0 < totalItems - (c - 1) * itemsPerPage <= itemsPerPage
  {
    var c := NewPaginationMeta(totalItems, 1, itemsPerPage).totalPages;
    assert (c - 1) * itemsPerPage == c * itemsPerPage - itemsPerPage;
  }
}
