/**
  Pages of an ordered result list (src/modules/orders/orders.service.ts and
  src/modules/products/products.service.ts, `findAll`).
 */
module Paging {
  import Prelude

  /** `skip: (page - 1) * limit, take: limit`. */
  function Page<T>(list: seq<T>, page: nat, limit: nat): seq<T>
    requires page >= 1 && limit >= 1
  {
    var skip := (page - 1) * limit;
    list[Prelude.Min(skip, |list|)..Prelude.Min(skip + limit, |list|)]
  }

  /** `Math.ceil(total / limit)`. */
  function TotalPages(total: nat, limit: nat): nat
    requires limit >= 1
  {
    (total + limit - 1) / limit
  }

  function Pages<T>(list: seq<T>, limit: nat, n: nat): seq<T>
    requires limit >= 1
  {
    if n == 0 then [] else Pages(list, limit, n - 1) + Page(list, n, limit)
  }

  /** The ceiling: enough pages for everything, and one fewer would not do. */
  lemma TotalPagesIsCeiling(total: nat, limit: nat)
    requires limit >= 1
    ensures var n := TotalPages(total, limit);
            total <= n * limit && (n >= 1 ==> (n - 1) * limit < total)
  {
    var n := TotalPages(total, limit);
    assert total + limit - 1 == n * limit + (total + limit - 1) % limit;
    assert (n - 1) * limit == n * limit - limit;
  }

  lemma {:induction false} PagesArePrefix<T>(list: seq<T>, limit: nat, n: nat)
    requires limit >= 1
    ensures Pages(list, limit, n) == list[..Prelude.Min(n * limit, |list|)]
  {
    if n > 0 {
      PagesArePrefix(list, limit, n - 1);
      assert n * limit == (n - 1) * limit + limit;
    }
  }

  lemma Multiples(a: nat, b: nat, limit: nat)
    requires a <= b
    ensures a * limit <= b * limit
  {
  }

  /**
    The pages 1..totalPages partition the list: put together they are the list, every one but the last
    is full, the last is not empty, and any later page is empty.
   */
  lemma PagesPartition<T>(list: seq<T>, limit: nat, page: nat)
    requires limit >= 1 && page >= 1
    ensures var n := TotalPages(|list|, limit);
            && Pages(list, limit, n) == list
            && |Page(list, page, limit)| <= limit
            && (page < n ==> |Page(list, page, limit)| == limit)
            && (page == n ==> |Page(list, page, limit)| >= 1)
            && (page > n ==> Page(list, page, limit) == [])
  {
    var n := TotalPages(|list|, limit);
    TotalPagesIsCeiling(|list|, limit);
    PagesArePrefix(list, limit, n);
    assert page * limit == (page - 1) * limit + limit;
    if page < n {
      Multiples(page, n - 1, limit);
    } else if page > n {
      Multiples(n, page - 1, limit);
    }
  }
}
