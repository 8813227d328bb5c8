/** Pagination, as the project list and the activity log do it. */
module Pages {

  function Min(a: int, b: int): int {
    if a < b then a else b
  }

  /** `findMany({ skip: (page - 1) * limit, take: limit })` */
  function Page<T>(rows: seq<T>, page: nat, limit: nat): seq<T>
    requires page >= 1 && limit >= 1
  {
    var skip := (page - 1) * limit;
    rows[Min(skip, |rows|)..Min(skip + limit, |rows|)]
  }

  /** `Math.ceil(total / limit)` */
  function TotalPages(total: nat, limit: nat): nat
    requires limit >= 1
  {
    (total + limit - 1) / limit
  }

  function FirstPages<T>(rows: seq<T>, n: nat, limit: nat): seq<T>
    requires limit >= 1
  {
    if n == 0 then [] else FirstPages(rows, n - 1, limit) + Page(rows, n, limit)
  }

  lemma {:induction false} FirstPagesAreAPrefix<T>(rows: seq<T>, n: nat, limit: nat)
    requires limit >= 1
    ensures n * limit >= 0 && FirstPages(rows, n, limit) == rows[..Min(n * limit, |rows|)]
  {
    if n > 0 {
      FirstPagesAreAPrefix(rows, n - 1, limit);
      assert n * limit == (n - 1) * limit + limit;
    }
  }

  lemma CeilingBounds(total: nat, limit: nat)
    requires limit >= 1
    ensures TotalPages(total, limit) * limit >= total
    ensures TotalPages(total, limit) > 0 ==> (TotalPages(total, limit) - 1) * limit < total
  {
    var n := TotalPages(total, limit);
    assert total + limit - 1 == n * limit + (total + limit - 1) % limit;
    assert n > 0 ==> (n - 1) * limit == n * limit - limit;
  }

  lemma Monotone(a: int, b: int, limit: int)
    requires a <= b && limit >= 1
    ensures a * limit <= b * limit
  {
    assert (b - a) * limit >= 0;
  }

  lemma OneMore(a: int, limit: int)
    ensures (a - 1) * limit + limit == a * limit
  {
  }

  lemma PageSize<T>(rows: seq<T>, page: nat, limit: nat)
    requires page >= 1 && limit >= 1
    ensures var n := TotalPages(|rows|, limit);
      if page < n then |Page(rows, page, limit)| == limit
      else if page == n then 1 <= |Page(rows, page, limit)| <= limit
      else Page(rows, page, limit) == []
  {
    var n := TotalPages(|rows|, limit);
    CeilingBounds(|rows|, limit);
    if page < n {
      Monotone(page, n - 1, limit);
      OneMore(page, limit);
    } else if page > n {
      Monotone(n, page - 1, limit);
    }
  }

  /**
   The pages partition the rows: put one after the other they are the whole list,
   none is empty and all but the last are full; past the last there is nothing.
   */
  lemma PagesPartitionTheRows<T>(rows: seq<T>, limit: nat)
    requires limit >= 1
    ensures FirstPages(rows, TotalPages(|rows|, limit), limit) == rows
    ensures forall page | 1 <= page < TotalPages(|rows|, limit) :: |Page(rows, page, limit)| == limit
    ensures forall page | 1 <= page <= TotalPages(|rows|, limit) :: 1 <= |Page(rows, page, limit)| <= limit
    ensures forall page | page > TotalPages(|rows|, limit) :: Page(rows, page, limit) == []
  {
    hide Page;
    var n := TotalPages(|rows|, limit);
    CeilingBounds(|rows|, limit);
    FirstPagesAreAPrefix(rows, n, limit);
    assert rows[..|rows|] == rows;
    forall page | page >= 1
      ensures page < n ==> |Page(rows, page, limit)| == limit
      ensures page <= n ==> 1 <= |Page(rows, page, limit)| <= limit
      ensures page > n ==> Page(rows, page, limit) == []
    {
      PageSize(rows, page, limit);
    }
  }
}
