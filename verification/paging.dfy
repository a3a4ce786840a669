/** The page/limit/skip/totalPages arithmetic shared by the four listing endpoints. */
module Paging {
  import opened Wrappers

  /** `Math.ceil(total / limit)` for a positive limit. */
  function TotalPages(total: nat, limit: int): (r: nat)
    requires limit > 0
    ensures total <= r * limit
    ensures total > 0 ==> (r - 1) * limit < total
    ensures total == 0 <==> r == 0
  {
    (total + limit - 1) / limit
  }

  /** A listing response: the page's rows, the count of all matching rows, the resolved
      `page` and `limit`, and `totalPages`. */
  datatype Page<T> = Page(items: seq<T>, total: nat, page: int, limit: int, totalPages: nat)

  /** `skip`/`take` over a sequence: at most `take` rows starting at position `skip`. */
  function Window<T>(rows: seq<T>, skip: nat, take: nat): (r: seq<T>)
    ensures |r| <= take
    ensures skip <= |rows| ==> |r| == if skip + take <= |rows| then take else |rows| - skip
    ensures skip >= |rows| ==> r == []
    ensures forall k :: 0 <= k < |r| ==> skip + k < |rows| && r[k] == rows[skip + k]
  {
    var lo := if skip <= |rows| then skip else |rows|;
    var hi := if skip + take <= |rows| then skip + take else |rows|;
    rows[lo..hi]
  }

  lemma SkipNonNegative(page: int, limit: int)
    requires page >= 1 && limit >= 1
    ensures (page - 1) * limit >= 0
  {
  }

  /** The rows of page `page` when pages hold `limit` rows: `skip = (page - 1) * limit`, `take = limit`. */
  function PageRows<T>(rows: seq<T>, page: int, limit: int): seq<T>
    requires page >= 1 && limit >= 1
  {
    SkipNonNegative(page, limit);
    Window(rows, (page - 1) * limit, limit)
  }

  /** `parseInt(param) || default` for page and limit, `skip = (page - 1) * limit`, then
      `skip`/`take` over the rows the filter selected, which are also the rows counted.
      A page or limit below 1 is answered with `failure`. The database client would refuse only
      a negative skip; its reading of a negative take, counting from the end, is not modelled. */
  function Paginate<T>(rows: seq<T>, rawPage: Option<int>, rawLimit: Option<int>, defaultLimit: int, failure: string)
    : (r: Response<Page<T>>)
    requires defaultLimit > 0
    ensures r.Ok? <==> IntOr(rawPage, 1) >= 1 && IntOr(rawLimit, defaultLimit) >= 1
    ensures r.Err? ==> r == Err(500, failure)
    ensures r.Ok? ==>
      && r.status == 200
      && r.value.page == IntOr(rawPage, 1) && r.value.limit == IntOr(rawLimit, defaultLimit)
      && r.value.total == |rows|
      && r.value.totalPages == TotalPages(|rows|, r.value.limit)
      && (r.value.page - 1) * r.value.limit >= 0
      && r.value.items == Window(rows, (r.value.page - 1) * r.value.limit, r.value.limit)
    ensures r.Ok? ==> r.value.items == PageRows(rows, r.value.page, r.value.limit)
  {
    var page := IntOr(rawPage, 1);
    var limit := IntOr(rawLimit, defaultLimit);
    if page < 1 || limit < 1 then Err(500, failure)
    else
      SkipNonNegative(page, limit);
      Ok(200, Page(Window(rows, (page - 1) * limit, limit), |rows|, page, limit, TotalPages(|rows|, limit)))
  }

  /** Every matching row appears on exactly the page its position predicts, and that page
      number never exceeds `totalPages`. */
  lemma RowOnItsPage<T>(rows: seq<T>, i: nat, limit: int)
    requires i < |rows| && limit > 0
    ensures var page := i / limit + 1;
      && page <= TotalPages(|rows|, limit)
      && var r := Paginate(rows, Some(page), Some(limit), limit, "");
      && r.Ok? && i % limit < |r.value.items| && r.value.items[i % limit] == rows[i]
  {
    var page := i / limit + 1;
    var tp := TotalPages(|rows|, limit);
    assert (page - 1) * limit + i % limit == i;
    if page > tp {
      MulMonotone(tp, page - 1, limit);
      assert false;
    }
    SkipNonNegative(page, limit);
  }

  lemma MulMonotone(a: int, b: int, c: int)
    requires a <= b && c >= 0
    ensures a * c <= b * c
  {
  }
}
