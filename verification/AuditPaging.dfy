/** Paging through the audit log (`list_audit_logs`): a page is read with one row more than asked
    for, and that row decides `next_offset`. */
module AuditPaging {
  import opened Wrappers

  datatype Page<T> = Page(items: seq<T>, nextOffset: Option<nat>)

  function Min(a: nat, b: nat): nat
  {
    if a < b then a else b
  }

  /** OFFSET and LIMIT of a query over the filtered, ordered rows. */
  function Fetch<T>(rows: seq<T>, offset: nat, limit: nat): seq<T>
  {
    rows[Min(offset, |rows|)..Min(offset + limit, |rows|)]
  }

  function ListPage<T>(rows: seq<T>, offset: nat, limit: nat): Page<T>
  {
    var fetched := Fetch(rows, offset, limit + 1);
    Page(fetched[..Min(limit, |fetched|)], if |fetched| > limit then Some(offset + limit) else None)
  }

  /** All pages from `offset` on, following `next_offset`. */
  function Follow<T>(rows: seq<T>, offset: nat, limit: nat): seq<Page<T>>
    requires 1 <= limit
    decreases |rows| + 1 - Min(offset, |rows|)
  {
    var page := ListPage(rows, offset, limit);
    if page.nextOffset == None then [page] else [page] + Follow(rows, page.nextOffset.value, limit)
  }

  function Contents<T>(pages: seq<Page<T>>): seq<T>
  {
    if pages == [] then [] else pages[0].items + Contents(pages[1..])
  }

  lemma {:induction false} ContentsCons<T>(page: Page<T>, rest: seq<Page<T>>)
    ensures Contents([page] + rest) == page.items + Contents(rest)
  {
    assert ([page] + rest)[1..] == rest;
  }

  /** A page is the next stretch of rows, and announces more exactly when there are more. */
  lemma {:induction false} PageIsSlice<T>(rows: seq<T>, offset: nat, limit: nat)
    requires offset <= |rows|
    ensures var page := ListPage(rows, offset, limit);
      if offset + limit < |rows| then
        page.nextOffset == Some(offset + limit) && page.items + rows[offset + limit..] == rows[offset..]
      else page.nextOffset == None && page.items == rows[offset..]
  {
  }

  /** Following the offsets visits every row exactly once, in order. */
  lemma {:induction false} PagesCoverTheLog<T>(rows: seq<T>, offset: nat, limit: nat)
    requires 1 <= limit && offset <= |rows|
    ensures Contents(Follow(rows, offset, limit)) == rows[offset..]
    decreases |rows| - offset
  {
    var page := ListPage(rows, offset, limit);
    PageIsSlice(rows, offset, limit);
    if page.nextOffset == None {
      ContentsCons(page, []);
    } else {
      PagesCoverTheLog(rows, offset + limit, limit);
      ContentsCons(page, Follow(rows, offset + limit, limit));
    }
  }

  /** Every page but the last is full, and no page is empty unless there are no rows at all. */
  lemma {:induction false} NoEmptyPage<T>(rows: seq<T>, offset: nat, limit: nat, i: nat)
    requires 1 <= limit && (offset < |rows| || offset == 0 == |rows|) && i < |Follow(rows, offset, limit)|
    ensures var pages := Follow(rows, offset, limit);
      && (i < |pages| - 1 ==> |pages[i].items| == limit)
      && (rows != [] ==> 0 < |pages[i].items| <= limit)
    decreases |rows| - offset
  {
    var page := ListPage(rows, offset, limit);
    if page.nextOffset != None && i > 0 {
      NoEmptyPage(rows, offset + limit, limit, i - 1);
    }
  }
}
