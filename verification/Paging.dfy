/** A list read page by page. */
module Paging {
  import opened JsonValues

  datatype Page<T> = Page(items: seq<T>, page: nat, pageSize: nat, total: nat)

  /** The page after `last`, if there is one. */
  function NextPageOf<T>(last: Page<T>): Option<nat> {
    if |last.items| == 0 then None
    else if last.page * last.pageSize < last.total then Some(last.page + 1)
    else None
  }

  function Flatten<T>(pages: seq<Page<T>>): seq<T> {
    if pages == [] then [] else pages[0].items + Flatten(pages[1..])
  }

  lemma {:induction false} FlattenAppend<T>(pages: seq<Page<T>>, last: Page<T>)
    ensures Flatten(pages + [last]) == Flatten(pages) + last.items
  {
    if pages == [] {
      assert pages + [last] == [last] && [last][1..] == [];
    } else {
      assert (pages + [last])[1..] == pages[1..] + [last];
      FlattenAppend(pages[1..], last);
    }
  }

  method FlattenPages<T>(pages: seq<Page<T>>) returns (out: seq<T>)
    ensures out == Flatten(pages)
  {
    out := [];
    for i := 0 to |pages|
      invariant out == Flatten(pages[..i])
    {
      assert pages[..i + 1] == pages[..i] + [pages[i]];
      FlattenAppend(pages[..i], pages[i]);
      out := out + pages[i].items;
    }
    assert pages[..|pages|] == pages;
  }

  // -- against a server that pages one list ------------------------------------------------

  function Least(a: nat, b: nat): nat {
    if a < b then a else b
  }

  function Upto(size: nat, k: nat, n: nat): nat {
    Least(k * size, n)
  }

  lemma UptoGrows(size: nat, k: nat, n: nat)
    ensures Upto(size, k, n) <= Upto(size, k + 1, n) <= n
  {
    assert (k + 1) * size == k * size + size;
  }

  /** Page `k` of the list; `total` is what the server counts, which may run ahead of the list. */
  function Serve<T>(list: seq<T>, total: nat, size: nat, k: nat): Page<T>
    requires k >= 1
  {
    UptoGrows(size, k - 1, |list|);
    Page(list[Upto(size, k - 1, |list|)..Upto(size, k, |list|)], k, size, total)
  }

  lemma Times(a: int, b: int, size: nat)
    ensures a <= b ==> a * size <= b * size
  {
  }

  lemma TimesAtLeast(k: nat, size: nat)
    requires size >= 1
    ensures k * size >= k
  {
    Times(1, size, k);
  }

  lemma PagesAreFewer(size: nat, k: nat, n: nat)
    requires size >= 1 && k * size < n
    ensures k < n
  {
    TimesAtLeast(k, size);
  }

  /** The pages loaded from page `k` on, following `NextPageOf`. */
  function Follow<T>(list: seq<T>, total: nat, size: nat, k: nat): seq<Page<T>>
    requires size >= 1 && k >= 1
    decreases total - k
  {
    var page := Serve(list, total, size, k);
    if NextPageOf(page).None? then [page]
    else
      PagesAreFewer(size, k, total);
      [page] + Follow(list, total, size, k + 1)
  }

  method LoadAll<T>(list: seq<T>, total: nat, size: nat) returns (pages: seq<Page<T>>)
    requires size >= 1
    ensures pages == Follow(list, total, size, 1)
  {
    var k := 1;
    pages := [];
    while true
      invariant k >= 1 && pages + Follow(list, total, size, k) == Follow(list, total, size, 1)
      decreases total - k
    {
      var page := Serve(list, total, size, k);
      pages := pages + [page];
      var next := NextPageOf(page);
      if next.None? { return; }
      PagesAreFewer(size, k, total);
      k := next.value;
    }
  }

  /** A page is empty only behind the end of the list, and the next page follows a full one. */
  lemma MorePages<T>(list: seq<T>, total: nat, size: nat, k: nat)
    requires size >= 1 && k >= 1
    ensures Serve(list, total, size, k).items == [] <==> (k - 1) * size >= |list|
    ensures NextPageOf(Serve(list, total, size, k))
      == if (k - 1) * size < |list| && k * size < total then Some(k + 1) else None
  {
    UptoGrows(size, k - 1, |list|);
    assert (k - 1) * size + size == k * size;
  }

  lemma ServedThenRest<T>(list: seq<T>, total: nat, size: nat, k: nat)
    requires k >= 1
    ensures Upto(size, k - 1, |list|) <= |list| && Upto(size, k, |list|) <= |list|
    ensures Serve(list, total, size, k).items + list[Upto(size, k, |list|)..] == list[Upto(size, k - 1, |list|)..]
  {
    UptoGrows(size, k - 1, |list|);
  }

  lemma {:induction false} FlattenFirst<T>(page: Page<T>, rest: seq<Page<T>>)
    ensures Flatten([page] + rest) == page.items + Flatten(rest)
  {
    assert ([page] + rest)[1..] == rest;
  }

  lemma {:induction false} FollowItems<T>(list: seq<T>, total: nat, size: nat, k: nat)
    requires size >= 1 && k >= 1 && total >= |list|
    ensures Upto(size, k - 1, |list|) <= |list|
    ensures Flatten(Follow(list, total, size, k)) == list[Upto(size, k - 1, |list|)..]
    decreases total - k
  {
    hide NextPageOf, Serve, Flatten;
    var page := Serve(list, total, size, k);
    MorePages(list, total, size, k);
    ServedThenRest(list, total, size, k);
    if NextPageOf(page).Some? {
      PagesAreFewer(size, k, total);
      FollowItems(list, total, size, k + 1);
      FlattenFirst(page, Follow(list, total, size, k + 1));
    } else {
      FlattenFirst(page, []);
      assert [page] + [] == [page];
      NoPages<T>();
      LastPage(list, total, size, k);
    }
  }

  lemma LastPage<T>(list: seq<T>, total: nat, size: nat, k: nat)
    requires size >= 1 && k >= 1 && total >= |list|
    requires !((k - 1) * size < |list| && k * size < total)
    ensures Upto(size, k, |list|) == |list|
  {
    UptoGrows(size, k - 1, |list|);
  }

  lemma NoPages<T>()
    ensures Flatten<T>([]) == []
  {
  }

  lemma {:induction false} FollowCount<T>(list: seq<T>, size: nat, k: nat)
    requires size >= 1 && k >= 1 && (k == 1 || (k - 1) * size < |list|)
    ensures var last := k - 1 + |Follow(list, |list|, size, k)|;
      last * size >= |list| && (last == k || (last - 1) * size < |list|)
    decreases |list| - k
  {
    hide NextPageOf, Serve;
    MorePages(list, |list|, size, k);
    assert (k - 1) * size + size == k * size;
    if k * size < |list| {
      PagesAreFewer(size, k, |list|);
      FollowCount(list, size, k + 1);
    }
  }

  lemma Ceiling(size: nat, n: nat, last: nat)
    requires size >= 1 && last >= 1 && last * size >= n && (last == 1 || (last - 1) * size < n)
    ensures last == if n == 0 then 1 else (n - 1) / size + 1
  {
    if n > 0 {
      var q := (n - 1) / size;
      assert q * size <= n - 1 < q * size + size;
      assert (last - 1) * size <= n - 1 < (last - 1) * size + size by {
        assert (last - 1) * size + size == last * size;
      }
      Times(q + 1, last - 1, size);
      Times(last, q, size);
      assert (q + 1) * size == q * size + size;
    }
  }

  /**
   * The whole list is loaded, each item once and in order, even when the
   * server's count runs ahead of it; with an exact count, in as few pages as
   * hold it.
   */
  lemma EveryItemOnce<T>(list: seq<T>, total: nat, size: nat)
    requires size >= 1 && total >= |list|
    ensures Flatten(Follow(list, total, size, 1)) == list
    ensures |Follow(list, |list|, size, 1)| == if list == [] then 1 else (|list| - 1) / size + 1
  {
    FollowItems(list, total, size, 1);
    FollowCount(list, size, 1);
    Ceiling(size, |list|, |Follow(list, |list|, size, 1)|);
  }
}
