/** Keyset paging, against the one sorted scan it stands for. */
module Paging {
  import opened Prelude
  import opened Events

  datatype Page = Page(items: seq<Id>, next: Option<Id>)

  ghost predicate Increasing(s: seq<Id>) {
    forall i, j | 0 <= i < j < |s| :: s[i] < s[j]
  }

  // The rows a request sees: those matching the filters, with an id above the cursor.
  ghost predicate Visible(rows: set<Id>, cursor: Option<Id>, x: Id) {
    x in rows && (cursor.None? || cursor.value < x)
  }

  // The first `limit` visible ids in order, and a cursor exactly when more are left.
  ghost predicate IsPage(p: Page, rows: set<Id>, cursor: Option<Id>, limit: nat) {
    && Increasing(p.items) && |p.items| <= limit
    && (forall x | x in p.items :: Visible(rows, cursor, x))
    && (p.next.None? ==> forall x | Visible(rows, cursor, x) :: x in p.items)
    && (p.next.Some? ==>
          && |p.items| == limit && limit > 0 && p.next.value == Last(p.items)
          && (forall x: Id | Visible(rows, cursor, x) && x <= p.next.value :: x in p.items)
          && (exists x :: Visible(rows, cursor, x) && p.next.value < x))
  }

  function CursorBefore(pages: seq<Page>): Option<Id> {
    if pages == [] then None else Last(pages).next
  }

  // A client that follows cursors; request i sees the matching rows `seen[i]`.
  ghost predicate Followed(pages: seq<Page>, seen: seq<set<Id>>, limit: nat) {
    |pages| == |seen| &&
    (pages == [] ||
     (&& Followed(Front(pages), Front(seen), limit)
      && (|pages| > 1 ==> CursorBefore(Front(pages)).Some?)
      && IsPage(Last(pages), Last(seen), CursorBefore(Front(pages)), limit)))
  }

  lemma FollowOneMore(pages: seq<Page>, seen: seq<set<Id>>, limit: nat, p: Page, rows: set<Id>)
    requires |pages| == |seen|
    ensures Followed([], [], limit)
    ensures Followed(pages + [p], seen + [rows], limit) <==>
      && Followed(pages, seen, limit) && (pages != [] ==> CursorBefore(pages).Some?)
      && IsPage(p, rows, CursorBefore(pages), limit)
  {
    assert Front(pages + [p]) == pages && Front(seen + [rows]) == seen;
  }

  function Collected(pages: seq<Page>): seq<Id> {
    if pages == [] then [] else Collected(Front(pages)) + Last(pages).items
  }

  ghost predicate AlwaysSeen(seen: seq<set<Id>>, x: Id) {
    forall i | 0 <= i < |seen| :: x in seen[i]
  }

  lemma IncreasingConcat(a: seq<Id>, b: seq<Id>)
    requires Increasing(a) && Increasing(b)
    requires forall x: Id, y: Id | x in a && y in b :: x < y
    ensures Increasing(a + b)
  {
    forall i, j | 0 <= i < j < |a + b| ensures (a + b)[i] < (a + b)[j] {
      if i < |a| <= j {
        assert a[i] in a && b[j - |a|] in b;
      }
    }
  }

  // What has been collected so far is in order, below the cursor, and complete up to it.
  lemma {:induction false} CollectedSoFar(pages: seq<Page>, seen: seq<set<Id>>, limit: nat)
    requires Followed(pages, seen, limit)
    ensures Increasing(Collected(pages))
    ensures CursorBefore(pages).Some? ==> forall x | x in Collected(pages) :: x <= CursorBefore(pages).value
    ensures forall x | x in Collected(pages) :: exists i :: 0 <= i < |seen| && x in seen[i]
    ensures pages != [] ==> forall x: Id | AlwaysSeen(seen, x) ::
              (CursorBefore(pages).Some? ==> x <= CursorBefore(pages).value) ==> x in Collected(pages)
  {
    if pages != [] {
      var front, last := Front(pages), Last(pages);
      CollectedSoFar(front, Front(seen), limit);
      var cursor := CursorBefore(front);
      assert forall x | x in Collected(front) :: cursor.Some? && x <= cursor.value;
      IncreasingConcat(Collected(front), last.items);
      forall x | x in Collected(pages) ensures exists i :: 0 <= i < |seen| && x in seen[i] {
        if x in last.items {
          assert x in seen[|seen| - 1];
        } else {
          var i :| 0 <= i < |Front(seen)| && x in Front(seen)[i];
          assert x in seen[i];
        }
      }
      if last.next.Some? {
        LastIsLargest(last.items);
        assert cursor.Some? ==> cursor.value < last.next.value;
      }
      forall x: Id | AlwaysSeen(seen, x) && (last.next.Some? ==> x <= last.next.value) ensures x in Collected(pages) {
        assert AlwaysSeen(Front(seen), x);
        assert x in seen[|seen| - 1];
        if !Visible(Last(seen), cursor, x) {
          assert x in Collected(front);
        }
      }
    }
  }

  lemma LastIsLargest(s: seq<Id>)
    requires Increasing(s) && s != []
    ensures forall x | x in s :: x <= Last(s)
    ensures Last(s) in s
  {
  }

  // A finished walk: whatever rows came and went between the requests, each row that matched
  // throughout appears exactly once, nothing appears twice, and nothing is made up.
  lemma StableRowsAppearOnce(pages: seq<Page>, seen: seq<set<Id>>, limit: nat)
    requires pages != [] && Followed(pages, seen, limit) && Last(pages).next.None?
    ensures Increasing(Collected(pages))
    ensures forall x: Id | AlwaysSeen(seen, x) :: multiset(Collected(pages))[x] == 1
    ensures forall x | x in Collected(pages) :: exists i :: 0 <= i < |seen| && x in seen[i]
  {
    CollectedSoFar(pages, seen, limit);
    forall x: Id | AlwaysSeen(seen, x) ensures multiset(Collected(pages))[x] == 1 {
      IncreasingHasNoRepeats(Collected(pages), x);
    }
  }

  lemma {:induction false} IncreasingHasNoRepeats(s: seq<Id>, x: Id)
    requires Increasing(s)
    ensures multiset(s)[x] == if x in s then 1 else 0
  {
    if s != [] {
      IncreasingHasNoRepeats(Front(s), x);
      assert s == Front(s) + [Last(s)];
    }
  }

  // ---------- an unchanging table ----------

  ghost predicate Unchanging(seen: seq<set<Id>>, rows: set<Id>) {
    forall i | 0 <= i < |seen| :: seen[i] == rows
  }

  lemma {:induction false} FullPages(pages: seq<Page>, seen: seq<set<Id>>, limit: nat)
    requires Followed(pages, seen, limit) && pages != []
    ensures |Collected(pages)| == (|pages| - 1) * limit + |Last(pages).items|
  {
    if |pages| > 1 {
      FullPages(Front(pages), Front(seen), limit);
      assert |Last(Front(pages)).items| == limit;
      assert (|pages| - 2) * limit + limit == (|pages| - 1) * limit;
    } else {
      assert Collected(Front(pages)) == [];
    }
  }

  lemma {:induction false} IncreasingCounts(s: seq<Id>, rows: set<Id>)
    requires Increasing(s) && (forall x :: x in s <==> x in rows)
    ensures |s| == |rows|
  {
    if s == [] {
      assert rows == {};
    } else {
      var x := Last(s);
      assert s == Front(s) + [x];
      assert x !in Front(s);
      IncreasingCounts(Front(s), rows - {x});
      assert x in rows;
    }
  }

  function CeilDiv(n: nat, d: nat): nat
    requires d > 0
  {
    (n + d - 1) / d
  }

  lemma ProductsGrow(a: nat, b: nat, d: nat)
    ensures b <= a ==> b * d <= a * d
  {
    if b <= a {
      assert a * d == b * d + (a - b) * d;
    }
  }

  lemma QuotientOf(n: nat, d: nat, k: nat)
    requires d > 0 && k * d <= n < (k + 1) * d
    ensures n / d == k
  {
    var q := n / d;
    assert n == q * d + n % d;
    assert (q + 1) * d == q * d + d;
    ProductsGrow(k, q + 1, d);
    ProductsGrow(q, k + 1, d);
  }

  // n rows in p pages, all full but the last, which is empty only when it is the first.
  lemma PageCount(n: nat, p: nat, last: nat, limit: nat)
    requires limit >= 1 && p >= 1 && n == (p - 1) * limit + last && last <= limit
    requires p > 1 ==> last > 0
    ensures p == Max(1, CeilDiv(n, limit))
  {
    assert (p - 1) * limit + limit == p * limit;
    assert p * limit + limit == (p + 1) * limit;
    if last > 0 {
      QuotientOf(n + limit - 1, limit, p);
    } else {
      QuotientOf(limit - 1, limit, 0);
    }
  }

  // Over a table that does not change, following cursors is one scan in id order, in
  // max(1, ceil(n / limit)) pages.
  lemma PagingIsOneScan(pages: seq<Page>, seen: seq<set<Id>>, rows: set<Id>, limit: nat)
    requires pages != [] && Followed(pages, seen, limit) && Last(pages).next.None?
    requires Unchanging(seen, rows) && limit >= 1
    ensures Increasing(Collected(pages))
    ensures forall x :: x in Collected(pages) <==> x in rows
    ensures |pages| == Max(1, CeilDiv(|rows|, limit))
  {
    CollectedSoFar(pages, seen, limit);
    var all := Collected(pages);
    forall x ensures x in all <==> x in rows {
      if x in rows {
        assert AlwaysSeen(seen, x);
      }
    }
    IncreasingCounts(all, rows);
    FullPages(pages, seen, limit);
    if |pages| > 1 {
      MorePageIsNotEmpty(pages, seen, rows, limit);
    }
    PageCount(|rows|, |pages|, |Last(pages).items|, limit);
  }

  lemma MorePageIsNotEmpty(pages: seq<Page>, seen: seq<set<Id>>, rows: set<Id>, limit: nat)
    requires |pages| > 1 && Followed(pages, seen, limit) && Last(pages).next.None? && Unchanging(seen, rows)
    ensures Last(pages).items != []
  {
    var before := Last(Front(pages));
    var cursor := CursorBefore(Front(Front(pages)));
    assert IsPage(before, Last(Front(seen)), cursor, limit);
    var x :| Visible(Last(Front(seen)), cursor, x) && before.next.value < x;
    assert Last(Front(seen)) == seen[|seen| - 2] == rows && Last(seen) == rows;
    assert Visible(Last(seen), before.next, x);
  }

  // An unfinished walk has not used up the table, so following cursors comes to an end.
  lemma UnfinishedWalkHasMore(pages: seq<Page>, seen: seq<set<Id>>, rows: set<Id>, limit: nat)
    requires pages != [] && Followed(pages, seen, limit) && Last(pages).next.Some? && Unchanging(seen, rows)
    ensures |pages| * limit < |rows|
  {
    CollectedSoFar(pages, seen, limit);
    FullPages(pages, seen, limit);
    assert (|pages| - 1) * limit + limit == |pages| * limit;
    var all := Collected(pages);
    var have := set x | x in all;
    IncreasingCounts(all, have);
    var more :| Visible(Last(seen), CursorBefore(Front(pages)), more) && Last(pages).next.value < more;
    assert Last(seen) == seen[|seen| - 1] == rows;
    assert more !in have;
    assert have + {more} <= rows;
    SubsetIsSmaller(have + {more}, rows);
  }
}
