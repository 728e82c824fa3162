/** One page of a mailbox: what it has to be, and that both ways of cutting one are right. */
module MailboxPage {
  import opened Types
  import opened Mailbox

  /** The page cut from the sorted list. */
  function NextPage(box: seq<Stored>, limit: nat, cursor: Option<Key>): Page
    requires limit >= 1
  {
    PageOf(After(Sort(box), cursor), limit)
  }

  /** One row more than the limit is read, to learn whether another page follows. */
  function QueryPage(matching: seq<Stored>, limit: nat): Page {
    var rows := Take(Sort(matching), limit + 1);
    var items := Take(rows, limit);
    Page(items, if |rows| > limit && items != [] then Some(items[|items| - 1].SortKey()) else None)
  }

  /** The page that the table reads with one row to spare is the page cut from the sorted list. */
  lemma PagesMatch(box: seq<Stored>, cursor: Option<Key>, limit: nat)
    requires limit >= 1
    ensures NextPage(box, limit, cursor) == QueryPage(After(box, cursor), limit)
  {
    AfterSort(box, cursor);
  }

  /** No two pending messages share both storage time and delivery id. */
  ghost predicate Distinct(box: seq<Stored>) {
    forall i, j :: 0 <= i < j < |box| ==> box[i].SortKey() != box[j].SortKey()
  }

  ghost predicate Increasing(items: seq<Stored>) {
    forall i, j :: 0 <= i < j < |items| ==> items[i].SortKey().Below(items[j].SortKey())
  }

  /** What a page has to be: the first messages that the cursor lets through, in the order of
      their keys, no more than the limit; it names its last key exactly when others follow, and
      then it is full, and all of those lie beyond it. */
  ghost predicate IsPage(box: seq<Stored>, limit: nat, cursor: Option<Key>, page: Page) {
    && |page.items| <= limit && Increasing(page.items)
    && (forall x :: x in page.items ==> x in box && Passes(x, cursor))
    && (page.next.Some? ==> page.items != [] && page.next.value == page.items[|page.items| - 1].SortKey())
    && (page.next.Some? ==> |page.items| == limit)
    && (forall x :: x in box && Passes(x, cursor) && x !in page.items ==>
         page.next.Some? && page.next.value.Below(x.SortKey()))
    && (page.next.Some? ==> exists x :: x in box && Passes(x, cursor) && x !in page.items)
  }

  lemma {:induction false} DistinctMultiset(box: seq<Stored>, x: Stored, y: Stored)
    requires Distinct(box) && x in box && y in box && x.SortKey() == y.SortKey()
    ensures x == y && multiset(box)[x] == 1
  {
    var n := |box| - 1;
    assert box == box[..n] + [box[n]];
    if x == box[n] {
      assert x !in box[..n];
    } else {
      assert x in box[..n];
      assert y in box[..n];
      DistinctMultiset(box[..n], x, y);
    }
  }

  lemma SortIncreasing(box: seq<Stored>)
    requires Distinct(box)
    ensures Increasing(Sort(box))
  {
    var s := Sort(box);
    SortSorts(box);
    forall i, j | 0 <= i < j < |s| ensures s[i].SortKey().Below(s[j].SortKey()) {
      assert s[i] in multiset(s) && s[j] in multiset(s);
      if s[i].SortKey() == s[j].SortKey() {
        DistinctMultiset(box, s[i], s[j]);
        TwiceIn(s, i, j);
      }
      assert !s[j].SortKey().Below(s[i].SortKey());
    }
  }

  lemma TwiceIn(s: seq<Stored>, i: nat, j: nat)
    requires i < j < |s| && s[i] == s[j]
    ensures multiset(s)[s[i]] >= 2
  {
    assert s == s[..j] + [s[j]] + s[j + 1..];
    assert s[i] in s[..j];
  }

  lemma {:induction false} AfterMembers(s: seq<Stored>, cursor: Option<Key>, x: Stored)
    ensures x in After(s, cursor) <==> x in s && Passes(x, cursor)
  {
    if cursor.Some? && s != [] {
      var n := |s| - 1;
      assert s == s[..n] + [s[n]];
      AfterMembers(s[..n], cursor, x);
    }
  }

  lemma {:induction false} AfterIncreasing(s: seq<Stored>, cursor: Option<Key>)
    requires Increasing(s)
    ensures Increasing(After(s, cursor))
  {
    if cursor.Some? && s != [] {
      var n := |s| - 1;
      AfterIncreasing(s[..n], cursor);
      var front := After(s[..n], cursor);
      forall i | 0 <= i < |front| ensures front[i].SortKey().Below(s[n].SortKey()) {
        AfterMembers(s[..n], cursor, front[i]);
        var k :| 0 <= k < n && s[k] == front[i];
      }
    }
  }

  lemma WaitingMembers(box: seq<Stored>, cursor: Option<Key>, x: Stored)
    ensures x in After(Sort(box), cursor) <==> x in box && Passes(x, cursor)
  {
    hide Sort, After, Passes;
    SortSorts(box);
    AfterMembers(Sort(box), cursor, x);
    assert x in Sort(box) <==> x in multiset(Sort(box));
    assert x in box <==> x in multiset(box);
  }

  /** A page is a first part of what waits, and its cursor stops exactly there. */
  lemma PageSplits(rest: seq<Stored>, limit: nat)
    requires limit >= 1 && Increasing(rest)
    ensures var page := PageOf(rest, limit);
            && |page.items| <= limit && Increasing(page.items)
            && (forall x :: x in page.items ==> x in rest)
            && (page.next.Some? ==> page.items != [] && page.next.value == page.items[|page.items| - 1].SortKey())
            && (page.next.Some? ==> |page.items| == limit)
            && (forall x :: x in rest && x !in page.items ==> page.next.Some? && page.next.value.Below(x.SortKey()))
            && (page.next.Some? ==> exists x :: x in rest && x !in page.items)
  {
    var page := PageOf(rest, limit);
    assert page.items == rest[..|page.items|];
    forall x | x in rest ensures x in page.items || (page.next.Some? && page.next.value.Below(x.SortKey())) {
      var k :| 0 <= k < |rest| && rest[k] == x;
      if k < |page.items| {
        assert page.items[k] == x;
      } else {
        assert rest[|page.items| - 1].SortKey().Below(x.SortKey());
      }
    }
    if page.next.Some? {
      assert rest[|page.items|] in rest && rest[|page.items|] !in page.items;
    }
  }

  /** The page that the stores serve is one. */
  lemma NextPageIsPage(box: seq<Stored>, limit: nat, cursor: Option<Key>)
    requires limit >= 1 && Distinct(box)
    ensures IsPage(box, limit, cursor, NextPage(box, limit, cursor))
  {
    hide Sort, After, Passes, Increasing;
    SortIncreasing(box);
    AfterIncreasing(Sort(box), cursor);
    PageSplits(After(Sort(box), cursor), limit);
    forall x {
      WaitingMembers(box, cursor, x);
    }
  }
}
