/** Following the cursor from page to page, while messages come, go and expire in between. */
module MailboxPages {
  import opened Types
  import opened Mailbox
  import opened MailboxPage

  /** The cursor with which page `i` is read. */
  function CursorAt(pages: seq<Page>, i: nat): Option<Key>
    requires i <= |pages|
  {
    if i == 0 then None else pages[i - 1].next
  }

  /** `pages[i]` is read from `boxes[i]`, the messages pending at that time, which may be quite
      different from one read to the next. Only the last page may name no successor. */
  ghost predicate Walk(boxes: seq<seq<Stored>>, limit: nat, pages: seq<Page>)
    requires limit >= 1
  {
    && |boxes| == |pages|
    && (forall i :: 0 <= i < |pages| ==> IsPage(boxes[i], limit, CursorAt(pages, i), pages[i]))
    && (forall i :: 0 <= i < |pages| - 1 ==> pages[i].next.Some?)
  }

  /** The reader has followed the cursor to the end. */
  predicate Complete(pages: seq<Page>) {
    pages != [] && pages[|pages| - 1].next.None?
  }

  lemma OnPage(box: seq<Stored>, limit: nat, cursor: Option<Key>, page: Page, x: Stored)
    requires IsPage(box, limit, cursor, page) && x in page.items
    ensures x in box && Passes(x, cursor)
    ensures page.next.Some? ==> x.SortKey() == page.next.value || x.SortKey().Below(page.next.value)
  {
    var items := page.items;
    var k :| 0 <= k < |items| && items[k] == x;
    assert k < |items| - 1 ==> x.SortKey().Below(items[|items| - 1].SortKey());
  }

  /** The message that a page's cursor names is its last. */
  lemma LastOnPage(box: seq<Stored>, limit: nat, cursor: Option<Key>, page: Page)
      returns (last: Stored)
    requires IsPage(box, limit, cursor, page) && page.next.Some?
    ensures last in page.items && last in box && Passes(last, cursor) && last.SortKey() == page.next.value
  {
    last := page.items[|page.items| - 1];
  }

  lemma OffPage(box: seq<Stored>, limit: nat, cursor: Option<Key>, page: Page, x: Stored)
    requires IsPage(box, limit, cursor, page) && x in box && Passes(x, cursor) && x !in page.items
    ensures page.next.Some? && page.next.value.Below(x.SortKey())
  {
  }

  lemma OnLastPage(box: seq<Stored>, limit: nat, cursor: Option<Key>, page: Page, x: Stored)
    requires IsPage(box, limit, cursor, page) && page.next.None? && x in box && Passes(x, cursor)
    ensures x in page.items
  {
  }

  lemma PageAt(boxes: seq<seq<Stored>>, limit: nat, pages: seq<Page>, i: nat)
    requires limit >= 1 && Walk(boxes, limit, pages) && i < |pages|
    ensures |boxes| == |pages| && IsPage(boxes[i], limit, CursorAt(pages, i), pages[i])
    ensures i < |pages| - 1 ==> pages[i].next.Some?
  {
    hide IsPage;
  }

  /** A later page begins after the cursor that an earlier one named. */
  lemma {:induction false} LaterIsAfter(boxes: seq<seq<Stored>>, limit: nat, pages: seq<Page>, i: nat, j: nat,
      y: Stored)
    requires limit >= 1 && Walk(boxes, limit, pages) && i < j < |pages| && y in pages[j].items
    ensures pages[i].next.Some? && pages[i].next.value.Below(y.SortKey())
    decreases j
  {
    hide Walk, IsPage;
    PageAt(boxes, limit, pages, j);
    PageAt(boxes, limit, pages, j - 1);
    OnPage(boxes[j], limit, CursorAt(pages, j), pages[j], y);
    if i < j - 1 {
      var last := LastOnPage(boxes[j - 1], limit, CursorAt(pages, j - 1), pages[j - 1]);
      LaterIsAfter(boxes, limit, pages, i, j - 1, last);
    }
  }

  /** Over the whole walk the keys increase strictly, so nothing is served twice. */
  lemma WalkIncreases(boxes: seq<seq<Stored>>, limit: nat, pages: seq<Page>, i: nat, j: nat,
      x: Stored, y: Stored)
    requires limit >= 1 && Walk(boxes, limit, pages) && i < j < |pages|
    requires x in pages[i].items && y in pages[j].items
    ensures x.SortKey().Below(y.SortKey())
  {
    hide Walk, IsPage;
    PageAt(boxes, limit, pages, i);
    OnPage(boxes[i], limit, CursorAt(pages, i), pages[i], x);
    LaterIsAfter(boxes, limit, pages, i, j, y);
  }

  ghost predicate StaysPending(boxes: seq<seq<Stored>>, x: Stored) {
    forall k :: 0 <= k < |boxes| ==> x in boxes[k]
  }

  lemma PendingIn(boxes: seq<seq<Stored>>, x: Stored, k: nat)
    requires StaysPending(boxes, x) && k < |boxes|
    ensures x in boxes[k]
  {
  }

  ghost predicate ServedBefore(pages: seq<Page>, i: nat, x: Stored) {
    exists k :: 0 <= k < i <= |pages| && x in pages[k].items
  }

  lemma ServedLater(pages: seq<Page>, i: nat, x: Stored)
    requires i < |pages| && (ServedBefore(pages, i, x) || x in pages[i].items)
    ensures ServedBefore(pages, i + 1, x)
  {
  }

  /** A message that is pending at every read has been served so far, or is still ahead. */
  lemma {:induction false} ServedOrAhead(boxes: seq<seq<Stored>>, limit: nat, pages: seq<Page>, x: Stored, i: nat)
    requires limit >= 1 && Walk(boxes, limit, pages) && StaysPending(boxes, x) && i <= |pages|
    ensures ServedBefore(pages, i, x) || Passes(x, CursorAt(pages, i))
    decreases i
  {
    hide Walk, IsPage, ServedBefore, StaysPending;
    if i > 0 {
      PageAt(boxes, limit, pages, i - 1);
      PendingIn(boxes, x, i - 1);
      ServedOrAhead(boxes, limit, pages, x, i - 1);
      if ServedBefore(pages, i - 1, x) || x in pages[i - 1].items {
        ServedLater(pages, i - 1, x);
      } else {
        OffPage(boxes[i - 1], limit, CursorAt(pages, i - 1), pages[i - 1], x);
      }
    }
  }

  lemma PendingIsServed(boxes: seq<seq<Stored>>, limit: nat, pages: seq<Page>, x: Stored)
    requires limit >= 1 && Walk(boxes, limit, pages) && Complete(pages) && StaysPending(boxes, x)
    ensures ServedBefore(pages, |pages|, x)
  {
    hide Walk, IsPage, ServedBefore, StaysPending;
    var last := |pages| - 1;
    PageAt(boxes, limit, pages, last);
    PendingIn(boxes, x, last);
    ServedOrAhead(boxes, limit, pages, x, last);
    if !ServedBefore(pages, last, x) {
      OnLastPage(boxes[last], limit, CursorAt(pages, last), pages[last], x);
    }
    ServedLater(pages, last, x);
  }

  /** Pagination: a message that stays pending for a complete walk is served on exactly one page,
      whatever is put, acknowledged or expires in between. */
  lemma PendingServedExactlyOnce(boxes: seq<seq<Stored>>, limit: nat, pages: seq<Page>, x: Stored)
    requires limit >= 1 && Walk(boxes, limit, pages) && Complete(pages) && StaysPending(boxes, x)
    ensures exists i :: 0 <= i < |pages| && x in pages[i].items
                        && forall j :: 0 <= j < |pages| && x in pages[j].items ==> j == i
  {
    hide Walk, IsPage, StaysPending;
    PendingIsServed(boxes, limit, pages, x);
    var i :| 0 <= i < |pages| && x in pages[i].items;
    forall j | 0 <= j < |pages| && x in pages[j].items ensures j == i {
      if i < j {
        WalkIncreases(boxes, limit, pages, i, j, x, x);
      } else if j < i {
        WalkIncreases(boxes, limit, pages, j, i, x, x);
      }
    }
  }

  /** The keys still ahead of a cursor. */
  ghost function Ahead(box: seq<Stored>, cursor: Option<Key>): set<Key> {
    set x | x in box && Passes(x, cursor) :: x.SortKey()
  }

  lemma {:induction false} KeysBounded(box: seq<Stored>, cursor: Option<Key>)
    ensures |Ahead(box, cursor)| <= |box|
  {
    if box != [] {
      var n := |box| - 1;
      assert box == box[..n] + [box[n]];
      KeysBounded(box[..n], cursor);
      assert Ahead(box, cursor) <= Ahead(box[..n], cursor) + {box[n].SortKey()};
      SubsetSize(Ahead(box, cursor), Ahead(box[..n], cursor) + {box[n].SortKey()});
    }
  }

  lemma SubsetSize(a: set<Key>, b: set<Key>)
    requires a <= b
    ensures |a| <= |b|
  {
    assert b == a + (b - a);
  }

  /** Messages may be acknowledged or expire during the walk, but none is put. */
  ghost predicate NothingNew(boxes: seq<seq<Stored>>) {
    forall j, k, x :: 0 <= j < k < |boxes| && x in boxes[k] ==> x in boxes[j]
  }

  /** Reading one page leaves fewer keys ahead, in any later box that holds nothing new. */
  lemma PageShortens(box: seq<Stored>, later: seq<Stored>, limit: nat, cursor: Option<Key>,
      page: Page)
    requires IsPage(box, limit, cursor, page) && page.next.Some? && forall x :: x in later ==> x in box
    ensures |Ahead(later, page.next)| < |Ahead(box, cursor)|
  {
    var last := LastOnPage(box, limit, cursor, page);
    hide IsPage;
    var key := page.next.value;
    assert key in Ahead(box, cursor);
    forall k | k in Ahead(later, page.next) ensures k in Ahead(box, cursor) - {key} {
      var x :| x in later && Passes(x, page.next) && x.SortKey() == k;
      assert x in box && Passes(x, cursor);
    }
    SubsetSize(Ahead(later, page.next), Ahead(box, cursor) - {key});
  }

  /** Each page leaves strictly less ahead when nothing new is put. */
  lemma {:induction false} WalkShortens(boxes: seq<seq<Stored>>, limit: nat, pages: seq<Page>, i: nat)
    requires limit >= 1 && Walk(boxes, limit, pages) && i < |pages| == |boxes| && NothingNew(boxes)
    ensures i + |Ahead(boxes[i], CursorAt(pages, i))| <= |boxes[0]|
  {
    hide Walk, IsPage, Ahead;
    if i == 0 {
      KeysBounded(boxes[0], None);
    } else {
      WalkShortens(boxes, limit, pages, i - 1);
      PageAt(boxes, limit, pages, i - 1);
      PageShortens(boxes[i - 1], boxes[i], limit, CursorAt(pages, i - 1), pages[i - 1]);
    }
  }

  /** Without new messages a walk ends: it has at most one page per message, and one more. */
  lemma WalkTerminates(boxes: seq<seq<Stored>>, limit: nat, pages: seq<Page>)
    requires limit >= 1 && Walk(boxes, limit, pages) && pages != []
    requires NothingNew(boxes)
    ensures boxes != [] && |pages| <= |boxes[0]| + 1
  {
    hide IsPage;
    WalkShortens(boxes, limit, pages, |pages| - 1);
  }
}
