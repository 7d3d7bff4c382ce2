/** Cursor-based pagination over a fixed list; cursors are decimal indices. */
module Pagination {
  import opened Wrappers
  import opened Text

  datatype Page<T> = Page(items: seq<T>, next: Option<string>)

  /** `Undefined` stands for a page whose end lies before its start: the copy has no meaning then. */
  datatype Answer<T> = Answered(page: Page<T>) | Rejected | Undefined

  function Add(a: nat, b: nat): nat {
    (a + b) % TWO_TO_64
  }

  /** The digit loop: 64-bit accumulation that stops as soon as the value passes the end. */
  function CursorStart(cursor: string, start: nat, size: nat): Option<nat>
    requires AllDigits(cursor)
  {
    if cursor == "" then Some(start)
    else
      var next := Add(start * 10 % TWO_TO_64, DigitValue(cursor[0]));
      if next > size then None else CursorStart(cursor[1..], next, size)
  }

  function Start(cursor: Option<string>, size: nat): Option<nat> {
    if cursor.None? then Some(0)
    else if cursor.value == "" || !AllDigits(cursor.value) then None
    else CursorStart(cursor.value, 0, size)
  }

  function End(start: nat, size: nat, pageSize: nat): nat {
    if Add(start, pageSize) < size then Add(start, pageSize) else size
  }

  function PageAt<T>(items: seq<T>, start: nat, pageSize: nat): Answer<T>
    requires start <= |items|
  {
    var end := End(start, |items|, pageSize);
    if end < start then Undefined
    else Answered(Page(items[start..end], if end < |items| then Some(ToDecimal(end)) else None))
  }

  lemma {:induction false} CursorInRange(cursor: string, start: nat, size: nat)
    requires AllDigits(cursor) && start <= size
    ensures var r := CursorStart(cursor, start, size); r.Some? ==> r.value <= size
    decreases |cursor|
  {
    if cursor != "" {
      var next := Add(start * 10 % TWO_TO_64, DigitValue(cursor[0]));
      if next <= size {
        CursorInRange(cursor[1..], next, size);
      }
    }
  }

  function Paginated<T>(items: seq<T>, cursor: Option<string>, pageSize: nat): Answer<T> {
    match Start(cursor, |items|)
    case None => Rejected
    case Some(start) =>
      StartInRange(cursor, |items|);
      PageAt(items, start, pageSize)
  }

  lemma StartInRange(cursor: Option<string>, size: nat)
    ensures var r := Start(cursor, size); r.Some? ==> r.value <= size
  {
    if Start(cursor, size).Some? && cursor.Some? {
      CursorInRange(cursor.value, 0, size);
    }
  }

  method Paginate<T>(items: seq<T>, cursor: Option<string>, pageSize: nat) returns (answer: Answer<T>)
    requires pageSize < TWO_TO_64
    ensures answer == Paginated(items, cursor, pageSize)
  {
    var start: nat := 0;
    if cursor.Some? {
      var text := cursor.value;
      if text == "" {
        return Rejected;
      }
      for i := 0 to |text|
        invariant AllDigits(text[..i])
      {
        if text[i] < '0' || text[i] > '9' {
          return Rejected;
        }
      }
      assert text == text[..|text|] == text[0..];
      for i := 0 to |text|
        invariant AllDigits(text)
        invariant start <= |items|
        invariant CursorStart(text, 0, |items|) == CursorStart(text[i..], start, |items|)
      {
        assert text[i..][1..] == text[i + 1..];
        start := Add(start * 10 % TWO_TO_64, DigitValue(text[i]));
        if start > |items| {
          return Rejected;
        }
      }
    }
    var end := Add(start, pageSize);
    if |items| < end {
      end := |items|;
    }
    if end < start {
      return Undefined;
    }
    answer := Answered(Page(items[start..end], if end < |items| then Some(ToDecimal(end)) else None));
  }

  // ------------------------------------------------------------ what is rejected

  lemma {:induction false} DecimalValueGrows(s: string, acc: nat)
    requires AllDigits(s)
    ensures DecimalValue(s, acc) >= acc
    decreases |s|
  {
    if s != "" {
      DecimalValueGrows(s[1..], acc * 10 + DigitValue(s[0]));
    }
  }

  lemma {:induction false} CursorValue(cursor: string, start: nat, size: nat)
    requires AllDigits(cursor) && start <= size && 10 * size + 9 < TWO_TO_64
    ensures CursorStart(cursor, start, size) ==
            if DecimalValue(cursor, start) <= size then Some(DecimalValue(cursor, start)) else None
    decreases |cursor|
  {
    if cursor != "" {
      var next := start * 10 + DigitValue(cursor[0]);
      assert Add(start * 10 % TWO_TO_64, DigitValue(cursor[0])) == next;
      DecimalValueGrows(cursor[1..], next);
      if next <= size {
        CursorValue(cursor[1..], next, size);
      }
    }
  }

  /** A cursor is rejected exactly when it is empty, has a character that is not a digit, or
      denotes a number past the end of the list. */
  lemma RejectedIff<T>(items: seq<T>, cursor: string, pageSize: nat)
    requires 10 * |items| + 9 < TWO_TO_64
    ensures Paginated(items, Some(cursor), pageSize).Rejected? <==>
            cursor == "" || !AllDigits(cursor) || DecimalValue(cursor, 0) > |items|
  {
    if AllDigits(cursor) {
      CursorValue(cursor, 0, |items|);
    }
  }

  /** The page is meaningless exactly when the 64-bit sum of start and page size wraps. */
  lemma UndefinedIff<T>(items: seq<T>, cursor: Option<string>, pageSize: nat)
    requires pageSize < TWO_TO_64 && |items| < TWO_TO_64
    ensures Paginated(items, cursor, pageSize).Undefined? <==>
            Start(cursor, |items|).Some? && Start(cursor, |items|).value + pageSize >= TWO_TO_64
  {
    StartInRange(cursor, |items|);
  }

  // ------------------------------------------------------------ following the cursors

  /** The pages a client collects that follows each next cursor; at most `fuel` of them. */
  function Follow<T>(items: seq<T>, cursor: Option<string>, pageSize: nat, fuel: nat): seq<Page<T>>
    decreases fuel
  {
    if fuel == 0 then []
    else
      match Paginated(items, cursor, pageSize)
      case Answered(page) => [page] + if page.next.Some? then Follow(items, page.next, pageSize, fuel - 1) else []
      case _ => []
  }

  /** The last page has no next cursor. */
  predicate Finished<T>(pages: seq<Page<T>>) {
    pages != [] && pages[|pages| - 1].next.None?
  }

  function AllItems<T>(pages: seq<Page<T>>): seq<T> {
    if pages == [] then [] else pages[0].items + AllItems(pages[1..])
  }

  /** `count` pages of `pageSize` are just enough for `size` items: ceil(size / pageSize), or one
      page for an empty list. */
  ghost predicate JustEnough(count: nat, size: nat, pageSize: nat) {
    count >= 1 && size <= count * pageSize && (count > 1 ==> (count - 1) * pageSize < size)
  }

  lemma NextCursorStarts<T>(items: seq<T>, start: nat)
    requires start <= |items| && 10 * |items| + 9 < TWO_TO_64
    ensures Start(Some(ToDecimal(start)), |items|) == Some(start)
  {
    DecimalRoundTrip(start);
    CursorValue(ToDecimal(start), 0, |items|);
  }

  /** How many pages are left from `start`. */
  function PagesFrom(size: nat, start: nat, pageSize: nat): nat
    requires pageSize >= 1 && start <= size
    decreases size - start
  {
    if start + pageSize >= size then 1 else 1 + PagesFrom(size, start + pageSize, pageSize)
  }

  lemma {:induction false} PagesJustEnough(size: nat, start: nat, pageSize: nat)
    requires pageSize >= 1 && start <= size
    ensures JustEnough(PagesFrom(size, start, pageSize), size - start, pageSize)
    decreases size - start
  {
    if start + pageSize < size {
      PagesJustEnough(size, start + pageSize, pageSize);
      var count := PagesFrom(size, start + pageSize, pageSize);
      assert (1 + count) * pageSize == pageSize + count * pageSize;
      assert count * pageSize == pageSize + (count - 1) * pageSize;
    }
  }

  lemma FewerPagesThanEnough(count: nat, enough: nat, size: nat, pageSize: nat)
    requires JustEnough(count, size, pageSize) && enough >= 1 && size <= enough * pageSize
    ensures count <= enough
  {
    ProductMonotone(enough, count - 1, pageSize);
  }

  lemma ProductMonotone(a: nat, b: nat, d: nat)
    ensures a <= b ==> a * d <= b * d
  {
    if a <= b {
      assert b * d == a * d + (b - a) * d;
    }
  }

  /** The page at `start` while nothing wraps: the rest of the list, or `pageSize` items and the cursor
      of what follows them. */
  lemma {:induction false} PageFrom<T>(items: seq<T>, cursor: Option<string>, start: nat, pageSize: nat)
    requires start <= |items| && Start(cursor, |items|) == Some(start) && start + pageSize < TWO_TO_64
    ensures var end := start + pageSize;
            Paginated(items, cursor, pageSize) ==
            Answered(if end >= |items| then Page(items[start..], None) else Page(items[start..end], Some(ToDecimal(end))))
  {
    hide Start;
    hide ToDecimal;
    assert items[start..|items|] == items[start..];
  }

  lemma {:induction false} OnePage<T>(page: Page<T>)
    ensures AllItems([page]) == page.items
  {
    assert [page][1..] == [] && page.items + [] == page.items;
  }

  lemma {:induction false} FollowFrom<T>(items: seq<T>, cursor: Option<string>, start: nat, pageSize: nat, fuel: nat)
    requires 1 <= pageSize < TWO_TO_64 && 10 * |items| + 9 < TWO_TO_64
    requires start <= |items| && Start(cursor, |items|) == Some(start) && (start == 0 || pageSize < |items|)
    requires fuel >= PagesFrom(|items|, start, pageSize)
    ensures var pages := Follow(items, cursor, pageSize, fuel);
            && AllItems(pages) == items[start..] && |pages| == PagesFrom(|items|, start, pageSize)
            && Finished(pages)
    decreases |items| - start
  {
    hide Start;
    hide ToDecimal;
    hide Paginated;
    var end := start + pageSize;
    PageFrom(items, cursor, start, pageSize);
    if end >= |items| {
      OnePage<T>(Page(items[start..], None));
    } else {
      NextCursorStarts(items, end);
      var page := Page(items[start..end], Some(ToDecimal(end)));
      FollowFrom(items, page.next, end, pageSize, fuel - 1);
      var rest := Follow(items, page.next, pageSize, fuel - 1);
      assert Follow(items, cursor, pageSize, fuel) == [page] + rest;
      hide Follow;
      assert ([page] + rest)[1..] == rest;
      assert items[start..] == items[start..end] + items[end..];
    }
  }

  /** Following the cursors from the start visits every item once, in order, and takes exactly
      ceil(n / pageSize) pages (one for an empty list). */
  lemma FollowingVisitsAll<T>(items: seq<T>, pageSize: nat, fuel: nat)
    requires 1 <= pageSize < TWO_TO_64 && 10 * |items| + 9 < TWO_TO_64
    requires fuel >= 1 && |items| <= fuel * pageSize
    ensures var pages := Follow(items, None, pageSize, fuel);
            AllItems(pages) == items && JustEnough(|pages|, |items|, pageSize) && Finished(pages)
  {
    PagesJustEnough(|items|, 0, pageSize);
    FewerPagesThanEnough(PagesFrom(|items|, 0, pageSize), fuel, |items|, pageSize);
    FollowFrom(items, None, 0, pageSize, fuel);
  }

  /** With page size zero a non-empty list is never finished: every page is empty and its cursor
      leads back to itself. */
  lemma {:induction false} PageSizeZeroLoops<T>(items: seq<T>, cursor: Option<string>, fuel: nat)
    requires items != [] && 10 * |items| + 9 < TWO_TO_64 && Start(cursor, |items|) == Some(0)
    ensures var pages := Follow(items, cursor, 0, fuel);
            |pages| == fuel && forall i :: 0 <= i < |pages| ==> pages[i] == Page([], Some("0"))
    decreases fuel
  {
    assert ToDecimal(0) == "0";
    NextCursorStarts(items, 0);
    assert Paginated(items, cursor, 0) == Answered(Page([], Some("0")));
    if fuel > 0 {
      PageSizeZeroLoops(items, Some("0"), fuel - 1);
    }
  }

  ghost predicate Finishes<T>(items: seq<T>, pageSize: nat) {
    exists fuel: nat :: Finished(Follow(items, None, pageSize, fuel))
  }

  lemma {:induction false} EmptyListFinishes<T>(items: seq<T>)
    requires items == []
    ensures Finished(Follow(items, None, 0, 1))
  {
  }

  /** Following the cursors from the start comes to an end exactly when the page size is not zero or
      there is nothing to list. */
  lemma {:induction false} FinishesIff<T>(items: seq<T>, pageSize: nat)
    requires pageSize < TWO_TO_64 && 10 * |items| + 9 < TWO_TO_64
    ensures Finishes(items, pageSize) <==> pageSize >= 1 || items == []
  {
    if pageSize >= 1 {
      ProductMonotone(1, pageSize, |items| + 1);
      FollowingVisitsAll(items, pageSize, |items| + 1);
    } else if items == [] {
      EmptyListFinishes(items);
    } else {
      hide Follow;
      forall fuel: nat
        ensures !Finished(Follow(items, None, pageSize, fuel))
      {
        PageSizeZeroLoops(items, None, fuel);
      }
    }
  }
}
