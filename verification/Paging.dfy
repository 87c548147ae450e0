/** Pages of an event table, as both the authority and the cache serve them. */
module Paging {
  import opened Results
  import opened Contracts
  import opened Cursor

  datatype Page = Page(items: seq<Record>, nextCursor: string, serverSequence: nat)

  /** The page after a sequence: `LIMIT limit+1`, one row more than is returned to learn whether
      another page follows. */
  function PageAfter(rows: seq<Record>, after: nat, limit: nat): Page
    requires limit > 0
  {
    var found := Window(rows, after + 1, 0);
    var items := if |found| > limit then found[..limit] else found;
    Page(items,
         if |found| > limit then EncodeCursor(items[limit - 1].event.sequence) else "",
         if items == [] then after else items[|items| - 1].event.sequence)
  }

  function PageVerdict(rows: seq<Record>, cursor: string, limit: int): Result<Page> {
    match BoundedLimit(limit)
    case Err(code) => Err(code)
    case Ok(bounded) =>
      match DecodeCursor(cursor)
      case Err(code) => Err(code)
      case Ok(after) => Ok(PageAfter(rows, after, bounded))
  }

  method ReadPage(rows: seq<Record>, cursor: string, limit: int) returns (r: Result<Page>)
    ensures r == PageVerdict(rows, cursor, limit)
  {
    hide EncodeCursor, DecodeCursor, Window;
    var bounded := BoundedLimit(limit);
    if bounded.Err? {
      return Err(bounded.code);
    }
    var after := DecodeCursor(cursor);
    if after.Err? {
      return Err(after.code);
    }
    var selected := Window(rows, after.value + 1, 0);
    var items: seq<Record> := [];
    var i := 0;
    while i < |selected| && i < bounded.value + 1
      invariant i <= |selected| && i <= bounded.value + 1
      invariant items == selected[..i]
    {
      items := items + [selected[i]];
      i := i + 1;
    }
    if i == |selected| {
      assert items == selected;
    }
    var next := "";
    if |items| > bounded.value {
      assert items[..bounded.value] == selected[..bounded.value];
      items := items[..bounded.value];
      next := EncodeCursor(items[|items| - 1].event.sequence);
    }
    var sequence := after.value;
    if |items| > 0 {
      sequence := items[|items| - 1].event.sequence;
    }
    return Ok(Page(items, next, sequence));
  }

  // ---------------------------------------------------------------- reading a log page by page

  /** A page of a chained log: the next records, as many as asked for; a cursor for the last of them if more
      follow; and the sequence of the last of them, or what was asked for if there is none. */
  lemma PageOfChain(rows: seq<Record>, key: string, after: nat, limit: nat)
    requires ChainHolds(rows, 1, Genesis, key) && 0 < limit
    ensures var page := PageAfter(rows, after, limit);
            if after >= |rows| then page == Page([], "", after)
            else
              var end := if |rows| - after > limit then after + limit else |rows|;
              page == Page(rows[after..end], if end < |rows| then EncodeCursor(end) else "", end)
  {
    hide EncodeCursor, ChainHolds, Window;
    ChainOrdered(rows, 1, Genesis, key);
    if after >= |rows| {
      WindowEmpty(rows, after + 1, 0);
    } else {
      WindowSlice(rows, 1, Genesis, key, after + 1);
      var found := rows[after..];
      assert Window(rows, after + 1, 0) == found;
      var end := if |rows| - after > limit then after + limit else |rows|;
      assert (if |found| > limit then found[..limit] else found) == rows[after..end];
      assert rows[after..end][end - after - 1] == rows[end - 1];
    }
  }

  /** The page a request is answered with, whatever the cursor it decodes from. */
  lemma PageAnswered(rows: seq<Record>, key: string, cursor: string, after: nat, limit: int)
    requires ChainHolds(rows, 1, Genesis, key) && 0 <= limit <= 500 && DecodeCursor(cursor) == Ok(after)
    ensures var size := if limit == 0 then 100 else limit;
            PageVerdict(rows, cursor, limit) == Ok(
              if after >= |rows| then Page([], "", after)
              else
                var end := if |rows| - after > size then after + size else |rows|;
                Page(rows[after..end], if end < |rows| then EncodeCursor(end) else "", end))
  {
    hide ChainHolds, EncodeCursor, DecodeCursor, PageAfter;
    PageOfChain(rows, key, after, if limit == 0 then 100 else limit);
  }

  /** The empty cursor asks for the log from its first record on. */
  lemma FirstPage(rows: seq<Record>, key: string, limit: int)
    requires ChainHolds(rows, 1, Genesis, key) && 0 <= limit <= 500
    ensures var size := if limit == 0 then 100 else limit;
            var end := if |rows| > size then size else |rows|;
            PageVerdict(rows, "", limit) == Ok(Page(rows[..end], if end < |rows| then EncodeCursor(end) else "", end))
  {
    PageAnswered(rows, key, "", 0, limit);
    hide ChainHolds, EncodeCursor, DecodeCursor, PageAfter, PageVerdict;
  }

  /** The cursor of a sequence asks for what follows it. */
  lemma LaterPage(rows: seq<Record>, key: string, n: nat, limit: int)
    requires ChainHolds(rows, 1, Genesis, key) && 0 <= limit <= 500 && n < 0x1_0000_0000_0000_0000
    ensures var size := if limit == 0 then 100 else limit;
            PageVerdict(rows, EncodeCursor(n), limit) == Ok(
              if n >= |rows| then Page([], "", n)
              else
                var end := if |rows| - n > size then n + size else |rows|;
                Page(rows[n..end], if end < |rows| then EncodeCursor(end) else "", end))
  {
    hide ChainHolds, EncodeCursor, DecodeCursor, PageAfter, PageVerdict;
    CursorRoundTrip(n);
    PageAnswered(rows, key, EncodeCursor(n), n, limit);
  }

  /** A page's server sequence is that of its last record. */
  lemma ServerSequence(rows: seq<Record>, cursor: string, limit: int)
    ensures var verdict := PageVerdict(rows, cursor, limit);
            verdict.Ok? ==>
              && DecodeCursor(cursor).Ok?
              && verdict.value.serverSequence ==
                 if verdict.value.items == [] then DecodeCursor(cursor).value
                 else verdict.value.items[|verdict.value.items| - 1].event.sequence
  {
    hide DecodeCursor, EncodeCursor, Window;
  }

  /** A limit out of range, or a cursor that does not decode, is a validation error. */
  lemma BadRequest(rows: seq<Record>, cursor: string, limit: int)
    ensures PageVerdict(rows, cursor, limit).Ok? <==> 0 <= limit <= 500 && DecodeCursor(cursor).Ok?
    ensures PageVerdict(rows, cursor, limit).Err? ==> PageVerdict(rows, cursor, limit) == Err(Validation)
  {
    hide EncodeCursor, PageAfter;
    DecodeErrors(cursor);
  }

  /** What a reader gets who starts at a cursor and follows `nextCursor` until there is none. */
  ghost predicate Reads(rows: seq<Record>, cursor: string, limit: int, pages: seq<Page>)
    decreases |pages|
  {
    && pages != [] && PageVerdict(rows, cursor, limit) == Ok(pages[0])
    && if pages[0].nextCursor == "" then |pages| == 1 else Reads(rows, pages[0].nextCursor, limit, pages[1..])
  }

  function Items(pages: seq<Page>): seq<Record> {
    if pages == [] then [] else pages[0].items + Items(pages[1..])
  }

  lemma {:induction false} ReadsRest(rows: seq<Record>, key: string, cursor: string, after: nat, limit: int,
                                     pages: seq<Page>)
    requires ChainHolds(rows, 1, Genesis, key) && after <= |rows| < UINT64_LIMIT && 0 <= limit <= 500
    requires DecodeCursor(cursor) == Ok(after) && Reads(rows, cursor, limit, pages)
    ensures Items(pages) == rows[after..]
    decreases |pages|
  {
    hide ChainHolds, EncodeCursor, DecodeCursor, PageVerdict;
    PageAnswered(rows, key, cursor, after, limit);
    var end := after + |pages[0].items|;
    CursorRoundTrip(end);
    if pages[0].nextCursor == "" {
      assert pages[1..] == [] && rows[after..] == pages[0].items;
    } else {
      ReadsRest(rows, key, pages[0].nextCursor, end, limit, pages[1..]);
      assert rows[after..end] + rows[end..] == rows[after..];
    }
  }

  lemma {:induction false} ReadsExist(rows: seq<Record>, key: string, cursor: string, after: nat, limit: int)
    returns (pages: seq<Page>)
    requires ChainHolds(rows, 1, Genesis, key) && after <= |rows| < UINT64_LIMIT && 0 <= limit <= 500
    requires DecodeCursor(cursor) == Ok(after)
    ensures Reads(rows, cursor, limit, pages)
    decreases |rows| - after
  {
    hide ChainHolds, EncodeCursor, DecodeCursor, PageVerdict;
    PageAnswered(rows, key, cursor, after, limit);
    CursorRoundTrip(after);
    var page := PageVerdict(rows, cursor, limit).value;
    if page.nextCursor == "" {
      pages := [page];
    } else {
      CursorRoundTrip(after + |page.items|);
      var rest := ReadsExist(rows, key, page.nextCursor, after + |page.items|, limit);
      pages := [page] + rest;
      assert pages[1..] == rest;
    }
  }

  /** Reading from the empty cursor until no cursor follows comes to an end, and yields the whole log,
      each record once and in order, whatever page size is asked for. */
  lemma ReadersSeeWholeLog(rows: seq<Record>, key: string, limit: int)
    requires ChainHolds(rows, 1, Genesis, key) && |rows| < 0x1_0000_0000_0000_0000 && 0 <= limit <= 500
    ensures exists pages :: Reads(rows, "", limit, pages)
    ensures forall pages :: Reads(rows, "", limit, pages) ==> Items(pages) == rows
  {
    assert DecodeCursor("") == Ok(0) by {
      FromTheStart();
    }
    hide ChainHolds, Reads, Items, DecodeCursor;
    var some := ReadsExist(rows, key, "", 0, limit);
    forall pages | Reads(rows, "", limit, pages) ensures Items(pages) == rows {
      ReadsRest(rows, key, "", 0, limit, pages);
      assert rows[0..] == rows;
    }
  }
}
