/** Coverage of an article list by pages on a key: what a cached list may claim
    about the server's, newest row first. */
module ArticleCoverage {
  import opened Basics

  /** A row's place in the list: by its sort time and then by its id. */
  datatype Row = Row(order: int, id: int)

  predicate Newer(one: Row, other: Row) {
    one.order > other.order || (one.order == other.order && one.id > other.id)
  }

  ghost predicate Sorted(list: seq<Row>) {
    forall i, j :: 0 <= i < j < |list| ==> Newer(list[i], list[j])
  }

  datatype Direction = Before | After

  // --- the server's page query --------------------------------------------------------------

  const PAGE_SIZE: nat := 50
  const QUERY_LIMIT: nat := 51

  function OlderThan(list: seq<Row>, cursor: Row): seq<Row> {
    if list == [] then []
    else (if Newer(cursor, list[0]) then [list[0]] else []) + OlderThan(list[1..], cursor)
  }

  function NewerThan(list: seq<Row>, cursor: Row): seq<Row> {
    if list == [] then []
    else (if Newer(list[0], cursor) then [list[0]] else []) + NewerThan(list[1..], cursor)
  }

  function Reversed(rows: seq<Row>): (reversed: seq<Row>)
    ensures |reversed| == |rows|
  {
    seq(|rows|, k requires 0 <= k < |rows| => rows[|rows| - 1 - k])
  }

  datatype Page = Page(rows: seq<Row>, hasMore: bool)

  function ListArticles(list: seq<Row>, direction: Direction, cursor: Option<Row>): Page {
    var selected :=
      if cursor.None? then list
      else if direction.After? then OlderThan(list, cursor.value) else NewerThan(list, cursor.value);
    var ordered := if direction.After? then selected else Reversed(selected);
    var rows := ordered[..Min(QUERY_LIMIT, |ordered|)];
    var page := rows[..Min(PAGE_SIZE, |rows|)];
    Page(if direction.Before? then Reversed(page) else page, |rows| > PAGE_SIZE)
  }

  /** How many rows of the list come at or before a cursor. */
  lemma {:induction false} OlderIsTail(list: seq<Row>, cursor: Row) returns (from: nat)
    requires Sorted(list)
    ensures from <= |list| && OlderThan(list, cursor) == list[from..]
    ensures forall k :: 0 <= k < |list| ==> (from <= k <==> Newer(cursor, list[k]))
  {
    if list == [] {
      from := 0;
    } else {
      assert forall i :: 0 <= i < |list[1..]| ==> list[1..][i] == list[i + 1];
      var rest := OlderIsTail(list[1..], cursor);
      assert list[1..][rest..] == list[rest + 1..];
      if Newer(cursor, list[0]) {
        assert rest == 0;
        from := 0;
        assert [list[0]] + list[1..] == list;
      } else {
        from := rest + 1;
      }
    }
  }

  lemma {:induction false} NewerIsHead(list: seq<Row>, cursor: Row) returns (to: nat)
    requires Sorted(list)
    ensures to <= |list| && NewerThan(list, cursor) == list[..to]
    ensures forall k :: 0 <= k < |list| ==> (k < to <==> Newer(list[k], cursor))
  {
    if list == [] {
      to := 0;
    } else {
      assert forall i :: 0 <= i < |list[1..]| ==> list[1..][i] == list[i + 1];
      var rest := NewerIsHead(list[1..], cursor);
      if Newer(list[0], cursor) {
        to := rest + 1;
        assert list[..to] == [list[0]] + list[1..][..rest];
      } else {
        assert rest == 0;
        to := 0;
      }
    }
  }

  /** Every page is a stretch of the list that begins right at the cursor, or at
      the end of the list, and `hasMore` says whether rows remain beyond it. */
  lemma PageIsStretch(list: seq<Row>, direction: Direction, cursor: Option<Row>) returns (from: nat, to: nat)
    requires Sorted(list)
    ensures from <= to <= |list| && ListArticles(list, direction, cursor).rows == list[from..to]
    ensures direction.After? ==>
              && (ListArticles(list, direction, cursor).hasMore <==> to < |list|)
              && (cursor.None? ==> from == 0)
              && (cursor.Some? ==> forall k :: 0 <= k < |list| ==> (from <= k <==> Newer(cursor.value, list[k])))
    ensures direction.Before? ==>
              && (ListArticles(list, direction, cursor).hasMore <==> 0 < from)
              && (cursor.None? ==> to == |list|)
              && (cursor.Some? ==> forall k :: 0 <= k < |list| ==> (k < to <==> Newer(list[k], cursor.value)))
    ensures to - from == Min(50, if direction.After? then |list| - from else to)
    ensures from == to ==> if direction.After? then to == |list| else from == 0
  {
    if direction.After? {
      from, to := AfterPage(list, cursor);
    } else {
      from, to := BeforePage(list, cursor);
    }
  }

  lemma AfterPage(list: seq<Row>, cursor: Option<Row>) returns (from: nat, to: nat)
    requires Sorted(list)
    ensures from <= to <= |list| && to == from + Min(PAGE_SIZE, |list| - from)
    ensures ListArticles(list, After, cursor) == Page(list[from..to], to < |list|)
    ensures cursor.None? ==> from == 0
    ensures cursor.Some? ==> forall k :: 0 <= k < |list| ==> (from <= k <==> Newer(cursor.value, list[k]))
  {
    hide OlderThan, NewerThan, Sorted, Newer;
    from := 0;
    if cursor.Some? {
      from := OlderIsTail(list, cursor.value);
    }
    to := from + Min(PAGE_SIZE, |list| - from);
    assert list[from..][..Min(QUERY_LIMIT, |list| - from)][..to - from] == list[from..to];
    assert cursor.None? ==> list[from..] == list;
  }

  lemma BeforePage(list: seq<Row>, cursor: Option<Row>) returns (from: nat, to: nat)
    requires Sorted(list)
    ensures from <= to <= |list| && from == to - Min(PAGE_SIZE, to)
    ensures ListArticles(list, Before, cursor) == Page(list[from..to], 0 < from)
    ensures cursor.None? ==> to == |list|
    ensures cursor.Some? ==> forall k :: 0 <= k < |list| ==> (k < to <==> Newer(list[k], cursor.value))
  {
    hide OlderThan, NewerThan, Sorted, Newer;
    to := |list|;
    if cursor.Some? {
      to := NewerIsHead(list, cursor.value);
    }
    from := to - Min(PAGE_SIZE, to);
    var selected := list[..to];
    assert cursor.None? ==> selected == list;
    var page := Reversed(selected)[..Min(QUERY_LIMIT, to)][..to - from];
    assert Reversed(page) == list[from..to];
  }

  // --- coverage -----------------------------------------------------------------------------

  datatype Coverage = Coverage(newest: Row, oldest: Row, reachedNewest: bool, reachedOldest: bool)

  function MergeCursorCoverage(
    current: Option<Coverage>, direction: Direction, cursor: Option<Row>,
    first: Option<Row>, last: Option<Row>, exhausted: bool)
    : Option<Coverage>
  {
    if first.None? || last.None? then
      if cursor.None? || current.None? || !exhausted then current
      else if direction.After? && current.value.oldest == cursor.value then Some(current.value.(reachedOldest := true))
      else if direction.Before? && current.value.newest == cursor.value then Some(current.value.(reachedNewest := true))
      else current
    else if cursor.None? then
      Some(Coverage(first.value, last.value, direction.After? || exhausted, direction.Before? || exhausted))
    else if current.None? then None
    else if direction.After? && current.value.oldest == cursor.value then
      Some(current.value.(oldest := last.value, reachedOldest := current.value.reachedOldest || exhausted))
    else if direction.Before? && current.value.newest == cursor.value then
      Some(current.value.(newest := first.value, reachedNewest := current.value.reachedNewest || exhausted))
    else None
  }

  function FirstOf(rows: seq<Row>): Option<Row> { if rows == [] then None else Some(rows[0]) }

  function LastOf(rows: seq<Row>): Option<Row> { if rows == [] then None else Some(rows[|rows| - 1]) }

  /** A connected page moves one end of the coverage to its far end and reaches
      the end of the list exactly when nothing remains; any other page of a list
      with coverage proves nothing. */
  lemma ConnectedPageExtends(current: Coverage, direction: Direction, cursor: Row, rows: seq<Row>, exhausted: bool)
    requires rows == [] ==> exhausted
    ensures var detail :=
              MergeCursorCoverage(Some(current), direction, Some(cursor), FirstOf(rows), LastOf(rows), exhausted);
            if direction.After? && current.oldest == cursor then
              detail == Some(current.(
                oldest := if rows == [] then cursor else rows[|rows| - 1],
                reachedOldest := current.reachedOldest || exhausted))
            else if direction.Before? && current.newest == cursor then
              detail == Some(current.(
                newest := if rows == [] then cursor else rows[0], reachedNewest := current.reachedNewest || exhausted))
            else detail.None? || detail == Some(current)
  {
  }

  /** The rows from the newest end of a stretch to its oldest. */
  ghost predicate Spans(list: seq<Row>, coverage: Coverage, from: nat, last: nat) {
    from <= last < |list| && list[from] == coverage.newest && list[last] == coverage.oldest
  }

  /** Every row between the ends of the coverage is cached, and an end that
      counts as reached is the end of the list. */
  ghost predicate Proves(list: seq<Row>, rows: set<Row>, coverage: Coverage) {
    exists from, last :: Spans(list, coverage, from, last) && Witnesses(list, rows, coverage, from, last)
  }

  ghost predicate Witnesses(list: seq<Row>, rows: set<Row>, coverage: Coverage, from: nat, last: nat) {
    && last < |list|
    && (forall k :: from <= k <= last ==> list[k] in rows)
    && (coverage.reachedNewest ==> from == 0)
    && (coverage.reachedOldest ==> last == |list| - 1)
  }

  ghost predicate Sound(list: seq<Row>, rows: set<Row>, coverage: Option<Coverage>) {
    && (forall row :: row in rows ==> row in list)
    && (coverage.Some? ==> Proves(list, rows, coverage.value))
  }

  class ArticleList {
    /** The cached memberships of this list. */
    var rows: set<Row>
    var coverage: Option<Coverage>

    constructor ()
      ensures rows == {} && coverage.None?
    {
      rows, coverage := {}, None;
    }

    /** Takes over one page of the server's list. */
    method ReconcileArticlePage(
      entries: seq<Row>, direction: Direction, cursor: Option<Row>, hasMore: bool, ghost list: seq<Row>)
      requires Sorted(list) && Sound(list, rows, coverage)
      requires ListArticles(list, direction, cursor) == Page(entries, hasMore)
      modifies this
      ensures Sound(list, rows, coverage)
      ensures rows == (if cursor.None? then {} else old(rows)) + set row | row in entries
      ensures cursor.None? && entries == [] ==> coverage.None?
      ensures cursor.None? && entries != [] ==>
                coverage == Some(Coverage(
                  entries[0], entries[|entries| - 1], direction.After? || !hasMore, direction.Before? || !hasMore))
      ensures cursor.Some? && old(coverage).None? ==> coverage.None?
      ensures cursor.Some? && old(coverage).Some? ==>
                var c := old(coverage).value;
                coverage == Some(
                  if direction.After? && c.oldest == cursor.value then
                    c.(oldest := if entries == [] then c.oldest else entries[|entries| - 1],
                       reachedOldest := c.reachedOldest || !hasMore)
                  else if direction.Before? && c.newest == cursor.value then
                    c.(newest := if entries == [] then c.newest else entries[0],
                       reachedNewest := c.reachedNewest || !hasMore)
                  else c)
    {
      hide Proves, OlderThan, NewerThan, ListArticles, Sorted, Newer;
      ghost var from, to := PageIsStretch(list, direction, cursor);
      ghost var was := coverage;
      rows := rows + set row | row in entries;
      if cursor.None? {
        rows := set row | row in entries;
        if entries == [] {
          coverage := None;
          RowsOfStretch(list, entries, from, to);
          return;
        }
      }
      var detail := MergeCursorCoverage(coverage, direction, cursor, FirstOf(entries), LastOf(entries), !hasMore);
      RowsOfStretch(list, entries, from, to);
      if detail.Some? {
        coverage := detail;
      }
      if cursor.None? {
        RootIsSound(list, entries, rows, direction, from, to, coverage.value);
      } else if was.Some? {
        CursorPageIsSound(list, entries, old(rows), rows, direction, cursor.value, from, to, was.value, coverage.value);
      }
    }
  }

  lemma RowsOfStretch(list: seq<Row>, entries: seq<Row>, from: nat, to: nat)
    requires from <= to <= |list| && entries == list[from..to]
    ensures forall row :: row in entries ==> row in list
    ensures forall k :: from <= k < to ==> list[k] in entries
  {
    forall k | from <= k < to ensures list[k] in entries {
      assert entries[k - from] == list[k];
    }
  }

  lemma RootIsSound(
    list: seq<Row>, entries: seq<Row>, rows: set<Row>, direction: Direction, from: nat, to: nat, coverage: Coverage)
    requires from < to <= |list| && entries == list[from..to] && forall k :: from <= k < to ==> list[k] in rows
    requires coverage.newest == entries[0] && coverage.oldest == entries[|entries| - 1]
    requires coverage.reachedNewest ==> from == 0
    requires coverage.reachedOldest ==> to == |list|
    ensures Proves(list, rows, coverage)
  {
    assert Spans(list, coverage, from, to - 1) && Witnesses(list, rows, coverage, from, to - 1);
  }

  lemma CursorPageIsSound(
    list: seq<Row>, entries: seq<Row>, before: set<Row>, rows: set<Row>, direction: Direction, cursor: Row,
    from: nat, to: nat, was: Coverage, coverage: Coverage)
    requires Sorted(list) && Proves(list, before, was) && before <= rows
    requires from <= to <= |list| && entries == list[from..to] && forall k :: from <= k < to ==> list[k] in rows
    requires direction.After? ==> forall k :: 0 <= k < |list| ==> (from <= k <==> Newer(cursor, list[k]))
    requires direction.Before? ==> forall k :: 0 <= k < |list| ==> (k < to <==> Newer(list[k], cursor))
    requires from == to ==> if direction.After? then to == |list| else from == 0
    requires var exhausted := if direction.After? then to == |list| else from == 0;
             var detail :=
               MergeCursorCoverage(Some(was), direction, Some(cursor), FirstOf(entries), LastOf(entries), exhausted);
             coverage == if detail.Some? then detail.value else was
    ensures Proves(list, rows, coverage)
  {
    var start: nat, end: nat :| Spans(list, was, start, end) && Witnesses(list, before, was, start, end);
    if direction.After? && was.oldest == cursor {
      assert !Newer(cursor, list[end]) && (end + 1 < |list| ==> Newer(cursor, list[end + 1]));
      assert from == end + 1;
      var last := if entries == [] then end else to - 1;
      assert Spans(list, coverage, start, last) && Witnesses(list, rows, coverage, start, last);
    } else if direction.Before? && was.newest == cursor {
      assert !Newer(list[start], cursor) && (start > 0 ==> Newer(list[start - 1], cursor));
      assert to == start;
      assert Spans(list, coverage, from, end) && Witnesses(list, rows, coverage, from, end);
    } else {
      assert Spans(list, coverage, start, end) && Witnesses(list, rows, coverage, start, end);
    }
  }

  /** The root page and then page after page until there are no more rows. */
  method FollowPages(list: seq<Row>, cache: ArticleList) returns (seen: seq<Row>)
    requires Sorted(list) && Sound(list, cache.rows, cache.coverage)
    modifies cache
    ensures seen == list
    ensures Sound(list, cache.rows, cache.coverage) && cache.rows == set row | row in list
    ensures cache.coverage.Some? <==> list != []
    ensures cache.coverage.Some? ==> cache.coverage.value == Coverage(list[0], list[|list| - 1], true, true)
  {
    hide Sound, ListArticles;
    var page := ListArticles(list, After, None);
    ghost var from, to := PageIsStretch(list, After, None);
    cache.ReconcileArticlePage(page.rows, After, None, page.hasMore, list);
    seen := page.rows;
    while page.hasMore
      invariant Sound(list, cache.rows, cache.coverage)
      invariant 0 <= to <= |list| && seen == list[..to] && (page.hasMore <==> to < |list|)
      invariant to == 0 ==> list == [] && cache.coverage.None?
      invariant to > 0 ==> cache.coverage == Some(Coverage(list[0], list[to - 1], true, to == |list|))
      invariant cache.rows == set row | row in seen
      decreases |list| - to
    {
      var cursor := seen[|seen| - 1];
      page := ListArticles(list, After, Some(cursor));
      ghost var start, end := PageIsStretch(list, After, Some(cursor));
      assert start == to by {
        assert Newer(cursor, list[to]) && !Newer(cursor, list[to - 1]);
      }
      assert start < end;
      cache.ReconcileArticlePage(page.rows, After, Some(cursor), page.hasMore, list);
      assert list[..to] + list[to..end] == list[..end];
      seen := seen + page.rows;
      to := end;
    }
  }
}
