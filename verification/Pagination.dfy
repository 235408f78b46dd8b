/** Keyset pagination of the hosted API (platform/api/src/lib/http.js:84-106). */
module Pagination {
  /* A page is read by a query that starts after the last row of the page before it. Lists run newest
     first by (created_at, id); obligations use the same clause with its comparisons flipped and run by
     (due_date, id) ascending.

     A row carries the two columns the query orders by and one for everything else. The remaining WHERE
     clause is a predicate. A cursor is kept as the pair it encodes. */

  import opened Options

  datatype Row = Row(t: string, id: string, rest: string)

  datatype Cursor = Cursor(t: string, i: string)

  datatype Direction = NewestFirst | EarliestFirst

  datatype Page = Page(items: seq<Row>, next: Option<Cursor>)

  datatype Answer = Listed(page: Page) | BadLimit

  const DEFAULT_LIMIT: int := 50
  const MAX_LIMIT: int := 200

  /* ---------- the order of text columns ---------- */

  predicate TextLess(a: string, b: string) {
    if b == "" then false
    else if a == "" then true
    else if a[0] == b[0] then TextLess(a[1..], b[1..])
    else a[0] < b[0]
  }

  lemma {:induction false} TextTotal(a: string, b: string)
    ensures a != b ==> TextLess(a, b) || TextLess(b, a)
    ensures !(TextLess(a, b) && TextLess(b, a))
    ensures a == b ==> !TextLess(a, b)
    decreases |a|
  {
    if a != "" && b != "" {
      assert a == [a[0]] + a[1..] && b == [b[0]] + b[1..];
      TextTotal(a[1..], b[1..]);
    }
  }

  lemma {:induction false} TextTransitive(a: string, b: string, c: string)
    requires TextLess(a, b) && TextLess(b, c)
    ensures TextLess(a, c)
    decreases |a|
  {
    if a != "" && a[0] == b[0] && b[0] == c[0] { TextTransitive(a[1..], b[1..], c[1..]); }
  }

  /** The texts part at their first difference, or the first is a proper beginning of the second. */
  ghost predicate PartAt(a: string, b: string, k: int) {
    0 <= k <= |a| && k < |b| && a[..k] == b[..k] && (k == |a| || a[k] < b[k])
  }

  lemma {:induction false} TextLessExact(a: string, b: string)
    ensures TextLess(a, b) <==> exists k :: PartAt(a, b, k)
    decreases |a|
  {
    if a == "" || b == "" {
      if b != "" { assert PartAt(a, b, 0); }
    } else if a[0] == b[0] {
      TextLessExact(a[1..], b[1..]);
      assert a == [a[0]] + a[1..] && b == [b[0]] + b[1..];
      if k :| PartAt(a[1..], b[1..], k) {
        assert a[..k + 1] == [a[0]] + a[1..][..k] && b[..k + 1] == [b[0]] + b[1..][..k];
        assert PartAt(a, b, k + 1);
      }
      if k :| PartAt(a, b, k) {
        assert k > 0;
        assert a[1..][..k - 1] == a[..k][1..] && b[1..][..k - 1] == b[..k][1..];
        assert PartAt(a[1..], b[1..], k - 1);
      }
    } else if a[0] < b[0] {
      assert PartAt(a, b, 0);
    } else {
      forall k ensures !PartAt(a, b, k) {
        if 0 < k <= |a| && k < |b| { assert a[..k][0] == a[0] && b[..k][0] == b[0]; }
      }
    }
  }

  /* ---------- the query ---------- */

  function KeyOf(r: Row): Cursor {
    Cursor(r.t, r.id)
  }

  /** The WHERE clause of a cursor: (t < ? OR (t = ? AND id < ?)), or the same with > for <. */
  predicate Past(d: Direction, k: Cursor, c: Cursor) {
    match d
    case NewestFirst => TextLess(k.t, c.t) || (k.t == c.t && TextLess(k.i, c.i))
    case EarliestFirst => TextLess(c.t, k.t) || (k.t == c.t && TextLess(c.i, k.i))
  }

  /** Newest first, what is past a cursor has an earlier time, or the same time and an earlier id; earliest first,
      later ones. */
  lemma PastExact(k: Cursor, c: Cursor)
    ensures Past(NewestFirst, k, c) <==>
              (exists n :: PartAt(k.t, c.t, n)) || (k.t == c.t && exists n :: PartAt(k.i, c.i, n))
    ensures Past(EarliestFirst, k, c) <==> Past(NewestFirst, c, k)
  {
    TextLessExact(k.t, c.t);
    TextLessExact(k.i, c.i);
  }

  predicate AfterCursor(d: Direction, r: Row, cursor: Option<Cursor>) {
    cursor.None? || Past(d, KeyOf(r), cursor.value)
  }

  function Where(d: Direction, table: seq<Row>, matches: Row -> bool, cursor: Option<Cursor>): seq<Row> {
    if table == [] then []
    else
      var n := |table| - 1;
      var before := Where(d, table[..n], matches, cursor);
      if matches(table[n]) && AfterCursor(d, table[n], cursor) then before + [table[n]] else before
  }

  /** Puts a row in its place. */
  function Placed(d: Direction, sorted: seq<Row>, r: Row): seq<Row> {
    if sorted == [] || Past(d, KeyOf(sorted[0]), KeyOf(r)) then [r] + sorted
    else [sorted[0]] + Placed(d, sorted[1..], r)
  }

  /** ORDER BY t, id in the direction of the list. */
  function OrderBy(d: Direction, rows: seq<Row>): seq<Row> {
    if rows == [] then [] else Placed(d, OrderBy(d, rows[..|rows| - 1]), rows[|rows| - 1])
  }

  function Limit(rows: seq<Row>, n: nat): seq<Row> {
    if |rows| <= n then rows else rows[..n]
  }

  function Select(d: Direction, table: seq<Row>, matches: Row -> bool, cursor: Option<Cursor>, limit: nat): seq<Row> {
    Limit(OrderBy(d, Where(d, table, matches, cursor)), limit)
  }

  /** The page of a result that was asked for one row more than it shows. */
  function PageOut(rows: seq<Row>, limit: nat): Page {
    var items := Limit(rows, limit);
    Page(items, if |rows| > limit && items != [] then Some(KeyOf(items[|items| - 1])) else None)
  }

  function ListPage(d: Direction, table: seq<Row>, matches: Row -> bool, cursor: Option<Cursor>, limit: nat): Page {
    PageOut(Select(d, table, matches, cursor, limit + 1), limit)
  }

  /** The limit a request asks for: 50 by default, 200 at most, and an error below 1. */
  function Answered(d: Direction, table: seq<Row>, matches: Row -> bool, cursor: Option<Cursor>,
                    asked: Option<int>): (r: Answer)
    ensures r.BadLimit? <==> asked.Some? && asked.value < 1
    ensures r.Listed? ==>
              var n := if asked.None? then 50 else if asked.value > 200 then 200 else asked.value;
              |r.page.items| <= n && (r.page.next.Some? ==> |r.page.items| == n)
  {
    var limit := if asked.Some? then asked.value else DEFAULT_LIMIT;
    if limit < 1 then BadLimit
    else Listed(ListPage(d, table, matches, cursor, if limit > MAX_LIMIT then MAX_LIMIT else limit))
  }

  /* ---------- order ---------- */

  lemma PastTotal(d: Direction, a: Cursor, b: Cursor)
    ensures a != b ==> Past(d, a, b) || Past(d, b, a)
    ensures !(Past(d, a, b) && Past(d, b, a))
    ensures a == b ==> !Past(d, a, b)
  {
    TextTotal(a.t, b.t);
    TextTotal(a.i, b.i);
  }

  lemma PastTransitive(d: Direction, a: Cursor, b: Cursor, c: Cursor)
    requires Past(d, a, b) && Past(d, b, c)
    ensures Past(d, a, c)
  {
    forall x, y, z | TextLess(x, y) && TextLess(y, z) ensures TextLess(x, z) { TextTransitive(x, y, z); }
  }

  ghost predicate InOrder(d: Direction, rows: seq<Row>) {
    forall i, j :: 0 <= i < j < |rows| ==> Past(d, KeyOf(rows[j]), KeyOf(rows[i]))
  }

  /** The primary key: no two rows share an id. */
  ghost predicate Keyed(table: seq<Row>) {
    forall i, j :: 0 <= i < j < |table| ==> table[i].id != table[j].id
  }

  lemma {:induction false} WhereExact(d: Direction, table: seq<Row>, matches: Row -> bool, cursor: Option<Cursor>)
    ensures var w := Where(d, table, matches, cursor);
            (forall r :: r in w <==> r in table && matches(r) && AfterCursor(d, r, cursor))
            && (Keyed(table) ==> Keyed(w))
    decreases |table|
  {
    hide AfterCursor;
    if table != [] {
      var n := |table| - 1;
      assert table == table[..n] + [table[n]];
      WhereExact(d, table[..n], matches, cursor);
      var before := Where(d, table[..n], matches, cursor);
      if Keyed(table) {
        forall i | 0 <= i < |before| ensures before[i].id != table[n].id {
          assert before[i] in table[..n];
        }
      }
    }
  }

  lemma {:induction false} PlacedOrdered(d: Direction, sorted: seq<Row>, r: Row)
    requires InOrder(d, sorted) && forall s :: s in sorted ==> KeyOf(s) != KeyOf(r)
    ensures InOrder(d, Placed(d, sorted, r))
    ensures forall s :: s in Placed(d, sorted, r) <==> s in sorted || s == r
    decreases |sorted|
  {
    hide Past;
    if sorted != [] {
      assert sorted == [sorted[0]] + sorted[1..];
      if Past(d, KeyOf(sorted[0]), KeyOf(r)) {
        forall j | 1 <= j < |sorted| ensures Past(d, KeyOf(sorted[j]), KeyOf(r)) {
          PastTransitive(d, KeyOf(sorted[j]), KeyOf(sorted[0]), KeyOf(r));
        }
      } else {
        PlacedOrdered(d, sorted[1..], r);
        PastTotal(d, KeyOf(sorted[0]), KeyOf(r));
        var tail := Placed(d, sorted[1..], r);
        forall j | 0 <= j < |tail| ensures Past(d, KeyOf(tail[j]), KeyOf(sorted[0])) {
          assert tail[j] in tail;
          assert tail[j] != r ==> tail[j] in sorted[1..];
        }
      }
    }
  }

  lemma {:induction false} OrderByExact(d: Direction, rows: seq<Row>)
    requires Keyed(rows)
    ensures InOrder(d, OrderBy(d, rows))
    ensures forall r :: r in OrderBy(d, rows) <==> r in rows
    decreases |rows|
  {
    if rows != [] {
      var n := |rows| - 1;
      assert rows == rows[..n] + [rows[n]];
      OrderByExact(d, rows[..n]);
      PlacedOrdered(d, OrderBy(d, rows[..n]), rows[n]);
    }
  }

  /** Lists in order with the same rows are the same list. */
  lemma {:induction false} OrderUnique(d: Direction, a: seq<Row>, b: seq<Row>)
    requires InOrder(d, a) && InOrder(d, b) && forall r :: r in a <==> r in b
    ensures a == b
    decreases |a|
  {
    hide Past;
    BothEmpty(a, b);
    if a != [] {
      assert a[0] in b && b[0] in a;
      var i :| 0 <= i < |b| && b[i] == a[0];
      var j :| 0 <= j < |a| && a[j] == b[0];
      PastTotal(d, KeyOf(a[0]), KeyOf(b[0]));
      assert i == 0;
      assert a == [a[0]] + a[1..] && b == [b[0]] + b[1..];
      FirstOnce(d, a);
      FirstOnce(d, b);
      forall r ensures r in a[1..] <==> r in b[1..] {
        assert r in a[1..] <==> r in a && r != a[0];
        assert r in b[1..] <==> r in b && r != b[0];
      }
      OrderUnique(d, a[1..], b[1..]);
    }
  }

  lemma BothEmpty(a: seq<Row>, b: seq<Row>)
    requires forall r :: r in a <==> r in b
    ensures a == [] <==> b == []
  {
    assert a != [] ==> a[0] in a;
    assert b != [] ==> b[0] in b;
  }

  lemma FirstOnce(d: Direction, a: seq<Row>)
    requires InOrder(d, a) && a != []
    ensures a[0] !in a[1..]
  {
    forall k | 1 <= k < |a| ensures a[k] != a[0] { PastTotal(d, KeyOf(a[k]), KeyOf(a[0])); }
  }

  /* ---------- one page ---------- */

  /** A page shows, in order, matching rows after its cursor: all of them when it is the last page, and
      otherwise all those up to its last row, which is the next cursor. */
  lemma PageExact(d: Direction, table: seq<Row>, matches: Row -> bool, cursor: Option<Cursor>, limit: nat)
    requires Keyed(table) && limit >= 1
    ensures var p := ListPage(d, table, matches, cursor, limit);
            && InOrder(d, p.items) && |p.items| <= limit
            && (forall r :: r in p.items ==> r in table && matches(r) && AfterCursor(d, r, cursor))
            && (p.next.Some? ==> p.items != [] && p.next.value == KeyOf(p.items[|p.items| - 1]))
            && (forall r :: r in table && matches(r) && AfterCursor(d, r, cursor) ==>
                  r in p.items || (p.next.Some? && Past(d, KeyOf(r), p.next.value)))
            && (p.next.Some? ==>
                  |p.items| == limit && exists r :: r in table && matches(r) && Past(d, KeyOf(r), p.next.value))
  {
    hide Past, AfterCursor;
    WhereExact(d, table, matches, cursor);
    var w := Where(d, table, matches, cursor);
    OrderByExact(d, w);
    var s := OrderBy(d, w);
    var p := ListPage(d, table, matches, cursor, limit);
    if |s| <= limit {
      assert p.items == s;
    } else {
      assert p.items == s[..limit];
      assert Past(d, KeyOf(s[limit]), KeyOf(s[limit - 1])) && s[limit] in s;
      forall r | r in s && r !in p.items ensures Past(d, KeyOf(r), KeyOf(s[limit - 1])) {
        var k :| 0 <= k < |s| && s[k] == r;
        assert k >= limit by { assert forall i :: 0 <= i < limit ==> p.items[i] == s[i]; }
      }
    }
  }

  /* ---------- a walk over a growing table ---------- */

  /** One request of a walk: the table as it stood, the cursor sent and the limit asked for. */
  datatype Visit = Visit(table: seq<Row>, cursor: Option<Cursor>, limit: nat)

  ghost function PageOf(d: Direction, matches: Row -> bool, v: Visit): Page {
    ListPage(d, v.table, matches, v.cursor, v.limit)
  }

  ghost predicate Grows(a: seq<Row>, b: seq<Row>) {
    forall r :: r in a ==> r in b
  }

  /** Each request follows the cursor of the page before it; rows may be inserted in between. */
  ghost predicate IsWalk(d: Direction, matches: Row -> bool, walk: seq<Visit>) {
    && walk != [] && walk[0].cursor.None?
    && (forall i :: 0 <= i < |walk| ==> Keyed(walk[i].table) && walk[i].limit >= 1)
    && (forall i :: 0 <= i < |walk| - 1 ==> Follows(d, matches, walk[i], walk[i + 1]))
  }

  ghost predicate Follows(d: Direction, matches: Row -> bool, v: Visit, w: Visit) {
    w.cursor.Some? && w.cursor == PageOf(d, matches, v).next && Grows(v.table, w.table)
  }

  /** A walk without its last request is a walk. */
  lemma WalkBefore(d: Direction, matches: Row -> bool, walk: seq<Visit>)
    requires IsWalk(d, matches, walk) && |walk| > 1
    ensures var n := |walk| - 1;
            IsWalk(d, matches, walk[..n]) && walk[..n][0] == walk[0] && walk[..n][n - 1] == walk[n - 1]
            && Follows(d, matches, walk[n - 1], walk[n])
    ensures OnlyNewer(d, matches, walk) ==> OnlyNewer(d, matches, walk[..|walk| - 1])
    ensures OnlyNewer(d, matches, walk) ==> NewerThan(d, matches, walk[|walk| - 2].table, walk[|walk| - 1])
  {
    hide Follows, NewerThan;
    var n := |walk| - 1;
    var before := walk[..n];
    assert forall i :: 0 <= i < n ==> before[i] == walk[i];
    forall i | 0 <= i < n - 1 ensures Follows(d, matches, before[i], before[i + 1]) {
      assert Follows(d, matches, walk[i], walk[i + 1]);
    }
    if OnlyNewer(d, matches, walk) {
      forall i | 0 <= i < n - 1 ensures NewerThan(d, matches, before[i].table, before[i + 1]) {
        assert NewerThan(d, matches, walk[i].table, walk[i + 1]);
      }
      assert NewerThan(d, matches, walk[n - 1].table, walk[n - 1 + 1]);
    }
    assert Follows(d, matches, walk[n - 1], walk[n - 1 + 1]);
  }

  ghost function Collected(d: Direction, matches: Row -> bool, walk: seq<Visit>): seq<Row> {
    if walk == [] then []
    else Collected(d, matches, walk[..|walk| - 1]) + PageOf(d, matches, walk[|walk| - 1]).items
  }

  ghost predicate Finished(d: Direction, matches: Row -> bool, walk: seq<Visit>)
    requires walk != []
  {
    PageOf(d, matches, walk[|walk| - 1]).next.None?
  }

  /** What has been shown when a cursor is reached: in order, nothing past the cursor, and every matching
      row of the first table that is not past it. */
  ghost predicate Shown(d: Direction, matches: Row -> bool, first: seq<Row>, got: seq<Row>, next: Option<Cursor>) {
    && InOrder(d, got)
    && (next.Some? ==> forall r :: r in got ==> KeyOf(r) == next.value || Past(d, next.value, KeyOf(r)))
    && (forall r :: r in first && matches(r) ==> r in got || (next.Some? && Past(d, KeyOf(r), next.value)))
  }

  lemma ShownStep(d: Direction, matches: Row -> bool, first: seq<Row>, got: seq<Row>, v: Visit)
    requires v.cursor.Some? && Shown(d, matches, first, got, v.cursor)
    requires Keyed(v.table) && v.limit >= 1 && Grows(first, v.table)
    ensures var p := PageOf(d, matches, v); Shown(d, matches, first, got + p.items, p.next)
  {
    hide ListPage;
    PageExact(d, v.table, matches, v.cursor, v.limit);
    var p := PageOf(d, matches, v);
    hide Past;
    forall a, b | a in got && b in p.items ensures Past(d, KeyOf(b), KeyOf(a)) {
      if KeyOf(a) != v.cursor.value { PastTransitive(d, KeyOf(b), v.cursor.value, KeyOf(a)); }
    }
    if p.next.Some? {
      var last := p.items[|p.items| - 1];
      assert last in p.items;
      forall r | r in got + p.items ensures KeyOf(r) == p.next.value || Past(d, p.next.value, KeyOf(r)) { }
    }
  }

  lemma {:induction false} WalkShows(d: Direction, matches: Row -> bool, walk: seq<Visit>)
    requires IsWalk(d, matches, walk)
    ensures Shown(d, matches, walk[0].table, Collected(d, matches, walk), PageOf(d, matches, walk[|walk| - 1]).next)
    ensures Grows(walk[0].table, walk[|walk| - 1].table)
    decreases |walk|
  {
    hide PageOf, Past, Follows;
    var n := |walk| - 1;
    if n == 0 {
      FirstPageShows(d, matches, walk[0]);
      assert walk[..0] == [];
      assert Collected(d, matches, []) + PageOf(d, matches, walk[0]).items == PageOf(d, matches, walk[0]).items;
    } else {
      WalkBefore(d, matches, walk);
      WalkShows(d, matches, walk[..n]);
      FollowsMeans(d, matches, walk[n - 1], walk[n]);
      ShownStep(d, matches, walk[0].table, Collected(d, matches, walk[..n]), walk[n]);
    }
  }

  lemma FirstPageShows(d: Direction, matches: Row -> bool, v: Visit)
    requires v.cursor.None? && Keyed(v.table) && v.limit >= 1
    ensures Shown(d, matches, v.table, PageOf(d, matches, v).items, PageOf(d, matches, v).next)
  {
    hide ListPage, Past;
    PageExact(d, v.table, matches, None, v.limit);
    var p := PageOf(d, matches, v);
    if p.next.Some? {
      forall r | r in p.items ensures KeyOf(r) == p.next.value || Past(d, p.next.value, KeyOf(r)) { }
    }
  }

  /** A finished walk over a table that only grows shows rows in order, none twice, and every row the
      table held when the walk began. */
  lemma WalkMissesNothing(d: Direction, matches: Row -> bool, walk: seq<Visit>)
    requires IsWalk(d, matches, walk) && Finished(d, matches, walk)
    ensures InOrder(d, Collected(d, matches, walk))
    ensures forall r :: r in walk[0].table && matches(r) ==> r in Collected(d, matches, walk)
    ensures forall i, j :: 0 <= i < j < |Collected(d, matches, walk)| ==>
              Collected(d, matches, walk)[i] != Collected(d, matches, walk)[j]
  {
    WalkShows(d, matches, walk);
    var got := Collected(d, matches, walk);
    forall i, j | 0 <= i < j < |got| ensures got[i] != got[j] { PastTotal(d, KeyOf(got[i]), KeyOf(got[j])); }
  }

  /** The rows inserted before a request are not past its cursor, as rows newer than it are. */
  ghost predicate OnlyNewer(d: Direction, matches: Row -> bool, walk: seq<Visit>) {
    forall i :: 0 <= i < |walk| - 1 ==> NewerThan(d, matches, walk[i].table, walk[i + 1])
  }

  ghost predicate NewerThan(d: Direction, matches: Row -> bool, a: seq<Row>, w: Visit) {
    forall r :: r in w.table && r !in a && matches(r) ==> w.cursor.Some? && !Past(d, KeyOf(r), w.cursor.value)
  }

  /** Rows still ahead of the walk, and rows already shown, were there when it began. */
  lemma {:induction false} NothingNewAhead(d: Direction, matches: Row -> bool, walk: seq<Visit>)
    requires IsWalk(d, matches, walk) && OnlyNewer(d, matches, walk)
    ensures var last := walk[|walk| - 1];
            OldAhead(d, matches, walk[0].table, last)
    ensures forall r :: r in Collected(d, matches, walk) ==> r in walk[0].table && matches(r)
    decreases |walk|
  {
    hide Past, Follows, NewerThan, AfterCursor, PageOf, OnlyNewer;
    var n := |walk| - 1;
    var last := walk[n];
    PageFrom(d, matches, last, walk[0].table);
    if n > 0 {
      WalkBefore(d, matches, walk);
      NothingNewAhead(d, matches, walk[..n]);
      FollowsMeans(d, matches, walk[n - 1], last);
      CursorMoves(d, matches, walk[n - 1], last.cursor.value);
      AheadOld(d, matches, walk[0].table, walk[n - 1], last);
    }
  }

  lemma FollowsMeans(d: Direction, matches: Row -> bool, v: Visit, w: Visit)
    requires Follows(d, matches, v, w)
    ensures w.cursor.Some? && PageOf(d, matches, v).next == w.cursor && Grows(v.table, w.table)
  {
  }

  ghost predicate OldAhead(d: Direction, matches: Row -> bool, first: seq<Row>, v: Visit) {
    forall r :: r in v.table && matches(r) && AfterCursor(d, r, v.cursor) ==> r in first
  }

  lemma AheadOld(d: Direction, matches: Row -> bool, first: seq<Row>, v: Visit, w: Visit)
    requires OldAhead(d, matches, first, v) && NewerThan(d, matches, v.table, w) && w.cursor.Some?
    requires forall r {:trigger KeyOf(r)} :: Past(d, KeyOf(r), w.cursor.value) ==> AfterCursor(d, r, v.cursor)
    ensures OldAhead(d, matches, first, w)
  {
    hide Past;
    forall r | r in w.table && matches(r) && AfterCursor(d, r, w.cursor) ensures r in first {
      assert Past(d, KeyOf(r), w.cursor.value);
    }
  }

  lemma PageFrom(d: Direction, matches: Row -> bool, v: Visit, first: seq<Row>)
    requires Keyed(v.table) && v.limit >= 1
    ensures OldAhead(d, matches, first, v) ==> forall r :: r in PageOf(d, matches, v).items ==> r in first && matches(r)
  {
    PageExact(d, v.table, matches, v.cursor, v.limit);
  }

  /** Whatever is past the next cursor was past this one. */
  lemma CursorMoves(d: Direction, matches: Row -> bool, v: Visit, next: Cursor)
    requires Keyed(v.table) && v.limit >= 1 && PageOf(d, matches, v).next == Some(next)
    ensures forall r {:trigger KeyOf(r)} :: Past(d, KeyOf(r), next) ==> AfterCursor(d, r, v.cursor)
  {
    PageExact(d, v.table, matches, v.cursor, v.limit);
    hide ListPage, Past;
    var p := PageOf(d, matches, v);
    var last := p.items[|p.items| - 1];
    assert last in p.items;
    forall r: Row {:trigger KeyOf(r)} | Past(d, KeyOf(r), next) ensures AfterCursor(d, r, v.cursor) {
      if v.cursor.Some? { PastTransitive(d, KeyOf(r), next, v.cursor.value); }
    }
  }

  /** Rows newer than the cursor inserted while a walk is under way cause no skip and no repeat: the
      walk shows exactly the list as it stood when the walk began. */
  lemma WalkIsTheList(d: Direction, matches: Row -> bool, walk: seq<Visit>)
    requires IsWalk(d, matches, walk) && OnlyNewer(d, matches, walk) && Finished(d, matches, walk)
    ensures Collected(d, matches, walk) == OrderBy(d, Where(d, walk[0].table, matches, None))
  {
    WalkMissesNothing(d, matches, walk);
    NothingNewAhead(d, matches, walk);
    WhereExact(d, walk[0].table, matches, None);
    var whole := Where(d, walk[0].table, matches, None);
    OrderByExact(d, whole);
    OrderUnique(d, Collected(d, matches, walk), OrderBy(d, whole));
  }

  /* ---------- the walk ends ---------- */

  /** The rows a table still holds past a cursor. */
  ghost function Ahead(d: Direction, table: seq<Row>, matches: Row -> bool, cursor: Option<Cursor>): nat {
    |Where(d, table, matches, cursor)|
  }

  lemma {:induction false} AheadShrinks(d: Direction, table: seq<Row>, matches: Row -> bool, cursor: Option<Cursor>,
                                        next: Cursor, r: Row)
    requires forall s {:trigger KeyOf(s)} :: Past(d, KeyOf(s), next) ==> AfterCursor(d, s, cursor)
    ensures Ahead(d, table, matches, Some(next)) <= Ahead(d, table, matches, cursor)
    ensures r in table && matches(r) && AfterCursor(d, r, cursor) && !Past(d, KeyOf(r), next) ==>
              Ahead(d, table, matches, Some(next)) < Ahead(d, table, matches, cursor)
    decreases |table|
  {
    hide Past;
    if table != [] {
      var n := |table| - 1;
      assert table == table[..n] + [table[n]];
      AheadShrinks(d, table[..n], matches, cursor, next, r);
      assert Past(d, KeyOf(table[n]), next) ==> AfterCursor(d, table[n], cursor);
    }
  }

  /** While only rows not past the cursor are inserted, each page that names a next cursor leaves strictly fewer
      of the rows there were at the start ahead. So a walk has at most one request more than matching rows then,
      whatever is inserted meanwhile. */
  lemma {:induction false} WalkEnds(d: Direction, matches: Row -> bool, walk: seq<Visit>)
    requires IsWalk(d, matches, walk) && OnlyNewer(d, matches, walk)
    ensures |walk| - 1 + Ahead(d, walk[0].table, matches, walk[|walk| - 1].cursor)
         <= Ahead(d, walk[0].table, matches, None)
    decreases |walk|
  {
    hide Past, Ahead, PageOf, Follows, Keyed, OnlyNewer, OldAhead;
    var n := |walk| - 1;
    if n > 0 {
      WalkBefore(d, matches, walk);
      WalkEnds(d, matches, walk[..n]);
      NothingNewAhead(d, matches, walk[..n]);
      FollowsMeans(d, matches, walk[n - 1], walk[n]);
      RequestAdvances(d, matches, walk[0].table, walk[n - 1], walk[n].cursor.value);
    }
  }

  lemma RequestAdvances(d: Direction, matches: Row -> bool, first: seq<Row>, v: Visit, next: Cursor)
    requires Keyed(v.table) && v.limit >= 1 && PageOf(d, matches, v).next == Some(next)
    requires OldAhead(d, matches, first, v)
    ensures Ahead(d, first, matches, Some(next)) < Ahead(d, first, matches, v.cursor)
  {
    CursorMoves(d, matches, v, next);
    PageExact(d, v.table, matches, v.cursor, v.limit);
    PageFrom(d, matches, v, first);
    hide ListPage, Past, Ahead, OldAhead;
    var items := PageOf(d, matches, v).items;
    var last := items[|items| - 1];
    assert last in items;
    PastTotal(d, KeyOf(last), next);
    AheadShrinks(d, first, matches, v.cursor, next, last);
  }
}
