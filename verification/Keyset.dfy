/**
 Keyset paging over a primary key, newest first (packages/backend/src/db/keyset.ts).
 A table is its rows listed by key, newest first; a query filters them, takes the
 direction of the walk and cuts at its limit.
 */
module Keyset {
  import opened Results
  import opened Sequences

  /** `created` is in milliseconds. */
  datatype Row = Row(id: int, created: int)

  datatype CreatedRange = CreatedRange(gt: Option<int>, gte: Option<int>, lt: Option<int>, lte: Option<int>)

  datatype Page = Page(limit: nat, after: Option<int>, before: Option<int>, created: CreatedRange)

  ghost predicate IsTable(rows: seq<Row>) {
    forall i, j :: 0 <= i < j < |rows| ==> rows[i].id > rows[j].id
  }

  // ------------------------------------------------------------------ conditions

  datatype Condition = CreatedFrom(ms: int) | CreatedBefore(ms: int) | IdBelow(id: int) | IdAbove(id: int)

  predicate Meets(row: Row, c: Condition) {
    match c
    case CreatedFrom(ms) => row.created >= ms
    case CreatedBefore(ms) => row.created < ms
    case IdBelow(id) => row.id < id
    case IdAbove(id) => row.id > id
  }

  predicate MeetsAll(row: Row, conditions: seq<Condition>) {
    conditions == [] || (Meets(row, conditions[0]) && MeetsAll(row, conditions[1..]))
  }

  /** The second `s` on the wire stands for the instants from `s * 1000` up to the next second. */
  function From(s: Option<int>, plus: int): seq<Condition> {
    if s.Some? then [CreatedFrom((s.value + plus) * 1000)] else []
  }

  function Until(s: Option<int>, plus: int): seq<Condition> {
    if s.Some? then [CreatedBefore((s.value + plus) * 1000)] else []
  }

  function RangeConditions(range: CreatedRange): seq<Condition> {
    From(range.gte, 0) + From(range.gt, 1) + Until(range.lt, 0) + Until(range.lte, 1)
  }

  function AfterCondition(page: Page): seq<Condition> {
    if page.after.Some? then [IdBelow(page.after.value)] else []
  }

  function BeforeCondition(page: Page): seq<Condition> {
    if page.before.Some? then [IdAbove(page.before.value)] else []
  }

  /** The filter as the caller means it, on the second the wire shows. */
  predicate InRange(seconds: int, range: CreatedRange) {
    && (range.gt.Some? ==> seconds > range.gt.value)
    && (range.gte.Some? ==> seconds >= range.gte.value)
    && (range.lt.Some? ==> seconds < range.lt.value)
    && (range.lte.Some? ==> seconds <= range.lte.value)
  }

  predicate InScope(row: Row, page: Page) {
    && InRange(row.created / 1000, page.created)
    && (page.after.Some? ==> row.id < page.after.value)
    && (page.before.Some? ==> row.id > page.before.value)
  }

  lemma {:induction false} MeetsBoth(row: Row, a: seq<Condition>, b: seq<Condition>)
    ensures MeetsAll(row, a + b) <==> MeetsAll(row, a) && MeetsAll(row, b)
  {
    if a == [] {
      assert a + b == b;
    } else {
      assert (a + b)[1..] == a[1..] + b;
      MeetsBoth(row, a[1..], b);
    }
  }

  lemma {:induction false} RangeMeaning(row: Row, range: CreatedRange)
    ensures MeetsAll(row, RangeConditions(range)) <==> InRange(row.created / 1000, range)
  {
    var gte, gt, lt, lte := From(range.gte, 0), From(range.gt, 1), Until(range.lt, 0), Until(range.lte, 1);
    MeetsBoth(row, gte + gt + lt, lte);
    MeetsBoth(row, gte + gt, lt);
    MeetsBoth(row, gte, gt);
  }

  /** `createdPredicates`: a row meets them exactly when the second it shows on the wire is in the range. */
  method CreatedPredicates(range: CreatedRange) returns (out: seq<Condition>)
    ensures forall row :: MeetsAll(row, out) <==> InRange(row.created / 1000, range)
  {
    out := [];
    if range.gte.Some? {
      out := out + [CreatedFrom(range.gte.value * 1000)];
    }
    assert out == From(range.gte, 0);
    if range.gt.Some? {
      out := out + [CreatedFrom((range.gt.value + 1) * 1000)];
    }
    assert out == From(range.gte, 0) + From(range.gt, 1);
    if range.lt.Some? {
      out := out + [CreatedBefore(range.lt.value * 1000)];
    }
    assert out == From(range.gte, 0) + From(range.gt, 1) + Until(range.lt, 0);
    if range.lte.Some? {
      out := out + [CreatedBefore((range.lte.value + 1) * 1000)];
    }
    assert out == RangeConditions(range);
    forall row ensures MeetsAll(row, out) <==> InRange(row.created / 1000, range) {
      RangeMeaning(row, range);
    }
  }

  /** The conditions `keyset` pushes, one by one: a row meets them exactly when the caller means it. */
  method Conditions(page: Page) returns (out: seq<Condition>)
    ensures forall row :: MeetsAll(row, out) <==> InScope(row, page)
  {
    var created := CreatedPredicates(page.created);
    out := created;
    if page.after.Some? {
      out := out + [IdBelow(page.after.value)];
    }
    assert out == created + AfterCondition(page);
    if page.before.Some? {
      out := out + [IdAbove(page.before.value)];
    }
    assert out == created + AfterCondition(page) + BeforeCondition(page);
    forall row ensures MeetsAll(row, out) <==> InScope(row, page) {
      MeetsBoth(row, created + AfterCondition(page), BeforeCondition(page));
      MeetsBoth(row, created, AfterCondition(page));
    }
  }

  // ----------------------------------------------------------------------- pages

  function Filter(rows: seq<Row>, page: Page): seq<Row> {
    if rows == [] then []
    else (if InScope(rows[0], page) then [rows[0]] else []) + Filter(rows[1..], page)
  }

  function Reversed(rows: seq<Row>): (out: seq<Row>)
    ensures |out| == |rows|
  {
    if rows == [] then [] else Reversed(rows[1..]) + [rows[0]]
  }

  /** The SQL's order and limit: by the key, ascending when the walk is backwards, one row more than the page. */
  function Query(scope: seq<Row>, page: Page): seq<Row> {
    Take(if page.before.Some? then Reversed(scope) else scope, page.limit + 1)
  }

  /** `data.reverse()` */
  method ReverseInPlace(data: array<Row>)
    modifies data
    ensures data[..] == Reversed(old(data[..]))
  {
    var n := data.Length;
    for i := 0 to n / 2
      invariant forall k :: 0 <= k < i ==> data[k] == old(data[n - 1 - k]) && data[n - 1 - k] == old(data[k])
      invariant forall k :: i <= k < n - i ==> data[k] == old(data[k])
    {
      data[i], data[n - 1 - i] := data[n - 1 - i], data[i];
    }
    forall k | 0 <= k < n ensures data[..][k] == Reversed(old(data[..]))[k] {
      ReversedAt(old(data[..]), k);
    }
  }

  lemma {:induction false} ReversedAt(rows: seq<Row>, k: nat)
    requires k < |rows|
    ensures Reversed(rows)[k] == rows[|rows| - 1 - k]
  {
    if k < |rows| - 1 {
      ReversedAt(rows[1..], k);
    }
  }

  /** `finish(rows)`: cut the overflow row, restore newest-first order. */
  method Finish(rows: seq<Row>, page: Page) returns (data: array<Row>, hasMore: bool)
    ensures hasMore <==> |rows| > page.limit
    ensures data[..] == if page.before.Some? then Reversed(Take(rows, page.limit)) else Take(rows, page.limit)
    ensures fresh(data)
  {
    hasMore := |rows| > page.limit;
    var cut := Take(rows, page.limit);
    data := new Row[|cut|](i requires 0 <= i < |cut| => cut[i]);
    assert data[..] == cut;
    if page.before.Some? {
      ReverseInPlace(data);
    }
  }

  datatype Result = Result(data: seq<Row>, hasMore: bool)

  /** The page that is cut out of the rows in scope. */
  function Cut(scope: seq<Row>, page: Page): Result {
    var rows := Query(scope, page);
    var cut := Take(rows, page.limit);
    Result(if page.before.Some? then Reversed(cut) else cut, |rows| > page.limit)
  }

  /** One read: the rows that meet the conditions (by Conditions, those in scope), cut to a page. */
  function Read(table: seq<Row>, page: Page): Result {
    Cut(Filter(table, page), page)
  }

  function Least(a: nat, b: nat): nat {
    if a < b then a else b
  }

  lemma {:induction false} TakeTwice(rows: seq<Row>, limit: nat)
    ensures Take(Take(rows, limit + 1), limit) == rows[..Least(|rows|, limit)]
    ensures |Take(rows, limit + 1)| > limit <==> |rows| > limit
  {
  }

  lemma {:induction false} ReversedBack(rows: seq<Row>, cut: seq<Row>, k: nat)
    requires k < |cut| <= |rows| && forall i :: 0 <= i < |cut| ==> cut[i] == rows[|rows| - 1 - i]
    ensures Reversed(cut)[k] == rows[|rows| - |cut| + k]
  {
    ReversedAt(cut, k);
  }

  lemma {:induction false} ReversedHead(rows: seq<Row>, cut: seq<Row>)
    requires |cut| <= |rows| && forall i :: 0 <= i < |cut| ==> cut[i] == rows[|rows| - 1 - i]
    ensures Reversed(cut) == rows[|rows| - |cut|..]
  {
    forall k | 0 <= k < |cut| ensures Reversed(cut)[k] == rows[|rows| - |cut| + k] {
      ReversedBack(rows, cut, k);
    }
  }

  lemma {:induction false} ReversedCut(rows: seq<Row>, n: nat)
    requires n <= |rows|
    ensures forall i :: 0 <= i < n ==> Reversed(rows)[..n][i] == rows[|rows| - 1 - i]
  {
    forall i | 0 <= i < n ensures Reversed(rows)[..n][i] == rows[|rows| - 1 - i] {
      ReversedAt(rows, i);
    }
  }

  lemma {:induction false} HeadOfReversed(rows: seq<Row>, n: nat)
    requires n <= |rows|
    ensures Reversed(Reversed(rows)[..n]) == rows[|rows| - n..]
  {
    ReversedCut(rows, n);
    ReversedHead(rows, Reversed(rows)[..n]);
  }

  /** The rows in scope nearest the cursor: the first ones forwards, the last ones backwards. */
  predicate IsNearest(r: Result, scope: seq<Row>, page: Page) {
    && |r.data| == Least(|scope|, page.limit)
    && (if page.before.None? then r.data == scope[..|r.data|] else r.data == scope[|scope| - |r.data|..])
    && (r.hasMore <==> |scope| > |r.data|)
  }

  /**
   A page is the rows in scope nearest the cursor, newest first. More remain in
   that direction exactly when `hasMore` says so.
   */
  lemma {:induction false} PageIsNearest(table: seq<Row>, page: Page)
    ensures IsNearest(Read(table, page), Filter(table, page), page)
  {
    NearestOf(Filter(table, page), page);
  }

  lemma {:induction false} NearestOf(scope: seq<Row>, page: Page)
    ensures IsNearest(Cut(scope, page), scope, page)
  {
    if page.before.Some? {
      TakeTwice(Reversed(scope), page.limit);
      HeadOfReversed(scope, Least(|scope|, page.limit));
    } else {
      TakeTwice(scope, page.limit);
    }
  }

  // ------------------------------------------------------------------------ walks

  lemma {:induction false} FilterMembers(rows: seq<Row>, page: Page)
    requires IsTable(rows)
    ensures IsTable(Filter(rows, page))
    ensures forall row :: row in Filter(rows, page) <==> row in rows && InScope(row, page)
  {
    if rows != [] {
      FilterMembers(rows[1..], page);
      assert rows == [rows[0]] + rows[1..];
      var rest := Filter(rows[1..], page);
      forall j | 0 <= j < |rest| ensures rows[0].id > rest[j].id {
        assert rest[j] in rows[1..];
      }
    }
  }

  /** The rows a cursor selects out of a scope. */
  function Below(rows: seq<Row>, id: int): seq<Row> {
    if rows == [] then [] else (if rows[0].id < id then [rows[0]] else []) + Below(rows[1..], id)
  }

  function Above(rows: seq<Row>, id: int): seq<Row> {
    if rows == [] then [] else (if rows[0].id > id then [rows[0]] else []) + Above(rows[1..], id)
  }

  lemma {:induction false} FilterAfter(rows: seq<Row>, page: Page, id: int)
    requires page.before.None? && (page.after.None? || id <= page.after.value)
    ensures Filter(rows, page.(after := Some(id))) == Below(Filter(rows, page), id)
  {
    if rows != [] {
      FilterAfter(rows[1..], page, id);
      BelowAppend(if InScope(rows[0], page) then [rows[0]] else [], Filter(rows[1..], page), id);
    }
  }

  lemma {:induction false} FilterBefore(rows: seq<Row>, page: Page, id: int)
    requires page.before.None? || id >= page.before.value
    ensures Filter(rows, page.(before := Some(id))) == Above(Filter(rows, page), id)
  {
    if rows != [] {
      FilterBefore(rows[1..], page, id);
      AboveAppend(if InScope(rows[0], page) then [rows[0]] else [], Filter(rows[1..], page), id);
    }
  }

  lemma {:induction false} BelowAppend(a: seq<Row>, b: seq<Row>, id: int)
    ensures Below(a + b, id) == Below(a, id) + Below(b, id)
  {
    if a == [] {
      assert a + b == b;
    } else {
      assert (a + b)[1..] == a[1..] + b;
      BelowAppend(a[1..], b, id);
    }
  }

  lemma {:induction false} AboveAppend(a: seq<Row>, b: seq<Row>, id: int)
    ensures Above(a + b, id) == Above(a, id) + Above(b, id)
  {
    if a == [] {
      assert a + b == b;
    } else {
      assert (a + b)[1..] == a[1..] + b;
      AboveAppend(a[1..], b, id);
    }
  }

  /** On a table a cursor at a row cuts there. */
  lemma {:induction false} BelowRow(rows: seq<Row>, k: nat)
    requires IsTable(rows) && k < |rows|
    ensures Below(rows, rows[k].id) == rows[k + 1..]
  {
    if k == 0 {
      AllBelow(rows[1..], rows[k].id);
    } else {
      BelowRow(rows[1..], k - 1);
      Shifted(rows, k);
    }
  }

  lemma {:induction false} Shifted(rows: seq<Row>, k: nat)
    requires 1 <= k < |rows|
    ensures rows[1..][k - 1] == rows[k] && rows[1..][k..] == rows[k + 1..]
      && [rows[0]] + rows[1..][..k - 1] == rows[..k]
  {
  }

  lemma {:induction false} AboveRow(rows: seq<Row>, k: nat)
    requires IsTable(rows) && k < |rows|
    ensures Above(rows, rows[k].id) == rows[..k]
  {
    if k == 0 {
      NoneAbove(rows[1..], rows[k].id);
    } else {
      AboveRow(rows[1..], k - 1);
      Shifted(rows, k);
    }
  }

  lemma {:induction false} AllBelow(rows: seq<Row>, id: int)
    requires forall i :: 0 <= i < |rows| ==> rows[i].id < id
    ensures Below(rows, id) == rows
  {
    if rows != [] {
      AllBelow(rows[1..], id);
    }
  }

  lemma {:induction false} NoneAbove(rows: seq<Row>, id: int)
    requires forall i :: 0 <= i < |rows| ==> rows[i].id < id
    ensures Above(rows, id) == []
  {
    if rows != [] {
      NoneAbove(rows[1..], id);
    }
  }

  /** Following `after` with each page's last id until `hasMore` is false; page k is read from `tables[k]`. */
  function Walk(tables: seq<seq<Row>>, page: Page): seq<Row> {
    if tables == [] then [] else
      var r := Read(tables[0], page);
      if !r.hasMore || r.data == [] then r.data
      else r.data + Walk(tables[1..], page.(after := Some(r.data[|r.data| - 1].id)))
  }

  /** Between two reads of the walk, the table changes only at and above the cursor. */
  ghost predicate StableBelow(tables: seq<seq<Row>>, page: Page)
    decreases |tables|
  {
    |tables| >= 2 ==>
      var r := Read(tables[0], page);
      r.hasMore && r.data != [] ==>
        var next := page.(after := Some(r.data[|r.data| - 1].id));
        Filter(tables[1], next) == Filter(tables[0], next) && StableBelow(tables[1..], next)
  }

  /** After a page with more to come, what is below its last row is the rest of the scope. */
  lemma {:induction false} RestOfScope(table: seq<Row>, page: Page, r: Result)
    requires IsTable(table) && page.before.None? && page.limit >= 1
    requires IsNearest(r, Filter(table, page), page) && r.hasMore
    ensures |r.data| == page.limit && r.data + Filter(table, page.(after := Some(r.data[|r.data| - 1].id)))
      == Filter(table, page)
  {
    var scope := Filter(table, page);
    var n := page.limit;
    FilterMembers(table, page);
    assert scope[n - 1] in scope;
    FilterAfter(table, page, scope[n - 1].id);
    BelowRow(scope, n - 1);
    SplitAt(scope, n);
  }

  /** The walk visits every row in scope exactly once, newest first, whatever is inserted above its cursor meanwhile. */
  lemma {:induction false} WalkIsExact(tables: seq<seq<Row>>, page: Page)
    requires page.before.None? && page.limit >= 1
    requires forall i :: 0 <= i < |tables| ==> IsTable(tables[i])
    requires tables != [] && |tables| > |Filter(tables[0], page)|
    requires StableBelow(tables, page)
    ensures Walk(tables, page) == Filter(tables[0], page)
    decreases |tables|
  {
    var r := Read(tables[0], page);
    PageIsNearest(tables[0], page);
    if r.hasMore {
      RestOfScope(tables[0], page, r);
      WalkIsExact(tables[1..], page.(after := Some(r.data[|r.data| - 1].id)));
    }
  }

  /** Following `before` with each page's first id until `hasMore` is false. */
  function WalkBack(tables: seq<seq<Row>>, page: Page): seq<Row> {
    if tables == [] then [] else
      var r := Read(tables[0], page);
      if !r.hasMore || r.data == [] then r.data
      else WalkBack(tables[1..], page.(before := Some(r.data[0].id))) + r.data
  }

  /** Between two reads of the way back, the table changes only at and below the cursor. */
  ghost predicate StableAbove(tables: seq<seq<Row>>, page: Page)
    decreases |tables|
  {
    |tables| >= 2 ==>
      var r := Read(tables[0], page);
      r.hasMore && r.data != [] ==>
        var next := page.(before := Some(r.data[0].id));
        Filter(tables[1], next) == Filter(tables[0], next) && StableAbove(tables[1..], next)
  }

  /** Before a page with more to come, what is above its first row is the rest of the scope. */
  lemma {:induction false} RestAbove(table: seq<Row>, page: Page, r: Result)
    requires IsTable(table) && page.before.Some? && page.limit >= 1
    requires IsNearest(r, Filter(table, page), page) && r.hasMore
    ensures |r.data| == page.limit && Filter(table, page.(before := Some(r.data[0].id))) + r.data == Filter(table, page)
  {
    var scope := Filter(table, page);
    var m := |scope| - page.limit;
    FilterMembers(table, page);
    assert scope[m] in scope;
    FilterBefore(table, page, scope[m].id);
    AboveRow(scope, m);
    SplitAt(scope, m);
  }

  /** The walk back visits every row above the cursor exactly once, and leaves them newest first. */
  lemma {:induction false} WalkBackIsExact(tables: seq<seq<Row>>, page: Page)
    requires page.before.Some? && page.limit >= 1
    requires forall i :: 0 <= i < |tables| ==> IsTable(tables[i])
    requires tables != [] && |tables| > |Filter(tables[0], page)|
    requires StableAbove(tables, page)
    ensures WalkBack(tables, page) == Filter(tables[0], page)
    decreases |tables|
  {
    var r := Read(tables[0], page);
    PageIsNearest(tables[0], page);
    if r.hasMore {
      RestAbove(tables[0], page, r);
      WalkBackIsExact(tables[1..], page.(before := Some(r.data[0].id)));
    } else {
      assert r.data == Filter(tables[0], page)[0..];
    }
  }

  /** On a table, the rows below a cursor are a tail of it. */
  lemma {:induction false} BelowIsTail(rows: seq<Row>, id: int) returns (m: nat)
    requires IsTable(rows)
    ensures m <= |rows| && Below(rows, id) == rows[m..]
  {
    if rows == [] {
      m := 0;
    } else if rows[0].id < id {
      m := 0;
      AllBelow(rows[1..], id);
    } else {
      m := BelowIsTail(rows[1..], id);
      assert rows[1..][m..] == rows[m + 1..];
      m := m + 1;
    }
  }

  /** What a page walks over is a tail of the same list read without its cursor. */
  lemma {:induction false} ScopeIsTail(table: seq<Row>, page: Page) returns (m: nat)
    requires IsTable(table) && page.before.None?
    ensures var whole := Filter(table, page.(after := None)); m <= |whole| && Filter(table, page) == whole[m..]
  {
    var all := page.(after := None);
    if page.after.Some? {
      FilterMembers(table, all);
      m := BelowIsTail(Filter(table, all), page.after.value);
      FilterAfter(table, all, page.after.value);
      assert all.(after := page.after) == page;
    } else {
      m := 0;
      assert all == page;
    }
  }

  /** The first row of a next page is the row of the scope right after the page. */
  lemma {:induction false} NextStarts(table: seq<Row>, page: Page, r: Result, next: Result)
    requires IsTable(table) && page.before.None? && page.limit >= 1
    requires IsNearest(r, Filter(table, page), page) && r.hasMore && |r.data| == page.limit
    requires
      var forward := page.(after := Some(r.data[|r.data| - 1].id));
      IsNearest(next, Filter(table, forward), forward)
    ensures next.data != [] && next.data[0] == Filter(table, page)[page.limit]
  {
    RestOfScope(table, page, r);
    assert Filter(table, page)[page.limit..] == Filter(table, page.(after := Some(r.data[page.limit - 1].id)));
  }

  /** Reading back from row `m + limit` of a list gives rows `m` up to it, with more before them unless `m` is 0. */
  lemma {:induction false} BackFrom(whole: seq<Row>, m: nat, page: Page, r: Result)
    requires page.before.Some? && m + page.limit < |whole|
    requires IsNearest(r, whole[..m + page.limit], page)
    ensures r.data == whole[m..m + page.limit] && (r.hasMore <==> m > 0)
  {
    assert whole[..m + page.limit][m..] == whole[m..m + page.limit];
  }

  lemma {:induction false} ScopeBefore(table: seq<Row>, all: Page, n: nat)
    requires IsTable(table) && all.before.None? && n < |Filter(table, all)|
    ensures Filter(table, all.(before := Some(Filter(table, all)[n].id))) == Filter(table, all)[..n]
  {
    FilterMembers(table, all);
    FilterBefore(table, all, Filter(table, all)[n].id);
    AboveRow(Filter(table, all), n);
  }

  lemma {:induction false} ReadOfScope(table: seq<Row>, page: Page, scope: seq<Row>)
    requires Filter(table, page) == scope
    ensures IsNearest(Read(table, page), scope, page)
  {
    PageIsNearest(table, page);
  }

  lemma {:induction false} ReadBack(table: seq<Row>, all: Page, whole: seq<Row>, m: nat, back: Page)
    requires IsTable(table) && all.before.None? && whole == Filter(table, all) && m + all.limit < |whole|
    requires back == all.(before := Some(whole[m + all.limit].id))
    ensures Read(table, back).data == whole[m..m + all.limit] && (Read(table, back).hasMore <==> m > 0)
  {
    ScopeBefore(table, all, m + all.limit);
    ReadOfScope(table, back, whole[..m + all.limit]);
    BackFrom(whole, m, back, Read(table, back));
  }

  lemma {:induction false} RowsPrecede(whole: seq<Row>, m: nat)
    requires IsTable(whole) && m < |whole|
    ensures m > 0 <==> exists row :: row in whole && row.id > whole[m].id
  {
    if m > 0 {
      assert whole[0] in whole && whole[0].id > whole[m].id;
    }
  }

  lemma {:induction false} PreviousAt(table: seq<Row>, page: Page, r: Result, m: nat)
    requires page.before.None? && m <= |Filter(table, page.(after := None))|
    requires Filter(table, page) == Filter(table, page.(after := None))[m..]
    requires IsNearest(r, Filter(table, page), page) && r.hasMore
    ensures
      var whole := Filter(table, page.(after := None));
      m + page.limit < |whole| && r.data == whole[m..m + page.limit]
          && Filter(table, page)[page.limit] == whole[m + page.limit]
  {
  }

  lemma {:induction false} BackAt(table: seq<Row>, all: Page, whole: seq<Row>, m: nat, back: Page, data: seq<Row>)
    requires IsTable(table) && all.before.None? && whole == Filter(table, all) && m + all.limit < |whole|
    requires all.limit >= 1 && back == all.(before := Some(whole[m + all.limit].id)) && data == whole[m..m + all.limit]
    ensures Read(table, back).data == data
    ensures Read(table, back).hasMore <==> exists row :: row in whole && row.id > data[0].id
  {
    ReadBack(table, all, whole, m, back);
    FilterMembers(table, all);
    RowsPrecede(whole, m);
    assert data[0] == whole[m];
  }

  /** From the row right after a page, `before` alone reads the page. */
  lemma {:induction false} BackFromNext(table: seq<Row>, page: Page, previous: Result, id: int)
    requires IsTable(table) && page.before.None? && page.limit >= 1
    requires IsNearest(previous, Filter(table, page), page) && previous.hasMore
      && id == Filter(table, page)[page.limit].id
    ensures
      var back := Read(table, page.(after := None, before := Some(id)));
      && back.data == previous.data
      && (back.hasMore <==> exists row :: row in Filter(table, page.(after := None)) && row.id > previous.data[0].id)
  {
    var m := ScopeIsTail(table, page);
    PreviousAt(table, page, previous, m);
    var all := page.(after := None);
    BackAt(table, all, Filter(table, all), m, all.(before := Some(id)), previous.data);
  }

  /**
   Going back from the first row of a next page, with `before` alone as the list
   routes ask for it, gives the previous full page again in the same order,
   whichever page of the walk that was. `hasMore` then says whether rows precede it.
   */
  lemma {:induction false} BackIsPreviousPage(table: seq<Row>, page: Page)
    requires IsTable(table) && page.before.None? && page.limit >= 1 && Read(table, page).hasMore
    ensures
      var previous := Read(table, page);
      var next := Read(table, page.(after := Some(previous.data[|previous.data| - 1].id)));
      && next.data != []
      && var back := Read(table, page.(after := None, before := Some(next.data[0].id)));
      && back.data == previous.data
      && (back.hasMore <==> exists row :: row in Filter(table, page.(after := None)) && row.id > previous.data[0].id)
  {
    var previous := Read(table, page);
    PageIsNearest(table, page);
    var forward := page.(after := Some(previous.data[|previous.data| - 1].id));
    PageIsNearest(table, forward);
    NextStarts(table, page, previous, Read(table, forward));
    BackFromNext(table, page, previous, Read(table, forward).data[0].id);
  }
}
