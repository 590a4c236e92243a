/**
 * The website's availability views (WebsiteBackendFunctions): the rows the
 * SQL input binding selects are grouped by date for one hut
 * (`GetHutAvailability`) or by hut for one date
 * (`GetAllAvailabilityOnDate`), and each group is summed into one view.
 */
module WebsiteAvailability {
  import opened Wrappers
  import opened Store

  /**
   * One row of the SQL query (`AvailabilityIntermediaryModel`), with the bed
   * category's shared name already resolved by the query's join.
   */
  datatype AvailabilityRow = AvailabilityRow(
    hutId: Option<int>,
    date: Day,
    bedCategory: Option<string>,
    freeRoom: int,
    totalRoom: int,
    lastUpdated: Option<Time>)

  /** One room of a view (`RoomAvailabilityViewModel`). */
  datatype RoomView = RoomView(bedCategory: Option<string>, freeBeds: int, totalBeds: int)

  /** `AvailabilityViewModel`. */
  datatype AvailabilityView = AvailabilityView(
    hutId: Option<int>,
    date: Day,
    lastUpdated: Option<Time>,
    totalFreeBeds: int,
    totalBeds: int,
    hutClosed: bool,
    rooms: seq<RoomView>)

  // ------------------------------------------------------------- grouping

  /** The keys of `GroupBy`, in order of first appearance. */
  function DistinctKeys<K(==)>(rows: seq<AvailabilityRow>, key: AvailabilityRow -> K): (keys: seq<K>)
    ensures forall i :: 0 <= i < |rows| ==> key(rows[i]) in keys
    ensures forall i, j :: 0 <= i < j < |keys| ==> keys[i] != keys[j]
    decreases |rows|
  {
    if rows == [] then []
    else
      var p := rows[..|rows| - 1];
      var keys := DistinctKeys(p, key);
      assert forall i :: 0 <= i < |p| ==> p[i] == rows[i];
      var k := key(rows[|rows| - 1]);
      if k in keys then keys else keys + [k]
  }

  /** Every key listed is the key of some row. */
  lemma {:induction false} DistinctKeysFromRows<K>(rows: seq<AvailabilityRow>, key: AvailabilityRow -> K, k: K)
    requires k in DistinctKeys(rows, key)
    ensures exists i :: 0 <= i < |rows| && key(rows[i]) == k
    decreases |rows|
  {
    if rows != [] {
      var p := rows[..|rows| - 1];
      if k in DistinctKeys(p, key) {
        DistinctKeysFromRows(p, key, k);
        var i :| 0 <= i < |p| && key(p[i]) == k;
        assert key(rows[i]) == k;
      } else {
        assert key(rows[|rows| - 1]) == k;
      }
    }
  }

  /** The keys of a prefix of the rows are a prefix of the keys of all of them. */
  lemma {:induction false} DistinctKeysPrefix<K>(rows: seq<AvailabilityRow>, key: AvailabilityRow -> K, n: nat)
    requires n <= |rows|
    ensures DistinctKeys(rows[..n], key) <= DistinctKeys(rows, key)
    decreases |rows|
  {
    if n == |rows| {
      assert rows[..n] == rows;
    } else {
      var p := rows[..|rows| - 1];
      assert p[..n] == rows[..n];
      DistinctKeysPrefix(p, key, n);
    }
  }

  /**
   * The keys come in order of first appearance: the keys of any prefix of
   * the rows come first, and a row whose key is listed after another key is
   * preceded by a row of that other key.
   */
  lemma DistinctKeysSpec<K>(rows: seq<AvailabilityRow>, key: AvailabilityRow -> K)
    ensures forall n :: 0 <= n <= |rows| ==> DistinctKeys(rows[..n], key) <= DistinctKeys(rows, key)
    ensures var keys := DistinctKeys(rows, key);
      forall i, j, n :: 0 <= i < j < |keys| && 0 <= n < |rows| && key(rows[n]) == keys[j] ==>
        exists m :: 0 <= m < n && key(rows[m]) == keys[i]
  {
    forall n | 0 <= n <= |rows|
      ensures DistinctKeys(rows[..n], key) <= DistinctKeys(rows, key)
    {
      DistinctKeysPrefix(rows, key, n);
    }
    var keys := DistinctKeys(rows, key);
    forall i, j, n | 0 <= i < j < |keys| && 0 <= n < |rows| && key(rows[n]) == keys[j]
      ensures exists m :: 0 <= m < n && key(rows[m]) == keys[i]
    {
      KeyListedBefore(rows, key, i, j, n);
    }
  }

  lemma KeyListedBefore<K>(rows: seq<AvailabilityRow>, key: AvailabilityRow -> K, i: nat, j: nat, n: nat)
    requires i < j < |DistinctKeys(rows, key)| && n < |rows|
    requires key(rows[n]) == DistinctKeys(rows, key)[j]
    ensures exists m :: 0 <= m < n && key(rows[m]) == DistinctKeys(rows, key)[i]
  {
    var keys := DistinctKeys(rows, key);
    var q := rows[..n + 1];
    var pre := DistinctKeys(q, key);
    DistinctKeysPrefix(rows, key, n + 1);
    assert q[n] == rows[n];
    assert keys[j] in pre;
    var t :| 0 <= t < |pre| && pre[t] == keys[j];
    assert t == j;
    assert pre[i] == keys[i];
    DistinctKeysFromRows(q, key, keys[i]);
    var m :| 0 <= m < |q| && key(q[m]) == keys[i];
    assert m != n;
    assert key(rows[m]) == keys[i];
  }

  /** The rows of one group, in input order. */
  function Group<K(==)>(rows: seq<AvailabilityRow>, key: AvailabilityRow -> K, k: K): (g: seq<AvailabilityRow>)
    ensures forall r :: r in g ==> r in rows && key(r) == k
    ensures |g| <= |rows|
    decreases |rows|
  {
    if rows == [] then []
    else
      var last := rows[|rows| - 1];
      Group(rows[..|rows| - 1], key, k) + (if key(last) == k then [last] else [])
  }

  /** A sum over rows (`Sum`). */
  function Sum(rows: seq<AvailabilityRow>, f: AvailabilityRow -> int): int
    decreases |rows|
  {
    if rows == [] then 0 else Sum(rows[..|rows| - 1], f) + f(rows[|rows| - 1])
  }

  function FreeRoom(r: AvailabilityRow): int { r.freeRoom }
  function TotalRoom(r: AvailabilityRow): int { r.totalRoom }

  /** A row is shown as a room when its total is positive. */
  function ShownRoom(r: AvailabilityRow): seq<RoomView>
  {
    if r.totalRoom > 0 then [RoomView(r.bedCategory, r.freeRoom, r.totalRoom)] else []
  }

  /** The rooms shown: rows with a positive total, which hides the 0/0 "hut closed" row. */
  function ShownRooms(rows: seq<AvailabilityRow>): (rooms: seq<RoomView>)
    ensures |rooms| <= |rows|
    ensures forall i :: 0 <= i < |rooms| ==> rooms[i].totalBeds > 0
    decreases |rows|
  {
    if rows == [] then []
    else
      ShownRooms(rows[..|rows| - 1]) + ShownRoom(rows[|rows| - 1])
  }

  lemma {:induction false} ShownRoomsAppend(a: seq<AvailabilityRow>, b: seq<AvailabilityRow>)
    ensures ShownRooms(a + b) == ShownRooms(a) + ShownRooms(b)
    decreases |b|
  {
    if b == [] {
      assert a + b == a;
    } else {
      assert (a + b)[..|a + b| - 1] == a + b[..|b| - 1];
      ShownRoomsAppend(a, b[..|b| - 1]);
    }
  }

  /**
   * The rooms shown are the rows with a positive total, each with its
   * category and counts, in its place among the others.
   */
  lemma ShownRoomsSpec(rows: seq<AvailabilityRow>)
    ensures forall n :: 0 <= n < |rows| ==>
      ShownRooms(rows) == ShownRooms(rows[..n]) + ShownRoom(rows[n]) + ShownRooms(rows[n + 1..])
  {
    forall n | 0 <= n < |rows|
      ensures ShownRooms(rows) == ShownRooms(rows[..n]) + ShownRoom(rows[n]) + ShownRooms(rows[n + 1..])
    {
      ShownRoomsAt(rows, n);
    }
  }

  lemma ShownRoomsAt(rows: seq<AvailabilityRow>, n: nat)
    requires n < |rows|
    ensures ShownRooms(rows) == ShownRooms(rows[..n]) + ShownRoom(rows[n]) + ShownRooms(rows[n + 1..])
  {
    var a, b := rows[..n + 1], rows[n + 1..];
    assert rows == a + b;
    assert a[..n] == rows[..n];
    ShownRoomsSnoc(a, b);
  }

  lemma ShownRoomsSnoc(a: seq<AvailabilityRow>, b: seq<AvailabilityRow>)
    requires a != []
    ensures ShownRooms(a + b) == ShownRooms(a[..|a| - 1]) + ShownRoom(a[|a| - 1]) + ShownRooms(b)
  {
    ShownRoomsAppend(a, b);
  }

  /**
   * One group summed into a view: the sums of free and total rooms, closed
   * exactly when the total is 0, and the rooms with a positive total; the
   * last-updated time comes from the group's first row.
   */
  function Summarize(group: seq<AvailabilityRow>, hutId: Option<int>, date: Day): (v: AvailabilityView)
    ensures v.hutId == hutId && v.date == date
    ensures v.totalFreeBeds == Sum(group, FreeRoom) && v.totalBeds == Sum(group, TotalRoom)
    ensures v.hutClosed <==> v.totalBeds == 0
    ensures v.lastUpdated == (if group == [] then None else group[0].lastUpdated)
    ensures forall i :: 0 <= i < |v.rooms| ==> v.rooms[i].totalBeds > 0
    ensures v.rooms == ShownRooms(group)
  {
    AvailabilityView(hutId, date, if group == [] then None else group[0].lastUpdated,
                     Sum(group, FreeRoom), Sum(group, TotalRoom), Sum(group, TotalRoom) == 0, ShownRooms(group))
  }

  /** With no negative totals, a view is closed exactly when it shows no room. */
  lemma {:induction false} ClosedIffNoRoomShown(rows: seq<AvailabilityRow>)
    requires forall i :: 0 <= i < |rows| ==> rows[i].totalRoom >= 0
    ensures Sum(rows, TotalRoom) == 0 <==> ShownRooms(rows) == []
    ensures Sum(rows, TotalRoom) >= 0
    decreases |rows|
  {
    if rows != [] {
      var p := rows[..|rows| - 1];
      assert forall i :: 0 <= i < |p| ==> p[i] == rows[i];
      ClosedIffNoRoomShown(p);
    }
  }

  // ----------------------------------------------- sums are kept by grouping

  /** The sum of f over each group, added up over a list of keys. */
  function SumOverGroups<K(==)>(rows: seq<AvailabilityRow>, key: AvailabilityRow -> K, keys: seq<K>,
                                f: AvailabilityRow -> int): int
    decreases |keys|
  {
    if keys == [] then 0
    else SumOverGroups(rows, key, keys[..|keys| - 1], f) + Sum(Group(rows, key, keys[|keys| - 1]), f)
  }

  lemma GroupAppend<K>(rows: seq<AvailabilityRow>, r: AvailabilityRow, key: AvailabilityRow -> K, k: K)
    ensures key(r) == k ==> Group(rows + [r], key, k) == Group(rows, key, k) + [r]
    ensures key(r) != k ==> Group(rows + [r], key, k) == Group(rows, key, k)
  {
    assert (rows + [r])[..|rows|] == rows;
  }

  lemma SumSnoc(g: seq<AvailabilityRow>, r: AvailabilityRow, f: AvailabilityRow -> int)
    ensures Sum(g + [r], f) == Sum(g, f) + f(r)
  {
    assert (g + [r])[..|g|] == g;
  }

  lemma SumOverGroupsSnoc<K>(rows: seq<AvailabilityRow>, key: AvailabilityRow -> K, p: seq<K>, k: K, f: AvailabilityRow -> int)
    ensures SumOverGroups(rows, key, p + [k], f) == SumOverGroups(rows, key, p, f) + Sum(Group(rows, key, k), f)
  {
    assert (p + [k])[..|p|] == p;
  }

  /** The last of a list of distinct keys is not among the others, and the others are distinct. */
  lemma DistinctLast<K>(keys: seq<K>)
    requires keys != [] && forall i, j :: 0 <= i < j < |keys| ==> keys[i] != keys[j]
    ensures var p := keys[..|keys| - 1];
      keys[|keys| - 1] !in p && forall i, j :: 0 <= i < j < |p| ==> p[i] != p[j]
  {
    var p := keys[..|keys| - 1];
    forall i | 0 <= i < |p|
      ensures p[i] != keys[|keys| - 1]
    {
      assert p[i] == keys[i];
    }
  }

  /** One more row changes only its own group's sum, and only if its key is listed. */
  lemma {:induction false} SumOverGroupsAppend<K>(rows: seq<AvailabilityRow>, r: AvailabilityRow,
                                                      key: AvailabilityRow -> K, keys: seq<K>, f: AvailabilityRow -> int)
    requires forall i, j :: 0 <= i < j < |keys| ==> keys[i] != keys[j]
    ensures SumOverGroups(rows + [r], key, keys, f)
         == SumOverGroups(rows, key, keys, f) + (if key(r) in keys then f(r) else 0)
    decreases |keys|
  {
    if keys != [] {
      var p := keys[..|keys| - 1];
      var k := keys[|keys| - 1];
      assert keys == p + [k];
      DistinctLast(keys);
      SumOverGroupsAppend(rows, r, key, p, f);
      SumOverGroupsSnoc(rows + [r], key, p, k, f);
      SumOverGroupsSnoc(rows, key, p, k, f);
      GroupAppend(rows, r, key, k);
      if key(r) == k {
        SumSnoc(Group(rows, key, k), r, f);
        assert key(r) in keys && key(r) !in p;
      } else {
        assert key(r) in keys <==> key(r) in p;
      }
    }
  }

  /** A key no row has has an empty group. */
  lemma {:induction false} GroupOfAbsentKey<K>(rows: seq<AvailabilityRow>, key: AvailabilityRow -> K, k: K)
    requires forall i :: 0 <= i < |rows| ==> key(rows[i]) != k
    ensures Group(rows, key, k) == []
    decreases |rows|
  {
    if rows != [] {
      GroupOfAbsentKey(rows[..|rows| - 1], key, k);
    }
  }

  /** The last row adds its key at the end, unless an earlier row has it. */
  lemma DistinctKeysLast<K>(rows: seq<AvailabilityRow>, key: AvailabilityRow -> K)
    requires rows != []
    ensures var keys := DistinctKeys(rows[..|rows| - 1], key);
      var k := key(rows[|rows| - 1]);
      DistinctKeys(rows, key) == if k in keys then keys else keys + [k]
  {
  }

  /** A row whose key no earlier row has starts a group of its own. */
  lemma NewKeyGroup<K>(p: seq<AvailabilityRow>, r: AvailabilityRow, key: AvailabilityRow -> K, f: AvailabilityRow -> int)
    requires key(r) !in DistinctKeys(p, key)
    ensures Sum(Group(p + [r], key, key(r)), f) == f(r)
  {
    GroupOfAbsentKey(p, key, key(r));
    GroupAppend(p, r, key, key(r));
    SumSnoc([], r, f);
    assert [] + [r] == [r];
  }

  /**
   * Grouping neither loses nor counts twice: the per-group sums add up to
   * the sum over all rows, for any summed column.
   */
  lemma {:induction false} GroupSumsAddUp<K>(rows: seq<AvailabilityRow>, key: AvailabilityRow -> K, f: AvailabilityRow -> int)
    ensures SumOverGroups(rows, key, DistinctKeys(rows, key), f) == Sum(rows, f)
    decreases |rows|
  {
    if rows == [] {
    } else {
      var p := rows[..|rows| - 1];
      var r := rows[|rows| - 1];
      assert rows == p + [r];
      var keys := DistinctKeys(p, key);
      DistinctKeysLast(rows, key);
      GroupSumsAddUp(p, key, f);
      SumOverGroupsAppend(p, r, key, keys, f);
      if key(r) !in keys {
        SumOverGroupsSnoc(rows, key, keys, key(r), f);
        NewKeyGroup(p, r, key, f);
      }
    }
  }

  // ------------------------------------------------------ GetHutAvailability

  function DateKey(r: AvailabilityRow): Day { r.date }
  function HutKey(r: AvailabilityRow): Option<int> { r.hutId }

  /** The view of one date: the hut id and last-updated time of the date's first row. */
  function DateView(rows: seq<AvailabilityRow>, date: Day): AvailabilityView
  {
    var g := Group(rows, DateKey, date);
    Summarize(g, if g == [] then None else g[0].hutId, date)
  }

  /**
   * `GetHutAvailability` (GetHutAvailabilityFunction.cs lines 42-67): one
   * view per distinct date of the selected rows, in order of first
   * appearance.
   */
  method GetHutAvailability(availabilityResult: seq<AvailabilityRow>) returns (result: seq<AvailabilityView>)
    ensures var dates := DistinctKeys(availabilityResult, DateKey);
      |result| == |dates| && forall k :: 0 <= k < |result| ==> result[k] == DateView(availabilityResult, dates[k])
  {
    result := ViewsOf(availabilityResult, DistinctKeys(availabilityResult, DateKey));
  }

  /** Lines 44-63: the `foreach` over the groups, one view appended per date. */
  method ViewsOf(rows: seq<AvailabilityRow>, dates: seq<Day>) returns (result: seq<AvailabilityView>)
    ensures |result| == |dates| && forall k :: 0 <= k < |result| ==> result[k] == DateView(rows, dates[k])
  {
    result := [];
    for i := 0 to |dates|
      invariant |result| == i
      invariant forall k :: 0 <= k < i ==> result[k] == DateView(rows, dates[k])
    {
      var avw := DateView(rows, dates[i]);
      result := result + [avw];
    }
  }

  /** Every date of the rows gets exactly one view, and every view is of a date of the rows. */
  lemma OneViewPerDate(rows: seq<AvailabilityRow>)
    ensures var dates := DistinctKeys(rows, DateKey);
      (forall i :: 0 <= i < |rows| ==> rows[i].date in dates) &&
      (forall i, j :: 0 <= i < j < |dates| ==> dates[i] != dates[j]) &&
      (forall d :: d in dates ==> Group(rows, DateKey, d) != [])
  {
    var dates := DistinctKeys(rows, DateKey);
    forall d | d in dates
      ensures Group(rows, DateKey, d) != []
    {
      DistinctKeysFromRows(rows, DateKey, d);
      var i :| 0 <= i < |rows| && DateKey(rows[i]) == d;
      GroupHasRow(rows, DateKey, i);
    }
  }

  lemma {:induction false} GroupHasRow<K>(rows: seq<AvailabilityRow>, key: AvailabilityRow -> K, i: int)
    requires 0 <= i < |rows|
    ensures rows[i] in Group(rows, key, key(rows[i]))
    decreases |rows|
  {
    if i < |rows| - 1 {
      var p := rows[..|rows| - 1];
      GroupHasRow(p, key, i);
    }
  }

  predicate Ascending(dates: seq<Day>)
  {
    forall i, j :: 0 <= i < j < |dates| ==> dates[i] < dates[j]
  }

  /** Rows sorted by date, as the query's ORDER BY returns them, give views in strictly ascending date order. */
  lemma {:induction false} SortedRowsGiveAscendingViews(rows: seq<AvailabilityRow>)
    requires forall i, j :: 0 <= i < j < |rows| ==> rows[i].date <= rows[j].date
    ensures Ascending(DistinctKeys(rows, DateKey))
    decreases |rows|
  {
    if rows != [] {
      var p := rows[..|rows| - 1];
      assert forall i :: 0 <= i < |p| ==> p[i] == rows[i];
      SortedRowsGiveAscendingViews(p);
      var dates := DistinctKeys(p, DateKey);
      assert Ascending(dates);
      var d := rows[|rows| - 1].date;
      forall k | 0 <= k < |dates|
        ensures dates[k] <= d
      {
        DistinctKeysFromRows(p, DateKey, dates[k]);
        var i :| 0 <= i < |p| && DateKey(p[i]) == dates[k];
        assert rows[i].date <= rows[|rows| - 1].date;
      }
      assert DistinctKeys(rows, DateKey) == if d in dates then dates else dates + [d];
      if d !in dates {
        var all := dates + [d];
        forall i, j | 0 <= i < j < |all| ensures all[i] < all[j]
        {
          if j == |dates| {
            assert all[i] == dates[i] && dates[i] <= d && dates[i] != d;
          } else {
            assert all[i] == dates[i] && all[j] == dates[j];
          }
        }
      }
    }
  }

  /** The free and total beds over all views are those of all rows. */
  lemma HutAvailabilityTotals(rows: seq<AvailabilityRow>)
    ensures SumOverGroups(rows, DateKey, DistinctKeys(rows, DateKey), FreeRoom) == Sum(rows, FreeRoom)
    ensures SumOverGroups(rows, DateKey, DistinctKeys(rows, DateKey), TotalRoom) == Sum(rows, TotalRoom)
  {
    GroupSumsAddUp(rows, DateKey, FreeRoom);
    GroupSumsAddUp(rows, DateKey, TotalRoom);
  }

  // ------------------------------------------------ GetAllAvailabilityOnDate

  /** The query's `WHERE a.Date = @DateFilter`. */
  function OnDate(rows: seq<AvailabilityRow>, date: Day): (r: seq<AvailabilityRow>)
    ensures forall x :: x in r ==> x in rows && x.date == date
    ensures forall i :: 0 <= i < |rows| && rows[i].date == date ==> rows[i] in r
    decreases |rows|
  {
    if rows == [] then []
    else
      var p := rows[..|rows| - 1];
      assert forall i :: 0 <= i < |p| ==> p[i] == rows[i];
      OnDate(p, date) + (if rows[|rows| - 1].date == date then [rows[|rows| - 1]] else [])
  }

  lemma {:induction false} OnDateAppend(a: seq<AvailabilityRow>, b: seq<AvailabilityRow>, date: Day)
    ensures OnDate(a + b, date) == OnDate(a, date) + OnDate(b, date)
    decreases |b|
  {
    if b == [] {
      assert a + b == a;
    } else {
      assert (a + b)[..|a + b| - 1] == a + b[..|b| - 1];
      OnDateAppend(a, b[..|b| - 1], date);
    }
  }

  /** Each row is kept exactly when it carries the date, once and in its place among the others. */
  lemma OnDateSpec(rows: seq<AvailabilityRow>, date: Day)
    ensures forall n :: 0 <= n < |rows| ==>
      OnDate(rows, date) == OnDate(rows[..n], date) + (if rows[n].date == date then [rows[n]] else []) +
        OnDate(rows[n + 1..], date)
  {
    forall n | 0 <= n < |rows|
      ensures OnDate(rows, date) == OnDate(rows[..n], date) + (if rows[n].date == date then [rows[n]] else []) +
        OnDate(rows[n + 1..], date)
    {
      OnDateAt(rows, date, n);
    }
  }

  lemma OnDateAt(rows: seq<AvailabilityRow>, date: Day, n: nat)
    requires n < |rows|
    ensures OnDate(rows, date) == OnDate(rows[..n], date) + (if rows[n].date == date then [rows[n]] else []) +
      OnDate(rows[n + 1..], date)
  {
    var a, b := rows[..n + 1], rows[n + 1..];
    assert rows == a + b;
    assert a[..n] == rows[..n];
    OnDateSnoc(a, b, date);
  }

  lemma OnDateSnoc(a: seq<AvailabilityRow>, b: seq<AvailabilityRow>, date: Day)
    requires a != []
    ensures OnDate(a + b, date) ==
      OnDate(a[..|a| - 1], date) + (if a[|a| - 1].date == date then [a[|a| - 1]] else []) + OnDate(b, date)
  {
    OnDateAppend(a, b, date);
  }

  /**
   * `GetAllAvailabilityOnDate` (GetAllAvailabilityOnDateFunction.cs lines
   * 28-61): the rows of the requested date grouped by hut, one view per hut
   * in order of first appearance, each carrying the requested date.
   */
  function AllAvailabilityOnDate(table: seq<AvailabilityRow>, date: Day): (res: seq<AvailabilityView>)
    ensures var rows := OnDate(table, date); var huts := DistinctKeys(rows, HutKey);
      |res| == |huts| &&
      forall k :: 0 <= k < |res| ==>
        res[k].hutId == huts[k] && res[k].date == date &&
        res[k] == Summarize(Group(rows, HutKey, huts[k]), huts[k], date)
  {
    var rows := OnDate(table, date);
    var huts := DistinctKeys(rows, HutKey);
    seq(|huts|, k requires 0 <= k < |huts| => Summarize(Group(rows, HutKey, huts[k]), huts[k], date))
  }

  /** Each hut of the date gets one view, and the views' sums add up to the date's totals. */
  lemma AllAvailabilityOnDateTotals(table: seq<AvailabilityRow>, date: Day)
    ensures var rows := OnDate(table, date); var huts := DistinctKeys(rows, HutKey);
      (forall i :: 0 <= i < |table| && table[i].date == date ==> table[i].hutId in huts) &&
      (forall i, j :: 0 <= i < j < |huts| ==> huts[i] != huts[j]) &&
      SumOverGroups(rows, HutKey, huts, FreeRoom) == Sum(rows, FreeRoom) &&
      SumOverGroups(rows, HutKey, huts, TotalRoom) == Sum(rows, TotalRoom)
  {
    var rows := OnDate(table, date);
    GroupSumsAddUp(rows, HutKey, FreeRoom);
    GroupSumsAddUp(rows, HutKey, TotalRoom);
    forall i | 0 <= i < |table| && table[i].date == date
      ensures table[i].hutId in DistinctKeys(rows, HutKey)
    {
      var x := table[i];
      assert x in rows;
      var j :| 0 <= j < |rows| && rows[j] == x;
    }
  }
}
