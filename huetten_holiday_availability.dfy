/**
 * The availability activity for huts of the second provider (HuettenHoliday):
 * the hut-id offset, the two session cookies, the six monthly requests, and
 * the single-row upsert per date that keeps the first stored row of the day.
 */
module HuettenHolidayAvailability {
  import opened Wrappers
  import opened Strings
  import opened Store
  import opened AvailabilityCalendar
  import Dispatch

  /** Provider cabin ids are stored as hut ids shifted by this offset. */
  const HutIdOffset: int := 10000

  /** Rows created by this provider are of bed category 2, "Zimmer". */
  const ZimmerCategoryId: int := 2

  const MonthsToFetch: int := 6

  /** Line 131: the provider's cabin id of a stored hut id. */
  function CabinId(hutId: int): int
  {
    if hutId > HutIdOffset then hutId - HutIdOffset else hutId
  }

  /**
   * Shifting a cabin id by the offset and mapping it back gives the cabin id
   * exactly for positive cabin ids; the ids 0 and below do not come back.
   */
  lemma CabinIdRoundTrip(c: int)
    ensures CabinId(c + HutIdOffset) == c <==> c >= 1
  {
  }

  // ------------------------------------------------------------- cookies

  /** The first header starting with p, if any. */
  function FirstStartingWith(headers: seq<string>, p: string): (h: Option<string>)
    ensures h.None? <==> forall i :: 0 <= i < |headers| ==> !StartsWith(headers[i], p)
    ensures h.Some? ==> exists i :: 0 <= i < |headers| && headers[i] == h.value && StartsWith(h.value, p) &&
                                    forall j :: 0 <= j < i ==> !StartsWith(headers[j], p)
    decreases |headers|
  {
    if headers == [] then None
    else if StartsWith(headers[0], p) then Some(headers[0])
    else
      var rest := FirstStartingWith(headers[1..], p);
      assert forall i :: 1 <= i < |headers| ==> headers[i] == headers[1..][i - 1];
      rest
  }

  /**
   * Lines 164-167: the value of cookie `name` from the Set-Cookie headers:
   * the first header starting with "name=", cut at its first ';', with every
   * "name=" in that piece removed.
   */
  function CookieValue(setCookies: seq<string>, name: string): Option<string>
  {
    match FirstStartingWith(setCookies, name + "=")
    case None => None
    case Some(header) => Some(Replace(Split(header, {';'})[0], name + "=", ""))
  }

  lemma {:induction false} FirstStartingWithAt(before: seq<string>, h: string, after: seq<string>, p: string)
    requires StartsWith(h, p)
    requires forall i :: 0 <= i < |before| ==> !StartsWith(before[i], p)
    ensures FirstStartingWith(before + [h] + after, p) == Some(h)
    decreases |before|
  {
    if before != [] {
      assert (before + [h] + after)[1..] == before[1..] + [h] + after;
      FirstStartingWithAt(before[1..], h, after, p);
    }
  }

  /** The piece before the first ';' of a header whose attributes start with ';'. */
  lemma CookieHeaderPiece(w: string, attrs: string)
    requires Free(w, {';'})
    requires attrs == [] || attrs[0] == ';'
    ensures Split(w + attrs, {';'})[0] == w
  {
    if attrs == [] {
      assert w + attrs == w;
      SplitFree(w, {';'});
    } else {
      assert w + attrs == w + [';'] + attrs[1..];
      SplitAfterPiece(w, ';', attrs[1..], {';'});
    }
  }

  /**
   * A header in the cookie-pair form of section 4.1.1 of RFC 6265,
   * "name=value" optionally followed by ";" and attributes, yields its value
   * when it is the first header for that name and the value does not itself
   * contain "name=".
   */
  lemma CookiePairValue(before: seq<string>, name: string, v: string, attrs: string, after: seq<string>)
    requires Free(name, {';'}) && Free(v, {';'}) && !Contains(v, name + "=")
    requires attrs == [] || attrs[0] == ';'
    requires forall i :: 0 <= i < |before| ==> !StartsWith(before[i], name + "=")
    ensures CookieValue(before + [name + "=" + v + attrs] + after, name) == Some(v)
  {
    var p := name + "=";
    var w := p + v;
    assert StartsWith(w + attrs, p) by {
      assert (w + attrs)[..|p|] == p;
    }
    assert name + "=" + v + attrs == w + attrs;
    FirstStartingWithAt(before, w + attrs, after, p);
    assert Free(w, {';'});
    CookieHeaderPiece(w, attrs);
    ReplaceLeadingPrefix(p, v);
  }

  /** Line 196: the X-XSRF-TOKEN header value, with URL-encoded '=' signs decoded. */
  function XsrfHeader(token: string): string
  {
    Replace(token, "%3D", "=")
  }

  /** Each encoded "%3D" becomes '='; text without a '%' passes through unchanged. */
  lemma {:induction false} XsrfHeaderDecodes(a: string, b: string)
    requires '%' !in a
    ensures XsrfHeader(a + "%3D" + b) == a + "=" + XsrfHeader(b)
    ensures XsrfHeader(a) == a
    decreases |a|
  {
    var s := a + "%3D" + b;
    if a == [] {
      assert s[..3] == "%3D" && s[3..] == b;
    } else {
      assert s[..3][0] == a[0];
      assert s[1..] == a[1..] + "%3D" + b;
      XsrfHeaderDecodes(a[1..], b);
      if |a| >= 3 {
        assert a[..3][0] == a[0];
      }
    }
  }

  // ------------------------------------------------------------ the reply

  datatype CabinRoom = CabinRoom(roomId: int, places: int, paidPlaces: int, bookedPlaces: int)

  /** One date of the month reply (`AvailabilityResult`). */
  datatype DateResult = DateResult(date: Day, rooms: seq<CabinRoom>, totalPlaces: int)

  /**
   * The reply to one month's POST: a non-success status, an exception (from
   * the request or from reading the JSON), or the dates, `None` for a null body.
   */
  datatype MonthReply = NotSuccess | Thrown | Dates(data: Option<seq<DateResult>>)

  /** Line 224: the sum of the rooms' booked places, which the provider uses as free beds. */
  function BookedSum(rooms: seq<CabinRoom>): int
    decreases |rooms|
  {
    if rooms == [] then 0 else BookedSum(rooms[..|rooms| - 1]) + rooms[|rooms| - 1].bookedPlaces
  }

  // ------------------------------------------------------ one date's row

  /** Lines 216-218: the categories of the stored rows of the day, the sentinel excluded. */
  function ExistingCategories(rows: Rows, hutId: int, date: Day): set<int>
  {
    set k | k in rows && OnDay(k, hutId, date) && k.bedCategoryId != HutClosedBedCategoryId :: k.bedCategoryId
  }

  lemma ExistingCategoryKey(rows: Rows, hutId: int, date: Day, c: int)
    requires c in ExistingCategories(rows, hutId, date)
    ensures AvailabilityKey(hutId, date, c) in rows && c != HutClosedBedCategoryId
  {
    var k :| k in rows && OnDay(k, hutId, date) && k.bedCategoryId != HutClosedBedCategoryId && k.bedCategoryId == c;
    assert k == AvailabilityKey(hutId, date, c);
  }

  lemma ExistingCategoryOf(rows: Rows, hutId: int, date: Day, c: int)
    ensures AvailabilityKey(hutId, date, c) in rows && c != HutClosedBedCategoryId ==> c in ExistingCategories(rows, hutId, date)
  {
    var k := AvailabilityKey(hutId, date, c);
    if k in rows && c != HutClosedBedCategoryId {
      assert OnDay(k, hutId, date);
    }
  }

  predicate IsLeast(m: int, s: set<int>)
  {
    m in s && forall x :: x in s ==> m <= x
  }

  lemma {:induction false} LeastExists(s: set<int>)
    requires s != {}
    ensures exists m :: IsLeast(m, s)
    decreases |s|
  {
    if forall z :: z !in s {
      assert false;
    }
    var y :| y in s;
    if s == {y} {
      assert IsLeast(y, s);
    } else {
      var t := s - {y};
      LeastExists(t);
      var m :| IsLeast(m, t);
      var least := if y < m then y else m;
      assert IsLeast(least, s) by {
        forall x | x in s
          ensures least <= x
        {
          if x != y {
            assert x in t;
          }
        }
      }
    }
  }

  /**
   * The smallest element. The query's "first" row has no ORDER BY; the model
   * fixes it as the row of the smallest bed category.
   */
  function LeastOf(s: set<int>): (m: int)
    requires s != {}
    ensures m in s && forall x :: x in s ==> m <= x
  {
    LeastExists(s);
    var m :| IsLeast(m, s); m
  }

  /** An Availability entity as the activity returns it. */
  datatype AvailabilityRecord = AvailabilityRecord(key: AvailabilityKey, row: Availability)

  datatype DateOutcome = DateOutcome(rows: Rows, record: AvailabilityRecord)

  /**
   * Lines 214-251: one date. Without a stored row other than the sentinel a
   * "Zimmer" row is inserted; otherwise only the first stored row gets the
   * new counts. Either way exactly one row is written and returned, and no
   * row is deleted.
   */
  function ApplyDate(rows: Rows, hutId: int, dr: DateResult, now: Time): (r: DateOutcome)
    ensures var k := r.record.key;
      OnDay(k, hutId, dr.date) && k in r.rows && r.rows[k] == r.record.row &&
      r.record.row.freeRoom == BookedSum(dr.rooms) && r.record.row.totalRoom == dr.totalPlaces && r.record.row.lastUpdated == now
    ensures forall k :: k != r.record.key ==> (k in r.rows <==> k in rows) && (k in r.rows ==> r.rows[k] == rows[k])
    ensures rows.Keys <= r.rows.Keys
    ensures ExistingCategories(rows, hutId, dr.date) == {} ==>
      r.record.key !in rows && r.record.key.bedCategoryId == ZimmerCategoryId &&
      r.record.row.tenantBedCategoryId == Some(ZimmerCategoryId)
    ensures ExistingCategories(rows, hutId, dr.date) != {} ==>
      r.record.key in rows && r.record.key.bedCategoryId in ExistingCategories(rows, hutId, dr.date) &&
      (forall c :: c in ExistingCategories(rows, hutId, dr.date) ==> r.record.key.bedCategoryId <= c) &&
      r.record.row.tenantBedCategoryId == rows[r.record.key].tenantBedCategoryId
  {
    var cats := ExistingCategories(rows, hutId, dr.date);
    var totalFreeBeds := BookedSum(dr.rooms);
    if cats == {} then
      var key := AvailabilityKey(hutId, dr.date, ZimmerCategoryId);
      ExistingCategoryOf(rows, hutId, dr.date, ZimmerCategoryId);
      var row := Availability(totalFreeBeds, dr.totalPlaces, Some(ZimmerCategoryId), now);
      DateOutcome(rows[key := row], AvailabilityRecord(key, row))
    else
      var c := LeastOf(cats);
      ExistingCategoryKey(rows, hutId, dr.date, c);
      var key := AvailabilityKey(hutId, dr.date, c);
      var row := rows[key].(freeRoom := totalFreeBeds, totalRoom := dr.totalPlaces, lastUpdated := now);
      DateOutcome(rows[key := row], AvailabilityRecord(key, row))
  }

  /** Applying a date twice is applying it once: the second pass finds the row the first one wrote. */
  lemma ApplyDateIdempotent(rows: Rows, hutId: int, dr: DateResult, now: Time)
    ensures var once := ApplyDate(rows, hutId, dr, now);
      ApplyDate(once.rows, hutId, dr, now) == once
  {
    var once := ApplyDate(rows, hutId, dr, now);
    var cats := ExistingCategories(rows, hutId, dr.date);
    var cats1 := ExistingCategories(once.rows, hutId, dr.date);
    if cats == {} {
      assert cats1 == {ZimmerCategoryId} by {
        forall c | c in cats1 ensures c == ZimmerCategoryId {
          ExistingCategoryKey(once.rows, hutId, dr.date, c);
          ExistingCategoryOf(rows, hutId, dr.date, c);
        }
        assert once.record.key in once.rows;
      }
    } else {
      assert cats1 == cats by {
        forall c | c in cats1 ensures c in cats {
          ExistingCategoryKey(once.rows, hutId, dr.date, c);
          ExistingCategoryOf(rows, hutId, dr.date, c);
        }
        forall c | c in cats ensures c in cats1 {
          ExistingCategoryKey(rows, hutId, dr.date, c);
          ExistingCategoryOf(once.rows, hutId, dr.date, c);
        }
      }
    }
  }

  // ------------------------------------------------------------- the run

  /** The rows and the Availability entities collected so far. */
  datatype Written = Written(rows: Rows, records: seq<AvailabilityRecord>)

  /**
   * Lines 214-252: the dates of one month, one record each, in order: the
   * i-th new record is for the i-th date, with its booked sum, its total and
   * the run's time.
   */
  function ApplyDates(w: Written, hutId: int, drs: seq<DateResult>, now: Time): (r: Written)
    ensures |r.records| == |w.records| + |drs|
    ensures r.records[..|w.records|] == w.records
    ensures forall i :: 0 <= i < |drs| ==>
      var rec := r.records[|w.records| + i];
      OnDay(rec.key, hutId, drs[i].date) && rec.row.freeRoom == BookedSum(drs[i].rooms) &&
      rec.row.totalRoom == drs[i].totalPlaces && rec.row.lastUpdated == now
    decreases |drs|
  {
    if drs == [] then w
    else
      var before := ApplyDates(w, hutId, drs[..|drs| - 1], now);
      var d := ApplyDate(before.rows, hutId, drs[|drs| - 1], now);
      assert forall i :: 0 <= i < |drs| - 1 ==> drs[..|drs| - 1][i] == drs[i];
      Written(d.rows, before.records + [d.record])
  }

  /** The loop state after some months: what was written, how many months were requested, and how it stopped. */
  datatype MonthState = MonthState(written: Written, asked: nat, stopped: bool, failed: bool)

  /**
   * Lines 178-255: one month. A non-success status breaks the loop, an
   * exception ends the activity, an empty or null reply moves on to the next
   * month, and otherwise every date is applied and saved.
   */
  function MonthStep(st: MonthState, hutId: int, reply: MonthReply, now: Time): MonthState
  {
    if st.stopped || st.failed then st
    else
      var asked := st.asked + 1;
      match reply
      case NotSuccess => MonthState(st.written, asked, true, false)
      case Thrown => MonthState(st.written, asked, false, true)
      case Dates(data) =>
        if data.None? || data.value == [] then MonthState(st.written, asked, false, false)
        else MonthState(ApplyDates(st.written, hutId, data.value, now), asked, false, false)
  }

  function Months(st: MonthState, hutId: int, replies: seq<MonthReply>, now: Time): MonthState
    decreases |replies|
  {
    if replies == [] then st else MonthStep(Months(st, hutId, replies[..|replies| - 1], now), hutId, replies[|replies| - 1], now)
  }

  /** The replies to the requests for months 0 .. n - 1 of a cabin. */
  function MonthReplies(fetch: (int, int) -> MonthReply, cabinId: int, n: nat): (r: seq<MonthReply>)
    ensures |r| == n && forall i :: 0 <= i < n ==> r[i] == fetch(cabinId, i)
  {
    if n == 0 then [] else MonthReplies(fetch, cabinId, n - 1) + [fetch(cabinId, n - 1)]
  }

  /** Once the loop has stopped or failed, later replies change nothing: the writes already saved stay. */
  lemma {:induction false} MonthsAfterStop(st: MonthState, hutId: int, replies: seq<MonthReply>, more: seq<MonthReply>, now: Time)
    requires Months(st, hutId, replies, now).stopped || Months(st, hutId, replies, now).failed
    ensures Months(st, hutId, replies + more, now) == Months(st, hutId, replies, now)
    decreases |more|
  {
    if more == [] {
      assert replies + more == replies;
    } else {
      MonthsAfterStop(st, hutId, replies, more[..|more| - 1], now);
      assert (replies + more)[..|replies + more| - 1] == replies + more[..|more| - 1];
    }
  }

  /** A month is requested for every reply until the first that stops the loop or fails. */
  lemma {:induction false} MonthsAsked(st: MonthState, hutId: int, replies: seq<MonthReply>, now: Time)
    requires !st.stopped && !st.failed
    ensures var r := Months(st, hutId, replies, now);
      st.asked <= r.asked <= st.asked + |replies| &&
      (!r.stopped && !r.failed ==> r.asked == st.asked + |replies|) &&
      |r.written.records| >= |st.written.records| && r.written.records[..|st.written.records|] == st.written.records
    decreases |replies|
  {
    if replies != [] {
      MonthsAsked(st, hutId, replies[..|replies| - 1], now);
      var before := Months(st, hutId, replies[..|replies| - 1], now);
      var r := Months(st, hutId, replies, now);
      assert r.written.records[..|before.written.records|] == before.written.records;
      assert r.written.records[..|st.written.records|] == before.written.records[..|st.written.records|];
    }
  }

  /** Rows of other huts and other dates than the reply's are never touched; no row is ever deleted. */
  lemma {:induction false} ApplyDatesFrame(w: Written, hutId: int, drs: seq<DateResult>, now: Time, k: AvailabilityKey)
    requires k.hutId != hutId
    ensures var r := ApplyDates(w, hutId, drs, now);
      (k in r.rows <==> k in w.rows) && (k in r.rows ==> r.rows[k] == w.rows[k])
    decreases |drs|
  {
    if drs != [] {
      ApplyDatesFrame(w, hutId, drs[..|drs| - 1], now, k);
    }
  }

  lemma {:induction false} ApplyDatesKeepsRows(w: Written, hutId: int, drs: seq<DateResult>, now: Time)
    ensures w.rows.Keys <= ApplyDates(w, hutId, drs, now).rows.Keys
    decreases |drs|
  {
    if drs != [] {
      ApplyDatesKeepsRows(w, hutId, drs[..|drs| - 1], now);
    }
  }

  lemma {:induction false} MonthsFrame(st: MonthState, hutId: int, replies: seq<MonthReply>, now: Time, k: AvailabilityKey)
    requires k.hutId != hutId
    ensures var r := Months(st, hutId, replies, now);
      (k in r.written.rows <==> k in st.written.rows) && (k in r.written.rows ==> r.written.rows[k] == st.written.rows[k])
    decreases |replies|
  {
    if replies != [] {
      var before := Months(st, hutId, replies[..|replies| - 1], now);
      MonthsFrame(st, hutId, replies[..|replies| - 1], now, k);
      var reply := replies[|replies| - 1];
      if !before.stopped && !before.failed && reply.Dates? && reply.data.Some? && reply.data.value != [] {
        ApplyDatesFrame(before.written, hutId, reply.data.value, now, k);
      }
    }
  }

  lemma {:induction false} MonthsKeepRows(st: MonthState, hutId: int, replies: seq<MonthReply>, now: Time)
    ensures st.written.rows.Keys <= Months(st, hutId, replies, now).written.rows.Keys
    decreases |replies|
  {
    if replies != [] {
      var before := Months(st, hutId, replies[..|replies| - 1], now);
      MonthsKeepRows(st, hutId, replies[..|replies| - 1], now);
      var reply := replies[|replies| - 1];
      if !before.stopped && !before.failed && reply.Dates? && reply.data.Some? && reply.data.value != [] {
        ApplyDatesKeepsRows(before.written, hutId, reply.data.value, now);
      }
    }
  }

  // ------------------------------------------------------- the activity

  /** Lines 140-173: the hut is not stored, the first GET failed, or a cookie is missing. */
  predicate EarlyExit(huts: map<int, Hut>, hutId: int, initial: Option<seq<string>>)
  {
    hutId !in huts || initial.None? ||
    CookieValue(initial.value, "XSRF-TOKEN").None? || CookieValue(initial.value, "huettenholiday_session").None?
  }

  /** What the activity leaves in the table, what it returns (`None` for null), and how many months it requested. */
  datatype Outcome = Outcome(rows: Rows, result: Option<seq<AvailabilityRecord>>, monthsRequested: nat)

  /**
   * The whole activity. `initial` is the Set-Cookie headers of the hut page,
   * `None` when that GET did not succeed; `fetch(cabinId, month)` is the
   * reply for the month that many months from now.
   */
  function Activity(huts: map<int, Hut>, rows: Rows, hutId: int, initial: Option<seq<string>>,
                    fetch: (int, int) -> MonthReply, now: Time): (r: Outcome)
    ensures EarlyExit(huts, hutId, initial) ==> r == Outcome(rows, None, 0)
    ensures r.monthsRequested <= MonthsToFetch
  {
    if EarlyExit(huts, hutId, initial) then Outcome(rows, None, 0)
    else
      var st0 := MonthState(Written(rows, []), 0, false, false);
      MonthsAsked(st0, hutId, MonthReplies(fetch, CabinId(hutId), MonthsToFetch), now);
      var st := Months(st0, hutId, MonthReplies(fetch, CabinId(hutId), MonthsToFetch), now);
      Outcome(st.written.rows, if st.failed then None else Some(st.written.records), st.asked)
  }

  /** The activity writes only rows of its own hut, and never deletes one. */
  lemma ActivityFrame(huts: map<int, Hut>, rows: Rows, hutId: int, initial: Option<seq<string>>,
                      fetch: (int, int) -> MonthReply, now: Time, k: AvailabilityKey)
    ensures var r := Activity(huts, rows, hutId, initial, fetch, now);
      rows.Keys <= r.rows.Keys &&
      (k.hutId != hutId ==> (k in r.rows <==> k in rows) && (k in r.rows ==> r.rows[k] == rows[k]))
  {
    if !EarlyExit(huts, hutId, initial) {
      var st0 := MonthState(Written(rows, []), 0, false, false);
      MonthsKeepRows(st0, hutId, MonthReplies(fetch, CabinId(hutId), MonthsToFetch), now);
      if k.hutId != hutId {
        MonthsFrame(st0, hutId, MonthReplies(fetch, CabinId(hutId), MonthsToFetch), now, k);
      }
    }
  }

  // ------------------------------------------------------------- methods

  /** Lines 216-251: one date's row, written in place. */
  method ApplyDateResult(db: Database, hutId: int, dateResult: DateResult, now: Time) returns (record: AvailabilityRecord)
    modifies db`availability
    ensures DateOutcome(db.availability, record) == ApplyDate(old(db.availability), hutId, dateResult, now)
  {
    var existingAvailabilities := ExistingCategories(db.availability, hutId, dateResult.date);
    var totalFreeBeds := BookedSum(dateResult.rooms);
    var totalBeds := dateResult.totalPlaces;
    if existingAvailabilities == {} {
      var key := AvailabilityKey(hutId, dateResult.date, ZimmerCategoryId);
      var availability := Availability(totalFreeBeds, totalBeds, Some(ZimmerCategoryId), now);
      db.availability := db.availability[key := availability];
      record := AvailabilityRecord(key, availability);
    } else {
      var first := LeastOf(existingAvailabilities);
      ExistingCategoryKey(db.availability, hutId, dateResult.date, first);
      var key := AvailabilityKey(hutId, dateResult.date, first);
      var existingAvailability := db.availability[key].(freeRoom := totalFreeBeds, totalRoom := totalBeds, lastUpdated := now);
      db.availability := db.availability[key := existingAvailability];
      record := AvailabilityRecord(key, existingAvailability);
    }
  }

  /** Lines 214-254: the dates of one month, each record appended to the list. */
  method ApplyMonth(db: Database, hutId: int, responseData: seq<DateResult>, now: Time, availabilities: seq<AvailabilityRecord>)
    returns (next: seq<AvailabilityRecord>)
    modifies db`availability
    ensures Written(db.availability, next) == ApplyDates(Written(old(db.availability), availabilities), hutId, responseData, now)
  {
    ghost var w0 := Written(db.availability, availabilities);
    next := availabilities;
    for i := 0 to |responseData|
      invariant Written(db.availability, next) == ApplyDates(w0, hutId, responseData[..i], now)
    {
      assert responseData[..i + 1][..i] == responseData[..i];
      var record := ApplyDateResult(db, hutId, responseData[i], now);
      next := next + [record];
    }
    assert responseData[..|responseData|] == responseData;
  }

  /**
   * Lines 176-255: the month loop. `failed` is an exception, which makes the
   * activity return null; the months requested are 0, 1, ... in order.
   */
  method FetchMonths(db: Database, hutId: int, fetch: (int, int) -> MonthReply, now: Time)
    returns (failed: bool, availabilities: seq<AvailabilityRecord>, requested: seq<int>)
    modifies db`availability
    ensures var st := Months(MonthState(Written(old(db.availability), []), 0, false, false), hutId,
                             MonthReplies(fetch, CabinId(hutId), MonthsToFetch), now);
      db.availability == st.written.rows && availabilities == st.written.records &&
      failed == st.failed && requested == Dispatch.Range(0, st.asked)
  {
    var cabinId := CabinId(hutId);
    ghost var st0 := MonthState(Written(db.availability, []), 0, false, false);
    ghost var replies := MonthReplies(fetch, cabinId, MonthsToFetch);
    failed, availabilities, requested := false, [], [];
    var month := 0;
    while month < MonthsToFetch
      invariant 0 <= month <= MonthsToFetch
      invariant requested == Dispatch.Range(0, month)
      invariant Months(st0, hutId, replies[..month], now) == MonthState(Written(db.availability, availabilities), month, false, false)
    {
      assert replies[..month + 1][..month] == replies[..month];
      var response := fetch(cabinId, month);
      requested := requested + [month];
      if response.NotSuccess? || response.Thrown? {
        MonthsAfterStop(st0, hutId, replies[..month + 1], replies[month + 1..], now);
        assert replies[..month + 1] + replies[month + 1..] == replies;
        failed := response.Thrown?;
        return;
      }
      var responseData := response.data;
      if responseData.None? || responseData.value == [] {
        month := month + 1;
        continue;
      }
      availabilities := ApplyMonth(db, hutId, responseData.value, now, availabilities);
      month := month + 1;
    }
    assert replies[..month] == replies;
  }

  /** `HuettenHolidayUpdateAvailabilityActivityTrigger` (lines 126-265). */
  method UpdateAvailabilityActivity(db: Database, hutId: int, initial: Option<seq<string>>, fetch: (int, int) -> MonthReply, now: Time)
    returns (result: Option<seq<AvailabilityRecord>>, requested: seq<int>)
    modifies db`availability
    ensures var r := Activity(old(db.huts), old(db.availability), hutId, initial, fetch, now);
      db.availability == r.rows && result == r.result && requested == Dispatch.Range(0, r.monthsRequested)
  {
    requested := [];
    if hutId !in db.huts || initial.None? {
      return None, requested;
    }
    var xsrfToken := CookieValue(initial.value, "XSRF-TOKEN");
    var sessionCookie := CookieValue(initial.value, "huettenholiday_session");
    if xsrfToken.None? || sessionCookie.None? {
      return None, requested;
    }
    var failed, availabilities;
    failed, availabilities, requested := FetchMonths(db, hutId, fetch, now);
    result := if failed then None else Some(availabilities);
  }

  // ------------------------------------------------------ the HTTP trigger

  /** The activity run once per id, in order; the non-null results are concatenated. */
  function TriggerRun(huts: map<int, Hut>, rows: Rows, ids: seq<int>, initialOf: int -> Option<seq<string>>,
                      fetch: (int, int) -> MonthReply, now: Time): Written
    decreases |ids|
  {
    if ids == [] then Written(rows, [])
    else
      var before := TriggerRun(huts, rows, ids[..|ids| - 1], initialOf, fetch, now);
      var id := ids[|ids| - 1];
      var a := Activity(huts, before.rows, id, initialOf(id), fetch, now);
      Written(a.rows, before.records + (if a.result.Some? then a.result.value else []))
  }

  /**
   * `HuettenHolidayUpdateAvailabilityHttpTriggered` (lines 35-59). Every
   * piece of the list is parsed with `int.Parse` and shifted by the offset
   * before any hut is updated, so one bad piece answers 500 with nothing
   * written; so does a request without the `hutId` parameter, whose null
   * string throws in `Split`. An empty collected list answers NotFound.
   */
  function HttpTriggered(huts: map<int, Hut>, rows: Rows, hutIds: Option<string>, initialOf: int -> Option<seq<string>>,
                         fetch: (int, int) -> MonthReply, now: Time): (r: (Rows, Dispatch.Reply<seq<AvailabilityRecord>>))
    ensures r.1.ServerError? ==> r.0 == rows
    ensures r.1.Ok? ==> r.1.body != []
  {
    if hutIds.None? then (rows, Dispatch.ServerError)
    else
    var ids := Dispatch.OffsetIds(Split(hutIds.value, {','}), HutIdOffset);
    if ids.None? then (rows, Dispatch.ServerError)
    else
      var w := TriggerRun(huts, rows, ids.value, initialOf, fetch, now);
      (w.rows, if w.records == [] then Dispatch.NotFound else Dispatch.Ok(w.records))
  }

  /**
   * A missing parameter, or one piece that is not a 32-bit number, answers
   * 500 and writes nothing; a present list whose every piece parses never does.
   */
  lemma HttpTriggeredRejects(huts: map<int, Hut>, rows: Rows, hutIds: Option<string>, initialOf: int -> Option<seq<string>>,
                             fetch: (int, int) -> MonthReply, now: Time, pieces: seq<string>)
    requires hutIds.Some? ==> pieces == Split(hutIds.value, {','})
    ensures HttpTriggered(huts, rows, hutIds, initialOf, fetch, now).1.ServerError? <==>
      hutIds.None? || exists k :: 0 <= k < |pieces| && Int32TryParse(pieces[k]).None?
    ensures HttpTriggered(huts, rows, hutIds, initialOf, fetch, now).1.ServerError? ==>
      HttpTriggered(huts, rows, hutIds, initialOf, fetch, now).0 == rows
  {
    Dispatch.OffsetIdsSpec(pieces, HutIdOffset);
  }

  /**
   * When every piece parses, every piece shifted by the offset is run in
   * order; the answer is 404 when the run returns no record, else the records.
   */
  lemma HttpTriggeredRuns(huts: map<int, Hut>, rows: Rows, hutIds: Option<string>, initialOf: int -> Option<seq<string>>,
                          fetch: (int, int) -> MonthReply, now: Time, pieces: seq<string>)
    requires hutIds.Some? && pieces == Split(hutIds.value, {','})
    requires forall k :: 0 <= k < |pieces| ==> Int32TryParse(pieces[k]).Some?
    ensures var r := HttpTriggered(huts, rows, hutIds, initialOf, fetch, now);
      var ids := seq(|pieces|, k requires 0 <= k < |pieces| => Int32TryParse(pieces[k]).value + HutIdOffset);
      var w := TriggerRun(huts, rows, ids, initialOf, fetch, now);
      r.0 == w.rows && (r.1.NotFound? <==> w.records == []) && (r.1.Ok? <==> w.records != []) &&
      (r.1.Ok? ==> r.1.body == w.records)
  {
    var o := Dispatch.OffsetIds(pieces, HutIdOffset);
    Dispatch.OffsetIdsSpec(pieces, HutIdOffset);
    var ids := seq(|pieces|, k requires 0 <= k < |pieces| => Int32TryParse(pieces[k]).value + HutIdOffset);
    assert o.value == ids by {
      assert |o.value| == |ids|;
      forall k | 0 <= k < |ids| ensures o.value[k] == ids[k] { }
    }
    assert HttpTriggered(huts, rows, hutIds, initialOf, fetch, now).0 == TriggerRun(huts, rows, o.value, initialOf, fetch, now).rows;
  }

  /** A query of decimal cabin ids updates exactly the huts stored under those ids plus the offset. */
  lemma HttpTriggeredIds(huts: map<int, Hut>, rows: Rows, cabins: seq<int>, initialOf: int -> Option<seq<string>>,
                         fetch: (int, int) -> MonthReply, now: Time)
    requires |cabins| >= 1 && forall k :: 0 <= k < |cabins| ==> IsInt32(cabins[k])
    ensures var ids := seq(|cabins|, k requires 0 <= k < |cabins| => cabins[k] + HutIdOffset);
      HttpTriggered(huts, rows, Some(Join(Dispatch.ShowIds(cabins), ',')), initialOf, fetch, now).0
      == TriggerRun(huts, rows, ids, initialOf, fetch, now).rows
  {
    Dispatch.IdListRoundTrip(cabins);
  }
}
