/**
 * UpdateHutAvailability of the first function app: the same eight two-week
 * windows as the newer activity, but each room is upserted on its own
 * (delete, update, skip or insert) with no closed-day sentinel, no cleanup of
 * unlisted categories and no notifications; and the HTTP trigger that adds
 * up the rows written.
 */
module LegacyAvailability {
  import opened Wrappers
  import opened Strings
  import opened Store
  import opened AvailabilityModel
  import opened AvailabilityCalendar
  import opened UpdateAvailability
  import Dispatch

  /**
   * A room record of the legacy reply. Its category ids are plain ints, so a
   * record is never dropped by the parser.
   */
  datatype LegacyRecord = LegacyRecord(
    hutBedCategoryId: int,
    bedCategoryId: int,
    closed: bool,
    freeRoom: int,
    totalRoom: int,
    reservationDate: Day)

  type LegacyRawDay = seq<LegacyRecord>

  function LegacyRoom(r: LegacyRecord): RoomAvailability
  {
    RoomAvailability(r.bedCategoryId, r.freeRoom, r.totalRoom, r.closed)
  }

  /** Every record of a day becomes a room, in order. */
  function LegacyRooms(raw: LegacyRawDay): (rooms: seq<RoomAvailability>)
    ensures |rooms| == |raw|
    ensures forall i :: 0 <= i < |raw| ==> rooms[i] == LegacyRoom(raw[i])
    decreases |raw|
  {
    if raw == [] then [] else LegacyRooms(raw[..|raw| - 1]) + [LegacyRoom(raw[|raw| - 1])]
  }

  /** The parsed reply: one day per non-empty raw day, dated by its first record, in reply order. */
  function LegacyParsedDays(reply: seq<LegacyRawDay>): seq<DayAvailability>
    decreases |reply|
  {
    if reply == [] then []
    else
      var raw := reply[|reply| - 1];
      LegacyParsedDays(reply[..|reply| - 1]) +
      (if raw == [] then [] else [DayAvailability(Some(raw[0].reservationDate), Some(LegacyRooms(raw)))])
  }

  // ------------------------------------ agreement with the newer parser

  /** A legacy record as a record of the newer reply, with both category ids present. */
  function Lift(r: LegacyRecord): RoomDayAvailability
  {
    RoomDayAvailability(Some(r.hutBedCategoryId), Some(r.bedCategoryId), r.closed, r.freeRoom, r.totalRoom, r.reservationDate)
  }

  function LiftDay(raw: LegacyRawDay): (r: RawDay)
    ensures |r| == |raw|
    decreases |raw|
  {
    if raw == [] then [] else LiftDay(raw[..|raw| - 1]) + [Lift(raw[|raw| - 1])]
  }

  function LiftReply(reply: seq<LegacyRawDay>): (r: seq<RawDay>)
    ensures |r| == |reply|
    decreases |reply|
  {
    if reply == [] then [] else LiftReply(reply[..|reply| - 1]) + [LiftDay(reply[|reply| - 1])]
  }

  lemma {:induction false} LiftDayParsed(raw: LegacyRawDay)
    ensures KeptRooms(LiftDay(raw)) == LegacyRooms(raw)
    ensures FirstKeptDate(LiftDay(raw)) == if raw == [] then None else Some(raw[0].reservationDate)
    decreases |raw|
  {
    if raw != [] {
      var p := raw[..|raw| - 1];
      LiftDayParsed(p);
      assert LiftDay(raw)[..|raw| - 1] == LiftDay(p);
      if p != [] {
        assert p[0] == raw[0];
      }
    }
  }

  /**
   * The two parsers agree whenever every record carries both category ids:
   * the newer parser's null check is the only difference between them.
   */
  lemma {:induction false} ParsersAgree(reply: seq<LegacyRawDay>)
    ensures ParsedDays(LiftReply(reply)) == LegacyParsedDays(reply)
    decreases |reply|
  {
    if reply != [] {
      var p := reply[..|reply| - 1];
      ParsersAgree(p);
      LiftDayParsed(reply[|reply| - 1]);
      assert LiftReply(reply)[..|reply| - 1] == LiftReply(p);
      assert LiftReply(reply)[|reply| - 1] == LiftDay(reply[|reply| - 1]);
    }
  }

  /** A day is kept exactly when it has a record, and then all of its records are kept. */
  lemma {:induction false} LegacyParsedDaysShape(reply: seq<LegacyRawDay>)
    ensures |LegacyParsedDays(reply)| <= |reply|
    ensures forall j :: 0 <= j < |LegacyParsedDays(reply)| ==>
      LegacyParsedDays(reply)[j].date.Some? && LegacyParsedDays(reply)[j].rooms.Some? && LegacyParsedDays(reply)[j].rooms.value != []
    ensures (forall i :: 0 <= i < |reply| ==> reply[i] != []) ==>
      |LegacyParsedDays(reply)| == |reply| &&
      forall j :: 0 <= j < |reply| ==>
        LegacyParsedDays(reply)[j] == DayAvailability(Some(reply[j][0].reservationDate), Some(LegacyRooms(reply[j])))
    decreases |reply|
  {
    if reply != [] {
      LegacyParsedDaysShape(reply[..|reply| - 1]);
    }
  }

  /** `ParseAvailability` (lines 207-245); its null check compares non-nullable ints and never fires. */
  method ParseLegacyAvailability(reply: seq<LegacyRawDay>) returns (resultList: seq<DayAvailability>)
    ensures resultList == LegacyParsedDays(reply)
  {
    resultList := [];
    for d := 0 to |reply|
      invariant resultList == LegacyParsedDays(reply[..d])
    {
      var day := reply[d];
      var parsedDay := NewDayAvailability();
      var rooms: seq<RoomAvailability> := [];
      for i := 0 to |day|
        invariant rooms == LegacyRooms(day[..i])
        invariant parsedDay.date == if i == 0 then None else Some(day[0].reservationDate)
      {
        assert day[..i + 1][..i] == day[..i];
        rooms := rooms + [LegacyRoom(day[i])];
        if parsedDay.date.None? {
          parsedDay := parsedDay.(date := Some(day[i].reservationDate));
        }
      }
      assert day[..|day|] == day;
      parsedDay := parsedDay.(rooms := Some(rooms));
      assert reply[..d + 1][..d] == reply[..d];
      if parsedDay.date.Some? {
        resultList := resultList + [parsedDay];
      }
    }
    assert reply[..|reply|] == reply;
  }

  // ------------------------------------------------------ one day's rows

  /** Lines 153-193: every room of the day upserted in turn with the four-way rule. */
  function LegacyApplyRooms(rows: Rows, hutId: int, date: Day, rooms: seq<RoomAvailability>, now: Time): Rows
    decreases |rooms|
  {
    if rooms == [] then rows
    else ApplyRoom(LegacyApplyRooms(rows, hutId, date, rooms[..|rooms| - 1], now), hutId, date, rooms[|rooms| - 1], now)
  }

  /**
   * What a day leaves under category c: nothing changes for a category no
   * room lists (the sentinel and orphaned categories included); otherwise
   * the last room listed with c decides, deleting the row when that room is
   * closed and storing its counts when it is open.
   */
  lemma {:induction false} LegacyApplyRoomsKey(rows: Rows, hutId: int, date: Day, rooms: seq<RoomAvailability>, now: Time, c: int)
    ensures
      var r := LegacyApplyRooms(rows, hutId, date, rooms, now);
      var k := AvailabilityKey(hutId, date, c);
      var last := LastRoom(rooms, c);
      if last.None? then (k in r <==> k in rows) && (k in r ==> r[k] == rows[k])
      else
        (k in r <==> !last.value.closed) &&
        (k in r ==> r[k] == Availability(last.value.freeRoom, last.value.totalRoom,
                                         if k in rows && !HasClosedRoom(rooms, c) then rows[k].tenantBedCategoryId else None,
                                         now))
    decreases |rooms|
  {
    if rooms != [] {
      var p := rooms[..|rooms| - 1];
      LegacyApplyRoomsKey(rows, hutId, date, p, now, c);
      LastRoomFacts(p, c);
    }
  }

  /** Rows of other huts and other days are left exactly as they were. */
  lemma {:induction false} LegacyApplyRoomsFrame(rows: Rows, hutId: int, date: Day, rooms: seq<RoomAvailability>, now: Time, k: AvailabilityKey)
    requires !OnDay(k, hutId, date)
    ensures var r := LegacyApplyRooms(rows, hutId, date, rooms, now);
      (k in r <==> k in rows) && (k in r ==> r[k] == rows[k])
    decreases |rooms|
  {
    if rooms != [] {
      LegacyApplyRoomsFrame(rows, hutId, date, rooms[..|rooms| - 1], now, k);
    }
  }

  /** There is no cleanup: a category no room lists, the closed-day sentinel included, keeps its row. */
  lemma LegacyKeepsUnlisted(rows: Rows, hutId: int, date: Day, rooms: seq<RoomAvailability>, now: Time, c: int)
    requires c !in Categories(rooms)
    ensures var k := AvailabilityKey(hutId, date, c);
      var r := LegacyApplyRooms(rows, hutId, date, rooms, now);
      (k in r <==> k in rows) && (k in r ==> r[k] == rows[k])
  {
    LastRoomFacts(rooms, c);
    LegacyApplyRoomsKey(rows, hutId, date, rooms, now, c);
  }

  /**
   * On an open day whose stored rows all belong to listed categories, the
   * legacy upsert and the newer reconciliation leave the same table: they
   * differ only in the sentinel and in orphaned categories.
   */
  lemma LegacyAgreesWithReconcile(rows: Rows, hutId: int, date: Day, rooms: seq<RoomAvailability>, now: Time)
    requires !AllClosed(rooms)
    requires forall k :: k in rows && OnDay(k, hutId, date) ==> k.bedCategoryId in Categories(rooms)
    ensures LegacyApplyRooms(rows, hutId, date, rooms, now) == ReconcileDay(rows, hutId, date, rooms, now)
  {
    var a := LegacyApplyRooms(rows, hutId, date, rooms, now);
    var b := ReconcileDay(rows, hutId, date, rooms, now);
    forall k
      ensures (k in a <==> k in b) && (k in a ==> a[k] == b[k])
    {
      if !OnDay(k, hutId, date) {
        LegacyApplyRoomsFrame(rows, hutId, date, rooms, now, k);
        ReconcileDayFrame(rows, hutId, date, rooms, now, k);
      } else {
        LegacyApplyRoomsKey(rows, hutId, date, rooms, now, k.bedCategoryId);
        OpenDayOutcome(rows, hutId, date, rooms, now, k.bedCategoryId);
        LastRoomFacts(rooms, k.bedCategoryId);
      }
    }
    assert a.Keys == b.Keys;
  }

  /** Upserting the same day twice with the same reply leaves the table as upserting it once. */
  lemma LegacyApplyRoomsIdempotent(rows: Rows, hutId: int, date: Day, rooms: seq<RoomAvailability>, now: Time)
    ensures LegacyApplyRooms(LegacyApplyRooms(rows, hutId, date, rooms, now), hutId, date, rooms, now)
         == LegacyApplyRooms(rows, hutId, date, rooms, now)
  {
    var r1 := LegacyApplyRooms(rows, hutId, date, rooms, now);
    var r2 := LegacyApplyRooms(r1, hutId, date, rooms, now);
    forall k
      ensures (k in r2 <==> k in r1) && (k in r2 ==> r2[k] == r1[k])
    {
      if !OnDay(k, hutId, date) {
        LegacyApplyRoomsFrame(rows, hutId, date, rooms, now, k);
        LegacyApplyRoomsFrame(r1, hutId, date, rooms, now, k);
      } else {
        LegacyApplyRoomsKey(rows, hutId, date, rooms, now, k.bedCategoryId);
        LegacyApplyRoomsKey(r1, hutId, date, rooms, now, k.bedCategoryId);
        LastRoomFacts(rooms, k.bedCategoryId);
      }
    }
    assert r2.Keys == r1.Keys;
  }

  /**
   * Line 194: what SaveChanges reports for the day. Every row of a listed
   * category that was there before (updated or deleted) or is there after
   * (inserted) is one row written; `dbContext.Update` counts a row even when
   * its values did not change.
   */
  function Touched(before: Rows, after: Rows, hutId: int, date: Day, cats: set<int>): nat
  {
    |set k | k in before.Keys + after.Keys && OnDay(k, hutId, date) && k.bedCategoryId in cats|
  }

  // ------------------------------------------------------------- the run

  datatype LegacyState = LegacyState(rows: Rows, written: int)

  /** The parsed days of one window, each upserted and saved in turn. */
  function LegacyDays(st: LegacyState, hutId: int, days: seq<DayAvailability>, now: Time): LegacyState
    requires WellFormedDays(days)
    decreases |days|
  {
    if days == [] then st
    else
      var before := LegacyDays(st, hutId, days[..|days| - 1], now);
      var d := days[|days| - 1];
      var rows := LegacyApplyRooms(before.rows, hutId, d.date.value, d.rooms.value, now);
      LegacyState(rows, before.written + Touched(before.rows, rows, hutId, d.date.value, Categories(d.rooms.value)))
  }

  lemma LegacyParsedDaysWellFormed(reply: seq<LegacyRawDay>)
    ensures WellFormedDays(LegacyParsedDays(reply))
  {
    LegacyParsedDaysShape(reply);
  }

  /** The windows whose replies arrived, in order. */
  function LegacyWindows(st: LegacyState, hutId: int, replies: seq<seq<LegacyRawDay>>, now: Time): LegacyState
    decreases |replies|
  {
    if replies == [] then st
    else
      var before := LegacyWindows(st, hutId, replies[..|replies| - 1], now);
      LegacyParsedDaysWellFormed(replies[|replies| - 1]);
      LegacyDays(before, hutId, LegacyParsedDays(replies[|replies| - 1]), now)
  }

  /**
   * Lines 131-132: the first Set-Cookie header, whatever its name. With no
   * Set-Cookie header at all `GetValues` throws, which the activity catches.
   */
  function LegacyCookie(setCookies: seq<string>): (c: Option<string>)
    ensures c.Some? <==> |setCookies| > 0 && setCookies[0] != ""
    ensures c.Some? ==> c.value == setCookies[0]
  {
    if setCookies == [] || setCookies[0] == "" then None else Some(setCookies[0])
  }

  /**
   * Unlike the newer activity, which takes the first cookie named
   * JSESSIONID, the legacy one takes the first cookie whatever its name.
   */
  lemma LegacyCookieIgnoresName(setCookies: seq<string>, i: nat)
    requires i < |setCookies| && setCookies[0] != ""
    requires StartsWith(setCookies[i], "JSESSIONID")
    requires forall j :: 0 <= j < i ==> !StartsWith(setCookies[j], "JSESSIONID")
    ensures LegacyCookie(setCookies) == Some(setCookies[0])
    ensures SessionCookie(setCookies) == Some(setCookies[i])
    ensures i > 0 ==> LegacyCookie(setCookies) != SessionCookie(setCookies)
  {
    SessionCookieFirst(setCookies, i);
  }

  /** Lines 115-132: the activity returns 0 before any request. */
  predicate LegacyEarlyExit(huts: map<int, Hut>, hutId: int, setCookies: seq<string>)
  {
    hutId !in huts || huts[hutId].enabled != Some(true) || LegacyCookie(setCookies).None?
  }

  /** The whole legacy activity as a function of the tables it reads. */
  function LegacyActivity(huts: map<int, Hut>, rows: Rows, hutId: int, setCookies: seq<string>,
                          fetch: int -> Option<seq<LegacyRawDay>>, now: Time): (r: LegacyState)
    ensures LegacyEarlyExit(huts, hutId, setCookies) ==> r == LegacyState(rows, 0)
  {
    if LegacyEarlyExit(huts, hutId, setCookies) then LegacyState(rows, 0)
    else LegacyWindows(LegacyState(rows, 0), hutId, Replies(fetch, Arrived(fetch, 8)), now)
  }

  lemma {:induction false} LegacyDaysOtherHuts(st: LegacyState, hutId: int, days: seq<DayAvailability>, now: Time, k: AvailabilityKey)
    requires WellFormedDays(days) && k.hutId != hutId
    ensures var r := LegacyDays(st, hutId, days, now);
      (k in r.rows <==> k in st.rows) && (k in r.rows ==> r.rows[k] == st.rows[k])
    decreases |days|
  {
    if days != [] {
      var p := days[..|days| - 1];
      var d := days[|days| - 1];
      LegacyDaysOtherHuts(st, hutId, p, now, k);
      LegacyApplyRoomsFrame(LegacyDays(st, hutId, p, now).rows, hutId, d.date.value, d.rooms.value, now, k);
    }
  }

  lemma {:induction false} LegacyWindowsOtherHuts(st: LegacyState, hutId: int, replies: seq<seq<LegacyRawDay>>, now: Time, k: AvailabilityKey)
    requires k.hutId != hutId
    ensures var r := LegacyWindows(st, hutId, replies, now);
      (k in r.rows <==> k in st.rows) && (k in r.rows ==> r.rows[k] == st.rows[k])
    decreases |replies|
  {
    if replies != [] {
      var p := replies[..|replies| - 1];
      LegacyWindowsOtherHuts(st, hutId, p, now, k);
      LegacyParsedDaysWellFormed(replies[|replies| - 1]);
      LegacyDaysOtherHuts(LegacyWindows(st, hutId, p, now), hutId, LegacyParsedDays(replies[|replies| - 1]), now, k);
    }
  }

  /** The legacy activity never changes another hut's rows. */
  lemma LegacyActivityOtherHuts(huts: map<int, Hut>, rows: Rows, hutId: int, setCookies: seq<string>,
                                fetch: int -> Option<seq<LegacyRawDay>>, now: Time, k: AvailabilityKey)
    requires k.hutId != hutId
    ensures var r := LegacyActivity(huts, rows, hutId, setCookies, fetch, now);
      (k in r.rows <==> k in rows) && (k in r.rows ==> r.rows[k] == rows[k])
  {
    if !LegacyEarlyExit(huts, hutId, setCookies) {
      LegacyWindowsOtherHuts(LegacyState(rows, 0), hutId, Replies(fetch, Arrived(fetch, 8)), now, k);
    }
  }

  // ------------------------------------------------------------- methods

  /** Lines 155-192: the row of one room. */
  method UpsertRoom(db: Database, hutId: int, date: Day, room: RoomAvailability, now: Time)
    modifies db`availability
    ensures db.availability == ApplyRoom(old(db.availability), hutId, date, room, now)
  {
    var key := AvailabilityKey(hutId, date, room.bedCategoryId);
    if key in db.availability {
      var existingAva := db.availability[key];
      if room.closed {
        db.availability := db.availability - {key};
      } else {
        db.availability := db.availability[key := existingAva.(freeRoom := room.freeRoom, totalRoom := room.totalRoom, lastUpdated := now)];
      }
    } else if !room.closed {
      db.availability := db.availability[key := Availability(room.freeRoom, room.totalRoom, None, now)];
    }
  }

  /** Lines 151-195: the days of one window, each saved after its rooms. */
  method LegacyProcessWindow(db: Database, hutId: int, days: seq<DayAvailability>, now: Time, numRowsWritten: int)
    returns (written: int)
    requires WellFormedDays(days)
    modifies db`availability
    ensures LegacyState(db.availability, written) == LegacyDays(LegacyState(old(db.availability), numRowsWritten), hutId, days, now)
  {
    ghost var st0 := LegacyState(db.availability, numRowsWritten);
    written := numRowsWritten;
    for i := 0 to |days|
      invariant LegacyState(db.availability, written) == LegacyDays(st0, hutId, days[..i], now)
    {
      assert days[..i + 1][..i] == days[..i];
      var day := days[i];
      var rooms := day.rooms.value;
      var before := db.availability;
      for j := 0 to |rooms|
        invariant db.availability == LegacyApplyRooms(before, hutId, day.date.value, rooms[..j], now)
      {
        assert rooms[..j + 1][..j] == rooms[..j];
        UpsertRoom(db, hutId, day.date.value, rooms[j], now);
      }
      assert rooms[..|rooms|] == rooms;
      written := written + Touched(before, db.availability, hutId, day.date.value, Categories(rooms));
    }
    assert days[..|days|] == days;
  }

  /** Lines 141-195: request window w and, when the reply arrives, parse and process it. */
  method LegacyFetchWindow(db: Database, hutId: int, fetch: int -> Option<seq<LegacyRawDay>>, dateOffset: int, now: Time,
                           ghost w: nat, ghost st0: LegacyState, numRowsWritten: int)
    returns (written: int, arrived: bool)
    requires w < 8 && dateOffset == 14 * w && Arrived(fetch, w) == w
    requires LegacyState(db.availability, numRowsWritten) == LegacyWindows(st0, hutId, Replies(fetch, w), now)
    modifies db`availability
    ensures arrived <==> Arrived(fetch, w + 1) == w + 1
    ensures !arrived ==> Arrived(fetch, 8) == w && written == numRowsWritten && unchanged(db)
    ensures arrived ==> LegacyState(db.availability, written) == LegacyWindows(st0, hutId, Replies(fetch, w + 1), now)
  {
    var dateResponse := fetch(dateOffset);
    if dateResponse.None? {
      ArrivedStops(fetch, w, 8);
      return numRowsWritten, false;
    }
    assert Replies(fetch, w + 1)[..w] == Replies(fetch, w);
    var daysAvailability := ParseLegacyAvailability(dateResponse.value);
    LegacyParsedDaysWellFormed(dateResponse.value);
    written := LegacyProcessWindow(db, hutId, daysAvailability, now, numRowsWritten);
    arrived := true;
  }

  /**
   * `UpdateHutAvailability` (lines 106-205). A request or parse that throws
   * ends the run, and the count so far is returned.
   */
  method LegacyUpdateHutAvailability(db: Database, hutId: int, setCookies: seq<string>, fetch: int -> Option<seq<LegacyRawDay>>, now: Time)
    returns (numRowsWritten: int, requested: seq<int>)
    modifies db`availability
    ensures requested == if LegacyEarlyExit(old(db.huts), hutId, setCookies) then [] else
      var m := Arrived(fetch, 8); WindowOffsets(if m < 8 then m + 1 else 8)
    ensures LegacyState(db.availability, numRowsWritten) == LegacyActivity(old(db.huts), old(db.availability), hutId, setCookies, fetch, now)
  {
    numRowsWritten := 0;
    requested := [];
    if hutId !in db.huts || db.huts[hutId].enabled != Some(true) {
      return;
    }
    var cookie := LegacyCookie(setCookies);
    if cookie.None? {
      return;
    }
    ghost var st0 := LegacyState(db.availability, 0);
    var dateOffset := 0;
    ghost var w: nat := 0;
    while dateOffset < 112
      invariant 0 <= w <= 8 && dateOffset == 14 * w
      invariant requested == WindowOffsets(w)
      invariant Arrived(fetch, w) == w
      invariant LegacyState(db.availability, numRowsWritten) == LegacyWindows(st0, hutId, Replies(fetch, w), now)
    {
      requested := requested + [dateOffset];
      var arrived;
      numRowsWritten, arrived := LegacyFetchWindow(db, hutId, fetch, dateOffset, now, w, st0, numRowsWritten);
      if !arrived {
        return;
      }
      dateOffset := dateOffset + 14;
      w := w + 1;
    }
  }

  // ------------------------------------------------------ the HTTP trigger

  /** The activity run once per id, in order, the rows written adding up. */
  function LegacyTriggerRun(huts: map<int, Hut>, rows: Rows, ids: seq<int>, setCookiesOf: int -> seq<string>,
                            fetchOf: int -> int -> Option<seq<LegacyRawDay>>, now: Time): LegacyState
    decreases |ids|
  {
    if ids == [] then LegacyState(rows, 0)
    else
      var before := LegacyTriggerRun(huts, rows, ids[..|ids| - 1], setCookiesOf, fetchOf, now);
      var id := ids[|ids| - 1];
      var a := LegacyActivity(huts, before.rows, id, setCookiesOf(id), fetchOf(id), now);
      LegacyState(a.rows, before.written + a.written)
  }

  /** Rows of a hut that is not among the requested ids are left as they were. */
  lemma {:induction false} LegacyTriggerRunOtherHuts(huts: map<int, Hut>, rows: Rows, ids: seq<int>, setCookiesOf: int -> seq<string>,
                                                     fetchOf: int -> int -> Option<seq<LegacyRawDay>>, now: Time, k: AvailabilityKey)
    requires k.hutId !in ids
    ensures var r := LegacyTriggerRun(huts, rows, ids, setCookiesOf, fetchOf, now);
      (k in r.rows <==> k in rows) && (k in r.rows ==> r.rows[k] == rows[k])
    decreases |ids|
  {
    if ids != [] {
      var p := ids[..|ids| - 1];
      var id := ids[|ids| - 1];
      assert k.hutId !in p;
      LegacyTriggerRunOtherHuts(huts, rows, p, setCookiesOf, fetchOf, now, k);
      LegacyActivityOtherHuts(huts, LegacyTriggerRun(huts, rows, p, setCookiesOf, fetchOf, now).rows, id, setCookiesOf(id), fetchOf(id), now, k);
    }
  }

  /** Lines 64-75: one piece of the id list; a piece that does not parse is skipped. */
  method LegacyUpdatePiece(db: Database, ghost huts: map<int, Hut>, ghost rows0: Rows, ghost done: seq<string>, piece: string,
                           setCookiesOf: int -> seq<string>, fetchOf: int -> int -> Option<seq<LegacyRawDay>>, now: Time,
                           numRowsWritten: int)
    returns (written: int)
    requires db.huts == huts
    requires LegacyState(db.availability, numRowsWritten) == LegacyTriggerRun(huts, rows0, Dispatch.ParsedIds(done), setCookiesOf, fetchOf, now)
    modifies db`availability
    ensures LegacyState(db.availability, written) == LegacyTriggerRun(huts, rows0, Dispatch.ParsedIds(done + [piece]), setCookiesOf, fetchOf, now)
  {
    Dispatch.ParsedIdsSnoc(done, piece);
    written := numRowsWritten;
    var parsedId := Int32TryParse(piece);
    if parsedId.Some? {
      ghost var ids := Dispatch.ParsedIds(done);
      assert (ids + [parsedId.value])[..|ids|] == ids;
      var rows, _ := LegacyUpdateHutAvailability(db, parsedId.value, setCookiesOf(parsedId.value), fetchOf(parsedId.value), now);
      written := written + rows;
    } else {
      assert Dispatch.ParsedIds(done + [piece]) == Dispatch.ParsedIds(done);
    }
  }

  /**
   * `UpdateAvailabilityHttpTriggered` (lines 50-77): an empty `hutid` query
   * is a bad request; otherwise each parsable id is updated in turn and the
   * answer is the total number of rows written.
   */
  method LegacyUpdateAvailabilityHttpTriggered(db: Database, query: Option<string>, setCookiesOf: int -> seq<string>,
                                               fetchOf: int -> int -> Option<seq<LegacyRawDay>>, now: Time)
    returns (response: Dispatch.Reply<int>)
    modifies db`availability
    ensures Dispatch.NoIds(query) ==> response == Dispatch.BadRequest && db.availability == old(db.availability)
    ensures !Dispatch.NoIds(query) ==>
      var r := LegacyTriggerRun(old(db.huts), old(db.availability), Dispatch.ParsedIds(Split(query.value, {','})), setCookiesOf, fetchOf, now);
      response == Dispatch.Ok(r.written) && db.availability == r.rows
  {
    if IsNullOrEmpty(query) {
      return Dispatch.BadRequest;
    }
    var numRowsWritten := LegacyUpdatePieces(db, Split(query.value, {','}), setCookiesOf, fetchOf, now);
    response := Dispatch.Ok(numRowsWritten);
  }

  /** The loop over the pieces: each parsed id is updated in turn and its written rows counted. */
  method LegacyUpdatePieces(db: Database, pieces: seq<string>, setCookiesOf: int -> seq<string>,
                            fetchOf: int -> int -> Option<seq<LegacyRawDay>>, now: Time)
    returns (numRowsWritten: int)
    modifies db`availability
    ensures var r := LegacyTriggerRun(old(db.huts), old(db.availability), Dispatch.ParsedIds(pieces), setCookiesOf, fetchOf, now);
      numRowsWritten == r.written && db.availability == r.rows
  {
    ghost var huts := db.huts;
    ghost var rows0 := db.availability;
    numRowsWritten := 0;
    var i := 0;
    while i < |pieces|
      invariant 0 <= i <= |pieces|
      invariant db.huts == huts
      invariant LegacyState(db.availability, numRowsWritten) == LegacyTriggerRun(huts, rows0, Dispatch.ParsedIds(pieces[..i]), setCookiesOf, fetchOf, now)
    {
      assert pieces[..i + 1] == pieces[..i] + [pieces[i]];
      numRowsWritten := LegacyUpdatePiece(db, huts, rows0, pieces[..i], pieces[i], setCookiesOf, fetchOf, now, numRowsWritten);
      i := i + 1;
    }
    assert pieces[..|pieces|] == pieces;
  }
}
