/**
 * The per-day reconciliation of the Availability table against the
 * alpsonline calendar (UpdateHutAvailability of the data-fetching function
 * app), as specification functions over the table and lemmas stating what a
 * day's reconciliation leaves behind.
 */
module AvailabilityCalendar {
  import opened Wrappers
  import opened Store
  import opened AvailabilityModel

  type Rows = map<AvailabilityKey, Availability>

  predicate OnDay(k: AvailabilityKey, hutId: int, date: Day)
  {
    k.hutId == hutId && k.date == date
  }

  // ------------------------------------------------ the rooms of one day

  /** The bed categories listed for the day, closed or not. */
  function Categories(rooms: seq<RoomAvailability>): set<int>
    decreases |rooms|
  {
    if rooms == [] then {} else Categories(rooms[..|rooms| - 1]) + {rooms[|rooms| - 1].bedCategoryId}
  }

  /** The last room listed with category c: the one whose record decides c's row. */
  function LastRoom(rooms: seq<RoomAvailability>, c: int): Option<RoomAvailability>
    decreases |rooms|
  {
    if rooms == [] then None
    else if rooms[|rooms| - 1].bedCategoryId == c then Some(rooms[|rooms| - 1])
    else LastRoom(rooms[..|rooms| - 1], c)
  }

  /** Some room with category c is closed. */
  predicate HasClosedRoom(rooms: seq<RoomAvailability>, c: int)
    decreases |rooms|
  {
    rooms != [] &&
    ((rooms[|rooms| - 1].bedCategoryId == c && rooms[|rooms| - 1].closed) || HasClosedRoom(rooms[..|rooms| - 1], c))
  }

  lemma {:induction false} LastRoomFacts(rooms: seq<RoomAvailability>, c: int)
    ensures LastRoom(rooms, c).Some? <==> c in Categories(rooms)
    ensures LastRoom(rooms, c).Some? ==> LastRoom(rooms, c).value.bedCategoryId == c
    ensures LastRoom(rooms, c).None? ==> !HasClosedRoom(rooms, c)
    ensures LastRoom(rooms, c).Some? && LastRoom(rooms, c).value.closed ==> HasClosedRoom(rooms, c)
    decreases |rooms|
  {
    if rooms != [] {
      LastRoomFacts(rooms[..|rooms| - 1], c);
    }
  }

  lemma {:induction false} CategoriesOfPrefix(rooms: seq<RoomAvailability>, j: nat)
    requires j <= |rooms|
    ensures Categories(rooms[..j]) <= Categories(rooms)
    decreases |rooms| - j
  {
    if j < |rooms| {
      CategoriesOfPrefix(rooms, j + 1);
      assert rooms[..j + 1][..j] == rooms[..j];
    } else {
      assert rooms[..j] == rooms;
    }
  }

  lemma {:induction false} CategoriesMember(rooms: seq<RoomAvailability>, i: nat)
    requires i < |rooms|
    ensures rooms[i].bedCategoryId in Categories(rooms)
  {
    CategoriesOfPrefix(rooms, i + 1);
    assert rooms[..i + 1][..i] == rooms[..i];
  }

  // ------------------------------------------- the statements of one day

  /** Lines 202-208: remove the day's rows of every category except the sentinel. */
  function RemoveNonSentinel(rows: Rows, hutId: int, date: Day): Rows
  {
    map k | k in rows && !(OnDay(k, hutId, date) && k.bedCategoryId != HutClosedBedCategoryId) :: rows[k]
  }

  /** Lines 210-227: insert the 0/0 sentinel row unless one is already stored. */
  function EnsureSentinel(rows: Rows, hutId: int, date: Day, now: Time): Rows
  {
    var key := AvailabilityKey(hutId, date, HutClosedBedCategoryId);
    if key in rows then rows else rows[key := Availability(0, 0, None, now)]
  }

  /** Lines 233-275: delete, update, skip or insert the row of one room. */
  function ApplyRoom(rows: Rows, hutId: int, date: Day, room: RoomAvailability, now: Time): Rows
  {
    var key := AvailabilityKey(hutId, date, room.bedCategoryId);
    if key in rows then
      if room.closed then rows - {key}
      else rows[key := rows[key].(freeRoom := room.freeRoom, totalRoom := room.totalRoom, lastUpdated := now)]
    else if room.closed then rows
    else rows[key := Availability(room.freeRoom, room.totalRoom, None, now)]
  }

  /** Lines 277-292: delete the day's rows whose category is not listed, the sentinel included. */
  function RemoveUnlisted(rows: Rows, hutId: int, date: Day, cats: set<int>): Rows
  {
    map k | k in rows && !(OnDay(k, hutId, date) && k.bedCategoryId !in cats) :: rows[k]
  }

  /** Lines 297-308: delete the day's unlisted rows other than the sentinel. */
  function RemoveObsolete(rows: Rows, hutId: int, date: Day, cats: set<int>): Rows
  {
    map k | k in rows && !(OnDay(k, hutId, date) && k.bedCategoryId !in cats && k.bedCategoryId != HutClosedBedCategoryId) :: rows[k]
  }

  /** Lines 231-293: the room loop, each room followed by the unlisted-row cleanup. */
  function ApplyRooms(rows: Rows, hutId: int, date: Day, rooms: seq<RoomAvailability>, cats: set<int>, now: Time): Rows
    decreases |rooms|
  {
    if rooms == [] then rows
    else
      var before := ApplyRooms(rows, hutId, date, rooms[..|rooms| - 1], cats, now);
      RemoveUnlisted(ApplyRoom(before, hutId, date, rooms[|rooms| - 1], now), hutId, date, cats)
  }

  /** Lines 199-308: the whole reconciliation of one day's rows. */
  function ReconcileDay(rows: Rows, hutId: int, date: Day, rooms: seq<RoomAvailability>, now: Time): Rows
  {
    var cats := Categories(rooms);
    var branch :=
      if AllClosed(rooms) then EnsureSentinel(RemoveNonSentinel(rows, hutId, date), hutId, date, now)
      else ApplyRooms(rows, hutId, date, rooms, cats, now);
    RemoveObsolete(branch, hutId, date, cats)
  }

  // ------------------------------------------------------ what a day leaves

  /** The value the room loop leaves under one key of the day. */
  lemma {:induction false} ApplyRoomsKey(rows: Rows, hutId: int, date: Day, rooms: seq<RoomAvailability>, cats: set<int>, now: Time, c: int)
    requires Categories(rooms) <= cats
    ensures
      var r := ApplyRooms(rows, hutId, date, rooms, cats, now);
      var k := AvailabilityKey(hutId, date, c);
      var last := LastRoom(rooms, c);
      if c !in cats then (k in r <==> rooms == [] && k in rows) && (k in r ==> r[k] == rows[k])
      else if last.None? then (k in r <==> k in rows) && (k in r ==> r[k] == rows[k])
      else
        (k in r <==> !last.value.closed) &&
        (k in r ==> r[k] == Availability(last.value.freeRoom, last.value.totalRoom,
                                         if k in rows && !HasClosedRoom(rooms, c) then rows[k].tenantBedCategoryId else None,
                                         now))
    decreases |rooms|
  {
    if rooms != [] {
      var p := rooms[..|rooms| - 1];
      var x := rooms[|rooms| - 1];
      assert Categories(p) <= Categories(rooms);
      ApplyRoomsKey(rows, hutId, date, p, cats, now, c);
      LastRoomFacts(p, c);
    }
  }

  /** Rows of other huts and other days are left exactly as they were by the room loop. */
  lemma {:induction false} ApplyRoomsFrame(rows: Rows, hutId: int, date: Day, rooms: seq<RoomAvailability>, cats: set<int>, now: Time, k: AvailabilityKey)
    requires !OnDay(k, hutId, date)
    ensures var r := ApplyRooms(rows, hutId, date, rooms, cats, now);
      (k in r <==> k in rows) && (k in r ==> r[k] == rows[k])
    decreases |rooms|
  {
    if rooms != [] {
      ApplyRoomsFrame(rows, hutId, date, rooms[..|rooms| - 1], cats, now, k);
    }
  }

  /**
   * Closed day: afterwards the day holds only the sentinel row. It is the
   * stored sentinel if there was one, otherwise a new 0/0 row stamped now.
   */
  lemma ClosedDayOutcome(rows: Rows, hutId: int, date: Day, rooms: seq<RoomAvailability>, now: Time, k: AvailabilityKey)
    requires AllClosed(rooms) && OnDay(k, hutId, date)
    ensures var r := ReconcileDay(rows, hutId, date, rooms, now);
      (k in r <==> k.bedCategoryId == HutClosedBedCategoryId) &&
      (k in r ==> r[k] == if k in rows then rows[k] else Availability(0, 0, None, now))
  {
  }

  /**
   * Open day: afterwards the day holds a row for category c exactly when c is
   * listed and the last room listed with c is open; the row carries that
   * room's free and total counts and the update time, and keeps its tenant
   * category only if it was stored and no room of c was closed. The sentinel
   * and every unlisted category are gone.
   */
  lemma OpenDayOutcome(rows: Rows, hutId: int, date: Day, rooms: seq<RoomAvailability>, now: Time, c: int)
    requires !AllClosed(rooms)
    ensures
      var r := ReconcileDay(rows, hutId, date, rooms, now);
      var k := AvailabilityKey(hutId, date, c);
      var last := LastRoom(rooms, c);
      (k in r <==> last.Some? && !last.value.closed) &&
      (k in r ==> r[k] == Availability(last.value.freeRoom, last.value.totalRoom,
                                       if k in rows && !HasClosedRoom(rooms, c) then rows[k].tenantBedCategoryId else None,
                                       now))
  {
    var cats := Categories(rooms);
    ApplyRoomsKey(rows, hutId, date, rooms, cats, now, c);
    LastRoomFacts(rooms, c);
  }

  /**
   * Open day whose rooms list each category once: the stored categories are
   * exactly those of the open rooms, each with the fetched counts; rows of
   * closed rooms are deleted, and absent ones are not inserted.
   */
  lemma OpenDayDistinctCategories(rows: Rows, hutId: int, date: Day, rooms: seq<RoomAvailability>, now: Time, i: nat)
    requires !AllClosed(rooms) && i < |rooms|
    requires forall a, b :: 0 <= a < b < |rooms| ==> rooms[a].bedCategoryId != rooms[b].bedCategoryId
    ensures
      var r := ReconcileDay(rows, hutId, date, rooms, now);
      var k := AvailabilityKey(hutId, date, rooms[i].bedCategoryId);
      (k in r <==> !rooms[i].closed) &&
      (k in r ==> r[k].freeRoom == rooms[i].freeRoom && r[k].totalRoom == rooms[i].totalRoom && r[k].lastUpdated == now)
  {
    LastRoomOfDistinct(rooms, i);
    OpenDayOutcome(rows, hutId, date, rooms, now, rooms[i].bedCategoryId);
  }

  lemma {:induction false} LastRoomOfDistinct(rooms: seq<RoomAvailability>, i: nat)
    requires i < |rooms|
    requires forall a, b :: 0 <= a < b < |rooms| ==> rooms[a].bedCategoryId != rooms[b].bedCategoryId
    ensures LastRoom(rooms, rooms[i].bedCategoryId) == Some(rooms[i])
    decreases |rooms|
  {
    if i < |rooms| - 1 {
      LastRoomOfDistinct(rooms[..|rooms| - 1], i);
    }
  }

  /** A category no room lists has no row on an open day; in particular the sentinel is deleted. */
  lemma OpenDayUnlisted(rows: Rows, hutId: int, date: Day, rooms: seq<RoomAvailability>, now: Time, c: int)
    requires !AllClosed(rooms) && c !in Categories(rooms)
    ensures AvailabilityKey(hutId, date, c) !in ReconcileDay(rows, hutId, date, rooms, now)
  {
    OpenDayOutcome(rows, hutId, date, rooms, now, c);
    LastRoomFacts(rooms, c);
  }

  /** Rows belonging to other huts or other days are never changed by a day's reconciliation. */
  lemma ReconcileDayFrame(rows: Rows, hutId: int, date: Day, rooms: seq<RoomAvailability>, now: Time, k: AvailabilityKey)
    requires !OnDay(k, hutId, date)
    ensures var r := ReconcileDay(rows, hutId, date, rooms, now);
      (k in r <==> k in rows) && (k in r ==> r[k] == rows[k])
  {
    if !AllClosed(rooms) {
      ApplyRoomsFrame(rows, hutId, date, rooms, Categories(rooms), now, k);
    }
  }

  /** Reconciling the same day twice with the same reply leaves the table as reconciling it once. */
  lemma ReconcileDayIdempotent(rows: Rows, hutId: int, date: Day, rooms: seq<RoomAvailability>, now: Time)
    ensures ReconcileDay(ReconcileDay(rows, hutId, date, rooms, now), hutId, date, rooms, now)
         == ReconcileDay(rows, hutId, date, rooms, now)
  {
    var r1 := ReconcileDay(rows, hutId, date, rooms, now);
    var r2 := ReconcileDay(r1, hutId, date, rooms, now);
    forall k
      ensures (k in r2 <==> k in r1) && (k in r2 ==> r2[k] == r1[k])
    {
      if !OnDay(k, hutId, date) {
        ReconcileDayFrame(rows, hutId, date, rooms, now, k);
        ReconcileDayFrame(r1, hutId, date, rooms, now, k);
      } else if AllClosed(rooms) {
        ClosedDayOutcome(rows, hutId, date, rooms, now, k);
        ClosedDayOutcome(r1, hutId, date, rooms, now, k);
      } else {
        OpenDayOutcome(rows, hutId, date, rooms, now, k.bedCategoryId);
        OpenDayOutcome(r1, hutId, date, rooms, now, k.bedCategoryId);
      }
    }
    assert r2.Keys == r1.Keys;
  }
}
