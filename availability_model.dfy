/**
 * The availability records of the alpsonline provider: the raw per-room
 * record of the JSON reply, the parsed room and day, and the two
 * "is the hut closed" predicates.
 */
module AvailabilityModel {
  import opened Wrappers
  import opened Strings
  import opened Store

  /**
   * One element of a day's array in the provider's reply (`RoomDayAvailability`).
   * The reservation date arrives already parsed from its dd.MM.yyyy text.
   */
  datatype RoomDayAvailability = RoomDayAvailability(
    hutBedCategoryId: Option<int>,
    bedCategoryId: Option<int>,
    closed: bool,
    freeRoom: int,
    totalRoom: int,
    reservationDate: Day)

  /** One bed category of one day, as the parser keeps it (`RoomAvailability`). */
  datatype RoomAvailability = RoomAvailability(bedCategoryId: int, freeRoom: int, totalRoom: int, closed: bool)

  /** One day of availability; `None` stands for `null`. */
  datatype DayAvailability = DayAvailability(date: Option<Day>, rooms: Option<seq<RoomAvailability>>)

  /** `new DayAvailability()`: no date and an empty room list. */
  function NewDayAvailability(): DayAvailability
  {
    DayAvailability(None, Some([]))
  }

  predicate AllClosed(rooms: seq<RoomAvailability>)
  {
    forall i :: 0 <= i < |rooms| ==> rooms[i].closed
  }

  /** `DayAvailability.HutClosed`: no room list, or every room closed. */
  predicate HutClosed(d: DayAvailability)
  {
    d.rooms.None? || AllClosed(d.rooms.value)
  }

  /** HutClosed holds exactly when Rooms is null or no room is open. */
  lemma HutClosedIff(d: DayAvailability)
    ensures HutClosed(d) <==> d.rooms.None? || !exists i :: 0 <= i < |d.rooms.value| && !d.rooms.value[i].closed
  {
  }

  /** A day with an empty room list counts as closed; so does a fresh day, which has no date. */
  lemma EmptyDayIsClosed(d: DayAvailability)
    requires d.rooms == Some([])
    ensures HutClosed(d)
    ensures NewDayAvailability().date.None? && HutClosed(NewDayAvailability())
  {
  }

  /** One open room makes the day open, whatever the other rooms are. */
  lemma OpenRoomOpensDay(d: DayAvailability, i: nat)
    requires d.rooms.Some? && i < |d.rooms.value| && !d.rooms.value[i].closed
    ensures !HutClosed(d)
  {
  }

  /**
   * A day record of the calendar endpoint (`AvailabilityData`); a string is
   * `None` when the JSON carried null.
   */
  datatype AvailabilityData = AvailabilityData(hutStatus: Option<string>, percentage: Option<string>)

  /**
   * `AvailabilityData.HutClosed`. `None` is the NullReferenceException that
   * `Equals` on a null string throws; `||` does not evaluate percentage when
   * hutStatus already matched.
   */
  function AvailabilityDataHutClosed(a: AvailabilityData): (closed: Option<bool>)
    ensures a.hutStatus.None? ==> closed.None?
    ensures a.hutStatus.Some? && EqualsIgnoreCase(a.hutStatus.value, "CLOSED") ==> closed == Some(true)
    ensures a.hutStatus.Some? && a.percentage.Some? ==>
      closed == Some(EqualsIgnoreCase(a.hutStatus.value, "CLOSED") || EqualsIgnoreCase(a.percentage.value, "CLOSED"))
    ensures a.hutStatus.Some? && !EqualsIgnoreCase(a.hutStatus.value, "CLOSED") && a.percentage.None? ==> closed.None?
  {
    match a.hutStatus
    case None => None
    case Some(status) =>
      if EqualsIgnoreCase(status, "CLOSED") then Some(true)
      else
        match a.percentage
        case None => None
        case Some(p) => Some(EqualsIgnoreCase(p, "CLOSED"))
  }

  /** Case does not matter: "closed" in either field closes the day. */
  lemma AvailabilityDataExamples()
    ensures AvailabilityDataHutClosed(AvailabilityData(Some("closed"), Some("45"))) == Some(true)
    ensures AvailabilityDataHutClosed(AvailabilityData(Some("OPEN"), Some("Closed"))) == Some(true)
    ensures AvailabilityDataHutClosed(AvailabilityData(Some("OPEN"), Some("45"))) == Some(false)
    ensures AvailabilityDataHutClosed(AvailabilityData(Some("closed"), None)) == Some(true)
  {
    assert ToLower("closed") == "closed";
    assert ToLower("CLOSED") == "closed";
    assert ToLower("Closed") == "closed";
    assert ToLower("OPEN") == "open";
    assert ToLower("45") == "45";
  }
}
