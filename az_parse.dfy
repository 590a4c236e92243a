/**
 * The first function app's availability parser (AzFunctions
 * `ParseHutAvailability`): it receives the provider's JSON reply, one
 * property per day holding that day's room records, and answers with the
 * hut's language and the days that have an open room.
 */
module AzParse {
  import opened Wrappers
  import opened Store
  import Dispatch

  /**
   * One room record of the reply (`RoomDayAvailability`). The reservation
   * date is `None` when its dd.MM.yyyy text does not parse; the language is
   * `None` for a JSON null.
   */
  datatype AzRoomDay = AzRoomDay(
    bedCategoryId: int,
    closed: bool,
    freeRoom: int,
    totalRoom: int,
    reservationDate: Option<Day>,
    hutDefaultLanguage: Option<string>)

  /** One room of a parsed day (`RoomAvailability`). */
  datatype AzRoom = AzRoom(bedCategoryId: int, freeRoom: int, totalRoom: int)

  /** One parsed day (`Day`): always with a date once it is answered. */
  datatype AzDay = AzDay(date: Day, rooms: seq<AzRoom>)

  /** The answer's body: `{ hutLanguage, availability }`. */
  datatype AzParseResult = AzParseResult(hutLanguage: Option<string>, availability: seq<AzDay>)

  type RawAzDay = seq<AzRoomDay>

  function ToAzRoom(r: AzRoomDay): AzRoom
  {
    AzRoom(r.bedCategoryId, r.freeRoom, r.totalRoom)
  }

  // ------------------------------------------------------------ one day

  /** The open rooms of a day, in order (lines 38-47). */
  function OpenRooms(raw: RawAzDay): seq<AzRoom>
    decreases |raw|
  {
    if raw == [] then []
    else OpenRooms(raw[..|raw| - 1]) + (if raw[|raw| - 1].closed then [] else [ToAzRoom(raw[|raw| - 1])])
  }

  /** The first open record of a day, whose date the day takes (lines 48-51). */
  function FirstOpen(raw: RawAzDay): Option<AzRoomDay>
    decreases |raw|
  {
    if raw == [] then None
    else
      var first := FirstOpen(raw[..|raw| - 1]);
      if first.Some? then first else if raw[|raw| - 1].closed then None else Some(raw[|raw| - 1])
  }

  /** The day's date: that of its first open record, if it has one. */
  function FirstOpenDate(raw: RawAzDay): Option<Day>
  {
    if FirstOpen(raw).Some? then FirstOpen(raw).value.reservationDate else None
  }

  /** Parsing the day throws: its first open record's date text does not parse. */
  predicate DayFails(raw: RawAzDay)
  {
    FirstOpen(raw).Some? && FirstOpen(raw).value.reservationDate.None?
  }

  /** The day as answered, if it is (lines 60-63): only a day with a date. */
  function AzDayOf(raw: RawAzDay): Option<AzDay>
  {
    if FirstOpenDate(raw).Some? then Some(AzDay(FirstOpenDate(raw).value, OpenRooms(raw))) else None
  }

  /** The first open record is the first record that is not closed. */
  lemma {:induction false} FirstOpenSpec(raw: RawAzDay)
    ensures FirstOpen(raw).Some? <==> exists i :: 0 <= i < |raw| && !raw[i].closed
    ensures FirstOpen(raw).Some? ==>
      exists i :: 0 <= i < |raw| && !raw[i].closed && FirstOpen(raw).value == raw[i] &&
        forall j :: 0 <= j < i ==> raw[j].closed
    decreases |raw|
  {
    if raw != [] {
      var p := raw[..|raw| - 1];
      FirstOpenSpec(p);
      assert forall j :: 0 <= j < |p| ==> raw[j] == p[j];
      if FirstOpen(p).Some? {
        var i :| 0 <= i < |p| && !p[i].closed && FirstOpen(p).value == p[i] && forall j :: 0 <= j < i ==> p[j].closed;
        assert raw[i] == p[i];
      }
    }
  }

  /** Once a prefix has an open record, so does the day, and it is the same one. */
  lemma {:induction false} FirstOpenOfPrefix(raw: RawAzDay, n: int)
    requires 0 <= n <= |raw|
    requires FirstOpen(raw[..n]).Some?
    ensures FirstOpen(raw) == FirstOpen(raw[..n])
    decreases |raw| - n
  {
    if n < |raw| {
      assert raw[..n + 1][..n] == raw[..n];
      FirstOpenOfPrefix(raw, n + 1);
    } else {
      assert raw[..n] == raw;
    }
  }

  lemma {:induction false} OpenRoomsFacts(raw: RawAzDay)
    ensures |OpenRooms(raw)| <= |raw|
    ensures |OpenRooms(raw)| == |raw| <==> forall i :: 0 <= i < |raw| ==> !raw[i].closed
    ensures OpenRooms(raw) == [] <==> forall i :: 0 <= i < |raw| ==> raw[i].closed
    ensures forall k :: 0 <= k < |OpenRooms(raw)| ==>
      exists i :: 0 <= i < |raw| && !raw[i].closed && OpenRooms(raw)[k] == ToAzRoom(raw[i])
    decreases |raw|
  {
    if raw != [] {
      var p := raw[..|raw| - 1];
      OpenRoomsFacts(p);
      assert forall j :: 0 <= j < |p| ==> raw[j] == p[j];
      var rooms := OpenRooms(raw);
      forall k | 0 <= k < |rooms|
        ensures exists i :: 0 <= i < |raw| && !raw[i].closed && rooms[k] == ToAzRoom(raw[i])
      {
        if k < |OpenRooms(p)| {
          var i :| 0 <= i < |p| && !p[i].closed && OpenRooms(p)[k] == ToAzRoom(p[i]);
          assert raw[i] == p[i];
        } else {
          assert rooms[k] == ToAzRoom(raw[|raw| - 1]);
        }
      }
    }
  }

  /** The open rooms of two record lists one after the other are those of the first, then those of the second. */
  lemma {:induction false} OpenRoomsAppend(a: RawAzDay, b: RawAzDay)
    ensures OpenRooms(a + b) == OpenRooms(a) + OpenRooms(b)
    decreases |b|
  {
    if b == [] {
      assert a + b == a;
    } else {
      assert (a + b)[..|a + b| - 1] == a + b[..|b| - 1];
      OpenRoomsAppend(a, b[..|b| - 1]);
    }
  }

  /**
   * Every open record, and only those, becomes a room of the day: each
   * record gives its room when it is open, in its place among the others.
   */
  lemma OpenRoomsSpec(raw: RawAzDay)
    ensures |OpenRooms(raw)| <= |raw|
    ensures |OpenRooms(raw)| == |raw| <==> forall i :: 0 <= i < |raw| ==> !raw[i].closed
    ensures OpenRooms(raw) == [] <==> forall i :: 0 <= i < |raw| ==> raw[i].closed
    ensures forall n :: 0 <= n < |raw| ==>
      OpenRooms(raw) == OpenRooms(raw[..n]) + (if raw[n].closed then [] else [ToAzRoom(raw[n])]) + OpenRooms(raw[n + 1..])
  {
    OpenRoomsFacts(raw);
    forall n | 0 <= n < |raw|
      ensures OpenRooms(raw) == OpenRooms(raw[..n]) + (if raw[n].closed then [] else [ToAzRoom(raw[n])]) + OpenRooms(raw[n + 1..])
    {
      OpenRoomsAt(raw, n);
    }
  }

  lemma OpenRoomsAt(raw: RawAzDay, n: nat)
    requires n < |raw|
    ensures OpenRooms(raw) == OpenRooms(raw[..n]) + (if raw[n].closed then [] else [ToAzRoom(raw[n])]) + OpenRooms(raw[n + 1..])
  {
    var a, b := raw[..n + 1], raw[n + 1..];
    assert raw == a + b;
    assert a[..n] == raw[..n];
    OpenRoomsSnoc(a, b);
  }

  lemma OpenRoomsSnoc(a: RawAzDay, b: RawAzDay)
    requires a != []
    ensures OpenRooms(a + b) ==
      OpenRooms(a[..|a| - 1]) + (if a[|a| - 1].closed then [] else [ToAzRoom(a[|a| - 1])]) + OpenRooms(b)
  {
    OpenRoomsAppend(a, b);
  }

  /**
   * A day that does not throw is answered exactly when it has an open
   * record; it then carries the date of the first one and its open rooms.
   */
  lemma AzDayOfSpec(raw: RawAzDay)
    requires !DayFails(raw)
    ensures AzDayOf(raw).Some? <==> exists i :: 0 <= i < |raw| && !raw[i].closed
    ensures AzDayOf(raw).Some? ==>
      AzDayOf(raw).value.rooms == OpenRooms(raw) && AzDayOf(raw).value.rooms != [] &&
      exists i :: 0 <= i < |raw| && !raw[i].closed && Some(AzDayOf(raw).value.date) == raw[i].reservationDate &&
        forall j :: 0 <= j < i ==> raw[j].closed
  {
    FirstOpenSpec(raw);
    OpenRoomsSpec(raw);
  }

  // ------------------------------------------------------- the whole reply

  /** The days answered for a reply, in reply order. */
  function ParsedAzDays(reply: seq<RawAzDay>): seq<AzDay>
    decreases |reply|
  {
    if reply == [] then []
    else
      var d := AzDayOf(reply[|reply| - 1]);
      ParsedAzDays(reply[..|reply| - 1]) + (if d.Some? then [d.value] else [])
  }

  /** Parsing keeps reply order: the days of a concatenated reply are the concatenated days. */
  lemma {:induction false} ParsedAzDaysAppend(a: seq<RawAzDay>, b: seq<RawAzDay>)
    ensures ParsedAzDays(a + b) == ParsedAzDays(a) + ParsedAzDays(b)
    decreases |b|
  {
    if b == [] {
      assert a + b == a;
    } else {
      ParsedAzDaysAppend(a, b[..|b| - 1]);
      assert (a + b)[..|a + b| - 1] == a + b[..|b| - 1];
    }
  }

  /** All room records of a reply, day after day. */
  function Flatten(reply: seq<RawAzDay>): seq<AzRoomDay>
    decreases |reply|
  {
    if reply == [] then [] else Flatten(reply[..|reply| - 1]) + reply[|reply| - 1]
  }

  /** Lines 54-57: the language is taken from each record, closed or not, while it is still "". */
  function LanguageAfter(language: Option<string>, rooms: seq<AzRoomDay>): Option<string>
    decreases |rooms|
  {
    if rooms == [] then language
    else
      var before := LanguageAfter(language, rooms[..|rooms| - 1]);
      if before == Some("") then rooms[|rooms| - 1].hutDefaultLanguage else before
  }

  /** Running over two stretches of records is running over their concatenation. */
  lemma {:induction false} LanguageAfterAppend(language: Option<string>, a: seq<AzRoomDay>, b: seq<AzRoomDay>)
    ensures LanguageAfter(language, a + b) == LanguageAfter(LanguageAfter(language, a), b)
    decreases |b|
  {
    if b == [] {
      assert a + b == a;
    } else {
      LanguageAfterAppend(language, a, b[..|b| - 1]);
      assert (a + b)[..|a + b| - 1] == a + b[..|b| - 1];
    }
  }

  /** Every record before position i has the language "". */
  predicate FirstSetAt(rooms: seq<AzRoomDay>, i: int)
  {
    forall j :: 0 <= j < i && j < |rooms| ==> rooms[j].hutDefaultLanguage == Some("")
  }

  /**
   * The answered language is that of the first record whose language is
   * not "" (a null one included, which then sticks), or "" if there is none.
   */
  lemma {:induction false} LanguageIsFirstSet(rooms: seq<AzRoomDay>)
    ensures (forall j :: 0 <= j < |rooms| ==> rooms[j].hutDefaultLanguage == Some("")) ==>
      LanguageAfter(Some(""), rooms) == Some("")
    ensures forall i :: 0 <= i < |rooms| && rooms[i].hutDefaultLanguage != Some("") && FirstSetAt(rooms, i) ==>
      LanguageAfter(Some(""), rooms) == rooms[i].hutDefaultLanguage
    decreases |rooms|
  {
    if rooms != [] {
      var p := rooms[..|rooms| - 1];
      LanguageIsFirstSet(p);
      assert forall j :: 0 <= j < |p| ==> rooms[j] == p[j];
      forall i | 0 <= i < |rooms| && rooms[i].hutDefaultLanguage != Some("") && FirstSetAt(rooms, i)
        ensures LanguageAfter(Some(""), rooms) == rooms[i].hutDefaultLanguage
      {
        if i < |p| {
          LanguageSticks(rooms[i].hutDefaultLanguage, [rooms[|rooms| - 1]]);
        }
      }
    }
  }

  /** A language other than "" is never replaced. */
  lemma {:induction false} LanguageSticks(language: Option<string>, rooms: seq<AzRoomDay>)
    requires language != Some("")
    ensures LanguageAfter(language, rooms) == language
    decreases |rooms|
  {
    if rooms != [] {
      LanguageSticks(language, rooms[..|rooms| - 1]);
    }
  }

  /**
   * `ParseHutAvailability.Run` (lines 20-81): a body that is not a JSON
   * object, or a day whose first open record has an unparsable date, is a
   * bad request with no partial result; otherwise the answer is the
   * language and the days with an open room.
   */
  function ParseHutAvailabilityReply(request: Option<seq<RawAzDay>>): (reply: Dispatch.Reply<AzParseResult>)
    ensures reply.BadRequest? || reply.Ok?
    ensures reply.BadRequest? <==> request.None? || exists k :: 0 <= k < |request.value| && DayFails(request.value[k])
  {
    if request.None? || exists k :: 0 <= k < |request.value| && DayFails(request.value[k]) then Dispatch.BadRequest
    else
      var reply := request.value;
      Dispatch.Ok(AzParseResult(LanguageAfter(Some(""), Flatten(reply)), ParsedAzDays(reply)))
  }

  /** The parser as the function runs it: one pass over the days, and over each day's records. */
  method ParseHutAvailability(request: Option<seq<RawAzDay>>) returns (reply: Dispatch.Reply<AzParseResult>)
    ensures reply == ParseHutAvailabilityReply(request)
  {
    if request.None? {
      return Dispatch.BadRequest;
    }
    var json := request.value;
    var hutLanguage: Option<string> := Some("");
    var resultList: seq<AzDay> := [];
    var i := 0;
    while i < |json|
      invariant 0 <= i <= |json|
      invariant forall k :: 0 <= k < i ==> !DayFails(json[k])
      invariant hutLanguage == LanguageAfter(Some(""), Flatten(json[..i]))
      invariant resultList == ParsedAzDays(json[..i])
    {
      var day := json[i];
      var date: Option<Day> := None;
      var rooms: seq<AzRoom> := [];
      var j := 0;
      while j < |day|
        invariant 0 <= j <= |day|
        invariant !DayFails(day[..j])
        invariant date == FirstOpenDate(day[..j])
        invariant rooms == OpenRooms(day[..j])
        invariant hutLanguage == LanguageAfter(LanguageAfter(Some(""), Flatten(json[..i])), day[..j])
      {
        var room := day[j];
        assert day[..j + 1][..j] == day[..j];
        if !room.closed {
          rooms := rooms + [ToAzRoom(room)];
          if date.None? {
            if room.reservationDate.None? {
              FirstOpenOfPrefix(day, j + 1);
              return Dispatch.BadRequest;
            }
            date := room.reservationDate;
          }
        }
        if hutLanguage == Some("") {
          hutLanguage := room.hutDefaultLanguage;
        }
        j := j + 1;
      }
      assert day[..j] == day;
      assert json[..i + 1][..i] == json[..i];
      LanguageAfterAppend(Some(""), Flatten(json[..i]), day);
      if date.Some? {
        resultList := resultList + [AzDay(date.value, rooms)];
      }
      i := i + 1;
    }
    assert json[..i] == json;
    reply := Dispatch.Ok(AzParseResult(hutLanguage, resultList));
  }
}
