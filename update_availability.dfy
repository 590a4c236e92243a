/**
 * UpdateHutAvailability of the data-fetching function app: the reply parser,
 * the free-bed notifications, and the activity that walks eight 14-day
 * windows and reconciles every day of them against the table.
 */
module UpdateAvailability {
  import opened Wrappers
  import opened Strings
  import opened Store
  import opened AvailabilityModel
  import opened AvailabilityCalendar
  import Dispatch

  /** One day property of the reply: its array of room records. */
  type RawDay = seq<RoomDayAvailability>

  /** A mail the activity queues for SendGrid. */
  datatype Message = Message(to: string, hutName: string, date: Day, link: Option<string>)

  // ---------------------------------------------------------------- parser

  predicate Kept(r: RoomDayAvailability)
  {
    r.bedCategoryId.Some? && r.hutBedCategoryId.Some?
  }

  function ToRoom(r: RoomDayAvailability): RoomAvailability
    requires Kept(r)
  {
    RoomAvailability(r.bedCategoryId.value, r.freeRoom, r.totalRoom, r.closed)
  }

  /** The rooms a day keeps: its records with both category ids set, in order. */
  function KeptRooms(raw: RawDay): seq<RoomAvailability>
    decreases |raw|
  {
    if raw == [] then []
    else KeptRooms(raw[..|raw| - 1]) + (if Kept(raw[|raw| - 1]) then [ToRoom(raw[|raw| - 1])] else [])
  }

  /** The reservation date of the first kept record of a day. */
  function FirstKeptDate(raw: RawDay): Option<Day>
    decreases |raw|
  {
    if raw == [] then None
    else
      var d := FirstKeptDate(raw[..|raw| - 1]);
      if d.Some? then d else if Kept(raw[|raw| - 1]) then Some(raw[|raw| - 1].reservationDate) else None
  }

  /** The parsed reply: one day per raw day that kept a record, in reply order. */
  function ParsedDays(reply: seq<RawDay>): seq<DayAvailability>
    decreases |reply|
  {
    if reply == [] then []
    else
      var d := reply[|reply| - 1];
      ParsedDays(reply[..|reply| - 1]) +
      (if FirstKeptDate(d).Some? then [DayAvailability(FirstKeptDate(d), Some(KeptRooms(d)))] else [])
  }

  /** A day has a date exactly when it kept a record, and the date is that of its first kept record. */
  lemma {:induction false} FirstKeptDateSpec(raw: RawDay)
    ensures FirstKeptDate(raw).Some? <==> KeptRooms(raw) != []
    ensures FirstKeptDate(raw).Some? <==> exists i :: 0 <= i < |raw| && Kept(raw[i])
    ensures FirstKeptDate(raw).Some? ==>
      exists i :: 0 <= i < |raw| && Kept(raw[i]) && FirstKeptDate(raw).value == raw[i].reservationDate &&
        forall j :: 0 <= j < i ==> !Kept(raw[j])
    decreases |raw|
  {
    if raw != [] {
      var p := raw[..|raw| - 1];
      FirstKeptDateSpec(p);
      if FirstKeptDate(p).Some? {
        var i :| 0 <= i < |p| && Kept(p[i]) && FirstKeptDate(p).value == p[i].reservationDate &&
          forall j :: 0 <= j < i ==> !Kept(p[j]);
        assert raw[i] == p[i];
        assert forall j :: 0 <= j < i ==> raw[j] == p[j];
      } else if Kept(raw[|raw| - 1]) {
        assert forall j :: 0 <= j < |p| ==> raw[j] == p[j];
      } else {
        assert forall j :: 0 <= j < |p| ==> raw[j] == p[j];
      }
    }
  }

  /** The kept rooms of two record lists one after the other are those of the first, then those of the second. */
  lemma {:induction false} KeptRoomsAppend(a: RawDay, b: RawDay)
    ensures KeptRooms(a + b) == KeptRooms(a) + KeptRooms(b)
    decreases |b|
  {
    if b == [] {
      assert a + b == a;
    } else {
      assert (a + b)[..|a + b| - 1] == a + b[..|b| - 1];
      KeptRoomsAppend(a, b[..|b| - 1]);
    }
  }

  lemma {:induction false} KeptRoomsCount(raw: RawDay)
    ensures |KeptRooms(raw)| <= |raw|
    ensures |KeptRooms(raw)| == |raw| <==> forall i :: 0 <= i < |raw| ==> Kept(raw[i])
    decreases |raw|
  {
    if raw != [] {
      var p := raw[..|raw| - 1];
      KeptRoomsCount(p);
      assert forall i :: 0 <= i < |p| ==> raw[i] == p[i];
    }
  }

  /**
   * A record is dropped exactly when one of its category ids is null; every
   * other record gives its room, in its place among the others.
   */
  lemma KeptRoomsSpec(raw: RawDay)
    ensures |KeptRooms(raw)| <= |raw|
    ensures |KeptRooms(raw)| == |raw| <==> forall i :: 0 <= i < |raw| ==> Kept(raw[i])
    ensures forall n :: 0 <= n < |raw| ==>
      KeptRooms(raw) == KeptRooms(raw[..n]) + (if Kept(raw[n]) then [ToRoom(raw[n])] else []) + KeptRooms(raw[n + 1..])
  {
    KeptRoomsCount(raw);
    forall n | 0 <= n < |raw|
      ensures KeptRooms(raw) == KeptRooms(raw[..n]) + (if Kept(raw[n]) then [ToRoom(raw[n])] else []) + KeptRooms(raw[n + 1..])
    {
      KeptRoomsAt(raw, n);
    }
  }

  lemma KeptRoomsAt(raw: RawDay, n: nat)
    requires n < |raw|
    ensures KeptRooms(raw) == KeptRooms(raw[..n]) + (if Kept(raw[n]) then [ToRoom(raw[n])] else []) + KeptRooms(raw[n + 1..])
  {
    var a, b := raw[..n + 1], raw[n + 1..];
    assert raw == a + b;
    assert a[..n] == raw[..n];
    KeptRoomsSnoc(a, b);
  }

  lemma KeptRoomsSnoc(a: RawDay, b: RawDay)
    requires a != []
    ensures KeptRooms(a + b) ==
      KeptRooms(a[..|a| - 1]) + (if Kept(a[|a| - 1]) then [ToRoom(a[|a| - 1])] else []) + KeptRooms(b)
  {
    KeptRoomsAppend(a, b);
  }

  /** Every parsed day has a date and a non-empty room list. */
  lemma {:induction false} ParsedDaysShape(reply: seq<RawDay>)
    ensures forall j :: 0 <= j < |ParsedDays(reply)| ==>
      ParsedDays(reply)[j].date.Some? && ParsedDays(reply)[j].rooms.Some? && ParsedDays(reply)[j].rooms.value != []
    decreases |reply|
  {
    if reply != [] {
      ParsedDaysShape(reply[..|reply| - 1]);
      FirstKeptDateSpec(reply[|reply| - 1]);
    }
  }

  /** Parsing keeps reply order: the days of a concatenated reply are the concatenated days. */
  lemma {:induction false} ParsedDaysAppend(a: seq<RawDay>, b: seq<RawDay>)
    ensures ParsedDays(a + b) == ParsedDays(a) + ParsedDays(b)
    decreases |b|
  {
    if b != [] {
      ParsedDaysAppend(a, b[..|b| - 1]);
      assert (a + b)[..|a + b| - 1] == a + b[..|b| - 1];
    } else {
      assert a + b == a;
    }
  }

  /** `ParseAvailability` (lines 355-398). */
  method ParseAvailability(reply: seq<RawDay>) returns (resultList: seq<DayAvailability>)
    ensures resultList == ParsedDays(reply)
  {
    resultList := [];
    var d := 0;
    while d < |reply|
      invariant 0 <= d <= |reply|
      invariant resultList == ParsedDays(reply[..d])
    {
      var day := reply[d];
      var parsedDay := NewDayAvailability();
      var rooms: seq<RoomAvailability> := [];
      var i := 0;
      while i < |day|
        invariant 0 <= i <= |day|
        invariant rooms == KeptRooms(day[..i])
        invariant parsedDay.date == FirstKeptDate(day[..i])
      {
        var room := day[i];
        assert day[..i + 1][..i] == day[..i];
        if room.bedCategoryId.Some? && room.hutBedCategoryId.Some? {
          rooms := rooms + [ToRoom(room)];
          if parsedDay.date.None? {
            parsedDay := parsedDay.(date := Some(room.reservationDate));
          }
        }
        i := i + 1;
      }
      assert day[..|day|] == day;
      parsedDay := parsedDay.(rooms := Some(rooms));
      assert reply[..d + 1][..d] == reply[..d];
      if parsedDay.date.Some? {
        resultList := resultList + [parsedDay];
      }
      d := d + 1;
    }
    assert reply[..|reply|] == reply;
  }

  // --------------------------------------------------------- subscriptions

  /** Lines 176-178: the hut matches, the date is at most today + 112 days, and it is not yet notified. */
  predicate Preloaded(s: FreeBedSubscription, hutId: int, today: Day)
  {
    s.hutId == Some(hutId) && s.date.Some? && s.date.value <= today + 112 && s.notified == Some(false)
  }

  /** The indices of the preloaded subscriptions among the first n, in table order. */
  function PreloadIndices(subs: seq<FreeBedSubscription>, hutId: int, today: Day, n: nat): (r: seq<nat>)
    requires n <= |subs|
    ensures forall j :: 0 <= j < |r| ==> r[j] < n
    decreases n
  {
    if n == 0 then []
    else PreloadIndices(subs, hutId, today, n - 1) + (if Preloaded(subs[n - 1], hutId, today) then [n - 1] else [])
  }

  /** Exactly the matching subscriptions are preloaded, each once, in table order. */
  lemma {:induction false} PreloadIndicesSpec(subs: seq<FreeBedSubscription>, hutId: int, today: Day, n: nat)
    requires n <= |subs|
    ensures var r := PreloadIndices(subs, hutId, today, n);
      (forall i :: i in r <==> 0 <= i < n && Preloaded(subs[i], hutId, today)) &&
      (forall a, b :: 0 <= a < b < |r| ==> r[a] < r[b])
    decreases n
  {
    if n > 0 {
      PreloadIndicesSpec(subs, hutId, today, n - 1);
    }
  }

  predicate IndicesIn(preloaded: seq<nat>, n: nat)
  {
    forall j :: 0 <= j < |preloaded| ==> preloaded[j] < n
  }

  /** Lines 312-329 on the table: preloaded subscriptions dated on the day become notified. */
  function MarkOnDay(subs: seq<FreeBedSubscription>, preloaded: seq<nat>, date: Day): (r: seq<FreeBedSubscription>)
    ensures |r| == |subs|
  {
    seq(|subs|, i requires 0 <= i < |subs| =>
      if i in preloaded && subs[i].date == Some(date) then subs[i].(notified := Some(true)) else subs[i])
  }

  /** The message for a subscription dated on the day, or none. */
  function MessageFor(s: FreeBedSubscription, hut: Hut, date: Day): seq<Message>
  {
    if s.date == Some(date) then [Message(s.emailAddress, hut.name, date, hut.link)] else []
  }

  /** Lines 312-326: one message per preloaded subscription dated on the day, in preload order. */
  function MessagesOnDay(subs: seq<FreeBedSubscription>, preloaded: seq<nat>, hut: Hut, date: Day): seq<Message>
    requires IndicesIn(preloaded, |subs|)
    decreases |preloaded|
  {
    if preloaded == [] then []
    else
      MessagesOnDay(subs, preloaded[..|preloaded| - 1], hut, date) + MessageFor(subs[preloaded[|preloaded| - 1]], hut, date)
  }

  lemma {:induction false} MessagesOnDaySound(subs: seq<FreeBedSubscription>, preloaded: seq<nat>, hut: Hut, date: Day)
    requires IndicesIn(preloaded, |subs|)
    ensures |MessagesOnDay(subs, preloaded, hut, date)| <= |preloaded|
    ensures forall m :: m in MessagesOnDay(subs, preloaded, hut, date) ==>
      m.date == date && exists j :: 0 <= j < |preloaded| && subs[preloaded[j]].date == Some(date) && subs[preloaded[j]].emailAddress == m.to
    decreases |preloaded|
  {
    if preloaded != [] {
      var p := preloaded[..|preloaded| - 1];
      MessagesOnDaySound(subs, p, hut, date);
      forall m | m in MessagesOnDay(subs, preloaded, hut, date)
        ensures exists j :: 0 <= j < |preloaded| && subs[preloaded[j]].date == Some(date) && subs[preloaded[j]].emailAddress == m.to
      {
        if m in MessagesOnDay(subs, p, hut, date) {
          var j :| 0 <= j < |p| && subs[p[j]].date == Some(date) && subs[p[j]].emailAddress == m.to;
          assert preloaded[j] == p[j];
        } else {
          assert subs[preloaded[|preloaded| - 1]].emailAddress == m.to;
        }
      }
    }
  }

  lemma {:induction false} MessagesOnDayAppend(subs: seq<FreeBedSubscription>, a: seq<nat>, b: seq<nat>, hut: Hut, date: Day)
    requires IndicesIn(a, |subs|) && IndicesIn(b, |subs|)
    ensures IndicesIn(a + b, |subs|)
    ensures MessagesOnDay(subs, a + b, hut, date) == MessagesOnDay(subs, a, hut, date) + MessagesOnDay(subs, b, hut, date)
    decreases |b|
  {
    if b == [] {
      assert a + b == a;
    } else {
      var b' := b[..|b| - 1];
      assert (a + b)[..|a + b| - 1] == a + b';
      MessagesOnDayAppend(subs, a, b', hut, date);
    }
  }

  lemma MessagesOnDayAt(subs: seq<FreeBedSubscription>, preloaded: seq<nat>, hut: Hut, date: Day, n: nat)
    requires IndicesIn(preloaded, |subs|) && n < |preloaded|
    ensures IndicesIn(preloaded[..n], |subs|) && IndicesIn(preloaded[n + 1..], |subs|)
    ensures MessagesOnDay(subs, preloaded, hut, date) ==
      MessagesOnDay(subs, preloaded[..n], hut, date) + MessageFor(subs[preloaded[n]], hut, date) +
      MessagesOnDay(subs, preloaded[n + 1..], hut, date)
  {
    var a, b := preloaded[..n + 1], preloaded[n + 1..];
    assert preloaded == a + b;
    assert a[..n] == preloaded[..n];
    assert IndicesIn(a, |subs|) && IndicesIn(b, |subs|);
    MessagesOnDayAppend(subs, a, b, hut, date);
  }

  /**
   * Each preloaded subscription dated on the day gets a message to its
   * address, and no other message is sent.
   */
  lemma MessagesOnDayTargets(subs: seq<FreeBedSubscription>, preloaded: seq<nat>, hut: Hut, date: Day)
    requires IndicesIn(preloaded, |subs|)
    ensures |MessagesOnDay(subs, preloaded, hut, date)| <= |preloaded|
    ensures forall m :: m in MessagesOnDay(subs, preloaded, hut, date) ==>
      m.date == date && exists j :: 0 <= j < |preloaded| && subs[preloaded[j]].date == Some(date) && subs[preloaded[j]].emailAddress == m.to
    ensures forall j :: 0 <= j < |preloaded| && subs[preloaded[j]].date == Some(date) ==>
      Message(subs[preloaded[j]].emailAddress, hut.name, date, hut.link) in MessagesOnDay(subs, preloaded, hut, date)
  {
    MessagesOnDaySound(subs, preloaded, hut, date);
    forall j | 0 <= j < |preloaded| && subs[preloaded[j]].date == Some(date)
      ensures Message(subs[preloaded[j]].emailAddress, hut.name, date, hut.link) in MessagesOnDay(subs, preloaded, hut, date)
    {
      MessageSent(subs, preloaded, hut, date, j);
    }
  }

  /** Each preloaded subscription, in preload order, contributes exactly its own message or none. */
  lemma MessagesOnDayInOrder(subs: seq<FreeBedSubscription>, preloaded: seq<nat>, hut: Hut, date: Day)
    requires IndicesIn(preloaded, |subs|)
    ensures forall n :: 0 <= n < |preloaded| ==>
      IndicesIn(preloaded[..n], |subs|) && IndicesIn(preloaded[n + 1..], |subs|) &&
      MessagesOnDay(subs, preloaded, hut, date) ==
        MessagesOnDay(subs, preloaded[..n], hut, date) + MessageFor(subs[preloaded[n]], hut, date) +
        MessagesOnDay(subs, preloaded[n + 1..], hut, date)
  {
    forall n | 0 <= n < |preloaded|
      ensures IndicesIn(preloaded[..n], |subs|) && IndicesIn(preloaded[n + 1..], |subs|) &&
        MessagesOnDay(subs, preloaded, hut, date) ==
          MessagesOnDay(subs, preloaded[..n], hut, date) + MessageFor(subs[preloaded[n]], hut, date) +
          MessagesOnDay(subs, preloaded[n + 1..], hut, date)
    {
      MessagesOnDayAt(subs, preloaded, hut, date, n);
    }
  }

  lemma MessageSent(subs: seq<FreeBedSubscription>, preloaded: seq<nat>, hut: Hut, date: Day, j: nat)
    requires IndicesIn(preloaded, |subs|) && j < |preloaded| && subs[preloaded[j]].date == Some(date)
    ensures Message(subs[preloaded[j]].emailAddress, hut.name, date, hut.link) in MessagesOnDay(subs, preloaded, hut, date)
  {
    MessagesOnDayAt(subs, preloaded, hut, date, j);
    var m := Message(subs[preloaded[j]].emailAddress, hut.name, date, hut.link);
    assert MessageFor(subs[preloaded[j]], hut, date) == [m];
    var x := MessagesOnDay(subs, preloaded[..j], hut, date);
    assert (x + [m] + MessagesOnDay(subs, preloaded[j + 1..], hut, date))[|x|] == m;
  }

  /** Lines 310: notifications go out for a day with an open room and some room with free beds. */
  predicate NotifyDay(rooms: seq<RoomAvailability>)
  {
    !AllClosed(rooms) && exists i :: 0 <= i < |rooms| && rooms[i].freeRoom > 0
  }

  // --------------------------------------------------------------- the run

  /** The rows written by SaveChanges for one day: rows inserted, deleted or changed. */
  function ChangedRows(before: Rows, after: Rows, hutId: int, date: Day): nat
  {
    |set k | k in before.Keys + after.Keys && OnDay(k, hutId, date) && (k !in before || k !in after || before[k] != after[k])|
  }

  /** The subscription rows written by SaveChanges: those whose Notified flag changed. */
  function ChangedSubscriptions(before: seq<FreeBedSubscription>, after: seq<FreeBedSubscription>): nat
    requires |before| == |after|
  {
    |set i | 0 <= i < |before| && before[i] != after[i]|
  }

  /** The state the activity carries from day to day. */
  datatype RunState = RunState(rows: Rows, subscriptions: seq<FreeBedSubscription>, messages: seq<Message>, written: int)

  /** Lines 199-332: reconcile one day, notify, and add what SaveChanges wrote. */
  function DayStep(st: RunState, hut: Hut, hutId: int, preloaded: seq<nat>, date: Day, rooms: seq<RoomAvailability>, now: Time): (r: RunState)
    requires IndicesIn(preloaded, |st.subscriptions|)
    ensures |r.subscriptions| == |st.subscriptions|
  {
    var rows := ReconcileDay(st.rows, hutId, date, rooms, now);
    var notify := NotifyDay(rooms);
    var subs := if notify then MarkOnDay(st.subscriptions, preloaded, date) else st.subscriptions;
    var msgs := if notify then MessagesOnDay(st.subscriptions, preloaded, hut, date) else [];
    RunState(rows, subs, st.messages + msgs,
             st.written + ChangedRows(st.rows, rows, hutId, date) + ChangedSubscriptions(st.subscriptions, subs))
  }

  predicate WellFormedDays(days: seq<DayAvailability>)
  {
    forall j :: 0 <= j < |days| ==> days[j].date.Some? && days[j].rooms.Some?
  }

  /** Lines 197-333: the days of one window, in order. */
  function ProcessDays(st: RunState, hut: Hut, hutId: int, preloaded: seq<nat>, days: seq<DayAvailability>, now: Time): (r: RunState)
    requires IndicesIn(preloaded, |st.subscriptions|) && WellFormedDays(days)
    ensures |r.subscriptions| == |st.subscriptions|
    decreases |days|
  {
    if days == [] then st
    else
      var before := ProcessDays(st, hut, hutId, preloaded, days[..|days| - 1], now);
      var d := days[|days| - 1];
      DayStep(before, hut, hutId, preloaded, d.date.value, d.rooms.value, now)
  }

  lemma ParsedDaysWellFormed(reply: seq<RawDay>)
    ensures WellFormedDays(ParsedDays(reply))
  {
    ParsedDaysShape(reply);
  }

  /** Lines 183-334: the windows whose replies arrived, in order. */
  function ProcessWindows(st: RunState, hut: Hut, hutId: int, preloaded: seq<nat>, replies: seq<seq<RawDay>>, now: Time): (r: RunState)
    requires IndicesIn(preloaded, |st.subscriptions|)
    ensures |r.subscriptions| == |st.subscriptions|
    decreases |replies|
  {
    if replies == [] then st
    else
      var before := ProcessWindows(st, hut, hutId, preloaded, replies[..|replies| - 1], now);
      ParsedDaysWellFormed(replies[|replies| - 1]);
      ProcessDays(before, hut, hutId, preloaded, ParsedDays(replies[|replies| - 1]), now)
  }

  /** Line 183: the day offsets of the first n windows, 0, 14, 28, ... */
  function WindowOffsets(n: nat): (r: seq<int>)
    ensures |r| == n
  {
    if n == 0 then [] else WindowOffsets(n - 1) + [14 * (n - 1)]
  }

  /** The offsets are the multiples of 14 below 14 * n, in increasing order; the loop stops at 112. */
  lemma {:induction false} WindowOffsetsSpec(n: nat)
    ensures forall i :: 0 <= i < n ==> WindowOffsets(n)[i] == 14 * i
    ensures n == 8 ==> forall i :: 0 <= i < 8 ==> 0 <= WindowOffsets(n)[i] < 112
  {
    if n > 0 {
      WindowOffsetsSpec(n - 1);
    }
  }

  /** The number of leading windows among the first n whose reply arrived. */
  function Arrived<T>(fetch: int -> Option<T>, n: nat): (m: nat)
    ensures m <= n
    ensures forall i :: 0 <= i < m ==> fetch(14 * i).Some?
    ensures m < n ==> fetch(14 * m).None?
    decreases n
  {
    if n == 0 then 0
    else
      var m := Arrived(fetch, n - 1);
      if m == n - 1 && fetch(14 * (n - 1)).Some? then n else m
  }

  /** The replies of the first m windows. */
  function Replies<T>(fetch: int -> Option<T>, m: nat): (r: seq<T>)
    requires forall i :: 0 <= i < m ==> fetch(14 * i).Some?
    ensures |r| == m
  {
    if m == 0 then [] else Replies(fetch, m - 1) + [fetch(14 * (m - 1)).value]
  }

  /** Line 170: the first Set-Cookie value starting with "JSESSIONID". */
  function SessionCookie(setCookies: seq<string>): (c: Option<string>)
    ensures c.Some? ==> c.value in setCookies && StartsWith(c.value, "JSESSIONID")
    ensures c.None? <==> forall i :: 0 <= i < |setCookies| ==> !StartsWith(setCookies[i], "JSESSIONID")
  {
    if setCookies == [] then None
    else if StartsWith(setCookies[0], "JSESSIONID") then Some(setCookies[0])
    else
      var rest := SessionCookie(setCookies[1..]);
      assert forall i :: 1 <= i < |setCookies| ==> setCookies[i] == setCookies[1..][i - 1];
      rest
  }

  /** The cookie taken is the first one starting with "JSESSIONID". */
  lemma {:induction false} SessionCookieFirst(setCookies: seq<string>, i: nat)
    requires i < |setCookies| && StartsWith(setCookies[i], "JSESSIONID")
    requires forall j :: 0 <= j < i ==> !StartsWith(setCookies[j], "JSESSIONID")
    ensures SessionCookie(setCookies) == Some(setCookies[i])
    decreases i
  {
    if i > 0 {
      assert setCookies[1..][i - 1] == setCookies[i];
      SessionCookieFirst(setCookies[1..], i - 1);
    }
  }

  /** Lines 155-172: the activity stops before any request. */
  predicate EarlyExit(huts: map<int, Hut>, hutId: int, setCookies: seq<string>)
  {
    hutId !in huts || huts[hutId].enabled != Some(true) || SessionCookie(setCookies).None?
  }

  // ------------------------------------------------------- the whole run

  /** Other huts' rows are never changed, however many days are processed. */
  lemma {:induction false} ProcessDaysOtherHuts(st: RunState, hut: Hut, hutId: int, preloaded: seq<nat>, days: seq<DayAvailability>, now: Time, k: AvailabilityKey)
    requires IndicesIn(preloaded, |st.subscriptions|) && WellFormedDays(days) && k.hutId != hutId
    ensures var r := ProcessDays(st, hut, hutId, preloaded, days, now);
      (k in r.rows <==> k in st.rows) && (k in r.rows ==> r.rows[k] == st.rows[k])
    decreases |days|
  {
    if days != [] {
      var p := days[..|days| - 1];
      var d := days[|days| - 1];
      ProcessDaysOtherHuts(st, hut, hutId, preloaded, p, now, k);
      var before := ProcessDays(st, hut, hutId, preloaded, p, now);
      ReconcileDayFrame(before.rows, hutId, d.date.value, d.rooms.value, now, k);
    }
  }

  lemma {:induction false} ProcessWindowsOtherHuts(st: RunState, hut: Hut, hutId: int, preloaded: seq<nat>, replies: seq<seq<RawDay>>, now: Time, k: AvailabilityKey)
    requires IndicesIn(preloaded, |st.subscriptions|) && k.hutId != hutId
    ensures var r := ProcessWindows(st, hut, hutId, preloaded, replies, now);
      (k in r.rows <==> k in st.rows) && (k in r.rows ==> r.rows[k] == st.rows[k])
    decreases |replies|
  {
    if replies != [] {
      var p := replies[..|replies| - 1];
      ProcessWindowsOtherHuts(st, hut, hutId, preloaded, p, now, k);
      var before := ProcessWindows(st, hut, hutId, preloaded, p, now);
      ParsedDaysWellFormed(replies[|replies| - 1]);
      ProcessDaysOtherHuts(before, hut, hutId, preloaded, ParsedDays(replies[|replies| - 1]), now, k);
    }
  }

  /** The dates of the processed days on which notifications go out. */
  function NotifyDates(days: seq<DayAvailability>): set<Day>
    requires WellFormedDays(days)
    decreases |days|
  {
    if days == [] then {}
    else
      var d := days[|days| - 1];
      NotifyDates(days[..|days| - 1]) + (if NotifyDay(d.rooms.value) then {d.date.value} else {})
  }

  /**
   * Over a window, a subscription changes only if it was preloaded and its
   * date is a notification day, and then only its Notified flag becomes true.
   */
  lemma {:induction false} ProcessDaysSubscriptions(st: RunState, hut: Hut, hutId: int, preloaded: seq<nat>, days: seq<DayAvailability>, now: Time, i: nat)
    requires IndicesIn(preloaded, |st.subscriptions|) && WellFormedDays(days) && i < |st.subscriptions|
    ensures var r := ProcessDays(st, hut, hutId, preloaded, days, now);
      var s := st.subscriptions[i];
      r.subscriptions[i] ==
        if i in preloaded && s.date.Some? && s.date.value in NotifyDates(days) then s.(notified := Some(true)) else s
    decreases |days|
  {
    if days != [] {
      ProcessDaysSubscriptions(st, hut, hutId, preloaded, days[..|days| - 1], now, i);
    }
  }

  /** `UpdateAvailabilityResult`: the rows written and the queued messages. */
  datatype UpdateAvailabilityResult = UpdateAvailabilityResult(numberOfRowsWritten: int, messages: seq<Message>)

  lemma {:induction false} ArrivedStops<T>(fetch: int -> Option<T>, w: nat, n: nat)
    requires Arrived(fetch, w) == w && fetch(14 * w).None? && w < n
    ensures Arrived(fetch, n) == w
    decreases n
  {
    if n > w + 1 {
      ArrivedStops(fetch, w, n - 1);
    }
  }

  /** One more arrived reply extends the run by that reply's days. */
  lemma ProcessWindowsNext(st: RunState, hut: Hut, hutId: int, preloaded: seq<nat>, fetch: int -> Option<seq<RawDay>>, w: nat, now: Time)
    requires IndicesIn(preloaded, |st.subscriptions|)
    requires forall i :: 0 <= i <= w ==> fetch(14 * i).Some?
    ensures WellFormedDays(ParsedDays(fetch(14 * w).value))
    ensures ProcessWindows(st, hut, hutId, preloaded, Replies(fetch, w + 1), now)
         == ProcessDays(ProcessWindows(st, hut, hutId, preloaded, Replies(fetch, w), now),
                        hut, hutId, preloaded, ParsedDays(fetch(14 * w).value), now)
  {
    assert Replies(fetch, w + 1)[..w] == Replies(fetch, w);
    ParsedDaysWellFormed(fetch(14 * w).value);
  }

  // ------------------------------------------------------------- methods

  /** `dbContext.Remove` of each listed row, one after the other. */
  method RemoveRows(db: Database, keys: set<AvailabilityKey>)
    modifies db`availability
    ensures db.availability == old(db.availability) - keys
  {
    var toRemove := keys;
    while toRemove != {}
      invariant toRemove <= keys
      invariant db.availability == old(db.availability) - (keys - toRemove)
      decreases |toRemove|
    {
      var k :| k in toRemove;
      db.availability := db.availability - {k};
      toRemove := toRemove - {k};
    }
  }

  /** Lines 199-227: a closed day keeps only its sentinel row. */
  method ReconcileClosedDay(db: Database, hutId: int, date: Day, now: Time)
    modifies db`availability
    ensures db.availability == EnsureSentinel(RemoveNonSentinel(old(db.availability), hutId, date), hutId, date, now)
  {
    var existingAva := set k | k in db.availability && OnDay(k, hutId, date) && k.bedCategoryId != HutClosedBedCategoryId;
    RemoveRows(db, existingAva);
    assert db.availability == RemoveNonSentinel(old(db.availability), hutId, date);
    var key := AvailabilityKey(hutId, date, HutClosedBedCategoryId);
    if key !in db.availability {
      db.availability := db.availability[key := Availability(0, 0, None, now)];
    }
  }

  /** Lines 233-292: one room's row, then the cleanup of unlisted categories. */
  method ReconcileRoom(db: Database, hutId: int, date: Day, room: RoomAvailability, cats: set<int>, now: Time)
    modifies db`availability
    ensures db.availability == RemoveUnlisted(ApplyRoom(old(db.availability), hutId, date, room, now), hutId, date, cats)
  {
    var key := AvailabilityKey(hutId, date, room.bedCategoryId);
    if key in db.availability {
      if room.closed {
        db.availability := db.availability - {key};
      } else {
        var existingAva := db.availability[key];
        db.availability := db.availability[key := existingAva.(freeRoom := room.freeRoom, totalRoom := room.totalRoom, lastUpdated := now)];
      }
    } else if !room.closed {
      db.availability := db.availability[key := Availability(room.freeRoom, room.totalRoom, None, now)];
    }
    ghost var applied := db.availability;
    var oldEntries := set k | k in db.availability && OnDay(k, hutId, date) && k.bedCategoryId !in cats;
    RemoveRows(db, oldEntries);
    assert db.availability == RemoveUnlisted(applied, hutId, date, cats);
  }

  /** Lines 231-293: the room loop of an open day. */
  method ReconcileOpenDay(db: Database, hutId: int, date: Day, rooms: seq<RoomAvailability>, now: Time)
    modifies db`availability
    ensures db.availability == ApplyRooms(old(db.availability), hutId, date, rooms, Categories(rooms), now)
  {
    var j := 0;
    while j < |rooms|
      invariant 0 <= j <= |rooms|
      invariant db.availability == ApplyRooms(old(db.availability), hutId, date, rooms[..j], Categories(rooms), now)
    {
      assert rooms[..j + 1][..j] == rooms[..j];
      var allBedcategories := Categories(rooms);
      ReconcileRoom(db, hutId, date, rooms[j], allBedcategories, now);
      j := j + 1;
    }
    assert rooms[..|rooms|] == rooms;
  }

  /** Lines 310-330: mark the preloaded subscriptions of the day and queue their messages. */
  method NotifySubscriptions(db: Database, preloaded: seq<nat>, hut: Hut, date: Day) returns (messages: seq<Message>)
    requires IndicesIn(preloaded, |db.subscriptions|)
    modifies db`subscriptions
    ensures db.subscriptions == MarkOnDay(old(db.subscriptions), preloaded, date)
    ensures messages == MessagesOnDay(old(db.subscriptions), preloaded, hut, date)
  {
    messages := [];
    var j := 0;
    while j < |preloaded|
      invariant 0 <= j <= |preloaded|
      invariant db.subscriptions == MarkOnDay(old(db.subscriptions), preloaded[..j], date)
      invariant messages == MessagesOnDay(old(db.subscriptions), preloaded[..j], hut, date)
    {
      assert preloaded[..j + 1][..j] == preloaded[..j];
      assert forall i :: i in preloaded[..j + 1] <==> i in preloaded[..j] || i == preloaded[j];
      var idx := preloaded[j];
      var subscription := db.subscriptions[idx];
      if subscription.date == Some(date) {
        messages := messages + [Message(subscription.emailAddress, hut.name, date, hut.link)];
        db.subscriptions := db.subscriptions[idx := subscription.(notified := Some(true))];
      }
      j := j + 1;
    }
    assert preloaded[..|preloaded|] == preloaded;
  }

  /** Lines 199-332: one day, from reconciliation to SaveChanges. */
  method ProcessDay(db: Database, hut: Hut, hutId: int, preloaded: seq<nat>, date: Day, rooms: seq<RoomAvailability>, now: Time,
                    result: UpdateAvailabilityResult)
    returns (next: UpdateAvailabilityResult)
    requires IndicesIn(preloaded, |db.subscriptions|)
    modifies db`availability, db`subscriptions
    ensures RunState(db.availability, db.subscriptions, next.messages, next.numberOfRowsWritten)
         == DayStep(RunState(old(db.availability), old(db.subscriptions), result.messages, result.numberOfRowsWritten),
                    hut, hutId, preloaded, date, rooms, now)
  {
    var before := db.availability;
    var subscriptionsBefore := db.subscriptions;
    if AllClosed(rooms) {
      ReconcileClosedDay(db, hutId, date, now);
    } else {
      ReconcileOpenDay(db, hutId, date, rooms, now);
    }
    ghost var branch := db.availability;
    var cats := Categories(rooms);
    var obsoleteExistingAva := set k | k in db.availability && OnDay(k, hutId, date) && k.bedCategoryId !in cats && k.bedCategoryId != HutClosedBedCategoryId;
    RemoveRows(db, obsoleteExistingAva);
    assert db.availability == RemoveObsolete(branch, hutId, date, cats);
    var messages := result.messages;
    if !AllClosed(rooms) && exists i :: 0 <= i < |rooms| && rooms[i].freeRoom > 0 {
      var queued := NotifySubscriptions(db, preloaded, hut, date);
      messages := messages + queued;
    }
    var saved := ChangedRows(before, db.availability, hutId, date) + ChangedSubscriptions(subscriptionsBefore, db.subscriptions);
    next := UpdateAvailabilityResult(result.numberOfRowsWritten + saved, messages);
  }

  /** Lines 197-333: the days of one window, in order. */
  method ProcessWindow(db: Database, hut: Hut, hutId: int, preloaded: seq<nat>, days: seq<DayAvailability>, now: Time,
                       result: UpdateAvailabilityResult)
    returns (next: UpdateAvailabilityResult)
    requires IndicesIn(preloaded, |db.subscriptions|) && WellFormedDays(days)
    modifies db`availability, db`subscriptions
    ensures RunState(db.availability, db.subscriptions, next.messages, next.numberOfRowsWritten)
         == ProcessDays(RunState(old(db.availability), old(db.subscriptions), result.messages, result.numberOfRowsWritten),
                        hut, hutId, preloaded, days, now)
  {
    ghost var st0 := RunState(db.availability, db.subscriptions, result.messages, result.numberOfRowsWritten);
    next := result;
    var i := 0;
    while i < |days|
      invariant 0 <= i <= |days|
      invariant |db.subscriptions| == |st0.subscriptions|
      invariant RunState(db.availability, db.subscriptions, next.messages, next.numberOfRowsWritten)
             == ProcessDays(st0, hut, hutId, preloaded, days[..i], now)
    {
      assert days[..i + 1][..i] == days[..i];
      var day := days[i];
      next := ProcessDay(db, hut, hutId, preloaded, day.date.value, day.rooms.value, now, next);
      i := i + 1;
    }
    assert days[..|days|] == days;
  }

  /** Lines 190-333: parse one window's reply and process its days. */
  method ProcessReply(db: Database, hut: Hut, hutId: int, preloaded: seq<nat>, reply: seq<RawDay>, now: Time,
                      result: UpdateAvailabilityResult)
    returns (next: UpdateAvailabilityResult)
    requires IndicesIn(preloaded, |db.subscriptions|)
    ensures WellFormedDays(ParsedDays(reply))
    modifies db`availability, db`subscriptions
    ensures RunState(db.availability, db.subscriptions, next.messages, next.numberOfRowsWritten)
         == ProcessDays(RunState(old(db.availability), old(db.subscriptions), result.messages, result.numberOfRowsWritten),
                        hut, hutId, preloaded, ParsedDays(reply), now)
  {
    var daysAvailability := ParseAvailability(reply);
    ParsedDaysWellFormed(reply);
    next := ProcessWindow(db, hut, hutId, preloaded, daysAvailability, now, result);
  }

  /**
   * Lines 183-192 and 333: request window w; when the reply arrives, process it
   * (the run so far extends to w + 1 windows), otherwise the run ends here.
   */
  method FetchWindow(db: Database, hut: Hut, hutId: int, preloaded: seq<nat>, fetch: int -> Option<seq<RawDay>>, dateOffset: int, now: Time,
                     ghost w: nat, ghost st0: RunState, result: UpdateAvailabilityResult)
    returns (next: UpdateAvailabilityResult, arrived: bool)
    requires w < 8 && dateOffset == 14 * w && Arrived(fetch, w) == w
    requires IndicesIn(preloaded, |st0.subscriptions|) && |db.subscriptions| == |st0.subscriptions|
    requires RunState(db.availability, db.subscriptions, result.messages, result.numberOfRowsWritten)
          == ProcessWindows(st0, hut, hutId, preloaded, Replies(fetch, w), now)
    modifies db`availability, db`subscriptions
    ensures arrived <==> Arrived(fetch, w + 1) == w + 1
    ensures |db.subscriptions| == |st0.subscriptions|
    ensures !arrived ==> Arrived(fetch, 8) == w && next == result && unchanged(db)
    ensures arrived ==>
      RunState(db.availability, db.subscriptions, next.messages, next.numberOfRowsWritten)
      == ProcessWindows(st0, hut, hutId, preloaded, Replies(fetch, w + 1), now)
  {
    var dateResponse := fetch(dateOffset);
    if dateResponse.None? {
      ArrivedStops(fetch, w, 8);
      return result, false;
    }
    ProcessWindowsNext(st0, hut, hutId, preloaded, fetch, w, now);
    next := ProcessReply(db, hut, hutId, preloaded, dateResponse.value, now, result);
    arrived := true;
  }

  /**
   * Lines 179-335: the eight two-week windows, each requested, parsed and
   * processed in turn; `fetch(offset)` is the selectDate reply for the window
   * starting `offset` days from now, `None` when the request or the JSON
   * parse threw. The exception ends the run; days already saved stay saved.
   */
  method FetchWindows(db: Database, hut: Hut, hutId: int, preloaded: seq<nat>, fetch: int -> Option<seq<RawDay>>, now: Time)
    returns (result: UpdateAvailabilityResult, requested: seq<int>)
    requires IndicesIn(preloaded, |db.subscriptions|)
    modifies db`availability, db`subscriptions
    ensures var m := Arrived(fetch, 8);
      var st := ProcessWindows(RunState(old(db.availability), old(db.subscriptions), [], 0), hut, hutId, preloaded, Replies(fetch, m), now);
      requested == WindowOffsets(if m < 8 then m + 1 else 8) &&
      RunState(db.availability, db.subscriptions, result.messages, result.numberOfRowsWritten) == st
  {
    result := UpdateAvailabilityResult(0, []);
    requested := [];
    ghost var st0 := RunState(db.availability, db.subscriptions, [], 0);
    var dateOffset := 0;
    ghost var w: nat := 0;
    while dateOffset < 112
      invariant 0 <= w <= 8 && dateOffset == 14 * w
      invariant requested == WindowOffsets(w)
      invariant Arrived(fetch, w) == w
      invariant |db.subscriptions| == |st0.subscriptions|
      invariant RunState(db.availability, db.subscriptions, result.messages, result.numberOfRowsWritten)
             == ProcessWindows(st0, hut, hutId, preloaded, Replies(fetch, w), now)
    {
      requested := requested + [dateOffset];
      var arrived;
      result, arrived := FetchWindow(db, hut, hutId, preloaded, fetch, dateOffset, now, w, st0, result);
      if !arrived {
        return;
      }
      dateOffset := dateOffset + 14;
      w := w + 1;
    }
  }

  /** The whole activity as a function of the tables it reads: the state it leaves and what it returns. */
  function Activity(huts: map<int, Hut>, rows: Rows, subs: seq<FreeBedSubscription>, hutId: int, setCookies: seq<string>,
                    fetch: int -> Option<seq<RawDay>>, today: Day, now: Time): (r: RunState)
    ensures |r.subscriptions| == |subs|
    ensures EarlyExit(huts, hutId, setCookies) ==> r == RunState(rows, subs, [], 0)
  {
    if EarlyExit(huts, hutId, setCookies) then RunState(rows, subs, [], 0)
    else
      var preloaded := PreloadIndices(subs, hutId, today, |subs|);
      ProcessWindows(RunState(rows, subs, [], 0), huts[hutId], hutId, preloaded, Replies(fetch, Arrived(fetch, 8)), now)
  }

  /** The activity never changes another hut's rows. */
  lemma ActivityOtherHuts(huts: map<int, Hut>, rows: Rows, subs: seq<FreeBedSubscription>, hutId: int, setCookies: seq<string>,
                          fetch: int -> Option<seq<RawDay>>, today: Day, now: Time, k: AvailabilityKey)
    requires k.hutId != hutId
    ensures var r := Activity(huts, rows, subs, hutId, setCookies, fetch, today, now);
      (k in r.rows <==> k in rows) && (k in r.rows ==> r.rows[k] == rows[k])
  {
    if !EarlyExit(huts, hutId, setCookies) {
      var preloaded := PreloadIndices(subs, hutId, today, |subs|);
      ProcessWindowsOtherHuts(RunState(rows, subs, [], 0), huts[hutId], hutId, preloaded, Replies(fetch, Arrived(fetch, 8)), now, k);
    }
  }

  /**
   * `UpdateHutAvailability` (lines 142-353). `setCookies` are the Set-Cookie
   * headers of the hut page; the subscriptions preloaded at lines 174-177 are
   * those of this hut not yet notified and dated at most today + 112 days.
   */
  method UpdateHutAvailability(db: Database, hutId: int, setCookies: seq<string>, fetch: int -> Option<seq<RawDay>>, today: Day, now: Time)
    returns (result: UpdateAvailabilityResult, requested: seq<int>)
    modifies db`availability, db`subscriptions
    ensures requested == if EarlyExit(old(db.huts), hutId, setCookies) then [] else
      var m := Arrived(fetch, 8); WindowOffsets(if m < 8 then m + 1 else 8)
    ensures RunState(db.availability, db.subscriptions, result.messages, result.numberOfRowsWritten)
         == Activity(old(db.huts), old(db.availability), old(db.subscriptions), hutId, setCookies, fetch, today, now)
  {
    result := UpdateAvailabilityResult(0, []);
    requested := [];
    if hutId !in db.huts {
      return;
    }
    var hut := db.huts[hutId];
    if hut.enabled != Some(true) {
      return;
    }
    var cookie := SessionCookie(setCookies);
    if cookie.None? {
      return;
    }
    var preloaded := PreloadIndices(db.subscriptions, hutId, today, |db.subscriptions|);
    result, requested := FetchWindows(db, hut, hutId, preloaded, fetch, now);
  }

  // ------------------------------------------------------ the HTTP trigger

  /**
   * The activity run once per id, in order, each run starting from the tables
   * the previous one left; the rows written add up and the messages are
   * collected.
   */
  function TriggerRun(huts: map<int, Hut>, rows: Rows, subs: seq<FreeBedSubscription>, ids: seq<int>,
                      setCookiesOf: int -> seq<string>, fetchOf: int -> int -> Option<seq<RawDay>>, today: Day, now: Time): (r: RunState)
    ensures |r.subscriptions| == |subs|
    decreases |ids|
  {
    if ids == [] then RunState(rows, subs, [], 0)
    else
      var before := TriggerRun(huts, rows, subs, ids[..|ids| - 1], setCookiesOf, fetchOf, today, now);
      var id := ids[|ids| - 1];
      var a := Activity(huts, before.rows, before.subscriptions, id, setCookiesOf(id), fetchOf(id), today, now);
      RunState(a.rows, a.subscriptions, before.messages + a.messages, before.written + a.written)
  }

  lemma TriggerRunSnoc(huts: map<int, Hut>, rows: Rows, subs: seq<FreeBedSubscription>, ids: seq<int>, id: int,
                       setCookiesOf: int -> seq<string>, fetchOf: int -> int -> Option<seq<RawDay>>, today: Day, now: Time)
    ensures var before := TriggerRun(huts, rows, subs, ids, setCookiesOf, fetchOf, today, now);
      var a := Activity(huts, before.rows, before.subscriptions, id, setCookiesOf(id), fetchOf(id), today, now);
      TriggerRun(huts, rows, subs, ids + [id], setCookiesOf, fetchOf, today, now)
      == RunState(a.rows, a.subscriptions, before.messages + a.messages, before.written + a.written)
  {
    assert (ids + [id])[..|ids|] == ids;
  }

  /** Rows of a hut that is not among the requested ids are left as they were. */
  lemma {:induction false} TriggerRunOtherHuts(huts: map<int, Hut>, rows: Rows, subs: seq<FreeBedSubscription>, ids: seq<int>,
                                               setCookiesOf: int -> seq<string>, fetchOf: int -> int -> Option<seq<RawDay>>,
                                               today: Day, now: Time, k: AvailabilityKey)
    requires k.hutId !in ids
    ensures var r := TriggerRun(huts, rows, subs, ids, setCookiesOf, fetchOf, today, now);
      (k in r.rows <==> k in rows) && (k in r.rows ==> r.rows[k] == rows[k])
    decreases |ids|
  {
    if ids != [] {
      var p := ids[..|ids| - 1];
      var id := ids[|ids| - 1];
      assert k.hutId !in p;
      TriggerRunOtherHuts(huts, rows, subs, p, setCookiesOf, fetchOf, today, now, k);
      var before := TriggerRun(huts, rows, subs, p, setCookiesOf, fetchOf, today, now);
      ActivityOtherHuts(huts, before.rows, before.subscriptions, id, setCookiesOf(id), fetchOf(id), today, now, k);
    }
  }

  /** Lines 80-88: one piece of the id list; a piece that does not parse is skipped. */
  method UpdatePiece(db: Database, ghost huts: map<int, Hut>, ghost rows0: Rows, ghost subs0: seq<FreeBedSubscription>,
                     ghost done: seq<string>, piece: string,
                     setCookiesOf: int -> seq<string>, fetchOf: int -> int -> Option<seq<RawDay>>, today: Day, now: Time,
                     numRowsWritten: int, ghost messages: seq<Message>)
    returns (written: int, ghost messages': seq<Message>)
    requires db.huts == huts
    requires RunState(db.availability, db.subscriptions, messages, numRowsWritten)
          == TriggerRun(huts, rows0, subs0, Dispatch.ParsedIds(done), setCookiesOf, fetchOf, today, now)
    modifies db`availability, db`subscriptions
    ensures RunState(db.availability, db.subscriptions, messages', written)
         == TriggerRun(huts, rows0, subs0, Dispatch.ParsedIds(done + [piece]), setCookiesOf, fetchOf, today, now)
  {
    Dispatch.ParsedIdsSnoc(done, piece);
    written, messages' := numRowsWritten, messages;
    var parsedId := Int32TryParse(piece);
    if parsedId.Some? {
      TriggerRunSnoc(huts, rows0, subs0, Dispatch.ParsedIds(done), parsedId.value, setCookiesOf, fetchOf, today, now);
      var result, _ := UpdateHutAvailability(db, parsedId.value, setCookiesOf(parsedId.value), fetchOf(parsedId.value), today, now);
      written := written + result.numberOfRowsWritten;
      messages' := messages' + result.messages;
    } else {
      assert Dispatch.ParsedIds(done + [piece]) == Dispatch.ParsedIds(done);
    }
  }

  /** Lines 78-88: the pieces of the id list in turn, each parsable one updated. */
  method UpdatePieces(db: Database, pieces: seq<string>, setCookiesOf: int -> seq<string>,
                      fetchOf: int -> int -> Option<seq<RawDay>>, today: Day, now: Time)
    returns (numRowsWritten: int)
    modifies db`availability, db`subscriptions
    ensures var r := TriggerRun(old(db.huts), old(db.availability), old(db.subscriptions),
                                Dispatch.ParsedIds(pieces), setCookiesOf, fetchOf, today, now);
      numRowsWritten == r.written && db.availability == r.rows && db.subscriptions == r.subscriptions
  {
    ghost var huts := db.huts;
    ghost var rows0 := db.availability;
    ghost var subs0 := db.subscriptions;
    ghost var messages: seq<Message> := [];
    numRowsWritten := 0;
    var i := 0;
    while i < |pieces|
      invariant 0 <= i <= |pieces|
      invariant db.huts == huts
      invariant RunState(db.availability, db.subscriptions, messages, numRowsWritten)
             == TriggerRun(huts, rows0, subs0, Dispatch.ParsedIds(pieces[..i]), setCookiesOf, fetchOf, today, now)
    {
      assert pieces[..i + 1] == pieces[..i] + [pieces[i]];
      numRowsWritten, messages := UpdatePiece(db, huts, rows0, subs0, pieces[..i], pieces[i], setCookiesOf, fetchOf, today, now,
                                              numRowsWritten, messages);
      i := i + 1;
    }
    assert pieces[..|pieces|] == pieces;
  }

  /**
   * `UpdateAvailabilityHttpTriggered` (lines 61-92): an empty `hutid` query is
   * a bad request; otherwise every comma-separated piece that parses as an
   * int is updated in turn, the others are skipped, and the answer is the
   * total number of rows written.
   */
  method UpdateAvailabilityHttpTriggered(db: Database, query: Option<string>, setCookiesOf: int -> seq<string>,
                                         fetchOf: int -> int -> Option<seq<RawDay>>, today: Day, now: Time)
    returns (response: Dispatch.Reply<int>)
    modifies db`availability, db`subscriptions
    ensures Dispatch.NoIds(query) ==>
      response == Dispatch.BadRequest && db.availability == old(db.availability) && db.subscriptions == old(db.subscriptions)
    ensures !Dispatch.NoIds(query) ==>
      var r := TriggerRun(old(db.huts), old(db.availability), old(db.subscriptions),
                          Dispatch.ParsedIds(Split(query.value, {','})), setCookiesOf, fetchOf, today, now);
      response == Dispatch.Ok(r.written) && db.availability == r.rows && db.subscriptions == r.subscriptions
  {
    if IsNullOrEmpty(query) {
      return Dispatch.BadRequest;
    }
    var numRowsWritten := UpdatePieces(db, Split(query.value, {','}), setCookiesOf, fetchOf, today, now);
    response := Dispatch.Ok(numRowsWritten);
  }
}
