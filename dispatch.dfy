/**
 * The dispatch plans of the orchestrators, as the sequence of events an
 * orchestrator issues: activity calls, durable timers, fan-ins and the
 * reporting call. The Durable Functions runtime itself (replay, real
 * concurrency, ContinueAsNew) is not modelled; a plan is what one execution
 * asks the runtime to do, in order. Also the id lists of the HTTP triggers.
 */
module Dispatch {
  import opened Wrappers
  import opened Strings

  datatype Event =
    | Call(id: int)             // CallActivityAsync(<activity>, id)
    | Timer(minutes: int)       // CreateTimer(now + minutes)
    | AwaitAll(ids: seq<int>)   // Task.WhenAll over the pending calls of these ids
    | Report                    // the UpdateAvailabilityReporting activity

  // ------------------------------------------------------------ observers

  /** The ids of the activity calls, in order. */
  function Calls(events: seq<Event>): seq<int>
    decreases |events|
  {
    if events == [] then []
    else
      var e := events[|events| - 1];
      Calls(events[..|events| - 1]) + (if e.Call? then [e.id] else [])
  }

  /** The ids awaited by the fan-ins, in order. */
  function Awaited(events: seq<Event>): seq<int>
    decreases |events|
  {
    if events == [] then []
    else
      var e := events[|events| - 1];
      Awaited(events[..|events| - 1]) + (if e.AwaitAll? then e.ids else [])
  }

  function Timers(events: seq<Event>): nat
    decreases |events|
  {
    if events == [] then 0
    else Timers(events[..|events| - 1]) + (if events[|events| - 1].Timer? then 1 else 0)
  }

  function Reports(events: seq<Event>): nat
    decreases |events|
  {
    if events == [] then 0
    else Reports(events[..|events| - 1]) + (if events[|events| - 1].Report? then 1 else 0)
  }

  /** Each observer of a plan extended by one event is the observer of the plan extended by that event's part. */
  lemma ObserversSnoc(a: seq<Event>, e: Event)
    ensures Calls(a + [e]) == Calls(a) + (if e.Call? then [e.id] else [])
    ensures Awaited(a + [e]) == Awaited(a) + (if e.AwaitAll? then e.ids else [])
    ensures Timers(a + [e]) == Timers(a) + (if e.Timer? then 1 else 0)
    ensures Reports(a + [e]) == Reports(a) + (if e.Report? then 1 else 0)
  {
    assert (a + [e])[..|a|] == a;
  }

  /**
   * Every timer waits one minute and is followed at once by a fan-in of a
   * full batch of ten, and no fan-in waits for more than ten calls.
   */
  ghost predicate BatchShaped(events: seq<Event>)
  {
    (forall k :: 0 <= k < |events| && events[k].Timer? ==>
       events[k].minutes == 1 && k + 1 < |events| && events[k + 1].AwaitAll? && |events[k + 1].ids| == 10) &&
    (forall k :: 0 <= k < |events| && events[k].AwaitAll? ==> |events[k].ids| <= 10)
  }

  // ------------------------------------------------ the batch-of-10 plan

  /** The events so far and the pending `tasks` list. */
  datatype BatchState = BatchState(events: seq<Event>, tasks: seq<int>)

  /** One iteration of the fan-out loop. */
  function BatchStep(st: BatchState, id: int): BatchState
  {
    var tasks := st.tasks + [id];
    var events := st.events + [Call(id)];
    if |tasks| >= 10 then BatchState(events + [Timer(1), AwaitAll(tasks)], [])
    else BatchState(events, tasks)
  }

  function BatchFold(ids: seq<int>): BatchState
    decreases |ids|
  {
    if ids == [] then BatchState([], [])
    else BatchStep(BatchFold(ids[..|ids| - 1]), ids[|ids| - 1])
  }

  /** The whole plan: the loop, the last fan-in, and the reporting call when there is one. */
  function BatchedPlan(ids: seq<int>, report: bool): seq<Event>
  {
    var st := BatchFold(ids);
    st.events + [AwaitAll(st.tasks)] + (if report then [Report] else [])
  }

  /** The quotient and remainder by 10 are the only such pair. */
  lemma DivByTen(n: nat, q: nat, r: nat)
    requires n == 10 * q + r && r < 10
    ensures n / 10 == q && n % 10 == r
  {
  }

  /** A timer and a fan-in add one timer and the fanned-in ids, and no call or report. */
  lemma FlushObservers(events: seq<Event>, tasks: seq<int>)
    ensures var e := events + [Timer(1), AwaitAll(tasks)];
      Calls(e) == Calls(events) && Awaited(e) == Awaited(events) + tasks &&
      Timers(e) == Timers(events) + 1 && Reports(e) == Reports(events)
  {
    assert events + [Timer(1), AwaitAll(tasks)] == events + [Timer(1)] + [AwaitAll(tasks)];
    ObserversSnoc(events, Timer(1));
    ObserversSnoc(events + [Timer(1)], AwaitAll(tasks));
  }

  /** What one loop iteration adds to each observer. */
  lemma BatchStepCounts(st: BatchState, id: int)
    requires |st.tasks| < 10
    ensures var next := BatchStep(st, id);
      Calls(next.events) == Calls(st.events) + [id] &&
      Awaited(next.events) + next.tasks == Awaited(st.events) + st.tasks + [id] &&
      10 * Timers(next.events) + |next.tasks| == 10 * Timers(st.events) + |st.tasks| + 1 &&
      Reports(next.events) == Reports(st.events)
  {
    var tasks := st.tasks + [id];
    var events := st.events + [Call(id)];
    ObserversSnoc(st.events, Call(id));
    if |tasks| >= 10 {
      FlushObservers(events, tasks);
    }
  }

  /** Fewer than ten calls are ever pending after an iteration. */
  lemma {:induction false} BatchFoldPending(ids: seq<int>)
    ensures |BatchFold(ids).tasks| < 10
    decreases |ids|
  {
    if ids != [] {
      BatchFoldPending(ids[..|ids| - 1]);
    }
  }

  lemma {:induction false} BatchFoldCounts(ids: seq<int>)
    ensures var st := BatchFold(ids);
      Calls(st.events) == ids && Awaited(st.events) + st.tasks == ids &&
      |ids| == 10 * Timers(st.events) + |st.tasks| && Reports(st.events) == 0
    decreases |ids|
  {
    if ids != [] {
      var p := ids[..|ids| - 1];
      var x := ids[|ids| - 1];
      assert ids == p + [x];
      BatchFoldCounts(p);
      BatchFoldPending(p);
      var st := BatchFold(p);
      assert BatchFold(ids) == BatchStep(st, x);
      BatchStepCounts(st, x);
    }
  }

  lemma {:induction false} BatchFoldShape(ids: seq<int>)
    ensures BatchShaped(BatchFold(ids).events)
    decreases |ids|
  {
    if ids != [] {
      var p := ids[..|ids| - 1];
      var id := ids[|ids| - 1];
      BatchFoldShape(p);
      BatchFoldPending(p);
      var st := BatchFold(p);
      ShapedSnoc(st.events, Call(id));
      if |st.tasks + [id]| >= 10 {
        ShapedFlush(st.events + [Call(id)], st.tasks + [id]);
      }
    }
  }

  /** The plan's calls, fan-ins, timers and reporting calls. */
  lemma BatchedPlanCounts(ids: seq<int>, report: bool)
    ensures var plan := BatchedPlan(ids, report);
      Calls(plan) == ids && Awaited(plan) == ids && Timers(plan) == |ids| / 10 &&
      Reports(plan) == (if report then 1 else 0)
  {
    BatchFoldCounts(ids);
    BatchFoldPending(ids);
    var st := BatchFold(ids);
    DivByTen(|ids|, Timers(st.events), |st.tasks|);
    var last := st.events + [AwaitAll(st.tasks)];
    ObserversSnoc(st.events, AwaitAll(st.tasks));
    if report {
      ObserversSnoc(last, Report);
    } else {
      assert BatchedPlan(ids, report) == last;
    }
  }

  /** The plan ends with the fan-in of the last (possibly empty) partial batch, then the report. */
  lemma BatchedPlanEnd(ids: seq<int>, report: bool)
    ensures var plan := BatchedPlan(ids, report);
      (report ==> |plan| >= 2 && plan[|plan| - 1] == Report && plan[|plan| - 2] == AwaitAll(ids[|ids| - |ids| % 10..])) &&
      (!report ==> |plan| >= 1 && plan[|plan| - 1] == AwaitAll(ids[|ids| - |ids| % 10..]))
  {
    BatchFoldCounts(ids);
    BatchFoldPending(ids);
    var st := BatchFold(ids);
    DivByTen(|ids|, Timers(st.events), |st.tasks|);
    assert ids[|ids| - |st.tasks|..] == st.tasks;
  }

  /** Appending an event that is neither a timer nor an oversized fan-in keeps a plan batch-shaped. */
  lemma ShapedSnoc(a: seq<Event>, e: Event)
    requires BatchShaped(a) && !e.Timer? && (e.AwaitAll? ==> |e.ids| <= 10)
    ensures BatchShaped(a + [e])
  {
    var b := a + [e];
    forall k | 0 <= k < |b| && b[k].Timer?
      ensures b[k].minutes == 1 && k + 1 < |b| && b[k + 1].AwaitAll? && |b[k + 1].ids| == 10
    {
      assert k < |a| && b[k] == a[k];
      assert a[k + 1] == b[k + 1];
    }
    forall k | 0 <= k < |b| && b[k].AwaitAll?
      ensures |b[k].ids| <= 10
    {
      if k < |a| {
        assert b[k] == a[k];
      }
    }
  }

  /** A one-minute timer followed by the fan-in of a full batch keeps a plan batch-shaped. */
  lemma ShapedFlush(a: seq<Event>, tasks: seq<int>)
    requires BatchShaped(a) && |tasks| == 10
    ensures BatchShaped(a + [Timer(1), AwaitAll(tasks)])
  {
    var b := a + [Timer(1), AwaitAll(tasks)];
    forall k | 0 <= k < |b| && b[k].Timer?
      ensures b[k].minutes == 1 && k + 1 < |b| && b[k + 1].AwaitAll? && |b[k + 1].ids| == 10
    {
      if k < |a| {
        assert b[k] == a[k] && b[k + 1] == (a + [Timer(1)])[k + 1];
      }
    }
    forall k | 0 <= k < |b| && b[k].AwaitAll?
      ensures |b[k].ids| <= 10
    {
      if k < |a| {
        assert b[k] == a[k];
      }
    }
  }

  lemma BatchedPlanShaped(ids: seq<int>, report: bool)
    ensures BatchShaped(BatchedPlan(ids, report))
  {
    BatchFoldShape(ids);
    BatchFoldPending(ids);
    var st := BatchFold(ids);
    ShapedSnoc(st.events, AwaitAll(st.tasks));
    if report {
      ShapedSnoc(st.events + [AwaitAll(st.tasks)], Report);
    } else {
      assert BatchedPlan(ids, report) == st.events + [AwaitAll(st.tasks)];
    }
  }

  /**
   * The batch-of-10 plan dispatches every id once, in order; it creates one
   * one-minute timer after each full batch of 10, the last full batch
   * included, so |ids| div 10 in all; every id is awaited, the final await
   * covering the ids after the last full batch; and the reporting call, when
   * there is one, runs exactly once, last.
   */
  lemma BatchedPlanSpec(ids: seq<int>, report: bool)
    ensures var plan := BatchedPlan(ids, report);
      Calls(plan) == ids && Awaited(plan) == ids && Timers(plan) == |ids| / 10 &&
      Reports(plan) == (if report then 1 else 0) &&
      (report ==> |plan| >= 2 && plan[|plan| - 1] == Report && plan[|plan| - 2] == AwaitAll(ids[|ids| - |ids| % 10..])) &&
      (!report ==> |plan| >= 1 && plan[|plan| - 1] == AwaitAll(ids[|ids| - |ids| % 10..])) &&
      BatchShaped(plan)
  {
    BatchedPlanCounts(ids, report);
    BatchedPlanEnd(ids, report);
    BatchedPlanShaped(ids, report);
  }

  /**
   * `UpdateAvailabilityOrchestrator` (its reporting call included) and
   * `HuettenHolidayUpdateAvailabilityOrchestrator` (whose reporting call is
   * commented out) share this loop.
   */
  method BatchedOrchestrator(hutIds: seq<int>, report: bool) returns (events: seq<Event>)
    ensures events == BatchedPlan(hutIds, report)
  {
    events := [];
    var tasks: seq<int> := [];
    for i := 0 to |hutIds|
      invariant BatchFold(hutIds[..i]) == BatchState(events, tasks)
    {
      assert hutIds[..i + 1][..i] == hutIds[..i];
      var hutId := hutIds[i];
      events := events + [Call(hutId)];
      tasks := tasks + [hutId];
      if |tasks| >= 10 {
        events := events + [Timer(1)];
        events := events + [AwaitAll(tasks)];
        tasks := [];
      }
    }
    assert hutIds[..|hutIds|] == hutIds;
    events := events + [AwaitAll(tasks)];
    if report {
      events := events + [Report];
    }
  }

  // ---------------------------------------------------- the unbatched plan

  function CallAll(ids: seq<int>): (r: seq<Event>)
    ensures |r| == |ids|
  {
    seq(|ids|, k requires 0 <= k < |ids| => Call(ids[k]))
  }

  function UnbatchedPlan(ids: seq<int>): seq<Event>
  {
    CallAll(ids) + [AwaitAll(ids)] + [Report]
  }

  lemma {:induction false} CallAllObserved(ids: seq<int>)
    ensures Calls(CallAll(ids)) == ids && Awaited(CallAll(ids)) == [] && Timers(CallAll(ids)) == 0 && Reports(CallAll(ids)) == 0
    decreases |ids|
  {
    if ids != [] {
      var p := ids[..|ids| - 1];
      assert CallAll(ids) == CallAll(p) + [Call(ids[|ids| - 1])];
      CallAllObserved(p);
      ObserversSnoc(CallAll(p), Call(ids[|ids| - 1]));
      assert p + [ids[|ids| - 1]] == ids;
    }
  }

  /** What the unbatched plan calls, awaits, times and reports. */
  lemma UnbatchedPlanCounts(ids: seq<int>)
    ensures var plan := UnbatchedPlan(ids);
      Calls(plan) == ids && Awaited(plan) == ids && Timers(plan) == 0 && Reports(plan) == 1
  {
    var calls := CallAll(ids);
    CallAllObserved(ids);
    ObserversSnoc(calls, AwaitAll(ids));
    ObserversSnoc(calls + [AwaitAll(ids)], Report);
  }

  /** Only the next-to-last event of the unbatched plan is a fan-in, and the report is last. */
  lemma UnbatchedPlanEnd(ids: seq<int>)
    ensures var plan := UnbatchedPlan(ids);
      plan[|plan| - 1] == Report &&
      forall k :: 0 <= k < |plan| - 1 && plan[k].AwaitAll? ==> k == |plan| - 2
  {
    var plan := UnbatchedPlan(ids);
    forall k | 0 <= k < |ids|
      ensures plan[k].Call?
    {
      assert plan[k] == CallAll(ids)[k];
    }
  }

  /**
   * The unbatched plan calls and awaits the same ids as the batch-of-10
   * plan with reporting, has no timer, one fan-in and the reporting call last.
   */
  lemma UnbatchedPlanSpec(ids: seq<int>)
    ensures var plan := UnbatchedPlan(ids);
      Calls(plan) == Calls(BatchedPlan(ids, true)) == ids &&
      Awaited(plan) == Awaited(BatchedPlan(ids, true)) == ids &&
      Timers(plan) == 0 && Reports(plan) == 1 && plan[|plan| - 1] == Report &&
      forall k :: 0 <= k < |plan| - 1 && plan[k].AwaitAll? ==> k == |plan| - 2
  {
    UnbatchedPlanCounts(ids);
    UnbatchedPlanEnd(ids);
    BatchedPlanCounts(ids, true);
  }

  /** The legacy `UpdateAvailabilityOrchestrator`: fan out all ids, fan in, report. */
  method UnbatchedOrchestrator(hutIds: seq<int>) returns (events: seq<Event>)
    ensures events == UnbatchedPlan(hutIds)
  {
    events := [];
    for i := 0 to |hutIds|
      invariant events == CallAll(hutIds[..i])
    {
      events := events + [Call(hutIds[i])];
    }
    assert hutIds[..|hutIds|] == hutIds;
    events := events + [AwaitAll(hutIds)];
    events := events + [Report];
  }

  // -------------------------------------------- the day-of-week residue sweep

  /** `MaxHutId`: the MAX_HUT_ID setting when it parses as an int, else 600. */
  function MaxHutId(setting: Option<string>): (max: int)
    ensures setting.Some? && Int32TryParse(setting.value).Some? ==> max == Int32TryParse(setting.value).value
    ensures setting.None? || Int32TryParse(setting.value).None? ==> max == 600
  {
    if setting.Some? && Int32TryParse(setting.value).Some? then Int32TryParse(setting.value).value else 600
  }

  /** A setting written as a 32-bit number is read back as that number; with no setting the sweep ends at 600. */
  lemma MaxHutIdSetting(n: int)
    requires IsInt32(n)
    ensures MaxHutId(Some(IntToString(n))) == n
    ensures MaxHutId(None) == 600
  {
    IntToStringRoundTrip(n);
  }

  /** `UpdateHutsTimerTriggered`: the start id is the day of the week (Sunday = 0) plus one. */
  function StartHutId(dayOfWeek: int): (start: int)
    requires 0 <= dayOfWeek <= 6
    ensures 1 <= start <= 7
  {
    dayOfWeek + 1
  }

  /** The ids start, start + 7, ... up to max. */
  function SweepIds(start: int, max: int): (r: seq<int>)
    ensures forall k :: 0 <= k < |r| ==> r[k] == start + 7 * k && r[k] <= max
    ensures start <= max ==> max < start + 7 * |r|
    ensures start > max ==> r == []
  {
    var n := if start > max then 0 else (max - start) / 7 + 1;
    seq(n, k requires 0 <= k < n => start + 7 * k)
  }

  /** The remainder by 7 is the only one in range. */
  lemma ModSeven(n: int, q: int, r: int)
    requires n == 7 * q + r && 0 <= r < 7
    ensures n % 7 == r
  {
  }

  lemma SweepHas(start: int, max: int, id: int)
    requires 1 <= start <= 7 && 1 <= id <= max && (id - 1) % 7 == start - 1
    ensures id in SweepIds(start, max)
  {
    var r := SweepIds(start, max);
    var k := (id - 1) / 7;
    assert id == start + 7 * k;
    assert k < |r|;
    assert r[k] == id;
  }

  lemma SweepOnly(start: int, max: int, id: int)
    requires 1 <= start <= 7 && id in SweepIds(start, max)
    ensures (id - 1) % 7 == start - 1
  {
    var r := SweepIds(start, max);
    var j :| 0 <= j < |r| && r[j] == id;
    ModSeven(id - 1, j, start - 1);
  }

  lemma InSweep(start: int, max: int, id: int)
    requires 1 <= start <= 7 && 1 <= id <= max
    ensures id in SweepIds(start, max) <==> (id - 1) % 7 == start - 1
  {
    if (id - 1) % 7 == start - 1 {
      SweepHas(start, max, id);
    }
    if id in SweepIds(start, max) {
      SweepOnly(start, max, id);
    }
  }

  /** Over the seven days of the week, each id 1..max is dispatched on exactly one day. */
  lemma SweepCoversOnce(max: int, id: int)
    requires 1 <= id <= max
    ensures forall dayOfWeek :: 0 <= dayOfWeek <= 6 ==>
      (id in SweepIds(StartHutId(dayOfWeek), max) <==> dayOfWeek == (id - 1) % 7)
  {
    forall dayOfWeek | 0 <= dayOfWeek <= 6
      ensures id in SweepIds(StartHutId(dayOfWeek), max) <==> dayOfWeek == (id - 1) % 7
    {
      InSweep(dayOfWeek + 1, max, id);
    }
  }

  /** Within one day the ids are strictly increasing, so none is dispatched twice. */
  lemma SweepIncreasing(start: int, max: int, j: nat, k: nat)
    requires j < k < |SweepIds(start, max)|
    ensures SweepIds(start, max)[j] < SweepIds(start, max)[k]
  {
  }

  /** `UpdateHutsOrchestrator`: call the activity for start, start + 7, ... up to max, then fan in. */
  method ResidueSweepOrchestrator(startHutId: int, setting: Option<string>) returns (events: seq<Event>)
    ensures events == CallAll(SweepIds(startHutId, MaxHutId(setting))) + [AwaitAll(SweepIds(startHutId, MaxHutId(setting)))]
  {
    events := SweepFanOut(startHutId, MaxHutId(setting));
  }

  /** The fan-out loop and the fan-in, for a maximum already read. */
  method SweepFanOut(startHutId: int, maxHutId: int) returns (events: seq<Event>)
    ensures events == CallAll(SweepIds(startHutId, maxHutId)) + [AwaitAll(SweepIds(startHutId, maxHutId))]
  {
    var tasks: seq<int> := [];
    events := [];
    var i := startHutId;
    while i <= maxHutId
      invariant (i - startHutId) % 7 == 0 && startHutId <= i
      invariant i <= maxHutId + 7 || i == startHutId
      invariant tasks == seq((i - startHutId) / 7, k => startHutId + 7 * k)
      invariant events == CallAll(tasks)
      decreases maxHutId - i
    {
      tasks := tasks + [i];
      events := events + [Call(i)];
      i := i + 7;
    }
    assert tasks == SweepIds(startHutId, maxHutId);
    events := events + [AwaitAll(tasks)];
  }

  // ------------------------------------------- the ContinueAsNew generations

  const ParallelTasks: int := 100
  const LegacyMaxHutId: int := 300

  /** The ids of one generation: start .. start + 99. */
  function GenerationIds(start: int): (r: seq<int>)
    ensures |r| == ParallelTasks && forall k :: 0 <= k < |r| ==> r[k] == start + k
  {
    seq(ParallelTasks, k => start + k)
  }

  /** The start of the next generation, if the chain continues. */
  function NextStart(start: int): (next: Option<int>)
    ensures next.Some? <==> start + ParallelTasks <= LegacyMaxHutId
    ensures next.Some? ==> next.value == start + ParallelTasks
  {
    if start + ParallelTasks <= LegacyMaxHutId then Some(start + ParallelTasks) else None
  }

  /** All ids dispatched by the chain of generations that begins at start. */
  function ChainIds(start: int): seq<int>
    decreases LegacyMaxHutId - start
  {
    var next := NextStart(start);
    GenerationIds(start) + (if next.Some? then ChainIds(next.value) else [])
  }

  function Range(lo: int, n: nat): (r: seq<int>)
    ensures |r| == n && forall k :: 0 <= k < n ==> r[k] == lo + k
  {
    seq(n, k => lo + k)
  }

  /** Started from 1, the chain dispatches 1, 2, ..., 300: each id exactly once, in order, in three generations. */
  lemma ChainFromOne()
    ensures ChainIds(1) == Range(1, 300)
    ensures NextStart(1) == Some(101) && NextStart(101) == Some(201) && NextStart(201).None?
  {
    assert ChainIds(201) == GenerationIds(201);
    assert ChainIds(101) == GenerationIds(101) + GenerationIds(201);
    assert ChainIds(1) == GenerationIds(1) + GenerationIds(101) + GenerationIds(201);
  }

  /** One generation of the legacy `UpdateHutsOrchestrator`: 100 calls, the fan-in, and the next start. */
  method GenerationOrchestrator(startHutId: int) returns (events: seq<Event>, continueAsNew: Option<int>)
    ensures events == CallAll(GenerationIds(startHutId)) + [AwaitAll(GenerationIds(startHutId))]
    ensures continueAsNew == NextStart(startHutId)
  {
    var tasks: seq<int> := [];
    events := [];
    for i := 0 to ParallelTasks
      invariant tasks == seq(i, k => startHutId + k)
      invariant events == CallAll(tasks)
    {
      tasks := tasks + [i + startHutId];
      events := events + [Call(i + startHutId)];
    }
    events := events + [AwaitAll(tasks)];
    var nextStartId := startHutId + ParallelTasks;
    if nextStartId <= LegacyMaxHutId {
      continueAsNew := Some(nextStartId);
    } else {
      continueAsNew := None;
    }
  }

  // ------------------------------------------------- HTTP trigger id lists

  /**
   * What an HTTP trigger answers: `BadRequestObjectResult`, `NotFoundObjectResult`,
   * status 500 (an exception the function does not catch, or `StatusCodeResult(500)`)
   * or `OkObjectResult(body)`.
   */
  datatype Reply<T> = BadRequest | NotFound | ServerError | Ok(body: T)

  /** `string.IsNullOrEmpty` on the query value: such a request is answered with BadRequest. */
  predicate NoIds(query: Option<string>)
  {
    IsNullOrEmpty(query)
  }

  /** The availability triggers: the comma-separated pieces that parse, in order; the others are ignored. */
  function ParsedIds(pieces: seq<string>): (ids: seq<int>)
    ensures |ids| <= |pieces|
    ensures forall k :: 0 <= k < |ids| ==> IsInt32(ids[k])
    decreases |pieces|
  {
    if pieces == [] then []
    else
      var rest := ParsedIds(pieces[1..]);
      match Int32TryParse(pieces[0])
      case Some(v) => [v] + rest
      case None => rest
  }

  /** The ids of a list extended by one piece: that piece's id is appended when it parses. */
  lemma {:induction false} ParsedIdsSnoc(pieces: seq<string>, piece: string)
    ensures ParsedIds(pieces + [piece]) ==
      ParsedIds(pieces) + (if Int32TryParse(piece).Some? then [Int32TryParse(piece).value] else [])
    decreases |pieces|
  {
    if pieces == [] {
      assert [] + [piece] == [piece];
    } else {
      assert (pieces + [piece])[1..] == pieces[1..] + [piece];
      ParsedIdsSnoc(pieces[1..], piece);
    }
  }

  /** The ids of two piece lists one after the other are those of the first, then those of the second. */
  lemma {:induction false} ParsedIdsAppend(a: seq<string>, b: seq<string>)
    ensures ParsedIds(a + b) == ParsedIds(a) + ParsedIds(b)
    decreases |a|
  {
    if a == [] {
      assert a + b == b;
    } else {
      assert (a + b)[1..] == a[1..] + b;
      ParsedIdsAppend(a[1..], b);
    }
  }

  /**
   * Exactly the pieces that parse give an id, in their place among the
   * others: a piece that does not parse is skipped.
   */
  lemma ParsedIdsSpec(pieces: seq<string>)
    ensures forall n :: 0 <= n < |pieces| ==>
      ParsedIds(pieces) == ParsedIds(pieces[..n]) +
        (if Int32TryParse(pieces[n]).Some? then [Int32TryParse(pieces[n]).value] else []) + ParsedIds(pieces[n + 1..])
  {
    forall n | 0 <= n < |pieces|
      ensures ParsedIds(pieces) == ParsedIds(pieces[..n]) +
        (if Int32TryParse(pieces[n]).Some? then [Int32TryParse(pieces[n]).value] else []) + ParsedIds(pieces[n + 1..])
    {
      ParsedIdsAt(pieces, n);
    }
  }

  lemma ParsedIdsAt(pieces: seq<string>, n: nat)
    requires n < |pieces|
    ensures ParsedIds(pieces) == ParsedIds(pieces[..n]) +
      (if Int32TryParse(pieces[n]).Some? then [Int32TryParse(pieces[n]).value] else []) + ParsedIds(pieces[n + 1..])
  {
    assert pieces == pieces[..n] + pieces[n..];
    ParsedIdsAppend(pieces[..n], pieces[n..]);
    assert pieces[n..][1..] == pieces[n + 1..];
  }

  /** The hut triggers: every piece, with `int.TryParse`'s out value 0 for a piece that does not parse. */
  function IdsOrZero(pieces: seq<string>): (ids: seq<int>)
    ensures |ids| == |pieces|
    ensures forall k :: 0 <= k < |ids| ==> ids[k] == Int32TryParse(pieces[k]).GetOr(0)
  {
    seq(|pieces|, k requires 0 <= k < |pieces| => Int32TryParse(pieces[k]).GetOr(0))
  }

  /** The HuettenHoliday trigger: `int.Parse(i) + 10000` over every piece; one bad piece fails the request. */
  function OffsetIds(pieces: seq<string>, offset: int): (ids: Option<seq<int>>)
    ensures ids.Some? ==> |ids.value| == |pieces|
    decreases |pieces|
  {
    if pieces == [] then Some([])
    else
      var rest := OffsetIds(pieces[1..], offset);
      match Int32TryParse(pieces[0])
      case None => None
      case Some(v) => if rest.None? then None else Some([v + offset] + rest.value)
  }

  /** The list is there exactly when every piece parses, and then it holds each parsed id plus the offset. */
  lemma {:induction false} OffsetIdsSpec(pieces: seq<string>, offset: int)
    ensures var ids := OffsetIds(pieces, offset);
      (ids.Some? <==> forall k :: 0 <= k < |pieces| ==> Int32TryParse(pieces[k]).Some?) &&
      (ids.Some? ==> forall k :: 0 <= k < |pieces| ==> ids.value[k] == Int32TryParse(pieces[k]).value + offset)
    decreases |pieces|
  {
    if pieces != [] {
      var tail := pieces[1..];
      OffsetIdsSpec(tail, offset);
      var rest := OffsetIds(tail, offset);
      var ids := OffsetIds(pieces, offset);
      if Int32TryParse(pieces[0]).None? {
        assert ids.None?;
      } else if rest.None? {
        var k :| 0 <= k < |tail| && Int32TryParse(tail[k]).None?;
        assert Int32TryParse(pieces[k + 1]).None?;
      } else {
        forall k | 0 <= k < |pieces|
          ensures Int32TryParse(pieces[k]).Some? && ids.value[k] == Int32TryParse(pieces[k]).value + offset
        {
          if k > 0 {
            assert pieces[k] == tail[k - 1];
          }
        }
      }
    }
  }

  /** An unparsable piece still produces a call, for id 0; a parsable one is dropped by neither trigger. */
  lemma IdListsDiffer(pieces: seq<string>, k: nat)
    requires k < |pieces| && Int32TryParse(pieces[k]).None?
    ensures IdsOrZero(pieces)[k] == 0
    ensures |ParsedIds(pieces)| < |pieces|
  {
    ParsedIdsDrops(pieces, k);
  }

  lemma {:induction false} ParsedIdsDrops(pieces: seq<string>, k: nat)
    requires k < |pieces| && Int32TryParse(pieces[k]).None?
    ensures |ParsedIds(pieces)| < |pieces|
    decreases |pieces|
  {
    if k > 0 {
      ParsedIdsDrops(pieces[1..], k - 1);
    }
  }

  function ShowIds(ids: seq<int>): (pieces: seq<string>)
    ensures |pieces| == |ids| && forall k :: 0 <= k < |ids| ==> pieces[k] == IntToString(ids[k])
  {
    seq(|ids|, k requires 0 <= k < |ids| => IntToString(ids[k]))
  }

  lemma {:induction false} ParsedIdsOfShown(ids: seq<int>)
    requires forall k :: 0 <= k < |ids| ==> IsInt32(ids[k])
    ensures ParsedIds(ShowIds(ids)) == ids
    decreases |ids|
  {
    if ids != [] {
      IntToStringRoundTrip(ids[0]);
      assert ShowIds(ids)[1..] == ShowIds(ids[1..]);
      ParsedIdsOfShown(ids[1..]);
      assert [ids[0]] + ids[1..] == ids;
    }
  }

  lemma IdsOrZeroOfShown(ids: seq<int>)
    requires forall k :: 0 <= k < |ids| ==> IsInt32(ids[k])
    ensures IdsOrZero(ShowIds(ids)) == ids
  {
    forall k | 0 <= k < |ids|
      ensures IdsOrZero(ShowIds(ids))[k] == ids[k]
    {
      IntToStringRoundTrip(ids[k]);
    }
  }

  lemma OffsetIdsOfShown(ids: seq<int>, offset: int)
    requires forall k :: 0 <= k < |ids| ==> IsInt32(ids[k])
    ensures OffsetIds(ShowIds(ids), offset) == Some(seq(|ids|, k requires 0 <= k < |ids| => ids[k] + offset))
  {
    var pieces := ShowIds(ids);
    forall k | 0 <= k < |ids|
      ensures Int32TryParse(pieces[k]) == Some(ids[k])
    {
      IntToStringRoundTrip(ids[k]);
    }
    var r := OffsetIds(pieces, offset);
    var want := seq(|ids|, k requires 0 <= k < |ids| => ids[k] + offset);
    OffsetIdsSpec(pieces, offset);
    assert r.Some?;
    assert |r.value| == |want|;
    assert forall k :: 0 <= k < |ids| ==> r.value[k] == want[k];
    assert r.value == want;
  }

  lemma ShownFree(ids: seq<int>)
    ensures forall k :: 0 <= k < |ids| ==> Free(ShowIds(ids)[k], {','})
  {
    forall k | 0 <= k < |ids|
      ensures Free(ShowIds(ids)[k], {','})
    {
      IntToStringNoComma(ids[k]);
    }
  }

  /**
   * A query written as the comma-joined decimal ids comes back as exactly
   * those ids, under either trigger's rule and under the offset rule.
   */
  lemma IdListRoundTrip(ids: seq<int>)
    requires |ids| >= 1 && forall k :: 0 <= k < |ids| ==> IsInt32(ids[k])
    ensures var pieces := Split(Join(ShowIds(ids), ','), {','});
      ParsedIds(pieces) == ids && IdsOrZero(pieces) == ids &&
      OffsetIds(pieces, 10000) == Some(seq(|ids|, k requires 0 <= k < |ids| => ids[k] + 10000))
    ensures !NoIds(Some(Join(ShowIds(ids), ',')))
  {
    ShownFree(ids);
    SplitJoin(ShowIds(ids), ',');
    ParsedIdsOfShown(ids);
    IdsOrZeroOfShown(ids);
    OffsetIdsOfShown(ids, 10000);
    NatToStringDigits(if ids[0] < 0 then -ids[0] else ids[0]);
    JoinNonEmpty(ShowIds(ids), ',');
  }

  lemma JoinNonEmpty(pieces: seq<string>, sep: char)
    requires |pieces| >= 1 && |pieces[0]| >= 1
    ensures |Join(pieces, sep)| >= 1
  {
  }
}
