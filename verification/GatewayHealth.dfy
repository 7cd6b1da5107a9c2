/**
 Gateway health across two processes: the collector records the outcome of its cycles but throttles the
 writes, and the console judges a gateway by the row and the time alone.  Times are in nanoseconds.
 */
module GatewayHealth {
  import opened Wildcards

  const SECOND := 1_000_000_000
  const HEARTBEAT := 15 * SECOND
  const DOWN_AFTER := 60 * SECOND
  const ERR_MAX := 500

  // ---------------------------------------------------------------- the row

  datatype Health = Health(lastAttemptAt: int, lastSuccessAt: int, lastError: string, lastErrorAt: int,
                           consecutiveFailures: nat)

  /** An upsert: a success leaves the time of the last error alone, a failure that of the last success. */
  function Upsert(row: Option<Health>, failure: Option<string>, fails: nat, at: int): Health {
    var was := if row.Some? then row.value else Health(0, 0, "", 0, 0);
    match failure
    case None => was.(lastAttemptAt := at, lastSuccessAt := at, lastError := "", consecutiveFailures := fails)
    case Some(msg) =>
      was.(lastAttemptAt := at, lastError := if |msg| > ERR_MAX then msg[..ERR_MAX] else msg, lastErrorAt := at,
           consecutiveFailures := fails)
  }

  datatype Verdict = Healthy | Degraded | Down | Unknown

  function Judge(row: Option<Health>, now: int): Verdict {
    if row.None? then Unknown
    else if row.value.lastSuccessAt <= 0 then Down
    else if now - row.value.lastSuccessAt > DOWN_AFTER then Down
    else if row.value.consecutiveFailures > 0 then Degraded
    else Healthy
  }

  // ---------------------------------------------------------------- the collector's memory

  /** What the collector remembers of one gateway; lost when it restarts. */
  datatype Memory = Memory(ok: bool, fails: nat, wrote: int)

  datatype Gateway = Gateway(memory: Option<Memory>, row: Option<Health>)

  /** A cycle is written when its outcome is new or the last write is a heartbeat old. */
  predicate Writes(g: Gateway, ok: bool, now: int) {
    g.memory.None? || g.memory.value.ok != ok || now - g.memory.value.wrote >= HEARTBEAT
  }

  /**
   `failure` is the cycle's error, None for a clean cycle; `stored` whether the database takes the write, if
   there is one.  A write that fails still counts as the last write.
   */
  function AfterCycle(g: Gateway, failure: Option<string>, now: int, stored: bool): Gateway {
    var ok := failure.None?;
    var fails := if ok then 0 else (if g.memory.Some? then g.memory.value.fails else 0) + 1;
    if Writes(g, ok, now) then
      Gateway(Some(Memory(ok, fails, now)), if stored then Some(Upsert(g.row, failure, fails, now)) else g.row)
    else
      Gateway(Some(Memory(ok, fails, g.memory.value.wrote)), g.row)
  }

  class HealthRecorder {
    var healthFails: map<string, nat>
    var healthOk: map<string, bool>
    var healthWrote: map<string, int>
    var rows: map<string, Health>

    constructor ()
      ensures forall name :: View(name) == Gateway(None, None)
      ensures Valid()
    {
      healthFails, healthOk, healthWrote, rows := map[], map[], map[], map[];
    }

    ghost predicate Valid()
      reads this
    {
      healthOk.Keys == healthFails.Keys == healthWrote.Keys
    }

    ghost function View(name: string): Gateway
      reads this
    {
      Seen(healthFails, healthOk, healthWrote, rows, name)
    }

    /**
     Stamps the attempt and the count.  A success also stamps the success and clears the error; a failure
     stamps the error and keeps its text to the limit.  Neither touches the other's date.
     */
    method Record(name: string, failure: Option<string>, fails: nat, at: int)
      modifies this`rows
      ensures rows.Keys == old(rows).Keys + {name} && forall other :: other in old(rows) && other != name ==> rows[other] == old(rows)[other]
      ensures rows[name].lastAttemptAt == at && rows[name].consecutiveFailures == fails
      ensures var was := if name in old(rows) then old(rows)[name] else Health(0, 0, "", 0, 0);
              match failure
              case None => rows[name].lastSuccessAt == at && rows[name].lastError == "" && rows[name].lastErrorAt == was.lastErrorAt
              case Some(msg) =>
                && rows[name].lastErrorAt == at && rows[name].lastSuccessAt == was.lastSuccessAt
                && rows[name].lastError <= msg && |rows[name].lastError| == if |msg| <= 500 then |msg| else 500
    {
      rows := rows[name := Upsert(if name in rows then Some(rows[name]) else None, failure, fails, at)];
    }

    method RecordHealth(name: string, failure: Option<string>, now: int, stored: bool)
      requires Valid()
      modifies this
      ensures Valid() && View(name) == AfterCycle(old(View(name)), failure, now, stored)
      ensures forall other :: other != name ==> View(other) == old(View(other))
    {
      var ok := failure.None?;
      var fails := 0;
      if !ok {
        fails := (if name in healthFails then healthFails[name] else 0) + 1;
      }
      var write := name !in healthOk || healthOk[name] != ok || now - healthWrote[name] >= HEARTBEAT;
      ghost var was := rows;
      if write && stored {
        Record(name, failure, fails, now);
      }
      Recorded(healthFails, healthOk, healthWrote, was, rows, name, failure, fails, now, write, stored);
      if write {
        healthWrote := healthWrote[name := now];
      }
      healthFails, healthOk := healthFails[name := fails], healthOk[name := ok];
    }
  }

  /** What one cycle's updates do to the four maps, seen gateway by gateway. */
  lemma Recorded(f: map<string, nat>, o: map<string, bool>, w: map<string, int>, rows: map<string, Health>,
                 rows': map<string, Health>, name: string, failure: Option<string>, fails: nat, now: int, write: bool, stored: bool)
    requires o.Keys == f.Keys == w.Keys
    requires write == (name !in o || o[name] != failure.None? || now - w[name] >= HEARTBEAT)
    requires fails == if failure.None? then 0 else (if name in f then f[name] else 0) + 1
    requires if write && stored
             then && rows'.Keys == rows.Keys + {name}
                  && rows'[name] == Upsert(if name in rows then Some(rows[name]) else None, failure, fails, now)
                  && forall other :: other in rows && other != name ==> rows'[other] == rows[other]
             else rows' == rows
    ensures var f', o', w' := f[name := fails], o[name := failure.None?], if write then w[name := now] else w;
            && o'.Keys == f'.Keys == w'.Keys
            && Seen(f', o', w', rows', name) == AfterCycle(Seen(f, o, w, rows, name), failure, now, stored)
            && forall other :: other != name ==> Seen(f', o', w', rows', other) == Seen(f, o, w, rows, other)
  {
  }

  function Seen(f: map<string, nat>, o: map<string, bool>, w: map<string, int>, rows: map<string, Health>, name: string): Gateway {
    Gateway(if name in o && name in f && name in w then Some(Memory(o[name], f[name], w[name])) else None,
            if name in rows then Some(rows[name]) else None)
  }

  // ---------------------------------------------------------------- whole histories

  datatype Event = Cycle(failure: Option<string>, at: int, stored: bool) | Restart

  function After(events: seq<Event>): Gateway {
    if events == [] then Gateway(None, None)
    else
      var g := After(events[..|events| - 1]);
      match events[|events| - 1]
      case Cycle(failure, at, stored) => AfterCycle(g, failure, at, stored)
      case Restart => g.(memory := None)
  }

  /** Index of the last cycle. */
  function LastCycle(events: seq<Event>): (i: int)
    ensures -1 <= i < |events|
    ensures i >= 0 ==> events[i].Cycle?
    ensures forall j :: i < j < |events| ==> events[j].Restart?
  {
    if events == [] then -1
    else if events[|events| - 1].Cycle? then |events| - 1
    else LastCycle(events[..|events| - 1])
  }

  /** Index of the last cycle with the given outcome. */
  function LastWith(events: seq<Event>, ok: bool): (i: int)
    ensures -1 <= i < |events|
    ensures i >= 0 ==> events[i].Cycle? && events[i].failure.None? == ok
    ensures forall j :: i < j < |events| && events[j].Cycle? ==> events[j].failure.None? != ok
  {
    if events == [] then -1
    else
      var e := events[|events| - 1];
      if e.Cycle? && e.failure.None? == ok then |events| - 1 else LastWith(events[..|events| - 1], ok)
  }

  /** How many cycles have failed in a row, as far as the collector can remember. */
  function Streak(events: seq<Event>): nat {
    if events == [] || events[|events| - 1].Restart? || events[|events| - 1].failure.None? then 0
    else Streak(events[..|events| - 1]) + 1
  }

  /** Whether the last write that was attempted got through. */
  predicate LastWriteStored(events: seq<Event>) {
    if events == [] then true
    else
      var init := events[..|events| - 1];
      match events[|events| - 1]
      case Cycle(failure, at, stored) => if Writes(After(init), failure.None?, at) then stored else LastWriteStored(init)
      case Restart => LastWriteStored(init)
  }

  /** The clock is past the epoch and never goes back. */
  ghost predicate ClockRuns(events: seq<Event>) {
    && (forall i :: 0 <= i < |events| && events[i].Cycle? ==> events[i].at > 0)
    && (forall i, j :: 0 <= i < j < |events| && events[i].Cycle? && events[j].Cycle? ==> events[i].at <= events[j].at)
  }

  /** Less than one heartbeat behind. */
  predicate Recent(stamp: int, at: int) {
    at - HEARTBEAT < stamp <= at && stamp > 0
  }

  /** The row tells the last cycle's outcome and is less than one heartbeat behind. */
  ghost predicate InStep(g: Gateway, ok: bool, at: int) {
    && g.row.Some? && Recent(g.row.value.lastAttemptAt, at)
    && (ok ==> g.row.value.consecutiveFailures == 0 && g.row.value.lastSuccessAt == g.row.value.lastAttemptAt
               && g.row.value.lastError == "")
    && (!ok ==> g.row.value.consecutiveFailures > 0 && g.row.value.lastErrorAt == g.row.value.lastAttemptAt)
    && (g.memory.Some? ==> g.memory.value.wrote == g.row.value.lastAttemptAt)
  }

  lemma {:induction false} MemoryCounts(events: seq<Event>)
    ensures var m := After(events).memory; var i := LastCycle(events);
            m.Some? ==> i >= 0 && m.value.ok == events[i].failure.None? && m.value.fails == Streak(events)
    ensures After(events).memory.None? ==> Streak(events) == 0
  {
    if events != [] {
      MemoryCounts(events[..|events| - 1]);
    }
  }

  lemma {:induction false} RowKeepsStep(events: seq<Event>)
    requires ClockRuns(events) && LastWriteStored(events)
    ensures var i := LastCycle(events); i >= 0 ==> InStep(After(events), events[i].failure.None?, events[i].at)
  {
    if events != [] {
      var n := |events| - 1;
      var init := events[..n];
      assert forall i :: 0 <= i < n ==> init[i] == events[i];
      MemoryCounts(init);
      if events[n].Restart? || !Writes(After(init), events[n].failure.None?, events[n].at) {
        RowKeepsStep(init);
      }
    }
  }

  // ---------------------------------------------------------------- exactly what the console shows

  /** The cycle is written and the write gets through. */
  predicate Lands(g: Gateway, e: Event) {
    e.Cycle? && e.stored && Writes(g, e.failure.None?, e.at)
  }

  /** Index of the last cycle whose write got through. */
  function LastStored(events: seq<Event>): (i: int)
    ensures -1 <= i < |events|
    ensures i >= 0 ==> events[i].Cycle?
  {
    if events == [] then -1
    else
      var init := events[..|events| - 1];
      if Lands(After(init), events[|events| - 1]) then |events| - 1 else LastStored(init)
  }

  /** Index of the last successful one. */
  function LastStoredSuccess(events: seq<Event>): (i: int)
    ensures -1 <= i <= LastStored(events)
    ensures i >= 0 ==> events[i].Cycle? && events[i].failure.None?
  {
    if events == [] then -1
    else
      var init, e := events[..|events| - 1], events[|events| - 1];
      if Lands(After(init), e) && e.failure.None? then |events| - 1 else LastStoredSuccess(init)
  }

  /** The row is what the last stored cycle and the last stored success have made it. */
  lemma {:induction false} RowIsLastStored(events: seq<Event>)
    ensures var row, s, g := After(events).row, LastStored(events), LastStoredSuccess(events);
            && (row.None? <==> s < 0)
            && (row.Some? ==> && row.value.lastAttemptAt == events[s].at
                              && (row.value.consecutiveFailures == 0 <==> events[s].failure.None?)
                              && row.value.lastSuccessAt == if g < 0 then 0 else events[g].at)
  {
    if events != [] {
      RowIsLastStored(events[..|events| - 1]);
    }
  }

  /** The row counts the failures in a row up to the last stored cycle, and keeps what it said. */
  lemma {:induction false} RowCountsStreak(events: seq<Event>)
    ensures var row, s := After(events).row, LastStored(events);
            row.Some? ==> && s >= 0 && row.value.consecutiveFailures == Streak(events[..s + 1])
                          && row.value.lastError <= (if events[s].failure.Some? then events[s].failure.value else "")
  {
    if events != [] {
      var init, e := events[..|events| - 1], events[|events| - 1];
      RowCountsStreak(init);
      MemoryCounts(init);
      var s := LastStored(init);
      if Lands(After(init), e) {
        assert events[..|events|] == events;
      } else if s >= 0 {
        assert init[..s + 1] == events[..s + 1];
      }
    }
  }

  /**
   Exactly what is shown after any history, failed writes and restarts included: it is decided by the last cycle
   whose write got through and the last successful one of these.
   */
  lemma VerdictExactly(events: seq<Event>, now: int)
    requires ClockRuns(events)
    ensures var s, g := LastStored(events), LastStoredSuccess(events);
            Judge(After(events).row, now) ==
              if s < 0 then Unknown
              else if g < 0 || now - events[g].at > 60_000_000_000 then Down
              else if events[s].failure.Some? then Degraded
              else Healthy
  {
    RowIsLastStored(events);
  }

  lemma {:induction false} StoredSuccessIsLast(events: seq<Event>)
    ensures var s := LastStored(events); s >= 0 && events[s].failure.None? ==> LastStoredSuccess(events) == s
  {
    if events != [] {
      StoredSuccessIsLast(events[..|events| - 1]);
    }
  }

  /** A stored success is on the row and not yet too old. */
  predicate ShowsSuccess(events: seq<Event>, now: int) {
    var s := LastStored(events);
    s >= 0 && events[s].failure.None? && now <= events[s].at + DOWN_AFTER
  }

  /**
   So the console says healthy if and only if the last write that got through told of a success at most a minute
   ago, and it is right about the last cycle if and only if that is the case just when the cycle succeeded.
   */
  lemma HealthyExactly(events: seq<Event>, now: int)
    requires ClockRuns(events)
    ensures Judge(After(events).row, now) == Healthy <==> ShowsSuccess(events, now)
    ensures var last := LastCycle(events);
            last >= 0 ==> ((Judge(After(events).row, now) == Healthy <==> events[last].failure.None?) <==>
                           (ShowsSuccess(events, now) <==> events[last].failure.None?))
  {
    VerdictExactly(events, now);
    StoredSuccessIsLast(events);
  }

  /**
   As long as the last cycle ended no more than 45 seconds (and one nanosecond) ago and the last write got
   through, the console says healthy exactly when that cycle succeeded, however many writes the throttle has
   swallowed and however often the collector has restarted.
   */
  lemma ConsoleTellsTheTruth(events: seq<Event>, now: int)
    requires ClockRuns(events) && LastCycle(events) >= 0 && LastWriteStored(events)
    requires var last := events[LastCycle(events)]; last.at <= now <= last.at + 45_000_000_001
    ensures Judge(After(events).row, now) == Healthy <==> events[LastCycle(events)].failure.None?
  {
    RowKeepsStep(events);
  }

  /** One nanosecond more and a healthy gateway can be shown as down. */
  lemma BoundIsTight(t: int)
    requires t > 0
    ensures var events := [Cycle(None, t, true), Cycle(None, t + HEARTBEAT - 1, true)];
            && ClockRuns(events) && LastCycle(events) == 1 && LastWriteStored(events)
            && Judge(After(events).row, events[1].at + 45_000_000_002) == Down
  {
    var a, b := Cycle(None, t, true), Cycle(None, t + HEARTBEAT - 1, true);
    assert [a, b][..1] == [a] && [a][..0] == [];
    assert After([a]) == AfterCycle(Gateway(None, None), None, t, true) && LastWriteStored([a]);
    assert After([a, b]) == AfterCycle(After([a]), None, b.at, true);
  }

  /** A failed write is not tried again for a heartbeat: meanwhile a gateway that has stopped answering looks healthy. */
  lemma FailedWriteHidesAFailure(t: int, msg: string, now: int)
    requires 0 < t <= now <= t + DOWN_AFTER
    ensures var events := [Cycle(None, t, true), Cycle(Some(msg), t, false)];
            && ClockRuns(events) && LastCycle(events) == 1 && !LastWriteStored(events)
            && Judge(After(events).row, now) == Healthy
  {
    var a, b := Cycle(None, t, true), Cycle(Some(msg), t, false);
    assert [a, b][..1] == [a] && [a][..0] == [];
    assert After([a]) == AfterCycle(Gateway(None, None), None, t, true) && LastWriteStored([a]);
    assert After([a, b]) == AfterCycle(After([a]), Some(msg), t, false);
  }

  /** A gateway that keeps failing is never shown as healthy again, no matter how much later one looks. */
  lemma FailureIsNeverHidden(events: seq<Event>, now: int)
    requires ClockRuns(events) && LastCycle(events) >= 0 && events[LastCycle(events)].failure.Some? && LastWriteStored(events)
    ensures Judge(After(events).row, now) in {Degraded, Down}
  {
    RowKeepsStep(events);
  }

  // ---------------------------------------------------------------- both dates

  ghost predicate Dates(stamp: int, events: seq<Event>, ok: bool) {
    var i := LastWith(events, ok);
    if i < 0 then stamp == 0 else Recent(stamp, events[i].at)
  }

  ghost predicate AllStored(events: seq<Event>) {
    forall i :: 0 <= i < |events| && events[i].Cycle? ==> events[i].stored
  }

  function Stamp(row: Option<Health>, ok: bool): int {
    if row.None? then 0 else if ok then row.value.lastSuccessAt else row.value.lastErrorAt
  }

  lemma DatesSnoc(stamp: int, init: seq<Event>, e: Event, ok: bool)
    requires Dates(stamp, init, ok) && !(e.Cycle? && e.failure.None? == ok)
    ensures Dates(stamp, init + [e], ok)
  {
    assert (init + [e])[..|init|] == init;
    assert LastWith(init + [e], ok) == LastWith(init, ok);
  }

  lemma DatesNow(stamp: int, init: seq<Event>, e: Event)
    requires e.Cycle? && Recent(stamp, e.at)
    ensures Dates(stamp, init + [e], e.failure.None?) && LastWith(init + [e], e.failure.None?) == |init|
  {
  }

  /** A cycle leaves the date of its own outcome recent and the other alone. */
  lemma CycleDates(init: seq<Event>, e: Event)
    requires e.Cycle? && e.stored && ClockRuns(init + [e])
    requires forall ok :: Dates(Stamp(After(init).row, ok), init, ok)
    requires var m := After(init).memory;
             m.Some? ==> m.value.wrote == Stamp(After(init).row, m.value.ok) && LastWith(init, m.value.ok) >= 0
    ensures var g := AfterCycle(After(init), e.failure, e.at, e.stored); var ok := e.failure.None?;
            && Recent(Stamp(g.row, ok), e.at) && Stamp(g.row, !ok) == Stamp(After(init).row, !ok)
            && g.memory.value.ok == ok && g.memory.value.wrote == Stamp(g.row, ok)
  {
    var g, ok := After(init), e.failure.None?;
    assert (init + [e])[|init|] == e;
    if !Writes(g, ok, e.at) {
      var i := LastWith(init, ok);
      assert (init + [e])[i] == init[i] && init[i].at <= e.at;
    }
  }

  /**
   With every write stored, the row dates the last success and the last failure, whichever came later, each
   to within one heartbeat.
   */
  lemma {:induction false} RowDatesBothOutcomes(events: seq<Event>)
    requires ClockRuns(events) && AllStored(events)
    ensures forall ok :: Dates(Stamp(After(events).row, ok), events, ok)
    ensures var m := After(events).memory;
            m.Some? ==> m.value.wrote == Stamp(After(events).row, m.value.ok) && LastWith(events, m.value.ok) >= 0
  {
    if events != [] {
      var n := |events| - 1;
      var init, e := events[..n], events[n];
      assert events == init + [e];
      RowDatesBothOutcomes(init);
      if e.Cycle? {
        var ok := e.failure.None?;
        CycleDates(init, e);
        DatesNow(Stamp(After(events).row, ok), init, e);
        DatesSnoc(Stamp(After(init).row, !ok), init, e, !ok);
      } else {
        DatesSnoc(Stamp(After(init).row, true), init, e, true);
        DatesSnoc(Stamp(After(init).row, false), init, e, false);
      }
    }
  }

  lemma {:induction false} AllStoredLastStored(events: seq<Event>)
    requires AllStored(events)
    ensures LastWriteStored(events)
    ensures LastCycle(events) < 0 ==> After(events).row == None
  {
    if events != [] {
      AllStoredLastStored(events[..|events| - 1]);
    }
  }

  /**
   The verdict by history: unknown before the first cycle, down without a success in the last minute, and
   within 45 seconds of a success healthy or degraded by how the last cycle ended.
   */
  lemma VerdictByHistory(events: seq<Event>, now: int)
    requires ClockRuns(events) && AllStored(events)
    ensures var verdict := Judge(After(events).row, now); var i, s := LastCycle(events), LastWith(events, true);
            && (i < 0 ==> verdict == Unknown)
            && (i >= 0 && (s < 0 || now > events[s].at + DOWN_AFTER) ==> verdict == Down)
            && (i >= 0 && s >= 0 && now <= events[s].at + DOWN_AFTER - HEARTBEAT + 1 ==>
                  verdict == if events[i].failure.None? then Healthy else Degraded)
  {
    AllStoredLastStored(events);
    RowDatesBothOutcomes(events);
    RowKeepsStep(events);
    assert Dates(Stamp(After(events).row, true), events, true);
  }
}
