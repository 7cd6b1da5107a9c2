/**
 Key deletion as a two-system saga with several operators at work: each ScheduleKeyDeletion and
 CancelKeyDeletion is cut at its reads, backend calls and row writes, and the pieces interleave freely with
 each other and with the rest of the CA lifecycle.  An operator's process may die between any two of them.
 */
module KeyDeletion {
  import opened Text
  import opened Wildcards
  import opened CaLifecycle
  import opened CaRegistry

  /** How far an operation in flight has got. */
  datatype Flight =
    | MayAsk(id: nat)        // schedule: the row was retired, unscheduled and undepended-on when read
    | MustRecord(id: nat)    // schedule: the backend accepted, the row is not written yet
    | MustUndo(id: nat)      // schedule: the row write failed, the backend call is to be taken back
    | MayCancel(id: nat)     // cancel: the row was scheduled when read
    | MustForget(id: nat)    // cancel: the backend accepted, the row is not cleared yet

  /**
   `pending` is what the backend will destroy.  The rest of the sets are history: `alarmed` the keys for which
   some call reported ROLLBACK FAILED, `unanswered` those whose schedule request took effect although the
   caller saw an error, `crashed` those an operator's process died holding, and `halfCancelled` those a cancel
   restored without clearing the row.
   */
  datatype World = World(table: Table, pending: set<string>, alarmed: set<string>, unanswered: set<string>,
                         crashed: set<string>, halfCancelled: set<string>, flights: map<nat, Flight>)

  const START := World(EMPTY, {}, {}, {}, {}, {}, map[])

  datatype Action =
    | Lifecycle(e: Event)
    | CheckSchedule(p: nat, id: nat, dependents: nat)
    | AskSchedule(p: nat, reply: Reply)
    | WriteSchedule(p: nat, now: int, date: int, ok: bool)
    | AskUndo(p: nat, reply: Reply)
    | CheckCancel(p: nat, id: nat)
    | AskCancel(p: nat, reply: Reply)
    | WriteCancel(p: nat, ok: bool)
    | Crash(p: nat)

  predicate Recorded(w: World, id: nat) {
    id in w.table.rows && w.table.rows[id].keyDeletionScheduledAt != 0
  }

  predicate KeyOf(w: World, id: nat, k: string) {
    id in w.table.rows && w.table.rows[id].kmsKeyId == k
  }

  predicate Cancels(f: Flight, id: nat) {
    (f.MayCancel? || f.MustForget?) && f.id == id
  }

  predicate Holding(f: Flight) {
    f.MustRecord? || f.MustUndo?
  }

  function Land(w: World, p: nat): World {
    w.(flights := w.flights - {p})
  }

  function Go(w: World, p: nat, f: Flight): World {
    w.(flights := w.flights[p := f])
  }

  function WriteRow(w: World, id: nat, at: int, date: int): World
    requires id in w.table.rows
  {
    w.(table := w.table.(rows := w.table.rows[id := w.table.rows[id].(keyDeletionScheduledAt := at, keyDeletionDate := date)]))
  }

  /** The flight's own key; the backend schedules only a key that is not pending, and cancels only one that is. */
  ghost predicate Flying(w: World, p: nat, k: string) {
    p in w.flights && KeyOf(w, w.flights[p].id, k)
  }

  function Scheduled(w: World, p: nat, id: nat, k: string, reply: Reply): World {
    match reply
    case Accepted => Go(w, p, MustRecord(id)).(pending := w.pending + {k})
    case Refused => Land(w, p)
    case LostReply => Land(w, p).(pending := w.pending + {k}, unanswered := w.unanswered + {k})
  }

  function Undone(w: World, p: nat, k: string, reply: Reply): World {
    match reply
    case Accepted => Land(w, p).(pending := w.pending - {k})
    case Refused => Land(w, p).(alarmed := w.alarmed + {k})
    case LostReply => Land(w, p).(pending := w.pending - {k}, alarmed := w.alarmed + {k})
  }

  function Cancelled(w: World, p: nat, id: nat, k: string, reply: Reply): World {
    match reply
    case Accepted => Go(w, p, MustForget(id)).(pending := w.pending - {k})
    case Refused => Land(w, p)
    case LostReply => Land(w, p).(pending := w.pending - {k}, halfCancelled := w.halfCancelled + {k})
  }

  function Died(w: World, p: nat, f: Flight, k: string): World {
    Land(w, p).(crashed := if Holding(f) then w.crashed + {k} else w.crashed,
                halfCancelled := if f.MustForget? then w.halfCancelled + {k} else w.halfCancelled)
  }

  ghost predicate Step(w: World, a: Action, w': World) {
    match a
    case Lifecycle(e) =>
      && CaLifecycle.Step(w.table, e, w'.table) && w' == w.(table := w'.table)
      && (e.Annotate? ==> e.row.keyDeletionScheduledAt == w.table.rows[e.id].keyDeletionScheduledAt)
      && (e.Insert? ==> e.row.keyDeletionScheduledAt == 0)
    case CheckSchedule(p, id, dependents) =>
      && p !in w.flights && InState(w.table, id, Retired) && !Recorded(w, id) && dependents == 0
      && TrimSpace(w.table.rows[id].kmsKeyId) != ""
      && w' == Go(w, p, MayAsk(id))
    case AskSchedule(p, reply) =>
      && p in w.flights && w.flights[p].MayAsk? && w.flights[p].id in w.table.rows
      && var id := w.flights[p].id; var k := w.table.rows[id].kmsKeyId;
         (reply != Refused ==> k !in w.pending) && w' == Scheduled(w, p, id, k, reply)
    case WriteSchedule(p, now, date, ok) =>
      && p in w.flights && w.flights[p].MustRecord? && w.flights[p].id in w.table.rows && now != 0
      && var id := w.flights[p].id;
         w' == if ok && InState(w.table, id, Retired) && !Recorded(w, id) then Land(WriteRow(w, id, now, date), p)
               else Go(w, p, MustUndo(id))
    case AskUndo(p, reply) =>
      && p in w.flights && w.flights[p].MustUndo? && w.flights[p].id in w.table.rows
      && var k := w.table.rows[w.flights[p].id].kmsKeyId;
         (reply != Refused ==> k in w.pending) && w' == Undone(w, p, k, reply)
    case CheckCancel(p, id) =>
      p !in w.flights && Recorded(w, id) && w' == Go(w, p, MayCancel(id))
    case AskCancel(p, reply) =>
      && p in w.flights && w.flights[p].MayCancel? && w.flights[p].id in w.table.rows
      && var id := w.flights[p].id; var k := w.table.rows[id].kmsKeyId;
         (reply != Refused ==> k in w.pending) && w' == Cancelled(w, p, id, k, reply)
    case WriteCancel(p, ok) =>
      && p in w.flights && w.flights[p].MustForget? && w.flights[p].id in w.table.rows
      && var id := w.flights[p].id;
         w' == if ok then Land(WriteRow(w, id, 0, 0), p)
               else Land(w, p).(halfCancelled := w.halfCancelled + {w.table.rows[id].kmsKeyId})
    case Crash(p) =>
      && p in w.flights && w.flights[p].id in w.table.rows
      && w' == Died(w, p, w.flights[p], w.table.rows[w.flights[p].id].kmsKeyId)
  }

  // ---------------------------------------------------------------- rows and flights

  /** Rows keep their key, their retirement and (but for the two row writes) their record. */
  lemma RowsPersist(w: World, a: Action, w': World, id: nat)
    requires CaLifecycle.Inv(w.table) && Step(w, a, w') && id in w.table.rows
    ensures id in w'.table.rows && w'.table.rows[id].kmsKeyId == w.table.rows[id].kmsKeyId
    ensures InState(w.table, id, Retired) ==> InState(w'.table, id, Retired)
    ensures !(a.WriteSchedule? || a.WriteCancel?) ==> (Recorded(w', id) <==> Recorded(w, id))
  {
    if a.Lifecycle? {
      StepMovesAlongEdges(w.table, a.e, w'.table, id);
    }
  }

  lemma StepKeepsTable(w: World, a: Action, w': World)
    requires CaLifecycle.Inv(w.table) && Step(w, a, w')
    ensures CaLifecycle.Inv(w'.table)
  {
    if a.Lifecycle? {
      StepKeepsInv(w.table, a.e, w'.table);
    } else if w'.table != w.table {
      var id := w.flights[a.p].id;
      StepKeepsInv(w.table, Annotate(id, w'.table.rows[id]), w'.table);
    }
  }

  /** A flight's CA exists, and is retired if the flight schedules. */
  ghost predicate FlightSane(t: Table, f: Flight) {
    f.id in t.rows && (f.MayCancel? || f.MustForget? || InState(t, f.id, Retired))
  }

  ghost predicate FlightsSane(w: World) {
    forall p :: p in w.flights ==> FlightSane(w.table, w.flights[p])
  }

  /** What a flight was before, if it is not new. */
  lemma FlightBefore(w: World, a: Action, w': World, p: nat)
    requires Step(w, a, w') && p in w'.flights && p in w.flights
    ensures w'.flights[p].id == w.flights[p].id
    ensures (w'.flights[p].MayCancel? || w'.flights[p].MustForget?) <==> (w.flights[p].MayCancel? || w.flights[p].MustForget?)
  {
  }

  lemma StepKeepsFlights(w: World, a: Action, w': World)
    requires CaLifecycle.Inv(w.table) && FlightsSane(w) && Step(w, a, w')
    ensures FlightsSane(w')
  {
    forall p | p in w'.flights ensures FlightSane(w'.table, w'.flights[p]) {
      if p in w.flights {
        FlightBefore(w, a, w', p);
        RowsPersist(w, a, w', w.flights[p].id);
      }
    }
  }

  ghost predicate RecordsSane(w: World) {
    && (forall id: nat :: Recorded(w, id) ==> InState(w.table, id, Retired))
    && (forall k :: k in w.pending ==> exists id: nat :: KeyOf(w, id, k) && InState(w.table, id, Retired))
  }

  lemma RecordIsRetired(w: World, a: Action, w': World, id: nat)
    requires CaLifecycle.Inv(w.table) && FlightsSane(w) && RecordsSane(w) && Step(w, a, w') && Recorded(w', id)
    ensures InState(w'.table, id, Retired)
  {
    if id in w.table.rows {
      RowsPersist(w, a, w', id);
    }
  }

  lemma PendingIsOwned(w: World, a: Action, w': World, k: string)
    requires CaLifecycle.Inv(w.table) && FlightsSane(w) && RecordsSane(w) && Step(w, a, w') && k in w'.pending
    ensures exists id: nat :: KeyOf(w', id, k) && InState(w'.table, id, Retired)
  {
    if k in w.pending {
      var id: nat :| KeyOf(w, id, k) && InState(w.table, id, Retired);
      RowsPersist(w, a, w', id);
      assert KeyOf(w', id, k);
    } else {
      assert KeyOf(w', w.flights[a.p].id, k);
    }
  }

  lemma StepKeepsRecords(w: World, a: Action, w': World)
    requires CaLifecycle.Inv(w.table) && FlightsSane(w) && RecordsSane(w) && Step(w, a, w')
    ensures RecordsSane(w')
  {
    forall id: nat | Recorded(w', id) ensures InState(w'.table, id, Retired) {
      RecordIsRetired(w, a, w', id);
    }
    forall k | k in w'.pending ensures exists id: nat :: KeyOf(w', id, k) && InState(w'.table, id, Retired) {
      PendingIsOwned(w, a, w', k);
    }
  }

  // ---------------------------------------------------------------- the balance of a key

  /** Schedules that have the key in hand, cancels past the backend, and rows that record the key. */
  ghost function Hands(w: World, k: string): set<nat> {
    set p | p in w.flights && Holding(w.flights[p]) && KeyOf(w, w.flights[p].id, k)
  }

  ghost function Forgets(w: World, k: string): set<nat> {
    set p | p in w.flights && w.flights[p].MustForget? && KeyOf(w, w.flights[p].id, k)
  }

  ghost function Records(w: World, k: string): set<nat> {
    set id | id in w.table.rows && KeyOf(w, id, k) && Recorded(w, id)
  }

  function Pending(w: World, k: string): nat {
    if k in w.pending then 1 else 0
  }

  /** What answers for the key, less what has to be answered for. */
  ghost function Balance(w: World, k: string): int {
    |Hands(w, k)| + |Records(w, k)| - Pending(w, k) - |Forgets(w, k)|
  }

  ghost predicate Excused(w: World, k: string) {
    k in w.alarmed || k in w.unanswered || k in w.crashed
  }

  lemma Plus(s: set<nat>, x: nat, t: set<nat>)
    requires x !in s && t == s + {x}
    ensures |t| == |s| + 1
  {
  }

  /** What a flight's own step does to the three sets is decided by the flight it becomes, if any. */
  lemma FlightSets(w: World, w': World, p: nat, k: string)
    requires FlightsSane(w) && w'.table == w.table && w'.flights - {p} == w.flights - {p}
    ensures Records(w', k) == Records(w, k)
    ensures Hands(w', k) - {p} == Hands(w, k) - {p} && Forgets(w', k) - {p} == Forgets(w, k) - {p}
  {
    forall q | q != p ensures q in w'.flights <==> q in w.flights
                      ensures q in w.flights ==> w'.flights[q] == w.flights[q]
    {
      assert q in w.flights - {p} <==> q in w.flights;
      assert q in w'.flights - {p} <==> q in w'.flights;
      if q in w.flights {
        assert (w'.flights - {p})[q] == (w.flights - {p})[q];
      }
    }
  }

  function Weight(b: bool): nat {
    if b then 1 else 0
  }

  lemma SizeWithout(s: set<nat>, t: set<nat>, p: nat)
    requires s - {p} == t - {p}
    ensures |s| + Weight(p in t) == |t| + Weight(p in s)
  {
    if p in s {
      Plus(s - {p}, p, s);
    } else {
      assert s - {p} == s;
    }
    if p in t {
      Plus(t - {p}, p, t);
    } else {
      assert t - {p} == t;
    }
  }

  ghost predicate InHandAt(w: World, p: nat, k: string) {
    p in w.flights && Holding(w.flights[p]) && KeyOf(w, w.flights[p].id, k)
  }

  ghost predicate ForgetsAt(w: World, p: nat, k: string) {
    p in w.flights && w.flights[p].MustForget? && KeyOf(w, w.flights[p].id, k)
  }

  /** The balance moves only by what the one flight did, when no row changed. */
  lemma FlightBalance(w: World, w': World, p: nat, k: string)
    requires FlightsSane(w) && w'.table == w.table && w'.flights - {p} == w.flights - {p}
    ensures |Records(w', k)| == |Records(w, k)|
    ensures |Hands(w', k)| + Weight(InHandAt(w, p, k)) == |Hands(w, k)| + Weight(InHandAt(w', p, k))
    ensures |Forgets(w', k)| + Weight(ForgetsAt(w, p, k)) == |Forgets(w, k)| + Weight(ForgetsAt(w', p, k))
  {
    FlightSets(w, w', p, k);
    SizeWithout(Hands(w', k), Hands(w, k), p);
    SizeWithout(Forgets(w', k), Forgets(w, k), p);
    assert (p in Hands(w, k) <==> InHandAt(w, p, k)) && (p in Hands(w', k) <==> InHandAt(w', p, k));
    assert (p in Forgets(w, k) <==> ForgetsAt(w, p, k)) && (p in Forgets(w', k) <==> ForgetsAt(w', p, k));
  }

  lemma RowSets(w: World, id: nat, at: int, date: int, k: string)
    requires id in w.table.rows
    ensures var w' := WriteRow(w, id, at, date);
            && Hands(w', k) == Hands(w, k) && Forgets(w', k) == Forgets(w, k)
            && Records(w', k) - {id} == Records(w, k) - {id}
            && (id in Records(w', k) <==> KeyOf(w, id, k) && at != 0)
  {
    var w' := WriteRow(w, id, at, date);
    assert forall j: nat :: KeyOf(w', j, k) <==> KeyOf(w, j, k);
  }

  /** A row write lands its flight and changes at most that row's record. */
  lemma RowBalance(w: World, p: nat, id: nat, at: int, date: int, k: string)
    requires FlightsSane(w) && p in w.flights && w.flights[p].id == id
    ensures var w' := Land(WriteRow(w, id, at, date), p);
            && |Hands(w', k)| + Weight(InHandAt(w, p, k)) == |Hands(w, k)|
            && |Forgets(w', k)| + Weight(ForgetsAt(w, p, k)) == |Forgets(w, k)|
            && |Records(w', k)| + Weight(KeyOf(w, id, k) && Recorded(w, id))
               == |Records(w, k)| + Weight(KeyOf(w, id, k) && at != 0)
  {
    var mid := Land(w, p);
    FlightBalance(w, mid, p, k);
    RowSets(mid, id, at, date, k);
    SizeWithout(Records(WriteRow(mid, id, at, date), k), Records(mid, k), id);
    assert Land(WriteRow(w, id, at, date), p) == WriteRow(mid, id, at, date);
  }

  lemma OtherTableBalance(w: World, e: Event, w': World, k: string)
    requires CaLifecycle.Inv(w.table) && FlightsSane(w) && Step(w, Lifecycle(e), w')
    ensures Hands(w', k) == Hands(w, k) && Forgets(w', k) == Forgets(w, k) && Records(w', k) == Records(w, k)
  {
    forall id: nat ensures id in w.table.rows ==> (KeyOf(w', id, k) <==> KeyOf(w, id, k)) && (Recorded(w', id) <==> Recorded(w, id))
                   ensures id !in w.table.rows ==> !Recorded(w', id)
    {
      if id in w.table.rows {
        RowsPersist(w, Lifecycle(e), w', id);
      }
    }
  }

  /** How a step moves the balance: down when it lets go of a key, up when a cancel does not clear a record. */
  ghost function Shift(w: World, a: Action, k: string): int {
    match a
    case AskSchedule(p, reply) => if reply == LostReply && Flying(w, p, k) then -1 else 0
    case AskUndo(p, reply) => if reply == Refused && Flying(w, p, k) then -1 else 0
    case AskCancel(p, reply) => if reply == LostReply && Flying(w, p, k) then 1 else 0
    case WriteCancel(p, ok) => if Flying(w, p, k) && !(ok && Recorded(w, w.flights[p].id)) then 1 else 0
    case Crash(p) => if InHandAt(w, p, k) then -1 else if ForgetsAt(w, p, k) then 1 else 0
    case _ => 0
  }

  lemma RowWriteShifts(w: World, a: Action, w': World, k: string)
    requires FlightsSane(w) && Step(w, a, w') && (a.WriteSchedule? || a.WriteCancel?)
    ensures Balance(w', k) == Balance(w, k) + Shift(w, a, k)
  {
    var p := a.p;
    if a.WriteSchedule? && w' == Go(w, p, MustUndo(w.flights[p].id)) {
      FlightBalance(w, w', p, k);
    } else if a.WriteSchedule? {
      RowBalance(w, p, w.flights[p].id, a.now, a.date, k);
    } else if a.ok {
      RowBalance(w, p, w.flights[p].id, 0, 0, k);
    } else {
      FlightBalance(w, w', p, k);
    }
  }

  lemma AskShifts(w: World, a: Action, w': World, k: string)
    requires FlightsSane(w) && Step(w, a, w') && (a.AskSchedule? || a.AskUndo?)
    ensures Balance(w', k) == Balance(w, k) + Shift(w, a, k)
  {
    FlightBalance(w, w', a.p, k);
  }

  lemma CancelShifts(w: World, a: Action, w': World, k: string)
    requires FlightsSane(w) && Step(w, a, w') && a.AskCancel?
    ensures Balance(w', k) == Balance(w, k) + Shift(w, a, k)
  {
    FlightBalance(w, w', a.p, k);
  }

  lemma OtherShifts(w: World, a: Action, w': World, k: string)
    requires FlightsSane(w) && Step(w, a, w') && (a.CheckSchedule? || a.CheckCancel? || a.Crash?)
    ensures Balance(w', k) == Balance(w, k) + Shift(w, a, k)
  {
    FlightBalance(w, w', a.p, k);
  }

  /** The conservation law of the saga, for every step of every operator. */
  lemma BalanceShifts(w: World, a: Action, w': World, k: string)
    requires CaLifecycle.Inv(w.table) && FlightsSane(w) && Step(w, a, w')
    ensures Balance(w', k) == Balance(w, k) + Shift(w, a, k)
  {
    match a {
      case Lifecycle(e) => OtherTableBalance(w, e, w', k);
      case WriteSchedule(_, _, _, _) => RowWriteShifts(w, a, w', k);
      case WriteCancel(_, _) => RowWriteShifts(w, a, w', k);
      case CheckSchedule(_, _, _) => OtherShifts(w, a, w', k);
      case CheckCancel(_, _) => OtherShifts(w, a, w', k);
      case Crash(_) => OtherShifts(w, a, w', k);
      case AskCancel(_, _) => CancelShifts(w, a, w', k);
      case _ => AskShifts(w, a, w', k);
    }
  }

  // ---------------------------------------------------------------- nothing pends silently

  lemma DownIsExcused(w: World, a: Action, w': World, k: string)
    requires Step(w, a, w')
    ensures Excused(w, k) || Shift(w, a, k) < 0 ==> Excused(w', k)
  {
  }

  /** Whatever the operators do, a key is answered for unless a call has let go of it. */
  lemma StepKeepsCovered(w: World, a: Action, w': World, k: string)
    requires CaLifecycle.Inv(w.table) && FlightsSane(w) && Step(w, a, w')
    requires Excused(w, k) || Balance(w, k) >= 0
    ensures Excused(w', k) || Balance(w', k) >= 0
  {
    BalanceShifts(w, a, w', k);
    DownIsExcused(w, a, w', k);
  }

  ghost predicate Good(w: World) {
    && CaLifecycle.Inv(w.table) && FlightsSane(w) && RecordsSane(w)
    && forall k :: Excused(w, k) || Balance(w, k) >= 0
  }

  lemma StepKeepsGood(w: World, a: Action, w': World)
    requires Good(w) && Step(w, a, w')
    ensures Good(w')
  {
    StepKeepsTable(w, a, w');
    StepKeepsFlights(w, a, w');
    StepKeepsRecords(w, a, w');
    forall k ensures Excused(w', k) || Balance(w', k) >= 0 {
      StepKeepsCovered(w, a, w', k);
    }
  }

  ghost predicate Run(ws: seq<World>, acts: seq<Action>) {
    && |ws| == |acts| + 1 && ws[0] == START
    && forall i :: 0 <= i < |acts| ==> Step(ws[i], acts[i], ws[i + 1])
  }

  lemma {:induction false} RunIsGood(ws: seq<World>, acts: seq<Action>, i: nat)
    requires Run(ws, acts) && i < |ws|
    ensures Good(ws[i])
  {
    if i > 0 {
      RunIsGood(ws, acts, i - 1);
      StepKeepsGood(ws[i - 1], acts[i - 1], ws[i]);
    } else {
      forall k ensures Balance(START, k) == 0 {
        assert Hands(START, k) == {} && Forgets(START, k) == {} && Records(START, k) == {};
      }
    }
  }

  /** The backend will destroy the key, no row says so, and no operation is going to write one or take it back. */
  ghost predicate Silent(w: World, k: string) {
    k in w.pending && Hands(w, k) == {} && Records(w, k) == {}
  }

  /**
   In every run of any number of operators, a key pends silently only if a call reported ROLLBACK FAILED for
   it, a reply to a schedule was lost, or an operator's process died between the backend and the row.
   */
  lemma NothingPendsSilently(ws: seq<World>, acts: seq<Action>, i: nat, k: string)
    requires Run(ws, acts) && i < |ws| && Silent(ws[i], k)
    ensures k in ws[i].alarmed || k in ws[i].unanswered || k in ws[i].crashed
  {
    RunIsGood(ws, acts, i);
    assert Excused(ws[i], k) || Balance(ws[i], k) >= 0;
  }

  /** The events that let go of a key. */
  ghost predicate LetsGo(w: World, a: Action, k: string) {
    || (a.AskSchedule? && a.reply == LostReply && Flying(w, a.p, k))
    || (a.AskUndo? && a.reply == Refused && Flying(w, a.p, k))
    || (a.Crash? && InHandAt(w, a.p, k))
  }

  /** Nothing but the flight itself accounts for the key, which pends or is about to. */
  ghost predicate Alone(w: World, a: Action, k: string)
    requires LetsGo(w, a, k)
  {
    Hands(w, k) <= {a.p} && Records(w, k) == {} && (a.AskSchedule? || k in w.pending)
  }

  lemma LetGoIsSilent(w: World, a: Action, w': World, k: string)
    requires FlightsSane(w) && Step(w, a, w') && LetsGo(w, a, k)
    ensures Silent(w', k) <==> Alone(w, a, k)
  {
    FlightSets(w, w', a.p, k);
    assert a.p !in Hands(w', k);
  }

  /**
   Exactly when: in a state without excuse for the key, a step leaves it pending silently if and only if it is
   one of the three that let go of it, with nothing else to account for it.
   */
  lemma SilentExactly(w: World, a: Action, w': World, k: string)
    requires Good(w) && !Excused(w, k) && Step(w, a, w')
    ensures Silent(w', k) <==> LetsGo(w, a, k) && Alone(w, a, k)
  {
    BalanceShifts(w, a, w', k);
    if LetsGo(w, a, k) {
      LetGoIsSilent(w, a, w', k);
    }
  }

  /** A key pending deletion is a retired CA's: unless it shares the key with one, no unretired CA's key pends. */
  lemma PendingKeysAreUnused(ws: seq<World>, acts: seq<Action>, i: nat, id: nat)
    requires Run(ws, acts) && i < |ws| && id in ws[i].table.rows
    requires forall j: nat :: KeyOf(ws[i], j, ws[i].table.rows[id].kmsKeyId) ==> !InState(ws[i].table, j, Retired)
    ensures ws[i].table.rows[id].kmsKeyId !in ws[i].pending
  {
    RunIsGood(ws, acts, i);
  }

  /**
   Exactly when: a step makes the key of an unretired CA pend if and only if it is a schedule that the backend
   takes, for another CA, retired, with the same key.
   */
  lemma TakenAlongExactly(w: World, a: Action, w': World, id: nat, k: string)
    requires Good(w) && Step(w, a, w') && KeyOf(w, id, k) && !InState(w.table, id, Retired) && k !in w.pending
    ensures k in w'.pending <==>
            && a.AskSchedule? && a.reply != Refused && Flying(w, a.p, k)
            && w.flights[a.p].id != id && InState(w.table, w.flights[a.p].id, Retired)
  {
    if a.AskSchedule? {
      assert FlightSane(w.table, w.flights[a.p]);
    }
  }

  // ---------------------------------------------------------------- a record is true

  /** A CA's deletion is cancelled by one operator at a time. */
  ghost predicate Disciplined(w: World, a: Action) {
    a.CheckCancel? ==> forall q :: q in w.flights ==> !Cancels(w.flights[q], a.id)
  }

  ghost predicate CancelsSane(w: World) {
    && (forall p, id: nat :: p in w.flights && Cancels(w.flights[p], id) ==> Recorded(w, id))
    && (forall p, q, id: nat :: p in w.flights && q in w.flights && Cancels(w.flights[p], id) && Cancels(w.flights[q], id) ==>
          p == q)
  }

  lemma CancelStaysRecorded(w: World, a: Action, w': World, p: nat, id: nat)
    requires CaLifecycle.Inv(w.table) && FlightsSane(w) && CancelsSane(w) && Step(w, a, w')
    requires p in w'.flights && Cancels(w'.flights[p], id)
    ensures Recorded(w', id)
  {
    if !(a.CheckCancel? && a.p == p) {
      assert Cancels(w.flights[p], id);
      assert Recorded(w, id);
      if a.WriteCancel? {
        assert Cancels(w.flights[a.p], w.flights[a.p].id) && w.flights[a.p].id != id;
      }
      if a.WriteSchedule? {
        assert w'.table == w.table || w.flights[a.p].id != id;
      }
    }
    RowsPersist(w, a, w', id);
  }

  lemma StepKeepsCancels(w: World, a: Action, w': World)
    requires CaLifecycle.Inv(w.table) && FlightsSane(w) && CancelsSane(w) && Step(w, a, w') && Disciplined(w, a)
    ensures CancelsSane(w')
  {
    forall p, id: nat | p in w'.flights && Cancels(w'.flights[p], id) ensures Recorded(w', id) {
      CancelStaysRecorded(w, a, w', p, id);
    }
    forall p, q, id: nat | p in w'.flights && q in w'.flights && Cancels(w'.flights[p], id) && Cancels(w'.flights[q], id)
      ensures p == q
    {
      CancelsBefore(w, a, w', p, id);
      CancelsBefore(w, a, w', q, id);
    }
  }

  lemma CancelsBefore(w: World, a: Action, w': World, p: nat, id: nat)
    requires Step(w, a, w') && p in w'.flights && Cancels(w'.flights[p], id)
    ensures (a == CheckCancel(p, id)) || (p in w.flights && Cancels(w.flights[p], id))
  {
  }

  lemma StepKeepsHonest(w: World, a: Action, w': World, k: string)
    requires CaLifecycle.Inv(w.table) && FlightsSane(w) && CancelsSane(w) && Step(w, a, w')
    requires k in w.halfCancelled || Balance(w, k) <= 0
    ensures k in w'.halfCancelled || Balance(w', k) <= 0
  {
    BalanceShifts(w, a, w', k);
    if a.WriteCancel? {
      assert Cancels(w.flights[a.p], w.flights[a.p].id);
    }
  }

  lemma {:induction false} DisciplinedRunIsHonest(ws: seq<World>, acts: seq<Action>, i: nat, k: string)
    requires Run(ws, acts) && i < |ws| && forall j :: 0 <= j < |acts| ==> Disciplined(ws[j], acts[j])
    ensures CancelsSane(ws[i]) && (k in ws[i].halfCancelled || Balance(ws[i], k) <= 0)
  {
    if i > 0 {
      DisciplinedRunIsHonest(ws, acts, i - 1, k);
      RunIsGood(ws, acts, i - 1);
      StepKeepsCancels(ws[i - 1], acts[i - 1], ws[i]);
      StepKeepsHonest(ws[i - 1], acts[i - 1], ws[i], k);
    } else {
      assert Hands(START, k) == {} && Records(START, k) == {};
    }
  }

  /**
   The converse, for operators who cancel one at a time: a row that records a deletion tells the truth, or a
   cancel is between the backend and the row, or one ended there.
   */
  lemma RecordsAreTrue(ws: seq<World>, acts: seq<Action>, i: nat, id: nat, k: string)
    requires Run(ws, acts) && i < |ws| && forall j :: 0 <= j < |acts| ==> Disciplined(ws[j], acts[j])
    requires KeyOf(ws[i], id, k) && Recorded(ws[i], id)
    ensures k in ws[i].pending || Forgets(ws[i], k) != {} || k in ws[i].halfCancelled
  {
    DisciplinedRunIsHonest(ws, acts, i, k);
    assert id in Records(ws[i], k);
  }

  /** Rows record the deletion of a key that is not pending, and no cancel is about to clear one. */
  ghost predicate FalselyRecorded(w: World, k: string) {
    Records(w, k) != {} && k !in w.pending && Forgets(w, k) == {}
  }

  /** The events that restore a key and leave its row behind. */
  ghost predicate HalfCancels(w: World, a: Action, k: string) {
    || (a.AskCancel? && a.reply == LostReply && Flying(w, a.p, k))
    || (a.WriteCancel? && !a.ok && Flying(w, a.p, k))
    || (a.Crash? && ForgetsAt(w, a.p, k))
  }

  lemma HalfCancelIsFalse(w: World, a: Action, w': World, k: string)
    requires FlightsSane(w) && CancelsSane(w) && Step(w, a, w') && HalfCancels(w, a, k)
    ensures FalselyRecorded(w', k) <==> Forgets(w, k) <= {a.p} && (a.AskCancel? || k !in w.pending)
  {
    FlightSets(w, w', a.p, k);
    assert Cancels(w.flights[a.p], w.flights[a.p].id);
    assert w.flights[a.p].id in Records(w, k);
    assert a.p !in Forgets(w', k);
  }

  /**
   Exactly when: among operators who cancel one at a time, a step leaves a key falsely recorded if and only if
   it ends a cancel between the backend and the row, with no other cancel there and the key not pending again.
   */
  lemma FalseRecordExactly(w: World, a: Action, w': World, k: string)
    requires CaLifecycle.Inv(w.table) && FlightsSane(w) && CancelsSane(w) && Balance(w, k) <= 0 && Step(w, a, w')
    ensures FalselyRecorded(w', k) <==>
              HalfCancels(w, a, k) && Forgets(w, k) <= {a.p} && (a.AskCancel? || k !in w.pending)
  {
    BalanceShifts(w, a, w', k);
    if HalfCancels(w, a, k) {
      HalfCancelIsFalse(w, a, w', k);
    } else if a.WriteCancel? {
      assert Cancels(w.flights[a.p], w.flights[a.p].id);
    }
  }

  // ---------------------------------------------------------------- runs that show each condition is needed

  function Ca(k: string, st: State, at: int): CA {
    CA("ca", "fp", "", k, st, 0, 0, at, at)
  }

  /** One retired CA whose deletion is recorded at `at` (0 for none), and these operations in flight. */
  function One(k: string, at: int, pending: set<string>, flights: map<nat, Flight>): World {
    START.(table := Table(map[0 := Ca(k, Retired, at)], 1), pending := pending, flights := flights)
  }

  lemma Extend(ws: seq<World>, acts: seq<Action>, a: Action, w': World) returns (vs: seq<World>, more: seq<Action>)
    requires Run(ws, acts) && Step(ws[|acts|], a, w')
    ensures Run(vs, more) && vs[|more|] == w' && |more| == |acts| + 1
    ensures forall i :: 0 <= i < |acts| ==> vs[i] == ws[i] && more[i] == acts[i]
    ensures vs[|acts|] == ws[|acts|] && more[|acts|] == a
  {
    vs, more := ws + [w'], acts + [a];
  }

  lemma Setup(k: string) returns (ws: seq<World>, acts: seq<Action>)
    ensures Run(ws, acts) && ws[|acts|] == One(k, 0, {}, map[])
    ensures forall i :: 0 <= i < |acts| ==> !acts[i].CheckCancel?
  {
    ws, acts := [START], [];
    var t1, t2 := Table(map[0 := Ca(k, Staged, 0)], 1), Table(map[0 := Ca(k, Retired, 0)], 1);
    assert InsertRow(EMPTY, Ca(k, Staged, 0)) == t1 && SetState(t1, 0, Retired) == t2;
    ws, acts := Extend(ws, acts, Lifecycle(Insert(Ca(k, Staged, 0))), START.(table := t1));
    ws, acts := Extend(ws, acts, Lifecycle(Event.Abandon(0)), START.(table := t2));
  }

  /** A schedule whose reply is lost leaves the key pending with no record and no alarm. */
  lemma LostReplyPendsSilently(k: string) returns (ws: seq<World>, acts: seq<Action>)
    requires TrimSpace(k) != ""
    ensures Run(ws, acts) && Silent(ws[|acts|], k) && k !in ws[|acts|].alarmed
    ensures k !in ws[|acts|].crashed && ws[|acts|].flights == map[]
  {
    ws, acts := Setup(k);
    ws, acts := Extend(ws, acts, CheckSchedule(1, 0, 0), One(k, 0, {}, map[1 := MayAsk(0)]));
    var last := One(k, 0, {k}, map[]).(unanswered := {k});
    assert map[1 := MayAsk(0)] - {1} == map[];
    ws, acts := Extend(ws, acts, AskSchedule(1, LostReply), last);
    assert Hands(last, k) == {} && Records(last, k) == {};
  }

  /** So does an operator whose process dies between the backend's answer and the row. */
  lemma CrashPendsSilently(k: string) returns (ws: seq<World>, acts: seq<Action>)
    requires TrimSpace(k) != ""
    ensures Run(ws, acts) && Silent(ws[|acts|], k) && k !in ws[|acts|].alarmed
    ensures k !in ws[|acts|].unanswered && ws[|acts|].flights == map[]
  {
    ws, acts := Setup(k);
    ws, acts := Extend(ws, acts, CheckSchedule(1, 0, 0), One(k, 0, {}, map[1 := MayAsk(0)]));
    ws, acts := Extend(ws, acts, AskSchedule(1, Accepted), One(k, 0, {k}, map[1 := MustRecord(0)]));
    var last := One(k, 0, {k}, map[]).(crashed := {k});
    assert map[1 := MustRecord(0)] - {1} == map[];
    ws, acts := Extend(ws, acts, Crash(1), last);
    assert Hands(last, k) == {} && Records(last, k) == {};
  }

  /** The first schedule goes through while a second has only checked. */
  lemma ScheduledWithAnother(k: string) returns (ws: seq<World>, acts: seq<Action>)
    requires TrimSpace(k) != ""
    ensures Run(ws, acts) && ws[|acts|] == One(k, 5, {k}, map[2 := MayAsk(0)])
    ensures forall i :: 0 <= i < |acts| ==> !acts[i].CheckCancel?
  {
    ws, acts := Setup(k);
    ws, acts := Extend(ws, acts, CheckSchedule(2, 0, 0), One(k, 0, {}, map[2 := MayAsk(0)]));
    ws, acts := Extend(ws, acts, CheckSchedule(1, 0, 0), One(k, 0, {}, map[2 := MayAsk(0), 1 := MayAsk(0)]));
    ws, acts := Extend(ws, acts, AskSchedule(1, Accepted), One(k, 0, {k}, map[2 := MayAsk(0), 1 := MustRecord(0)]));
    assert map[2 := MayAsk(0), 1 := MustRecord(0)] - {1} == map[2 := MayAsk(0)];
    ws, acts := Extend(ws, acts, WriteSchedule(1, 5, 5, true), One(k, 5, {k}, map[2 := MayAsk(0)]));
  }

  /** Two cancels past the backend, the second because the second schedule made the key pending again. */
  lemma TwoPastTheBackend(k: string) returns (ws: seq<World>, acts: seq<Action>)
    requires TrimSpace(k) != ""
    ensures Run(ws, acts) && ws[|acts|] == One(k, 5, {}, map[2 := MustRecord(0), 3 := MustForget(0), 4 := MustForget(0)])
  {
    ws, acts := ScheduledWithAnother(k);
    ws, acts := Extend(ws, acts, CheckCancel(3, 0), One(k, 5, {k}, map[2 := MayAsk(0), 3 := MayCancel(0)]));
    ws, acts := Extend(ws, acts, CheckCancel(4, 0), One(k, 5, {k}, map[2 := MayAsk(0), 3 := MayCancel(0), 4 := MayCancel(0)]));
    assert {k} - {k} == {};
    ws, acts := Extend(ws, acts, AskCancel(3, Accepted),
                       One(k, 5, {}, map[2 := MayAsk(0), 3 := MustForget(0), 4 := MayCancel(0)]));
    ws, acts := Extend(ws, acts, AskSchedule(2, Accepted),
                       One(k, 5, {k}, map[2 := MustRecord(0), 3 := MustForget(0), 4 := MayCancel(0)]));
    ws, acts := Extend(ws, acts, AskCancel(4, Accepted),
                       One(k, 5, {}, map[2 := MustRecord(0), 3 := MustForget(0), 4 := MustForget(0)]));
  }

  /** With two cancels at once every call can succeed and a row still record a deletion that is not pending. */
  lemma TwoCancelsLeaveAFalseRecord(k: string) returns (ws: seq<World>, acts: seq<Action>)
    requires TrimSpace(k) != ""
    ensures Run(ws, acts)
    ensures var z := ws[|acts|]; Recorded(z, 0) && KeyOf(z, 0, k) && k !in z.pending && z.flights == map[] && z.halfCancelled == {}
  {
    ws, acts := TwoPastTheBackend(k);
    assert map[2 := MustRecord(0), 3 := MustForget(0), 4 := MustForget(0)] - {3} == map[2 := MustRecord(0), 4 := MustForget(0)];
    ws, acts := Extend(ws, acts, WriteCancel(3, true), One(k, 0, {}, map[2 := MustRecord(0), 4 := MustForget(0)]));
    assert map[2 := MustRecord(0), 4 := MustForget(0)] - {4} == map[2 := MustRecord(0)];
    ws, acts := Extend(ws, acts, WriteCancel(4, true), One(k, 0, {}, map[2 := MustRecord(0)]));
    assert map[2 := MustRecord(0)] - {2} == map[];
    ws, acts := Extend(ws, acts, WriteSchedule(2, 7, 7, true), One(k, 7, {}, map[]));
  }

  /** And so can one disciplined cancel whose row write fails. */
  lemma HalfCancelLeavesAFalseRecord(k: string) returns (ws: seq<World>, acts: seq<Action>)
    requires TrimSpace(k) != ""
    ensures Run(ws, acts) && forall j :: 0 <= j < |acts| ==> Disciplined(ws[j], acts[j])
    ensures var z := ws[|acts|]; Recorded(z, 0) && KeyOf(z, 0, k) && k !in z.pending && Forgets(z, k) == {}
  {
    ws, acts := ScheduledWithAnother(k);
    ws, acts := Extend(ws, acts, CheckCancel(3, 0), One(k, 5, {k}, map[2 := MayAsk(0), 3 := MayCancel(0)]));
    assert {k} - {k} == {};
    ws, acts := Extend(ws, acts, AskCancel(3, Accepted), One(k, 5, {}, map[2 := MayAsk(0), 3 := MustForget(0)]));
    assert map[2 := MayAsk(0), 3 := MustForget(0)] - {3} == map[2 := MayAsk(0)];
    ws, acts := Extend(ws, acts, WriteCancel(3, false), One(k, 5, {}, map[2 := MayAsk(0)]).(halfCancelled := {k}));
  }

  function Two(k: string, second: State, at: int): Table {
    Table(map[0 := CA("active", "fp0", "", k, Active, 0, 0, 0, 0), 1 := CA("other", "fp1", "", k, second, 0, 0, at, at)], 2)
  }

  lemma SetupShared(k: string) returns (ws: seq<World>, acts: seq<Action>)
    ensures Run(ws, acts) && ws[|acts|] == START.(table := Two(k, Retired, 0))
  {
    ws, acts := [START], [];
    var first, second := Two(k, Staged, 0).rows[0], Two(k, Staged, 0).rows[1];
    var t := Table(map[0 := first], 1);
    assert InsertRow(EMPTY, first) == t && InsertRow(t, second) == Two(k, Staged, 0);
    assert SetState(Two(k, Staged, 0), 1, Retired) == Two(k, Retired, 0);
    ws, acts := Extend(ws, acts, Lifecycle(Insert(first)), START.(table := t));
    ws, acts := Extend(ws, acts, Lifecycle(Insert(second)), START.(table := Two(k, Staged, 0)));
    ws, acts := Extend(ws, acts, Lifecycle(Event.Abandon(1)), START.(table := Two(k, Retired, 0)));
  }

  /** Where two CAs share a key, a deletion for the retired one goes through and takes the active one's key along. */
  lemma SharedKeyIsTakenAlong(k: string) returns (ws: seq<World>, acts: seq<Action>)
    requires TrimSpace(k) != ""
    ensures Run(ws, acts)
    ensures var z := ws[|acts|];
            && InState(z.table, 0, Active) && KeyOf(z, 0, k) && k in z.pending
            && InState(z.table, 1, Retired) && Recorded(z, 1) && !Excused(z, k) && z.flights == map[]
  {
    ws, acts := SetupShared(k);
    var w := START.(table := Two(k, Retired, 0));
    ws, acts := Extend(ws, acts, CheckSchedule(1, 1, 0), w.(flights := map[1 := MayAsk(1)]));
    ws, acts := Extend(ws, acts, AskSchedule(1, Accepted), w.(pending := {k}, flights := map[1 := MustRecord(1)]));
    assert map[1 := MustRecord(1)] - {1} == map[];
    ws, acts := Extend(ws, acts, WriteSchedule(1, 5, 5, true), START.(table := Two(k, Retired, 5), pending := {k}));
  }
}
