/**
 The collect protocol over whole runs.  Any post may be lost, answered late, or stop half way through at the
 gateway, and a post the collector has given up on may still be applied at any later time.
 */
module CollectRuns {
  import opened Wildcards
  import opened Collect

  /** One processed candidate of the current cycle. */
  datatype Done = Done(leaseId: nat, captured: Option<Result>, ack: bool)

  /** Where the collector is in its cycle. */
  datatype Phase =
    | Idle
    | Working(todo: seq<Candidate>, done: seq<Done>)
    | Shipping(done: seq<Done>)
    | Acking(done: seq<Done>)

  /** A post the collector no longer waits for but the gateway may still receive. */
  datatype Post = LateResults(rs: seq<Result>) | LateVerdicts(ds: seq<Done>)

  /**
   `acked` maps every lease ever acked to what was captured for it in the cycle whose ack took effect.
   `spent` are the enrollments whose single-use nonce has been consumed: processing one of these again
   captures nothing.  `captured` are the enrollments for which a result has ever been captured, `dropped` those
   whose result a failed post left unapplied and the gateway does not hold, and `put` the results the gateway
   has actually stored.
   */
  datatype World = World(items: Items, results: Results, published: set<nat>, acked: map<nat, Option<Result>>,
                         phase: Phase, late: map<nat, Post>,
                         spent: set<string>, captured: set<string>, dropped: set<string>, put: set<Result>)

  const START := World(map[], map[], {}, map[], Idle, map[], {}, {}, {}, {})

  datatype Action =
    | Publish(id: nat, e: string)
    | Claim(batch: seq<Candidate>, items: Items, answered: bool)
    | Decide(r: Result)                 // verified, decided, recorded, result captured
    | PassOver(ack: bool, spend: bool)  // already decided, rejected outright, or a transient failure
    | EndBatch
    | Ship(k: nat, answered: bool, later: Option<nat>)
    | Settle(k: nat, answered: bool, later: Option<nat>)
    | Arrive(m: nat, k: nat)
    | Reconcile(r: Result)              // the delivery lane updates a result the gateway already holds

  function Shipment(ds: seq<Done>): (rs: seq<Result>)
    ensures forall r :: r in rs <==> exists i :: 0 <= i < |ds| && ds[i].captured == Some(r)
  {
    if ds == [] then []
    else
      var n := |ds| - 1;
      Shipment(ds[..n]) + (if ds[n].captured.Some? then [ds[n].captured.value] else [])
  }

  function VerdictOf(d: Done): Verdict {
    Verdict(d.leaseId, d.ack)
  }

  /** Acks before nacks, as the handler applies them. */
  ghost predicate InPostOrder(done: seq<Done>, ds: seq<Done>) {
    && multiset(ds) == multiset(done)
    && forall i, j :: 0 <= i < j < |ds| && ds[j].ack ==> ds[i].ack
  }

  function AckedBy(acked: map<nat, Option<Result>>, items: Items, ds: seq<Done>): map<nat, Option<Result>> {
    if ds == [] then acked
    else
      var n := |ds| - 1; var d := ds[n];
      var before := AckedBy(acked, items, ds[..n]);
      if d.ack && d.leaseId in items && d.leaseId !in before then before[d.leaseId := d.captured] else before
  }

  function SettleSome(items: Items, ds: seq<Done>): Items {
    SettleAll(items, MAX_ATTEMPTS, seq(|ds|, i requires 0 <= i < |ds| => VerdictOf(ds[i])))
  }

  const MAX_ATTEMPTS := 5

  function Enrollments(rs: seq<Result>): set<string> {
    set r | r in rs :: r.enrollmentId
  }

  function Apply(w: World, p: Post, k: nat): World
    requires k <= match p case LateResults(rs) => |rs| case LateVerdicts(ds) => |ds|
  {
    match p
    case LateResults(rs) =>
      var results := PutAll(w.results, rs[..k]);
      w.(results := results, put := w.put + (set r | r in rs[..k]),
         dropped := w.dropped + Enrollments(rs[k..]) - results.Keys)
    case LateVerdicts(ds) =>
      w.(items := SettleSome(w.items, ds[..k]), acked := AckedBy(w.acked, w.items, ds[..k]))
  }

  function Postpone(w: World, later: Option<nat>, p: Post): World {
    if later.Some? then w.(late := w.late[later.value := p]) else w
  }

  ghost predicate Step(w: World, a: Action, w': World) {
    match a
    case Publish(id, e) =>
      && id !in w.published
      && w' == w.(items := w.items[id := Item(e, true, Ready, 0, 0)], published := w.published + {id})
    case Claim(batch, items, answered) =>
      && w.phase.Idle? && items.Keys == w.items.Keys
      && (forall c :: c in batch ==> c.leaseId in items)
      && w' == w.(items := items, phase := if answered && batch != [] then Working(batch, []) else Idle)
    case Decide(r) =>
      && w.phase.Working? && w.phase.todo != []
      && var c := w.phase.todo[0];
         && r.enrollmentId == c.enrollmentId && c.enrollmentId !in w.spent
         && w' == w.(phase := Working(w.phase.todo[1..], w.phase.done + [Done(c.leaseId, Some(r), true)]),
                     spent := w.spent + {c.enrollmentId}, captured := w.captured + {c.enrollmentId})
    case PassOver(ack, spend) =>
      && w.phase.Working? && w.phase.todo != []
      && var c := w.phase.todo[0];
         w' == w.(phase := Working(w.phase.todo[1..], w.phase.done + [Done(c.leaseId, None, ack)]),
                  spent := if spend then w.spent + {c.enrollmentId} else w.spent)
    case EndBatch => w.phase.Working? && w.phase.todo == [] && w' == w.(phase := Shipping(w.phase.done))
    case Ship(k, answered, later) =>
      && w.phase.Shipping?
      && var rs := Shipment(w.phase.done);
         && k <= |rs| && (answered ==> k == |rs|) && (later.Some? ==> later.value !in w.late)
         && var w1 := Apply(w, LateResults(rs), k);
            w' == if answered then w1.(phase := Acking(w.phase.done)) else Postpone(w1, later, LateResults(rs)).(phase := Idle)
    case Settle(k, answered, later) =>
      && w.phase.Acking? && (later.Some? ==> later.value !in w.late)
      && exists ds :: InPostOrder(w.phase.done, ds) && k <= |ds| && (answered ==> k == |ds|)
           && w' == Postpone(Apply(w, LateVerdicts(ds), k), if answered then None else later, LateVerdicts(ds)).(phase := Idle)
    case Arrive(m, k) =>
      && m in w.late
      && k <= (match w.late[m] case LateResults(rs) => |rs| case LateVerdicts(ds) => |ds|)
      && w' == Apply(w, w.late[m], k).(late := w.late - {m})
    case Reconcile(r) => r.enrollmentId in w.results && w' == w.(results := Put(w.results, r), put := w.put + {r})
  }

  // ---------------------------------------------------------------- never ack an undelivered result

  ghost predicate Covered(w: World, d: Done) {
    d.ack && d.captured.Some? ==> d.captured.value in w.put
  }

  ghost predicate AllCovered(w: World, ds: seq<Done>) {
    forall i :: 0 <= i < |ds| ==> Covered(w, ds[i])
  }

  ghost predicate Good(w: World) {
    && w.published == w.items.Keys + w.acked.Keys
    && w.items.Keys !! w.acked.Keys
    && (forall id :: id in w.acked && w.acked[id].Some? ==> w.acked[id].value in w.put)
    && (forall r :: r in w.put ==> r.enrollmentId in w.results)
    && (w.phase.Acking? ==> AllCovered(w, w.phase.done))
    && (forall m :: m in w.late && w.late[m].LateVerdicts? ==> AllCovered(w, w.late[m].ds))
  }

  lemma {:induction false} SettleSomeSplits(w: World, ds: seq<Done>)
    requires w.items.Keys !! w.acked.Keys
    ensures var items, acked := SettleSome(w.items, ds), AckedBy(w.acked, w.items, ds);
            && items.Keys !! acked.Keys && items.Keys + acked.Keys == w.items.Keys + w.acked.Keys
            && w.acked.Keys <= acked.Keys
    ensures forall id :: id in AckedBy(w.acked, w.items, ds) && !(id in w.acked) ==>
              exists i :: 0 <= i < |ds| && ds[i].ack && AckedBy(w.acked, w.items, ds)[id] == ds[i].captured
    ensures forall id :: id in w.acked ==> AckedBy(w.acked, w.items, ds)[id] == w.acked[id]
  {
    if ds == [] {
      assert SettleSome(w.items, ds) == w.items;
    } else {
      var n := |ds| - 1;
      SettleSomeSplits(w, ds[..n]);
      assert forall i :: 0 <= i < n ==> ds[..n][i] == ds[i];
      var vs := seq(|ds|, i requires 0 <= i < |ds| => VerdictOf(ds[i]));
      assert vs[..n] == seq(|ds[..n]|, i requires 0 <= i < |ds[..n]| => VerdictOf(ds[..n][i]));
      assert SettleSome(w.items, ds) == Collect.Settle(SettleSome(w.items, ds[..n]), MAX_ATTEMPTS, VerdictOf(ds[n]));
    }
  }

  lemma PutOnlyGrows(w: World, a: Action, w': World)
    requires Step(w, a, w')
    ensures w.put <= w'.put
  {
  }

  lemma CoveredStays(w: World, a: Action, w': World, ds: seq<Done>)
    requires Step(w, a, w') && AllCovered(w, ds)
    ensures AllCovered(w', ds)
  {
    PutOnlyGrows(w, a, w');
    forall i | 0 <= i < |ds| ensures Covered(w', ds[i]) {
      assert Covered(w, ds[i]);
    }
  }

  /** Storing a prefix of some results keeps whatever was put stored. */
  lemma PutsAreStored(w: World, rs: seq<Result>, k: nat)
    requires k <= |rs| && forall r :: r in w.put ==> r.enrollmentId in w.results
    ensures var w1 := Apply(w, LateResults(rs), k); forall r :: r in w1.put ==> r.enrollmentId in w1.results
  {
    var w1 := Apply(w, LateResults(rs), k);
    forall r | r in w1.put ensures r.enrollmentId in w1.results {
      if r !in w.put {
        var i :| 0 <= i < |rs[..k]| && rs[..k][i] == r;
        assert rs[..k][i].enrollmentId == r.enrollmentId;
      }
    }
  }

  /** Applying covered verdicts keeps every acked lease's results stored. */
  lemma VerdictsKeepGood(w: World, ds: seq<Done>, k: nat)
    requires Good(w) && AllCovered(w, ds) && k <= |ds|
    ensures Good(Apply(w, LateVerdicts(ds), k))
  {
    SettleSomeSplits(w, ds[..k]);
    var w1 := Apply(w, LateVerdicts(ds), k);
    forall id | id in w1.acked && w1.acked[id].Some? ensures w1.acked[id].value in w1.put {
      if id !in w.acked {
        var i :| 0 <= i < |ds[..k]| && ds[..k][i].ack && w1.acked[id] == ds[..k][i].captured;
        assert Covered(w, ds[i]);
      }
    }
  }

  lemma PostOrderCovered(w: World, done: seq<Done>, ds: seq<Done>)
    requires AllCovered(w, done) && InPostOrder(done, ds)
    ensures AllCovered(w, ds)
  {
    forall i | 0 <= i < |ds| ensures Covered(w, ds[i]) {
      assert ds[i] in multiset(done);
      var j :| 0 <= j < |done| && done[j] == ds[i];
      assert Covered(w, done[j]);
    }
  }

  lemma ShipCovers(w: World, a: Action, w': World)
    requires Step(w, a, w') && a.Ship? && a.answered
    ensures AllCovered(w', w'.phase.done)
  {
    var ds := w.phase.done;
    var rs := Shipment(ds);
    assert rs[..|rs|] == rs;
    forall i | 0 <= i < |ds| ensures Covered(w', ds[i]) {
      if ds[i].captured.Some? {
        assert ds[i].captured.value in rs;
      }
    }
  }

  lemma LateStaysCovered(w: World, a: Action, w': World, m: nat)
    requires Good(w) && Step(w, a, w') && m in w'.late && w'.late[m].LateVerdicts?
    ensures AllCovered(w', w'.late[m].ds)
  {
    if m in w.late {
      CoveredStays(w, a, w', w'.late[m].ds);
    } else {
      PostOrderCovered(w, w.phase.done, w'.late[m].ds);
      CoveredStays(w, a, w', w'.late[m].ds);
    }
  }

  lemma ShipKeepsGood(w: World, a: Action, w': World)
    requires Good(w) && Step(w, a, w') && a.Ship?
    ensures Good(w')
  {
    forall m | m in w'.late && w'.late[m].LateVerdicts? ensures AllCovered(w', w'.late[m].ds) {
      LateStaysCovered(w, a, w', m);
    }
    PutsAreStored(w, Shipment(w.phase.done), a.k);
    if a.answered {
      ShipCovers(w, a, w');
    }
  }

  lemma SettleKeepsGood(w: World, a: Action, w': World)
    requires Good(w) && Step(w, a, w') && a.Settle?
    ensures Good(w')
  {
    forall m | m in w'.late && w'.late[m].LateVerdicts? ensures AllCovered(w', w'.late[m].ds) {
      LateStaysCovered(w, a, w', m);
    }
    var ds :| InPostOrder(w.phase.done, ds) && a.k <= |ds| && (a.answered ==> a.k == |ds|)
         && w' == Postpone(Apply(w, LateVerdicts(ds), a.k), if a.answered then None else a.later, LateVerdicts(ds)).(phase := Idle);
    PostOrderCovered(w, w.phase.done, ds);
    VerdictsKeepGood(w, ds, a.k);
  }

  lemma ArriveKeepsGood(w: World, a: Action, w': World)
    requires Good(w) && Step(w, a, w') && a.Arrive?
    ensures Good(w')
  {
    forall m | m in w'.late && w'.late[m].LateVerdicts? ensures AllCovered(w', w'.late[m].ds) {
      LateStaysCovered(w, a, w', m);
    }
    if w.late[a.m].LateVerdicts? {
      VerdictsKeepGood(w, w.late[a.m].ds, a.k);
    } else {
      PutsAreStored(w, w.late[a.m].rs, a.k);
    }
    if w.phase.Acking? {
      CoveredStays(w, a, w', w.phase.done);
    }
  }

  lemma StepKeepsGood(w: World, a: Action, w': World)
    requires Good(w) && Step(w, a, w')
    ensures Good(w')
  {
    if a.Ship? {
      ShipKeepsGood(w, a, w');
    } else if a.Settle? {
      SettleKeepsGood(w, a, w');
    } else if a.Arrive? {
      ArriveKeepsGood(w, a, w');
    } else {
      forall m | m in w'.late && w'.late[m].LateVerdicts? ensures AllCovered(w', w'.late[m].ds) {
        LateStaysCovered(w, a, w', m);
      }
      if w.phase.Acking? {
        CoveredStays(w, a, w', w.phase.done);
      }
    }
  }

  ghost predicate RunFrom(w: World, ws: seq<World>, acts: seq<Action>) {
    && |ws| == |acts| + 1 && ws[0] == w
    && forall i :: 0 <= i < |acts| ==> Step(ws[i], acts[i], ws[i + 1])
  }

  lemma {:induction false} RunIsGood(ws: seq<World>, acts: seq<Action>, i: nat)
    requires RunFrom(START, ws, acts) && i < |ws|
    ensures Good(ws[i])
  {
    if i > 0 {
      RunIsGood(ws, acts, i - 1);
      StepKeepsGood(ws[i - 1], acts[i - 1], ws[i]);
    }
  }

  /**
   In every state of every run: a published candidate is in the queue or acked, never both, and nothing was
   acked before the very result captured for it in that cycle was stored at the gateway.
   */
  lemma AckedMeansStored(ws: seq<World>, acts: seq<Action>, i: nat, id: nat)
    requires RunFrom(START, ws, acts) && i < |ws| && id in ws[i].published
    ensures id in ws[i].items <==> id !in ws[i].acked
    ensures id in ws[i].acked && ws[i].acked[id].Some? ==>
              ws[i].acked[id].value in ws[i].put && ws[i].acked[id].value.enrollmentId in ws[i].results
  {
    RunIsGood(ws, acts, i);
  }

  // ---------------------------------------------------------------- what a failed ship costs

  ghost predicate CapturedIn(ds: seq<Done>, e: string) {
    exists i :: 0 <= i < |ds| && ds[i].captured.Some? && ds[i].captured.value.enrollmentId == e
  }

  /** The result is still on its way: in the current cycle's buffer, or in a post that may yet arrive. */
  ghost predicate OnItsWay(w: World, e: string) {
    || (w.phase.Working? && CapturedIn(w.phase.done, e))
    || (w.phase.Shipping? && CapturedIn(w.phase.done, e))
    || (exists m :: m in w.late && w.late[m].LateResults? && e in Enrollments(w.late[m].rs))
  }

  /** Decided, but neither stored nor on its way. */
  ghost predicate Lost(w: World, e: string) {
    e in w.spent && e !in w.results && !OnItsWay(w, e)
  }

  lemma ShipmentEnrollments(ds: seq<Done>, e: string)
    ensures e in Enrollments(Shipment(ds)) <==> CapturedIn(ds, e)
  {
    if CapturedIn(ds, e) {
      var i :| 0 <= i < |ds| && ds[i].captured.Some? && ds[i].captured.value.enrollmentId == e;
      assert ds[i].captured.value in Shipment(ds);
    }
  }

  lemma PutAllStores(m: Results, rs: seq<Result>, k: nat, e: string)
    requires k <= |rs| && e in PutAll(m, rs[..k]) && e !in m
    ensures e in Enrollments(rs)
  {
    var i :| 0 <= i < |rs[..k]| && rs[..k][i].enrollmentId == e;
    assert rs[i] in rs;
  }

  lemma {:induction false} CapturedInSnoc(ds: seq<Done>, d: Done, e: string)
    ensures CapturedIn(ds + [d], e) <==> CapturedIn(ds, e) || (d.captured.Some? && d.captured.value.enrollmentId == e)
  {
    if CapturedIn(ds, e) {
      var i :| 0 <= i < |ds| && ds[i].captured.Some? && ds[i].captured.value.enrollmentId == e;
      assert (ds + [d])[i] == ds[i];
    }
    if d.captured.Some? && d.captured.value.enrollmentId == e {
      assert (ds + [d])[|ds|] == d;
    }
  }

  lemma LostStaysUnstored(w: World, a: Action, w': World, e: string)
    requires Lost(w, e) && Step(w, a, w')
    ensures e in w'.spent && e !in w'.results
  {
    if a.Ship? {
      ShipmentEnrollments(w.phase.done, e);
      if e in w'.results {
        PutAllStores(w.results, Shipment(w.phase.done), a.k, e);
      }
    } else if a.Arrive? && w.late[a.m].LateResults? && e in w'.results {
      PutAllStores(w.results, w.late[a.m].rs, a.k, e);
    }
  }

  lemma LostStaysLost(w: World, a: Action, w': World, e: string)
    requires Lost(w, e) && Step(w, a, w')
    ensures Lost(w', e)
  {
    LostStaysUnstored(w, a, w', e);
    if a.Decide? || a.PassOver? {
      CapturedInSnoc(w.phase.done, w'.phase.done[|w.phase.done|], e);
      assert w'.phase.done == w.phase.done + [w'.phase.done[|w.phase.done|]];
    }
    if a.Ship? {
      ShipmentEnrollments(w.phase.done, e);
    }
    if m :| m in w'.late && w'.late[m].LateResults? && e in Enrollments(w'.late[m].rs) {
      assert false;
    }
  }

  /** Redelivery does not repair a lost result: in every continuation it stays unstored. */
  lemma {:induction false} LostForever(w: World, ws: seq<World>, acts: seq<Action>, i: nat, e: string)
    requires Lost(w, e) && RunFrom(w, ws, acts) && i < |ws|
    ensures Lost(ws[i], e)
  {
    if i > 0 {
      LostForever(w, ws, acts, i - 1, e);
      LostStaysLost(ws[i - 1], acts[i - 1], ws[i], e);
    }
  }

  /** Every captured result is stored, on its way, or was dropped by a failed post. */
  ghost predicate Traced(w: World) {
    forall e :: e in w.captured ==> e in w.results || OnItsWay(w, e) || e in w.dropped
  }

  lemma TracedStep(w: World, a: Action, w': World, e: string)
    requires Step(w, a, w') && e in w'.captured
    requires e in w.captured ==> e in w.results || OnItsWay(w, e) || e in w.dropped
    ensures e in w'.results || OnItsWay(w', e) || e in w'.dropped
  {
    if a.Decide? || a.PassOver? {
      CapturedInSnoc(w.phase.done, w'.phase.done[|w.phase.done|], e);
      assert w'.phase.done == w.phase.done + [w'.phase.done[|w.phase.done|]];
    } else if a.Ship? {
      ShipTraced(w, a, w', e);
    } else if a.Arrive? && w.late[a.m].LateResults? {
      SplitStoresOrDrops(w.results, w.late[a.m].rs, a.k, e);
      if e in w.results {
      } else if m :| m in w.late && m != a.m && w.late[m].LateResults? && e in Enrollments(w.late[m].rs) {
        assert w'.late[m] == w.late[m];
      }
    } else if m :| m in w.late && w.late[m].LateResults? && e in Enrollments(w.late[m].rs) {
      assert w'.late[m] == w.late[m];
    }
  }

  lemma SplitStoresOrDrops(results: Results, rs: seq<Result>, k: nat, e: string)
    requires k <= |rs|
    ensures e in Enrollments(rs) ==> e in PutAll(results, rs[..k]) || e in Enrollments(rs[k..])
    ensures e in Enrollments(rs[..k]) ==> e in PutAll(results, rs[..k])
  {
    if e in Enrollments(rs[..k]) {
      var r :| r in rs[..k] && r.enrollmentId == e;
      var i :| 0 <= i < k && rs[..k][i] == r;
      assert rs[..k][i].enrollmentId == e;
    }
    assert rs == rs[..k] + rs[k..];
  }

  lemma ShipTraced(w: World, a: Action, w': World, e: string)
    requires Step(w, a, w') && a.Ship?
    requires e in w.captured ==> e in w.results || OnItsWay(w, e) || e in w.dropped
    requires e in w'.captured
    ensures e in w'.results || OnItsWay(w', e) || e in w'.dropped
  {
    var rs := Shipment(w.phase.done);
    ShipmentEnrollments(w.phase.done, e);
    SplitStoresOrDrops(w.results, rs, a.k, e);
    if m :| m in w.late && w.late[m].LateResults? && e in Enrollments(w.late[m].rs) {
      assert w'.late[m] == w.late[m];
    }
  }

  /** So if no post ever drops a result, every decided candidate's result reaches the gateway or is on its way. */
  lemma {:induction false} NothingDroppedNothingLost(ws: seq<World>, acts: seq<Action>, i: nat)
    requires RunFrom(START, ws, acts) && i < |ws|
    ensures Traced(ws[i]) && ws[i].captured <= ws[i].spent && ws[i].dropped !! ws[i].results.Keys
  {
    if i > 0 {
      NothingDroppedNothingLost(ws, acts, i - 1);
      forall e | e in ws[i].captured ensures e in ws[i].results || OnItsWay(ws[i], e) || e in ws[i].dropped {
        TracedStep(ws[i - 1], acts[i - 1], ws[i], e);
      }
      DroppedIsUnstored(ws[i - 1], acts[i - 1], ws[i]);
    }
  }

  lemma DroppedIsUnstored(w: World, a: Action, w': World)
    requires Step(w, a, w') && w.captured <= w.spent && w.dropped !! w.results.Keys
    ensures w'.captured <= w'.spent && w'.dropped !! w'.results.Keys
  {
  }

  /** Exactly when: a captured result is lost if and only if a failed post dropped it and no other carries it. */
  lemma LostExactly(ws: seq<World>, acts: seq<Action>, i: nat, e: string)
    requires RunFrom(START, ws, acts) && i < |ws| && e in ws[i].captured
    ensures Lost(ws[i], e) <==> e in ws[i].dropped && !OnItsWay(ws[i], e)
  {
    NothingDroppedNothingLost(ws, acts, i);
  }

  /** The state after one candidate was decided and its ship failed before the gateway stored anything. */
  function AfterFailedShip(id: nat, e: string): World {
    START.(items := map[id := Item(e, true, Ready, 0, 0)], published := {id}, spent := {e}, captured := {e}, dropped := {e})
  }

  lemma Extend(w: World, ws: seq<World>, acts: seq<Action>, a: Action, w': World)
    requires RunFrom(w, ws, acts) && Step(ws[|acts|], a, w')
    ensures RunFrom(w, ws + [w'], acts + [a])
  {
  }

  lemma OnlyCandidate(w: World, c: Candidate, r: Result) returns (decided: World, passed: World)
    requires w.phase == Working([c], []) && r.enrollmentId == c.enrollmentId
    ensures decided == w.(phase := Working([], [Done(c.leaseId, Some(r), true)]),
                          spent := w.spent + {c.enrollmentId}, captured := w.captured + {c.enrollmentId})
    ensures c.enrollmentId !in w.spent ==> Step(w, Decide(r), decided)
    ensures passed == w.(phase := Working([], [Done(c.leaseId, None, true)])) && Step(w, PassOver(true, false), passed)
  {
    var d1, d2 := Done(c.leaseId, Some(r), true), Done(c.leaseId, None, true);
    assert [c][1..] == [] && [] + [d1] == [d1] && [] + [d2] == [d2];
    decided := w.(phase := Working([], [d1]), spent := w.spent + {c.enrollmentId}, captured := w.captured + {c.enrollmentId});
    passed := w.(phase := Working([], [d2]));
  }

  lemma OneResult(d: Done, r: Result)
    requires d.captured == Some(r)
    ensures Shipment([d]) == [r] && Enrollments([r]) == {r.enrollmentId} && Enrollments([]) == {}
  {
    assert [d][..0] == [];
  }

  lemma NothingStored(w: World, d: Done, r: Result) returns (w': World)
    requires w.phase == Shipping([d]) && d.captured == Some(r) && w.results == map[]
    ensures w' == w.(phase := Idle, dropped := w.dropped + {r.enrollmentId}) && Step(w, Ship(0, false, None), w')
  {
    OneResult(d, r);
    assert [r][..0] == [] && [r][0..] == [r];
    var none := set x | x in [r][..0];
    assert none == {} && w.put + none == w.put && w.dropped + {r.enrollmentId} - w.results.Keys == w.dropped + {r.enrollmentId};
    w' := w.(phase := Idle, dropped := w.dropped + {r.enrollmentId});
  }

  lemma NothingToShip(w: World, d: Done) returns (w': World)
    requires w.phase == Shipping([d]) && d.captured == None && w.results == map[]
    ensures w' == w.(phase := Acking([d])) && Step(w, Ship(0, true, None), w')
  {
    assert Shipment([d]) == [] by {
      assert [d][..0] == [];
    }
    assert Enrollments([]) == {};
    w' := w.(phase := Acking([d]));
    var none := set x: Result | x in [];
    assert none == {} && w.put + none == w.put && w.dropped + {} - w.results.Keys == w.dropped;
  }

  lemma AckOne(w: World, d: Done) returns (w': World)
    requires w.phase == Acking([d]) && d.ack && d.leaseId in w.items && d.leaseId !in w.acked
    ensures Step(w, Settle(1, true, None), w') && d.leaseId in w'.acked
  {
    assert InPostOrder([d], [d]);
    w' := Apply(w, LateVerdicts([d]), 1).(phase := Idle);
    assert [d][..1] == [d] && [d][..0] == [];
    assert AckedBy(w.acked, w.items, []) == w.acked;
  }

  lemma PublishedAndClaimed(id: nat, e: string) returns (ws: seq<World>, acts: seq<Action>)
    ensures RunFrom(START, ws, acts)
    ensures ws[|acts|] == START.(items := map[id := Item(e, true, Ready, 0, 0)], published := {id},
                                 phase := Working([Candidate(id, e)], []))
  {
    var c := Candidate(id, e);
    ws, acts := [START], [];
    var w1 := START.(items := map[id := Item(e, true, Ready, 0, 0)], published := {id});
    Extend(START, ws, acts, Publish(id, e), w1);
    ws, acts := ws + [w1], acts + [Publish(id, e)];
    var w2 := w1.(phase := Working([c], []));
    Extend(START, ws, acts, Claim([c], w1.items, true), w2);
    ws, acts := ws + [w2], acts + [Claim([c], w1.items, true)];
  }

  lemma DecidedButNotShipped(id: nat, e: string, r: Result) returns (ws: seq<World>, acts: seq<Action>)
    requires r.enrollmentId == e
    ensures RunFrom(START, ws, acts) && ws[|acts|] == AfterFailedShip(id, e)
  {
    var c := Candidate(id, e);
    ws, acts := PublishedAndClaimed(id, e);
    var w2 := ws[|acts|];
    var w3, _ := OnlyCandidate(w2, c, r);
    Extend(START, ws, acts, Decide(r), w3);
    ws, acts := ws + [w3], acts + [Decide(r)];
    var w4 := w3.(phase := Shipping(w3.phase.done));
    Extend(START, ws, acts, EndBatch, w4);
    ws, acts := ws + [w4], acts + [EndBatch];
    var w5 := NothingStored(w4, Done(id, Some(r), true), r);
    Extend(START, ws, acts, Ship(0, false, None), w5);
    ws, acts := ws + [w5], acts + [Ship(0, false, None)];
  }

  lemma RedeliveredAndAcked(id: nat, e: string, r: Result) returns (ws: seq<World>, acts: seq<Action>)
    requires r.enrollmentId == e
    ensures RunFrom(AfterFailedShip(id, e), ws, acts) && id in ws[|acts|].acked
  {
    var c, w0 := Candidate(id, e), AfterFailedShip(id, e);
    ws, acts := [w0], [];
    var w1 := w0.(phase := Working([c], []));
    Extend(w0, ws, acts, Claim([c], w0.items, true), w1);
    ws, acts := ws + [w1], acts + [Claim([c], w0.items, true)];
    var _, w2 := OnlyCandidate(w1, c, r);
    Extend(w0, ws, acts, PassOver(true, false), w2);
    ws, acts := ws + [w2], acts + [PassOver(true, false)];
    var w3 := w2.(phase := Shipping(w2.phase.done));
    Extend(w0, ws, acts, EndBatch, w3);
    ws, acts := ws + [w3], acts + [EndBatch];
    var w4 := NothingToShip(w3, Done(id, None, true));
    Extend(w0, ws, acts, Ship(0, true, None), w4);
    ws, acts := ws + [w4], acts + [Ship(0, true, None)];
    var w5 := AckOne(w4, Done(id, None, true));
    Extend(w0, ws, acts, Settle(1, true, None), w5);
    ws, acts := ws + [w5], acts + [Settle(1, true, None)];
  }

  /**
   A single failed ship is enough: the candidate is redelivered, passed over as already decided, and acked,
   and its result is not at the gateway in that state nor, by LostForever, in any later one.
   */
  lemma FailedShipLosesTheResult(id: nat, e: string, r: Result)
    returns (ws: seq<World>, acts: seq<Action>, zs: seq<World>, more: seq<Action>)
    requires r.enrollmentId == e
    ensures RunFrom(START, ws, acts) && RunFrom(ws[|acts|], zs, more)
    ensures Lost(ws[|acts|], e) && e in ws[|acts|].captured
    ensures id in zs[|more|].acked && Lost(zs[|more|], e)
  {
    ws, acts := DecidedButNotShipped(id, e, r);
    zs, more := RedeliveredAndAcked(id, e, r);
    LostForever(ws[|acts|], zs, more, |more|, e);
  }
}
