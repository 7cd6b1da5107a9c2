/**
 The certificate-authority table and the writes the rotation lifecycle makes to it:

   (new) --Stage--> staged --Activate--> active --(Activate of another)--> draining --Retire--> retired
                    staged --Abandon--> retired

 Every operation reaches the table through the single atomic writes of `Event`; whatever an operation read
 beforehand may be out of date by the time its write lands.  The theorems range over all runs of such writes.
 */
module CaLifecycle {
  import opened Wildcards

  datatype State = Staged | Active | Draining | Retired

  datatype CA = CA(name: string, fingerprint: string, certPem: string, kmsKeyId: string, state: State,
                   forceRenewStartedAt: int, forceRenewWindow: int,
                   keyDeletionScheduledAt: int, keyDeletionDate: int)

  /** Ids are handed out once and never reused. */
  datatype Table = Table(rows: map<nat, CA>, next: nat)

  const EMPTY := Table(map[], 0)

  predicate InState(t: Table, id: nat, st: State) {
    id in t.rows && t.rows[id].state == st
  }

  /** Membership of the trust bundle: every CA that is not retired. */
  predicate Trusted(t: Table, id: nat) {
    id in t.rows && t.rows[id].state != Retired
  }

  // ---------------------------------------------------------------- schema constraints

  /** The partial unique index on state = 'active'. */
  ghost predicate AtMostOneActive(t: Table) {
    forall a: nat, b: nat :: InState(t, a, Active) && InState(t, b, Active) ==> a == b
  }

  ghost predicate UniqueRows(t: Table) {
    forall a, b :: a in t.rows && b in t.rows && a != b ==>
      t.rows[a].name != t.rows[b].name && t.rows[a].fingerprint != t.rows[b].fingerprint
  }

  ghost predicate Inv(t: Table) {
    && (forall id :: id in t.rows ==> id < t.next)
    && UniqueRows(t)
    && AtMostOneActive(t)
  }

  /** What the schema lets through on insert. */
  predicate CanInsert(t: Table, row: CA) {
    && (forall id :: id in t.rows ==> t.rows[id].name != row.name && t.rows[id].fingerprint != row.fingerprint)
    && (row.state == Active ==> forall id :: id in t.rows ==> t.rows[id].state != Active)
  }

  // ---------------------------------------------------------------- atomic writes

  function InsertRow(t: Table, row: CA): Table {
    Table(t.rows[t.next := row], t.next + 1)
  }

  function SetState(t: Table, id: nat, st: State): Table
    requires id in t.rows
  {
    t.(rows := t.rows[id := t.rows[id].(state := st)])
  }

  /** Activate's writes: demote the CA it saw active, if that one still is, then promote the target. */
  function CutOver(t: Table, id: nat, seen: Option<nat>): Table
    requires id in t.rows
  {
    var t1 := if seen.Some? && InState(t, seen.value, Active) then SetState(t, seen.value, Draining) else t;
    SetState(t1, id, Active)
  }

  datatype Event =
    | Insert(row: CA)                       // Stage, or the boot seed
    | Promote(id: nat, seen: Option<nat>)   // Activate, having read `seen` as the active CA
    | Retire(id: nat)
    | Abandon(id: nat)
    | Annotate(id: nat, row: CA)            // force-renew and key-deletion columns

  predicate SameIdentity(a: CA, b: CA) {
    a.name == b.name && a.fingerprint == b.fingerprint && a.certPem == b.certPem && a.kmsKeyId == b.kmsKeyId
  }

  ghost predicate Step(t: Table, e: Event, t': Table) {
    match e
    case Insert(row) => (row.state == Staged || row.state == Active) && CanInsert(t, row) && t' == InsertRow(t, row)
    case Promote(id, seen) => InState(t, id, Staged) && t' == CutOver(t, id, seen) && AtMostOneActive(t')
    case Retire(id) => InState(t, id, Draining) && t' == SetState(t, id, Retired)
    case Abandon(id) => InState(t, id, Staged) && t' == SetState(t, id, Retired)
    case Annotate(id, row) =>
      id in t.rows && SameIdentity(t.rows[id], row) && row.state == t.rows[id].state && t' == t.(rows := t.rows[id := row])
  }

  ghost predicate Next(t: Table, t': Table) {
    t' == t || exists e :: Step(t, e, t')
  }

  // ---------------------------------------------------------------- what one write keeps

  lemma StepKeepsOneActive(t: Table, e: Event, t': Table)
    requires Inv(t) && Step(t, e, t')
    ensures AtMostOneActive(t')
  {
    if !e.Promote? {
      forall a: nat, b: nat | InState(t', a, Active) && InState(t', b, Active) ensures a == b {
        assert InState(t, a, Active) || (e.Insert? && a == t.next);
        assert InState(t, b, Active) || (e.Insert? && b == t.next);
      }
    }
  }

  lemma StepKeepsUniqueRows(t: Table, e: Event, t': Table)
    requires Inv(t) && Step(t, e, t')
    ensures UniqueRows(t')
    ensures forall id :: id in t'.rows ==> id < t'.next
  {
    match e {
      case Insert(row) => InsertKeepsUniqueRows(t, row);
      case _ =>
        forall id | id in t.rows ensures id in t'.rows && SameIdentity(t.rows[id], t'.rows[id]) {
          StepMovesAlongEdges(t, e, t', id);
        }
        SameRowsAreUnique(t, t');
    }
  }

  lemma InsertKeepsUniqueRows(t: Table, row: CA)
    requires Inv(t) && CanInsert(t, row)
    ensures UniqueRows(InsertRow(t, row))
  {
  }

  lemma SameRowsAreUnique(t: Table, t': Table)
    requires UniqueRows(t) && t'.rows.Keys == t.rows.Keys
    requires forall id :: id in t.rows ==> SameIdentity(t.rows[id], t'.rows[id])
    ensures UniqueRows(t')
  {
  }

  lemma StepKeepsInv(t: Table, e: Event, t': Table)
    requires Inv(t) && Step(t, e, t')
    ensures Inv(t')
  {
    StepKeepsOneActive(t, e, t');
    StepKeepsUniqueRows(t, e, t');
  }

  function Rank(st: State): nat {
    match st case Staged => 0 case Active => 1 case Draining => 2 case Retired => 3
  }

  /** An edge of the lifecycle diagram, or no change. */
  predicate Edge(a: State, b: State) {
    a == b || (a == Staged && b == Active) || (a == Active && b == Draining)
    || (a == Draining && b == Retired) || (a == Staged && b == Retired)
  }

  lemma StepMovesAlongEdges(t: Table, e: Event, t': Table, id: nat)
    requires Inv(t) && Step(t, e, t') && id in t.rows
    ensures id in t'.rows && Edge(t.rows[id].state, t'.rows[id].state)
    ensures SameIdentity(t.rows[id], t'.rows[id])
  {
  }

  /** The active CA can only be displaced by the one taking over, so an active CA is never lost. */
  lemma StepKeepsSomeActive(t: Table, e: Event, t': Table, a: nat) returns (b: nat)
    requires Inv(t) && Step(t, e, t') && InState(t, a, Active)
    ensures InState(t', b, Active)
    ensures a != b ==> e.Promote? && e.id == b && e.seen == Some(a) && InState(t', a, Draining)
  {
    match e {
      case Promote(id, seen) =>
        b := id;
        if seen != Some(a) {
          assert InState(t', a, Active) && InState(t', id, Active);
          assert false;
        }
      case _ => b := a;
    }
  }

  /**
   The index is what makes a cut-over with a stale read safe: it rejects exactly the transactions in which
   some other CA became active after the read.
   */
  lemma IndexRejectsStaleReads(t: Table, id: nat, seen: Option<nat>)
    requires Inv(t) && InState(t, id, Staged)
    ensures AtMostOneActive(CutOver(t, id, seen)) <==> forall a: nat :: InState(t, a, Active) ==> seen == Some(a)
  {
    var t' := CutOver(t, id, seen);
    assert InState(t', id, Active);
    if a: nat :| InState(t, a, Active) && seen != Some(a) {
      assert InState(t', a, Active) && a != id;
    } else {
      forall b: nat | InState(t', b, Active) ensures b == id {
        assert b != id ==> InState(t, b, Active);
      }
    }
  }

  // ---------------------------------------------------------------- whole runs

  ghost predicate Run(ts: seq<Table>) {
    && ts != [] && ts[0] == EMPTY
    && forall i :: 0 < i < |ts| ==> Next(ts[i - 1], ts[i])
  }

  lemma {:induction false} RunInv(ts: seq<Table>, i: nat)
    requires Run(ts) && i < |ts|
    ensures Inv(ts[i])
  {
    if i > 0 {
      RunInv(ts, i - 1);
      if ts[i] != ts[i - 1] {
        var e :| Step(ts[i - 1], e, ts[i]);
        StepKeepsInv(ts[i - 1], e, ts[i]);
      }
    }
  }

  /** Once some CA is active, every later state has exactly one active CA. */
  lemma {:induction false} AlwaysOneActive(ts: seq<Table>, i: nat, a: nat, j: nat) returns (b: nat)
    requires Run(ts) && i <= j < |ts| && InState(ts[i], a, Active)
    ensures InState(ts[j], b, Active) && Trusted(ts[j], b)
    ensures forall c: nat :: InState(ts[j], c, Active) ==> c == b
    decreases j
  {
    RunInv(ts, j);
    if i == j {
      b := a;
    } else {
      var p := AlwaysOneActive(ts, i, a, j - 1);
      RunInv(ts, j - 1);
      if ts[j] == ts[j - 1] {
        b := p;
      } else {
        var e :| Step(ts[j - 1], e, ts[j]);
        b := StepKeepsSomeActive(ts[j - 1], e, ts[j], p);
      }
    }
  }

  lemma NextMovesForward(t: Table, t': Table, id: nat)
    requires Inv(t) && Next(t, t') && id in t.rows
    ensures Forward(t, t', id)
  {
    if t' != t {
      var e :| Step(t, e, t');
      StepMovesAlongEdges(t, e, t', id);
    }
  }

  /** A CA keeps its identity and only ever moves forward; in particular retired is final. */
  lemma {:induction false} NeverBackwards(ts: seq<Table>, i: nat, j: nat, id: nat)
    requires Run(ts) && i <= j < |ts| && id in ts[i].rows
    ensures Forward(ts[i], ts[j], id)
    decreases j
  {
    if i < j {
      NeverBackwards(ts, i, j - 1, id);
      RunMovesForward(ts, j, id);
      ForwardTwice(ts[i], ts[j - 1], ts[j], id);
    } else {
      assert ts[j] == ts[i];
    }
  }

  lemma RunMovesForward(ts: seq<Table>, j: nat, id: nat)
    requires Run(ts) && 0 < j < |ts| && id in ts[j - 1].rows
    ensures Forward(ts[j - 1], ts[j], id)
  {
    RunInv(ts, j - 1);
    NextMovesForward(ts[j - 1], ts[j], id);
  }

  lemma ForwardTwice(a: Table, b: Table, c: Table, id: nat)
    requires id in a.rows && Forward(a, b, id) && Forward(b, c, id)
    ensures Forward(a, c, id)
  {
  }

  ghost predicate Forward(t: Table, t': Table, id: nat)
    requires id in t.rows
  {
    && id in t'.rows && SameIdentity(t.rows[id], t'.rows[id])
    && Rank(t.rows[id].state) <= Rank(t'.rows[id].state)
  }

  /** Trust before you sign: a CA that signs has been in the trust bundle ever since it entered the table. */
  lemma TrustedEverSinceStaged(ts: seq<Table>, i: nat, j: nat, id: nat)
    requires Run(ts) && i <= j < |ts| && id in ts[i].rows && InState(ts[j], id, Active)
    ensures forall k :: i <= k <= j ==> Trusted(ts[k], id)
  {
    forall k | i <= k <= j ensures Trusted(ts[k], id) {
      NeverBackwards(ts, i, k, id);
      NeverBackwards(ts, k, j, id);
    }
  }

  /** A CA that is draining or retired never signs again. */
  lemma NeverActiveAgain(ts: seq<Table>, i: nat, j: nat, id: nat)
    requires Run(ts) && i <= j < |ts| && id in ts[i].rows && Rank(ts[i].rows[id].state) >= 2
    ensures !InState(ts[j], id, Active) && !InState(ts[j], id, Staged)
  {
    NeverBackwards(ts, i, j, id);
  }
}
