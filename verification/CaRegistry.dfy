/** The CA registry as Core runs it: each operation, and the single lifecycle write it amounts to. */
module CaRegistry {
  import opened Text
  import opened Wildcards
  import opened CaLifecycle
  import opened CaDependents

  datatype Error = NotFound | InvalidCert | Duplicate | EmptyName | IllegalTransition | HasDependents(n: nat)
    | BadWindow | NoBackend | AlreadyScheduled | NotScheduled | BackendFailed | PersistFailed | Unreadable

  datatype Outcome<+T> = Ok(value: T) | Err(error: Error)

  function NewRow(name: string, fp: string, certPem: string, kmsKeyId: string, st: State): CA {
    CA(name, fp, certPem, kmsKeyId, st, 0, 0, 0, 0)
  }

  /** The certificates of all CAs that are not retired, in order of id. */
  function TrustedPems(rows: map<nat, CA>, n: nat): (pems: seq<string>)
    ensures forall p :: p in pems <==> exists id: nat :: id < n && id in rows && rows[id].state != Retired && rows[id].certPem == p
  {
    if n == 0 then []
    else TrustedPems(rows, n - 1)
         + (if n - 1 in rows && rows[n - 1].state != Retired then [rows[n - 1].certPem] else [])
  }

  function TrustBundleOf(t: Table): seq<string> {
    Sort(TrustedPems(t.rows, t.next))
  }

  /** The bundle holds the certificate of every CA that is not retired and no other. */
  lemma BundleIsTheTrustedSet(t: Table, p: string)
    requires Inv(t)
    ensures p in TrustBundleOf(t) <==> exists id: nat :: Trusted(t, id) && t.rows[id].certPem == p
  {
    assert p in TrustBundleOf(t) <==> p in multiset(TrustedPems(t.rows, t.next));
    if p in TrustedPems(t.rows, t.next) {
      var id: nat :| id < t.next && id in t.rows && t.rows[id].state != Retired && t.rows[id].certPem == p;
      assert Trusted(t, id);
    }
    if id: nat :| Trusted(t, id) && t.rows[id].certPem == p {
      assert id < t.next && t.rows[id].state != Retired;
      assert p in TrustedPems(t.rows, t.next);
    }
  }

  /** Whatever order the rows come back in, the bundle is the same list. */
  lemma BundleIsStable(t: Table, rowOrder: seq<string>)
    requires multiset(rowOrder) == multiset(TrustedPems(t.rows, t.next))
    ensures Sort(rowOrder) == TrustBundleOf(t)
  {
    SortCanonical(rowOrder, TrustedPems(t.rows, t.next));
  }

  /** How a call to the key custody backend ends; a lost reply looks like a refusal but took effect. */
  datatype Reply = Accepted | Refused | LostReply

  /** The custody backend: the keys it will destroy when their window runs out. */
  class KeyBackend {
    var pending: set<string>

    constructor ()
      ensures pending == {}
    {
      pending := {};
    }

    /** Refused, whatever the reply would have been, for a key that is pending already. */
    method ScheduleDeletion(key: string, reply: Reply) returns (ok: bool)
      modifies this
      ensures ok <==> reply == Accepted && key !in old(pending)
      ensures pending == if reply == Refused then old(pending) else old(pending) + {key}
    {
      ok := reply == Accepted && key !in pending;
      if reply != Refused {
        pending := pending + {key};
      }
    }

    /** Refused for a key that is not pending. */
    method CancelDeletion(key: string, reply: Reply) returns (ok: bool)
      modifies this
      ensures ok <==> reply == Accepted && key in old(pending)
      ensures pending == if reply == Refused then old(pending) else old(pending) - {key}
    {
      ok := reply == Accepted && key in pending;
      if reply != Refused {
        pending := pending - {key};
      }
    }
  }

  class Registry {
    var rows: map<nat, CA>
    var next: nat
    var enrollments: seq<Enrollment>
    var heartbeats: seq<Heartbeat>

    ghost function View(): Table
      reads this
    {
      Table(rows, next)
    }

    ghost predicate Valid()
      reads this
    {
      Inv(View())
    }

    constructor ()
      ensures Valid() && View() == EMPTY
    {
      rows, next, enrollments, heartbeats := map[], 0, [], [];
    }

    /** `parsed` is what parsing the PEM as a P256 CA certificate yields: its fingerprint, or None. */
    method Stage(name: string, certPem: string, kmsKeyId: string, parsed: Option<string>) returns (r: Outcome<CA>)
      requires Valid()
      modifies this`rows, this`next
      ensures Valid()
      ensures r.Ok? <==> && name != "" && parsed.Some?
                         && forall id :: id in old(rows) ==> old(rows)[id].name != name && old(rows)[id].fingerprint != parsed.value
      ensures r.Ok? ==> && r.value == CA(name, parsed.value, certPem, kmsKeyId, Staged, 0, 0, 0, 0)
                        && rows == old(rows)[old(next) := r.value] && next == old(next) + 1
                        && Step(old(View()), Insert(r.value), View())
      ensures r.Err? ==> View() == old(View()) && r.error == if name == "" then EmptyName
                                                             else if parsed.None? then InvalidCert
                                                             else Duplicate
    {
      if name == "" {
        return Err(EmptyName);
      }
      if parsed.None? {
        return Err(InvalidCert);
      }
      var row := NewRow(name, parsed.value, certPem, kmsKeyId, Staged);
      if !CanInsert(Table(rows, next), row) {
        return Err(Duplicate);
      }
      StepKeepsInv(View(), Insert(row), InsertRow(View(), row));
      rows, next := rows[next := row], next + 1;
      return Ok(row);
    }

    method FindActive() returns (cur: Option<nat>)
      ensures cur.Some? ==> InState(View(), cur.value, Active)
      ensures cur.None? ==> forall id: nat :: !InState(View(), id, Active)
    {
      var active := set id | id in rows && rows[id].state == Active;
      if active == {} {
        assert forall id: nat :: InState(View(), id, Active) ==> id in active;
        return None;
      }
      var id :| id in active;
      return Some(id);
    }

    /** Cut-over: the target becomes active, the CA that was active becomes draining, nothing else moves. */
    method Activate(id: nat) returns (r: Outcome<()>)
      requires Valid()
      modifies this`rows
      ensures Valid()
      ensures r.Ok? <==> InState(old(View()), id, Staged)
      ensures r == Err(NotFound) <==> id !in old(rows)
      ensures r.Err? ==> View() == old(View()) && r.error in {NotFound, IllegalTransition}
      ensures r.Ok? ==> exists seen :: Step(old(View()), Promote(id, seen), View())
      ensures r.Ok? ==> rows.Keys == old(rows).Keys && forall i :: i in rows ==>
                rows[i] == if i == id then old(rows)[i].(state := Active)
                           else if old(rows)[i].state == Active then old(rows)[i].(state := Draining)
                           else old(rows)[i]
    {
      if id !in rows {
        return Err(NotFound);
      }
      if rows[id].state != Staged {
        return Err(IllegalTransition);
      }
      var cur := FindActive();
      ghost var t := View();
      if cur.Some? {
        assert InState(t, cur.value, Active);
        rows := rows[cur.value := rows[cur.value].(state := Draining)];
      }
      rows := rows[id := rows[id].(state := Active)];
      assert View() == CutOver(t, id, cur);
      IndexRejectsStaleReads(t, id, cur);
      assert Step(t, Promote(id, cur), View());
      StepKeepsInv(t, Promote(id, cur), View());
      assert forall i :: i in t.rows && t.rows[i].state == Active ==> InState(t, i, Active);
      return Ok(());
    }

    /** Retire refuses while any counted leaf still chains to the CA; an unreadable count also refuses. */
    method Retire(id: nat, now: int, readable: bool) returns (r: Outcome<()>)
      requires Valid()
      modifies this`rows
      ensures Valid()
      ensures r.Ok? <==> && readable && InState(old(View()), id, Draining)
                         && forall e :: e in enrollments ==> !StillChains(e, heartbeats, old(rows)[id].fingerprint, now)
      ensures r.Ok? ==> Step(old(View()), CaLifecycle.Retire(id), View())
      ensures r.Ok? ==> rows == old(rows)[id := old(rows)[id].(state := Retired)]
      ensures r.Err? ==>
                && View() == old(View())
                && r.error == if id !in old(rows) then NotFound
                              else if old(rows)[id].state != Draining then IllegalTransition
                              else if !readable then Unreadable
                              else HasDependents(|Chained(enrollments, heartbeats, old(rows)[id].fingerprint, now)|)
    {
      if id !in rows {
        return Err(NotFound);
      }
      if rows[id].state != Draining {
        return Err(IllegalTransition);
      }
      if !readable {
        return Err(Unreadable);
      }
      var deps := LiveDependents(enrollments, heartbeats, rows[id].fingerprint, now);
      if deps > 0 {
        return Err(HasDependents(deps));
      }
      ghost var t := View();
      rows := rows[id := rows[id].(state := Retired)];
      StepKeepsInv(t, CaLifecycle.Retire(id), View());
      return Ok(());
    }

    method Abandon(id: nat) returns (r: Outcome<()>)
      requires Valid()
      modifies this`rows
      ensures Valid()
      ensures r.Ok? <==> InState(old(View()), id, Staged)
      ensures r.Ok? ==> Step(old(View()), CaLifecycle.Abandon(id), View())
      ensures r.Ok? ==> rows == old(rows)[id := old(rows)[id].(state := Retired)]
      ensures r.Err? ==> View() == old(View()) && r.error == if id in old(rows) then IllegalTransition else NotFound
    {
      if !(id in rows && rows[id].state == Staged) {
        return Err(if id in rows then IllegalTransition else NotFound);
      }
      ghost var t := View();
      rows := rows[id := rows[id].(state := Retired)];
      StepKeepsInv(t, CaLifecycle.Abandon(id), View());
      return Ok(());
    }

    /** Boot seed: fills an empty registry with one active CA and otherwise changes nothing. */
    method SeedActive(name: string, certPem: string, kmsKeyId: string, parsed: Option<string>)
      returns (r: Outcome<Option<CA>>)
      requires Valid()
      modifies this`rows, this`next
      ensures Valid()
      ensures r.Err? <==> parsed.None?
      ensures r.Ok? && r.value.Some? <==> parsed.Some? && old(rows) == map[]
      ensures r.Ok? && r.value.Some? ==> Step(old(View()), Insert(r.value.value), View())
      ensures r.Ok? && r.value.Some? ==>
                && r.value.value == CA(name, parsed.value, certPem, kmsKeyId, Active, 0, 0, 0, 0)
                && rows == map[old(next) := r.value.value] && next == old(next) + 1
      ensures !(r.Ok? && r.value.Some?) ==> View() == old(View())
    {
      if parsed.None? {
        return Err(InvalidCert);
      }
      if |rows| > 0 {
        return Ok(None);
      }
      assert rows.Keys == {};
      var row := NewRow(name, parsed.value, certPem, kmsKeyId, Active);
      StepKeepsInv(View(), Insert(row), InsertRow(View(), row));
      rows, next := rows[next := row], next + 1;
      return Ok(Some(row));
    }

    method TrustBundle() returns (out: seq<string>)
      requires Valid()
      ensures out == TrustBundleOf(View())
    {
      out := [];
      for id := 0 to next
        invariant out == TrustedPems(rows, id)
      {
        if id in rows && rows[id].state != Retired {
          out := out + [rows[id].certPem];
        }
      }
      out := Sort(out);
    }

    // -------------------------------------------------------------- accelerated drain

    method ForceRenew(id: nat, window: int, now: int) returns (r: Outcome<()>)
      requires Valid()
      modifies this`rows
      ensures Valid()
      ensures r.Ok? <==> window > 0 && InState(old(View()), id, Draining)
      ensures r.Ok? ==> rows == old(rows)[id := old(rows)[id].(forceRenewStartedAt := now, forceRenewWindow := window)]
      ensures r.Err? ==> rows == old(rows) && r.error == if window <= 0 then BadWindow
                                                         else if id !in old(rows) then NotFound
                                                         else IllegalTransition
    {
      if window <= 0 {
        return Err(BadWindow);
      }
      if id !in rows {
        return Err(NotFound);
      }
      if rows[id].state != Draining {
        return Err(IllegalTransition);
      }
      Note(id, rows[id].(forceRenewStartedAt := now, forceRenewWindow := window));
      return Ok(());
    }

    method StopForceRenew(id: nat) returns (r: Outcome<()>)
      requires Valid()
      modifies this`rows
      ensures Valid()
      ensures r.Ok? <==> id in old(rows)
      ensures r.Ok? ==> rows == old(rows)[id := old(rows)[id].(forceRenewStartedAt := 0, forceRenewWindow := 0)]
      ensures r.Err? ==> rows == old(rows) && r.error == NotFound
    {
      if id !in rows {
        return Err(NotFound);
      }
      Note(id, rows[id].(forceRenewStartedAt := 0, forceRenewWindow := 0));
      return Ok(());
    }

    /** Hosts are hurried along exactly while their CA is draining under a force-renew that has started. */
    method DrainWave(caFingerprint: string) returns (wave: Option<(int, int)>)
      requires Valid()
      ensures wave.Some? <==> && Normal(caFingerprint) != ""
                              && exists id :: && id in rows && rows[id].fingerprint == Normal(caFingerprint)
                                              && rows[id].state == Draining
                                              && rows[id].forceRenewStartedAt != 0 && rows[id].forceRenewWindow > 0
      ensures forall id :: wave.Some? && id in rows && rows[id].fingerprint == Normal(caFingerprint) ==>
                wave.value == (rows[id].forceRenewStartedAt, rows[id].forceRenewWindow)
    {
      var fp := Normal(caFingerprint);
      if fp == "" {
        return None;
      }
      var ids := set id | id in rows && rows[id].fingerprint == fp;
      if ids == {} {
        assert forall id :: id in rows && rows[id].fingerprint == fp ==> id in ids;
        return None;
      }
      var id :| id in ids;
      var c := rows[id];
      assert forall i :: i in rows && rows[i].fingerprint == fp ==> i == id;
      if c.state != Draining || c.forceRenewStartedAt == 0 || c.forceRenewWindow <= 0 {
        return None;
      }
      return Some((c.forceRenewStartedAt, c.forceRenewWindow));
    }

    /** Writes bookkeeping columns of one row. */
    method Note(id: nat, row: CA)
      requires Valid() && id in rows && SameIdentity(rows[id], row) && row.state == rows[id].state
      modifies this`rows
      ensures Valid() && rows == old(rows)[id := row]
      ensures Step(old(View()), Annotate(id, row), View())
    {
      ghost var t := View();
      rows := rows[id := row];
      StepKeepsInv(t, Annotate(id, row), View());
    }

    // -------------------------------------------------------------- key deletion

    /** Every key the backend will destroy is recorded as scheduled in some row, except those in `known`. */
    ghost predicate PendingRecorded(backend: KeyBackend, known: set<string>)
      reads this, backend
    {
      forall k :: k in backend.pending && k !in known ==>
        exists id: nat :: id in rows && rows[id].kmsKeyId == k && rows[id].keyDeletionScheduledAt != 0
    }

    /** What has to hold before the backend is asked to delete a CA's key. */
    ghost predicate Deletable(t: Table, id: nat, pendingDays: int, readable: bool, now: int)
      reads this
    {
      && 7 <= pendingDays <= 30 && InState(t, id, Retired) && readable
      && TrimSpace(t.rows[id].kmsKeyId) != "" && t.rows[id].keyDeletionScheduledAt == 0
      && forall e :: e in enrollments ==> !StillChains(e, heartbeats, t.rows[id].fingerprint, now)
    }

    /**
     Schedule a retired CA's key for deletion: backend first, then the row, and back out of the backend if
     the row cannot be written.  `schedule` and `rollback` are the backend's replies, `persistOk` whether the
     row write goes through.  `alarm` is the ROLLBACK FAILED report.
     */
    method ScheduleKeyDeletion(id: nat, pendingDays: int, backend: KeyBackend, now: int, deletionDate: int,
                               readable: bool, schedule: Reply, persistOk: bool, rollback: Reply,
                               ghost known: set<string>) returns (r: Outcome<int>, alarm: bool)
      requires Valid() && now != 0
      requires PendingRecorded(backend, known)
      modifies this`rows, backend
      ensures Valid()
      ensures r.Ok? <==> && Deletable(old(View()), id, pendingDays, readable, now)
                         && schedule == Accepted && old(rows)[id].kmsKeyId !in old(backend.pending) && persistOk
      ensures r.Ok? ==> && r.value == deletionDate
                        && backend.pending == old(backend.pending) + {old(rows)[id].kmsKeyId}
                        && rows == old(rows)[id := old(rows)[id].(keyDeletionScheduledAt := now, keyDeletionDate := deletionDate)]
      ensures r.Err? ==>
                && rows == old(rows)
                && r.error == if !(7 <= pendingDays <= 30) then BadWindow
                              else if id !in old(rows) then NotFound
                              else if old(rows)[id].state != Retired then IllegalTransition
                              else if TrimSpace(old(rows)[id].kmsKeyId) == "" then NoBackend
                              else if old(rows)[id].keyDeletionScheduledAt != 0 then AlreadyScheduled
                              else if !readable then Unreadable
                              else if exists e :: e in enrollments && StillChains(e, heartbeats, old(rows)[id].fingerprint, now)
                              then HasDependents(|Chained(enrollments, heartbeats, old(rows)[id].fingerprint, now)|)
                              else if schedule != Accepted || old(rows)[id].kmsKeyId in old(backend.pending) then BackendFailed
                              else PersistFailed
      ensures r.Err? ==>
                backend.pending ==
                if !Deletable(old(View()), id, pendingDays, readable, now) || schedule == Refused then old(backend.pending)
                else if schedule == Accepted && old(rows)[id].kmsKeyId !in old(backend.pending) && rollback != Refused
                then old(backend.pending)
                else old(backend.pending) + {old(rows)[id].kmsKeyId}
      ensures alarm <==> && Deletable(old(View()), id, pendingDays, readable, now)
                         && schedule == Accepted && old(rows)[id].kmsKeyId !in old(backend.pending) && !persistOk
                         && rollback != Accepted
      ensures !alarm && schedule != LostReply ==> PendingRecorded(backend, known)
      ensures id in old(rows) ==> PendingRecorded(backend, known + {old(rows)[id].kmsKeyId})
    {
      alarm := false;
      if pendingDays < 7 || pendingDays > 30 {
        return Err(BadWindow), false;
      }
      if id !in rows {
        return Err(NotFound), false;
      }
      var target := rows[id];
      if target.state != Retired {
        return Err(IllegalTransition), false;
      }
      if TrimSpace(target.kmsKeyId) == "" {
        return Err(NoBackend), false;
      }
      if target.keyDeletionScheduledAt != 0 {
        return Err(AlreadyScheduled), false;
      }
      if !readable {
        return Err(Unreadable), false;
      }
      var deps := LiveDependents(enrollments, heartbeats, target.fingerprint, now);
      if deps > 0 {
        return Err(HasDependents(deps)), false;
      }
      var ok := backend.ScheduleDeletion(target.kmsKeyId, schedule);
      if !ok {
        return Err(BackendFailed), false;
      }
      if !persistOk {
        var cancelled := backend.CancelDeletion(target.kmsKeyId, rollback);
        return Err(PersistFailed), !cancelled;
      }
      Note(id, target.(keyDeletionScheduledAt := now, keyDeletionDate := deletionDate));
      assert rows[id].kmsKeyId == target.kmsKeyId;
      assert forall i: nat :: i in old(rows) && old(rows)[i].keyDeletionScheduledAt != 0 ==> rows[i] == old(rows)[i];
      return Ok(deletionDate), false;
    }

    /** Cancel in the backend first, and forget the schedule only once the key is safe again. */
    method CancelKeyDeletion(id: nat, backend: KeyBackend, cancel: Reply, persistOk: bool, ghost known: set<string>)
      returns (r: Outcome<()>)
      requires Valid()
      requires PendingRecorded(backend, known)
      modifies this`rows, backend
      ensures Valid() && PendingRecorded(backend, known)
      ensures r.Ok? <==> && id in old(rows) && old(rows)[id].keyDeletionScheduledAt != 0 && persistOk
                         && cancel == Accepted && old(rows)[id].kmsKeyId in old(backend.pending)
      ensures r.Ok? ==> backend.pending == old(backend.pending) - {old(rows)[id].kmsKeyId}
                        && rows == old(rows)[id := old(rows)[id].(keyDeletionScheduledAt := 0, keyDeletionDate := 0)]
      ensures r.Err? ==>
                && rows == old(rows)
                && r.error == if id !in old(rows) then NotFound
                              else if old(rows)[id].keyDeletionScheduledAt == 0 then NotScheduled
                              else if cancel != Accepted || old(rows)[id].kmsKeyId !in old(backend.pending) then BackendFailed
                              else PersistFailed
      ensures r.Err? ==>
                backend.pending ==
                if r.error == PersistFailed || (r.error == BackendFailed && cancel == LostReply)
                then old(backend.pending) - {old(rows)[id].kmsKeyId} else old(backend.pending)
    {
      if id !in rows {
        return Err(NotFound);
      }
      var target := rows[id];
      if target.keyDeletionScheduledAt == 0 {
        return Err(NotScheduled);
      }
      var ok := backend.CancelDeletion(target.kmsKeyId, cancel);
      if !ok {
        return Err(BackendFailed);
      }
      if !persistOk {
        return Err(PersistFailed);
      }
      Note(id, target.(keyDeletionScheduledAt := 0, keyDeletionDate := 0));
      assert forall i: nat :: i in old(rows) && i != id ==> rows[i] == old(rows)[i];
      return Ok(());
    }
  }
}
