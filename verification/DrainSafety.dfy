/**
 Retiring a CA while the fleet keeps moving.  Every read and write is a step of its own: a reconcile reads the
 active CA and stores it later, a leaf is signed, then recorded, then delivered, a heartbeat is sent and then
 written, and a retire reads the CA, the enrollments and the heartbeats before it writes.
 */
module DrainSafety {
  import opened Text
  import opened Wildcards
  import opened CaLifecycle
  import opened CaDependents

  datatype Leaf = Leaf(issuer: string, exp: int)

  /** A leaf on its way to a host: signed, then in the enrollment row, then in the heartbeat row and answered. */
  datatype Job = Idle | Signed(leaf: Leaf) | Stamped(leaf: Leaf) | Answered(leaf: Leaf)

  /**
   `held` is the leaf the host really presents, `report` a heartbeat it has sent, `job` the leaf it waits for,
   and `orphans` renewals it has given up on but the control plane may carry on with.  The rest is what the
   control plane knows: the ca_fingerprint column, the certificate frozen at enrollment, and the expiry in the
   heartbeat row if there is one.
   */
  datatype Host = Host(held: Option<Leaf>, rowFp: string, frozen: Leaf, beat: Option<int>, report: Option<int>,
                       job: Job, orphans: seq<Job>)

  // ---------------------------------------------------------------- one host

  datatype HostEvent =
    | Sign(s: nat, leaf: Leaf)  // a renewal, signed by process s
    | Fail                      // the renewal ends in an error before anything is recorded
    | Stamp                     // ca_fingerprint is written
    | Update(ok: bool)          // the heartbeat row's expiry is written, if there is one
    | Deliver
    | GiveUp
    | CarryOn(i: nat)           // an abandoned renewal's next write
    | Send(told: bool)          // a heartbeat leaves the host, telling its leaf's expiry or not
    | Receive                   // and is written, a missing expiry as 0
    | Drop                      // or lost
    | Reap

  predicate HostCan(h: Host, now: int, e: HostEvent) {
    match e
    case Sign(_, _) => h.held.Some? && h.job.Idle?
    case Fail => h.job.Signed?
    case Stamp => h.job.Signed?
    case Update(_) => h.job.Stamped?
    case Deliver => h.job.Answered?
    case GiveUp => h.held.Some? && !h.job.Idle?
    case CarryOn(i) => i < |h.orphans| && (h.orphans[i].Signed? || h.orphans[i].Stamped?)
    case Send(_) => h.held.Some? && h.report.None?
    case Receive => h.report.Some?
    case Drop => h.report.Some?
    case Reap => h.beat.Some? && h.beat.value != 0 && h.beat.value <= now
  }

  function Rebeat(h: Host, exp: int, ok: bool): Option<int> {
    if ok && h.beat.Some? then Some(exp) else h.beat
  }

  function HostDo(h: Host, now: int, e: HostEvent): Host
    requires HostCan(h, now, e)
  {
    match e
    case Sign(_, leaf) => h.(job := Signed(leaf))
    case Fail => h.(job := Idle)
    case Stamp => h.(rowFp := Normal(h.job.leaf.issuer), job := Stamped(h.job.leaf))
    case Update(ok) => h.(beat := Rebeat(h, h.job.leaf.exp, ok), job := Answered(h.job.leaf))
    case Deliver => h.(held := Some(h.job.leaf), job := Idle)
    case GiveUp => h.(job := Idle, orphans := h.orphans + [h.job])
    case CarryOn(i) =>
      var leaf := h.orphans[i].leaf;
      if h.orphans[i].Signed? then h.(rowFp := Normal(leaf.issuer), orphans := h.orphans[i := Stamped(leaf)])
      else h.(beat := Rebeat(h, leaf.exp, true), orphans := h.orphans[i := Answered(leaf)])
    case Send(told) => h.(report := Some(if told then h.held.value.exp else 0))
    case Receive => h.(beat := h.report, report := None)
    case Drop => h.(report := None)
    case Reap => h.(beat := None)
  }

  // ---------------------------------------------------------------- the fleet

  datatype Flight =
    | HasRead(id: nat)
    | HasRows(id: nat, rows: seq<Enrollment>)
    | HasCount(id: nat, zero: bool)

  /** A reconcile of signing process `s` that has read `fp` as the active CA's fingerprint. */
  datatype Swap = Swap(s: nat, fp: string)

  /**
   `signers` maps each signing process to the fingerprint of the CA it signs with, `enrolling` each address
   being enrolled to the leaf signed for it but not yet recorded.
   */
  datatype World = World(table: Table, signers: map<nat, string>, swaps: map<nat, Swap>, enrolling: map<string, Leaf>,
                         hosts: map<string, Host>, now: int, flights: map<nat, Flight>)

  const START := World(EMPTY, map[], map[], map[], map[], 0, map[])

  datatype SigningEvent =
    | Boot(s: nat, id: nat)              // on the configured CA, when the first reconcile fails
    | Read(q: nat, s: nat, active: nat)  // also the boot of a process whose first reconcile succeeds
    | Store(q: nat)

  datatype RetireEvent = Begin(id: nat) | ReadRows(rows: seq<Enrollment>) | ReadBeats | Write

  datatype Action =
    | Lifecycle(e: Event, t: Table)
    | Tick(to: int)
    | Signing(se: SigningEvent)
    | EnrollSign(ip: string, s: nat, exp: int)
    | EnrollRecord(ip: string, stamped: bool)  // rows from before the column existed are unstamped
    | OnHost(ip: string, he: HostEvent)
    | Retiring(p: nat, re: RetireEvent)

  function RowOf(ip: string, h: Host): Enrollment {
    Enrollment(ip, true, h.rowFp, Some(LeafCert(h.frozen.issuer, h.frozen.exp)))
  }

  function Beats(w: World): map<string, int> {
    map ip | ip in w.hosts && w.hosts[ip].beat.Some? :: w.hosts[ip].beat.value
  }

  /** A query over the enrollments returns each row, in any order. */
  ghost predicate AllRows(w: World, rows: seq<Enrollment>) {
    forall ip :: ip in w.hosts ==> RowOf(ip, w.hosts[ip]) in rows
  }

  ghost predicate SigningCan(w: World, e: SigningEvent) {
    match e
    case Boot(_, id) => id in w.table.rows
    case Read(q, _, active) => q !in w.swaps && InState(w.table, active, Active)
    case Store(q) => q in w.swaps
  }

  ghost function SigningDo(w: World, e: SigningEvent): World
    requires SigningCan(w, e)
  {
    match e
    case Boot(s, id) => w.(signers := w.signers[s := w.table.rows[id].fingerprint])
    case Read(q, s, active) => w.(swaps := w.swaps[q := Swap(s, w.table.rows[active].fingerprint)])
    case Store(q) => w.(signers := w.signers[w.swaps[q].s := w.swaps[q].fp], swaps := w.swaps - {q})
  }

  ghost predicate RetireCan(w: World, p: nat, e: RetireEvent) {
    match e
    case Begin(id) => p !in w.flights && InState(w.table, id, Draining)
    case ReadRows(rows) => p in w.flights && w.flights[p].HasRead? && AllRows(w, rows)
    case ReadBeats => p in w.flights && w.flights[p].HasRows? && w.flights[p].id in w.table.rows
    case Write => p in w.flights && w.flights[p].HasCount?
  }

  ghost predicate NoneCounted(w: World, rows: seq<Enrollment>, fp: string) {
    Filter(rows, DependsOn(Beats(w), fp, w.now)) == []
  }

  ghost function RetireDo(w: World, p: nat, e: RetireEvent): World
    requires RetireCan(w, p, e)
  {
    match e
    case Begin(id) => w.(flights := w.flights[p := HasRead(id)])
    case ReadRows(rows) => w.(flights := w.flights[p := HasRows(w.flights[p].id, rows)])
    case ReadBeats =>
      var f := w.flights[p];
      w.(flights := w.flights[p := HasCount(f.id, NoneCounted(w, f.rows, w.table.rows[f.id].fingerprint))])
    case Write =>
      var f := w.flights[p];
      w.(table := if f.zero && InState(w.table, f.id, Draining) then SetState(w.table, f.id, Retired) else w.table,
         flights := w.flights - {p})
  }

  ghost predicate Can(w: World, a: Action) {
    match a
    case Lifecycle(e, t) =>
      && !e.Retire? && CaLifecycle.Step(w.table, e, t)
      && (e.Insert? ==> Normal(e.row.fingerprint) != "")  // a digest is never blank
    case Tick(to) => to >= w.now
    case Signing(se) => SigningCan(w, se)
    case EnrollSign(ip, s, _) => ip !in w.hosts && ip !in w.enrolling && s in w.signers
    case EnrollRecord(ip, _) => ip in w.enrolling
    case OnHost(ip, he) =>
      && ip in w.hosts && HostCan(w.hosts[ip], w.now, he)
      && (he.Sign? ==> he.s in w.signers && he.leaf.issuer == w.signers[he.s])
    case Retiring(p, re) => RetireCan(w, p, re)
  }

  ghost function Do(w: World, a: Action): World
    requires Can(w, a)
  {
    match a
    case Lifecycle(_, t) => w.(table := t)
    case Tick(to) => w.(now := to)
    case Signing(se) => SigningDo(w, se)
    case EnrollSign(ip, s, exp) => w.(enrolling := w.enrolling[ip := Leaf(w.signers[s], exp)])
    case EnrollRecord(ip, stamped) =>
      var leaf := w.enrolling[ip];
      w.(enrolling := w.enrolling - {ip},
         hosts := w.hosts[ip := Host(None, if stamped then Normal(leaf.issuer) else "", leaf, None, None, Answered(leaf), [])])
    case OnHost(ip, he) => w.(hosts := w.hosts[ip := HostDo(w.hosts[ip], w.now, he)])
    case Retiring(p, re) => RetireDo(w, p, re)
  }

  ghost predicate Step(w: World, a: Action, w': World) {
    Can(w, a) && w' == Do(w, a)
  }

  // ---------------------------------------------------------------- sources of leaves

  /** The host holds an unexpired leaf of the CA. */
  predicate Holds(h: Host, fp: string, now: int) {
    h.held.Some? && h.held.value.issuer == fp && h.held.value.exp > now
  }

  predicate Harmless(l: Leaf, fp: string, now: int) {
    l.issuer == fp ==> l.exp <= now
  }

  ghost predicate NoSigner(w: World, fp: string) {
    forall s :: s in w.signers ==> w.signers[s] != fp
  }

  ghost predicate NoReconcile(w: World, fp: string) {
    forall q :: q in w.swaps ==> w.swaps[q].fp != fp
  }

  /** No unexpired leaf of the CA is signed and not yet with its host. */
  ghost predicate NoSignature(w: World, fp: string) {
    && (forall ip :: ip in w.enrolling ==> Harmless(w.enrolling[ip], fp, w.now))
    && (forall ip :: ip in w.hosts && !w.hosts[ip].job.Idle? ==> Harmless(w.hosts[ip].job.leaf, fp, w.now))
  }

  ghost predicate NoLiveLeaf(w: World, fp: string) {
    forall ip :: ip in w.hosts ==> !Holds(w.hosts[ip], fp, w.now)
  }

  ghost predicate Quiet(w: World, fp: string) {
    NoSigner(w, fp) && NoReconcile(w, fp) && NoSignature(w, fp)
  }

  /** No unexpired leaf, and nobody left who could sign or deliver one. */
  ghost predicate Settled(w: World, id: nat)
    requires id in w.table.rows
  {
    Quiet(w, w.table.rows[id].fingerprint) && NoLiveLeaf(w, w.table.rows[id].fingerprint)
  }

  /** A renewal of this host is in the enrollment row but not yet with the host. */
  predicate Moving(h: Host) {
    h.job.Stamped? || h.job.Answered?
  }

  ghost predicate NobodyMoving(w: World, fp: string) {
    forall ip :: ip in w.hosts && Holds(w.hosts[ip], fp, w.now) ==> !Moving(w.hosts[ip])
  }

  // ---------------------------------------------------------------- rules of operation

  /** What operation has to ensure for a drain count to be worth anything. */
  datatype Rule =
    | SignersLeft      // a retire starts after every signer has left the CA
    | ReconcilesDone   // and no reconcile that read it as active is still to store it
    | LeavesDelivered  // and every leaf signed under it has reached its host or lapsed
    | NobodyBetween    // a retire reads while no host on the CA has a renewal recorded but not delivered
    | AnswersArrive    // a host does not give up on a renewal
    | BeatFirst        // a renewal finds a heartbeat row to update
    | BeatsCurrent     // a heartbeat is written before the leaf it was sent with is replaced
    | BeatsReport      // and, once the host has renewed, tells its leaf's expiry
    | BootsActive      // a signing process starts on the active CA

  ghost predicate Begins(w: World, a: Action, id: nat) {
    a.Retiring? && a.re.Begin? && a.re.id == id && id in w.table.rows
  }

  ghost predicate Keeps(r: Rule, w: World, a: Action) {
    match r
    case SignersLeft => forall id: nat :: Begins(w, a, id) ==> NoSigner(w, w.table.rows[id].fingerprint)
    case ReconcilesDone => forall id: nat :: Begins(w, a, id) ==> NoReconcile(w, w.table.rows[id].fingerprint)
    case LeavesDelivered => forall id: nat :: Begins(w, a, id) ==> NoSignature(w, w.table.rows[id].fingerprint)
    case NobodyBetween =>
      a.Retiring? && (a.re.ReadRows? || a.re.ReadBeats?) && a.p in w.flights && w.flights[a.p].id in w.table.rows ==>
        NobodyMoving(w, w.table.rows[w.flights[a.p].id].fingerprint)
    case AnswersArrive => !(a.OnHost? && a.he.GiveUp?)
    case BeatFirst => a.OnHost? && a.he.Update? && a.ip in w.hosts ==> a.he.ok && w.hosts[a.ip].beat.Some?
    case BeatsCurrent => a.OnHost? && a.he.Receive? && a.ip in w.hosts ==> ReportCurrent(w.hosts[a.ip])
    case BeatsReport => a.OnHost? && a.he.Receive? && a.ip in w.hosts ==> ReportTells(w.hosts[a.ip])
    case BootsActive => a.Signing? && a.se.Boot? ==> InState(w.table, a.se.id, Active)
  }

  predicate ReportCurrent(h: Host) {
    h.held.Some? && (h.report == Some(h.held.value.exp) || h.report == Some(0)) && !h.job.Answered?
  }

  predicate ReportTells(h: Host) {
    h.report == Some(0) ==> h.held == Some(h.frozen)
  }

  ghost predicate Prudent(w: World, a: Action) {
    forall r :: Keeps(r, w, a)
  }

  // ---------------------------------------------------------------- what the count relies on

  /** The enrollment row names the CA of the held leaf. */
  predicate RowTells(h: Host)
    requires h.held.Some?
  {
    if Normal(h.rowFp) == "" then h.held.value == h.frozen else h.rowFp == Normal(h.held.value.issuer)
  }

  /** The heartbeat row, or where it tells none the enroll certificate, gives the held leaf's expiry. */
  predicate BeatTells(h: Host)
    requires h.held.Some?
  {
    match h.beat
    case Some(e) => if e > 0 then e == h.held.value.exp else h.held.value == h.frozen
    case None => h.held.value == h.frozen
  }

  predicate EnrolledOnly(h: Host) {
    && h.beat.None? && h.report.None? && h.job == Answered(h.frozen)
    && (Normal(h.rowFp) == "" || h.rowFp == Normal(h.frozen.issuer))
  }

  predicate MoveRecorded(h: Host, now: int) {
    && (Moving(h) ==> h.rowFp == Normal(h.job.leaf.issuer))
    && (h.job.Answered? ==> h.beat == Some(h.job.leaf.exp) || h.job.leaf.exp <= now)
  }

  /** The control plane's record of a host is good enough to judge its leaf, and the one it waits for. */
  predicate RecordFaithful(h: Host, now: int) {
    if h.held.None? then EnrolledOnly(h) && h.orphans == []
    else
      && h.orphans == [] && MoveRecorded(h, now)
      && (h.held.value.exp > now ==> (!Moving(h) ==> RowTells(h)) && (!h.job.Answered? ==> BeatTells(h)))
  }

  /** The CA with this fingerprint has been activated at some time. */
  ghost predicate Known(t: Table, fp: string) {
    exists id: nat :: id in t.rows && t.rows[id].fingerprint == fp && t.rows[id].state != Staged
  }

  ghost predicate HostKnown(t: Table, h: Host) {
    && (h.held.Some? ==> Known(t, h.held.value.issuer))
    && (!h.job.Idle? ==> Known(t, h.job.leaf.issuer))
  }

  ghost predicate SourcesKnown(w: World) {
    && (forall s :: s in w.signers ==> Known(w.table, w.signers[s]))
    && (forall q :: q in w.swaps ==> Known(w.table, w.swaps[q].fp))
    && (forall ip :: ip in w.enrolling ==> Known(w.table, w.enrolling[ip].issuer))
    && (forall ip :: ip in w.hosts ==> HostKnown(w.table, w.hosts[ip]))
  }

  /** A row that was read names this host's CA and its enroll certificate. */
  predicate Tells(r: Enrollment, ip: string, h: Host, fp: string) {
    r.overlayIp == ip && r.issued && r.cert == Some(LeafCert(h.frozen.issuer, h.frozen.exp)) && IssuerOf(r) == Some(Normal(fp))
  }

  ghost predicate RowsTell(w: World, rows: seq<Enrollment>, fp: string) {
    forall ip :: ip in w.hosts && Holds(w.hosts[ip], fp, w.now) ==> exists r :: r in rows && Tells(r, ip, w.hosts[ip], fp)
  }

  /** What a retire has read so far holds good. */
  ghost predicate FlightTells(w: World, f: Flight, fp: string) {
    && (f.HasRows? ==> RowsTell(w, f.rows, fp))
    && (f.HasCount? && f.zero ==> NoLiveLeaf(w, fp))
  }

  ghost predicate FlightSound(w: World, f: Flight) {
    && f.id in w.table.rows && Rank(w.table.rows[f.id].state) >= 2
    && var fp := w.table.rows[f.id].fingerprint; Quiet(w, fp) && FlightTells(w, f, fp)
  }

  ghost predicate NonBlank(t: Table) {
    forall id: nat :: id in t.rows ==> Normal(t.rows[id].fingerprint) != ""
  }

  ghost predicate Good(w: World) {
    && Inv(w.table) && NonBlank(w.table) && w.now >= 0 && SourcesKnown(w)
    && (forall ip :: ip in w.hosts ==> RecordFaithful(w.hosts[ip], w.now))
    && (forall p :: p in w.flights ==> FlightSound(w, w.flights[p]))
    && (forall id: nat :: InState(w.table, id, Retired) ==> Settled(w, id))
  }

  // ---------------------------------------------------------------- the count misses nothing

  lemma TellingRowDepends(r: Enrollment, ip: string, h: Host, reported: map<string, int>, fp: string, now: int)
    requires Tells(r, ip, h, fp) && Holds(h, fp, now) && now >= 0 && BeatTells(h)
    requires ip in reported <==> h.beat.Some?
    requires h.beat.Some? ==> reported[ip] == h.beat.value
    ensures Depends(r, reported, fp, now)
  {
  }

  /** With faithful records and nobody in between, a count of zero means no host holds an unexpired leaf. */
  lemma ZeroCountIsZero(w: World, rows: seq<Enrollment>, fp: string)
    requires w.now >= 0 && NobodyMoving(w, fp) && RowsTell(w, rows, fp)
    requires forall ip :: ip in w.hosts ==> RecordFaithful(w.hosts[ip], w.now)
    requires NoneCounted(w, rows, fp)
    ensures NoLiveLeaf(w, fp)
  {
    if ip :| ip in w.hosts && Holds(w.hosts[ip], fp, w.now) {
      var r :| r in rows && Tells(r, ip, w.hosts[ip], fp);
      TellingRowDepends(r, ip, w.hosts[ip], Beats(w), fp, w.now);
      assert false;
    }
  }

  lemma FaithfulRowTells(ip: string, h: Host, fp: string, now: int)
    requires RecordFaithful(h, now) && Holds(h, fp, now) && !Moving(h)
    ensures Tells(RowOf(ip, h), ip, h, fp)
  {
    NormalIdempotent(fp);
  }

  lemma RowsReadTell(w: World, rows: seq<Enrollment>, fp: string)
    requires AllRows(w, rows) && NobodyMoving(w, fp)
    requires forall ip :: ip in w.hosts ==> RecordFaithful(w.hosts[ip], w.now)
    ensures RowsTell(w, rows, fp)
  {
    forall ip | ip in w.hosts && Holds(w.hosts[ip], fp, w.now) ensures exists r :: r in rows && Tells(r, ip, w.hosts[ip], fp) {
      FaithfulRowTells(ip, w.hosts[ip], fp, w.now);
    }
  }

  // ---------------------------------------------------------------- the table

  ghost predicate RowsGoOn(t: Table, t': Table) {
    forall id: nat :: id in t.rows ==>
      id in t'.rows && SameIdentity(t.rows[id], t'.rows[id]) && Edge(t.rows[id].state, t'.rows[id].state)
  }

  lemma EventGoesOn(t: Table, e: Event, t': Table)
    requires Inv(t) && CaLifecycle.Step(t, e, t')
    ensures Inv(t') && RowsGoOn(t, t')
  {
    StepKeepsInv(t, e, t');
    forall id: nat | id in t.rows
      ensures id in t'.rows && SameIdentity(t.rows[id], t'.rows[id]) && Edge(t.rows[id].state, t'.rows[id].state)
    {
      StepMovesAlongEdges(t, e, t', id);
    }
  }

  lemma RetireTable(w: World, p: nat, e: RetireEvent)
    requires RetireCan(w, p, e)
    ensures var t := RetireDo(w, p, e).table;
            t == w.table || (p in w.flights && CaLifecycle.Step(w.table, Retire(w.flights[p].id), t))
  {
  }

  lemma TableStep(w: World, a: Action, w': World)
    requires Inv(w.table) && Step(w, a, w')
    ensures Inv(w'.table) && RowsGoOn(w.table, w'.table)
  {
    match a {
      case Lifecycle(e, t) => EventGoesOn(w.table, e, t);
      case Retiring(p, re) =>
        RetireTable(w, p, re);
        if w'.table != w.table {
          EventGoesOn(w.table, Retire(w.flights[p].id), w'.table);
        }
      case Signing(se) => assert w'.table == w.table;
      case _ =>
    }
  }

  lemma KnownStays(t: Table, t': Table, fp: string)
    requires RowsGoOn(t, t') && Known(t, fp)
    ensures Known(t', fp)
  {
    var id: nat :| id in t.rows && t.rows[id].fingerprint == fp && t.rows[id].state != Staged;
    assert id in t'.rows;
  }

  lemma EventNonBlank(t: Table, e: Event, t': Table)
    requires NonBlank(t) && CaLifecycle.Step(t, e, t') && (e.Insert? ==> Normal(e.row.fingerprint) != "")
    requires RowsGoOn(t, t')
    ensures NonBlank(t')
  {
    forall id: nat | id in t'.rows ensures Normal(t'.rows[id].fingerprint) != "" {
      assert id in t.rows || e.Insert?;
    }
  }

  lemma NonBlankStays(w: World, a: Action, w': World)
    requires Inv(w.table) && NonBlank(w.table) && Step(w, a, w') && RowsGoOn(w.table, w'.table)
    ensures NonBlank(w'.table)
  {
    match a {
      case Lifecycle(e, t) => EventNonBlank(w.table, e, t);
      case Retiring(p, re) =>
        RetireTable(w, p, re);
        if w'.table != w.table {
          EventNonBlank(w.table, Retire(w.flights[p].id), w'.table);
        }
      case Signing(se) => assert w'.table == w.table;
      case _ =>
    }
  }

  // ---------------------------------------------------------------- where leaves come from

  /** A process signs with what it did, what it was started on, or what a reconcile had read. */
  lemma SignersStep(w: World, a: Action, w': World, s: nat)
    requires Step(w, a, w') && s in w'.signers
    ensures || (s in w.signers && w'.signers[s] == w.signers[s])
            || (a.Signing? && a.se.Boot? && w'.signers[s] == w.table.rows[a.se.id].fingerprint)
            || (exists q :: q in w.swaps && w'.signers[s] == w.swaps[q].fp)
  {
  }

  lemma SwapsStep(w: World, a: Action, w': World, q: nat)
    requires Step(w, a, w') && q in w'.swaps
    ensures || (q in w.swaps && w'.swaps[q] == w.swaps[q])
            || (a.Signing? && a.se.Read? && w'.swaps[q].fp == w.table.rows[a.se.active].fingerprint)
  {
  }

  lemma EnrollingStep(w: World, a: Action, w': World, ip: string)
    requires Step(w, a, w') && ip in w'.enrolling
    ensures || (ip in w.enrolling && w'.enrolling[ip] == w.enrolling[ip])
            || (exists s :: s in w.signers && w'.enrolling[ip].issuer == w.signers[s])
  {
  }

  /** What a host waits for it waited for before or has just been signed; what it takes is what it waited for. */
  lemma OneHostStep(h: Host, now: int, e: HostEvent)
    requires HostCan(h, now, e)
    ensures var h' := HostDo(h, now, e);
            && h'.frozen == h.frozen
            && (h'.job.Idle? || (!h.job.Idle? && h'.job.leaf == h.job.leaf) || (e.Sign? && h'.job.leaf == e.leaf))
            && (h'.held == h.held || (!h.job.Idle? && h'.held == Some(h.job.leaf)))
  {
  }

  ghost predicate JobFrom(w: World, ip: string, leaf: Leaf) {
    || (ip in w.hosts && !w.hosts[ip].job.Idle? && leaf == w.hosts[ip].job.leaf)
    || (exists s :: s in w.signers && leaf.issuer == w.signers[s])
    || (ip in w.enrolling && leaf == w.enrolling[ip])
  }

  ghost predicate HeldFrom(h: Host, h': Host) {
    && h'.frozen == h.frozen
    && (h'.held == h.held || (!h.job.Idle? && h'.held == Some(h.job.leaf)))
  }

  lemma HostsStep(w: World, a: Action, w': World, ip: string)
    requires Step(w, a, w') && ip in w'.hosts
    ensures w'.hosts[ip].job.Idle? || JobFrom(w, ip, w'.hosts[ip].job.leaf)
    ensures if ip in w.hosts && !(a.EnrollRecord? && a.ip == ip) then HeldFrom(w.hosts[ip], w'.hosts[ip]) else w'.hosts[ip].held.None?
  {
    if a.OnHost? && a.ip == ip {
      OneHostStep(w.hosts[ip], w.now, a.he);
    }
  }

  lemma TimeStep(w: World, a: Action, w': World)
    requires Step(w, a, w')
    ensures w'.now >= w.now
  {
  }

  lemma SignerKnown(w: World, a: Action, w': World, s: nat)
    requires SourcesKnown(w) && RowsGoOn(w.table, w'.table) && Step(w, a, w') && Keeps(BootsActive, w, a) && s in w'.signers
    ensures Known(w'.table, w'.signers[s])
  {
    SignersStep(w, a, w', s);
    KnownStays(w.table, w'.table, w'.signers[s]);
  }

  lemma SwapKnown(w: World, a: Action, w': World, q: nat)
    requires SourcesKnown(w) && RowsGoOn(w.table, w'.table) && Step(w, a, w') && q in w'.swaps
    ensures Known(w'.table, w'.swaps[q].fp)
  {
    SwapsStep(w, a, w', q);
    KnownStays(w.table, w'.table, w'.swaps[q].fp);
  }

  lemma LeafKnown(w: World, a: Action, w': World, ip: string)
    requires SourcesKnown(w) && RowsGoOn(w.table, w'.table) && Step(w, a, w')
    ensures ip in w'.enrolling ==> Known(w'.table, w'.enrolling[ip].issuer)
    ensures ip in w'.hosts ==> HostKnown(w'.table, w'.hosts[ip])
  {
    if ip in w'.enrolling {
      EnrollingStep(w, a, w', ip);
      KnownStays(w.table, w'.table, w'.enrolling[ip].issuer);
    }
    if ip in w'.hosts {
      HostsStep(w, a, w', ip);
      var h := w'.hosts[ip];
      if h.held.Some? {
        KnownStays(w.table, w'.table, h.held.value.issuer);
      }
      if !h.job.Idle? {
        KnownStays(w.table, w'.table, h.job.leaf.issuer);
      }
    }
  }

  lemma SourcesStep(w: World, a: Action, w': World)
    requires SourcesKnown(w) && RowsGoOn(w.table, w'.table) && Step(w, a, w') && Keeps(BootsActive, w, a)
    ensures SourcesKnown(w')
  {
    forall s | s in w'.signers ensures Known(w'.table, w'.signers[s]) {
      SignerKnown(w, a, w', s);
    }
    forall q | q in w'.swaps ensures Known(w'.table, w'.swaps[q].fp) {
      SwapKnown(w, a, w', q);
    }
    forall ip | ip in w'.enrolling ensures Known(w'.table, w'.enrolling[ip].issuer) {
      LeafKnown(w, a, w', ip);
    }
    forall ip | ip in w'.hosts ensures HostKnown(w'.table, w'.hosts[ip]) {
      LeafKnown(w, a, w', ip);
    }
  }

  // ---------------------------------------------------------------- quiet is for good

  ghost predicate BootsOn(a: Action, id: nat) {
    a.Signing? && a.se.Boot? && a.se.id == id
  }

  /**
   Once a CA has stopped being active and nobody signs, is about to sign, or is delivering under it, nobody
   ever will again, short of a process started on it.
   */
  lemma QuietStays(w: World, a: Action, w': World, id: nat)
    requires Inv(w.table) && Step(w, a, w') && !BootsOn(a, id)
    requires id in w.table.rows && Rank(w.table.rows[id].state) >= 2 && Quiet(w, w.table.rows[id].fingerprint)
    ensures Quiet(w', w.table.rows[id].fingerprint)
  {
    var fp := w.table.rows[id].fingerprint;
    TimeStep(w, a, w');
    forall s | s in w'.signers ensures w'.signers[s] != fp {
      SignersStep(w, a, w', s);
    }
    forall q | q in w'.swaps ensures w'.swaps[q].fp != fp {
      SwapsStep(w, a, w', q);
    }
    SignaturesStep(w, a, w', fp);
  }

  lemma SignaturesStep(w: World, a: Action, w': World, fp: string)
    requires Step(w, a, w') && NoSigner(w, fp) && NoSignature(w, fp)
    ensures NoSignature(w', fp)
  {
    TimeStep(w, a, w');
    forall ip | ip in w'.enrolling ensures Harmless(w'.enrolling[ip], fp, w'.now) {
      EnrollingStep(w, a, w', ip);
    }
    forall ip | ip in w'.hosts && !w'.hosts[ip].job.Idle? ensures Harmless(w'.hosts[ip].job.leaf, fp, w'.now) {
      HostsStep(w, a, w', ip);
    }
  }

  /** In the quiet, whoever holds an unexpired leaf of the CA held it before. */
  lemma NoNewLeaf(w: World, a: Action, w': World, fp: string, ip: string)
    requires Step(w, a, w') && NoSignature(w, fp) && ip in w'.hosts && Holds(w'.hosts[ip], fp, w'.now)
    ensures ip in w.hosts && Holds(w.hosts[ip], fp, w.now) && w'.hosts[ip].frozen == w.hosts[ip].frozen
  {
    HostsStep(w, a, w', ip);
    TimeStep(w, a, w');
  }

  lemma NoLiveLeafStays(w: World, a: Action, w': World, fp: string)
    requires Step(w, a, w') && NoSignature(w, fp) && NoLiveLeaf(w, fp)
    ensures NoLiveLeaf(w', fp)
  {
    forall ip | ip in w'.hosts ensures !Holds(w'.hosts[ip], fp, w'.now) {
      if Holds(w'.hosts[ip], fp, w'.now) {
        NoNewLeaf(w, a, w', fp, ip);
        assert false;
      }
    }
  }

  /** Nothing but a process started on the CA unsettles a retired one; no rule of operation is needed. */
  lemma SettledStays(w: World, a: Action, w': World, id: nat)
    requires Inv(w.table) && Step(w, a, w') && !BootsOn(a, id)
    requires InState(w.table, id, Retired) && Settled(w, id)
    ensures InState(w'.table, id, Retired) && Settled(w', id)
  {
    TableStep(w, a, w');
    QuietStays(w, a, w', id);
    NoLiveLeafStays(w, a, w', w.table.rows[id].fingerprint);
  }

  // ---------------------------------------------------------------- every prudent step keeps the records

  lemma HostFaithful(h: Host, now: int, e: HostEvent)
    requires now >= 0 && HostCan(h, now, e) && RecordFaithful(h, now) && !e.GiveUp?
    requires e.Update? ==> e.ok && h.beat.Some?
    requires e.Receive? ==> ReportCurrent(h) && ReportTells(h)
    requires !h.job.Idle? ==> Normal(h.job.leaf.issuer) != ""
    ensures RecordFaithful(HostDo(h, now, e), now)
  {
    if e.Deliver? {
      NormalIdempotent(h.job.leaf.issuer);
    }
  }

  lemma FaithfulLater(h: Host, now: int, later: int)
    requires RecordFaithful(h, now) && now <= later
    ensures RecordFaithful(h, later)
  {
  }

  lemma OtherHost(w: World, a: Action, w': World, ip: string)
    requires Step(w, a, w') && ip in w'.hosts && !((a.OnHost? || a.EnrollRecord?) && a.ip == ip)
    ensures ip in w.hosts && w'.hosts[ip] == w.hosts[ip]
  {
  }

  lemma RecordsStep(w: World, a: Action, w': World)
    requires w.now >= 0 && NonBlank(w.table) && SourcesKnown(w) && Step(w, a, w') && Prudent(w, a)
    requires forall ip :: ip in w.hosts ==> RecordFaithful(w.hosts[ip], w.now)
    ensures forall ip :: ip in w'.hosts ==> RecordFaithful(w'.hosts[ip], w'.now)
  {
    TimeStep(w, a, w');
    forall ip | ip in w'.hosts ensures RecordFaithful(w'.hosts[ip], w'.now) {
      if a.OnHost? && a.ip == ip {
        RenewedFaithful(w, ip, a.he);
      } else if !(a.EnrollRecord? && a.ip == ip) {
        OtherHost(w, a, w', ip);
        FaithfulLater(w.hosts[ip], w.now, w'.now);
      }
    }
  }

  lemma RenewedFaithful(w: World, ip: string, e: HostEvent)
    requires w.now >= 0 && NonBlank(w.table) && SourcesKnown(w) && Can(w, OnHost(ip, e)) && Prudent(w, OnHost(ip, e))
    requires RecordFaithful(w.hosts[ip], w.now)
    ensures RecordFaithful(HostDo(w.hosts[ip], w.now, e), w.now)
  {
    var a := OnHost(ip, e);
    assert Keeps(AnswersArrive, w, a) && Keeps(BeatFirst, w, a) && Keeps(BeatsCurrent, w, a) && Keeps(BeatsReport, w, a);
    assert HostKnown(w.table, w.hosts[ip]);
    HostFaithful(w.hosts[ip], w.now, e);
  }

  lemma RowsTellStays(w: World, a: Action, w': World, rows: seq<Enrollment>, fp: string)
    requires Step(w, a, w') && NoSignature(w, fp) && RowsTell(w, rows, fp)
    ensures RowsTell(w', rows, fp)
  {
    forall ip | ip in w'.hosts && Holds(w'.hosts[ip], fp, w'.now)
      ensures exists r :: r in rows && Tells(r, ip, w'.hosts[ip], fp)
    {
      NoNewLeaf(w, a, w', fp, ip);
      var r :| r in rows && Tells(r, ip, w.hosts[ip], fp);
      assert Tells(r, ip, w'.hosts[ip], fp);
    }
  }

  lemma TellsStays(w: World, a: Action, w': World, f: Flight, fp: string)
    requires Step(w, a, w') && NoSignature(w, fp) && FlightTells(w, f, fp)
    ensures FlightTells(w', f, fp)
  {
    if f.HasRows? {
      RowsTellStays(w, a, w', f.rows, fp);
    }
    if f.HasCount? && f.zero {
      NoLiveLeafStays(w, a, w', fp);
    }
  }

  /** A CA that is no longer active stays so, under the same fingerprint. */
  lemma PastActiveStays(t: Table, t': Table, id: nat)
    requires RowsGoOn(t, t') && id in t.rows && Rank(t.rows[id].state) >= 2
    ensures id in t'.rows && Rank(t'.rows[id].state) >= 2 && t'.rows[id].fingerprint == t.rows[id].fingerprint
  {
  }

  lemma FlightKept(w: World, a: Action, w': World, f: Flight)
    requires Inv(w.table) && RowsGoOn(w.table, w'.table) && Step(w, a, w') && Keeps(BootsActive, w, a) && FlightSound(w, f)
    ensures FlightSound(w', f)
  {
    QuietStays(w, a, w', f.id);
    TellsStays(w, a, w', f, w.table.rows[f.id].fingerprint);
    PastActiveStays(w.table, w'.table, f.id);
  }

  lemma BeginSound(w: World, p: nat, id: nat)
    requires RetireCan(w, p, Begin(id)) && Prudent(w, Retiring(p, Begin(id)))
    ensures FlightSound(w, HasRead(id))
  {
    var a := Retiring(p, Begin(id));
    assert Keeps(SignersLeft, w, a) && Keeps(ReconcilesDone, w, a) && Keeps(LeavesDelivered, w, a) && Begins(w, a, id);
  }

  /** Reading the rows, and then the heartbeats, keeps a flight sound. */
  lemma ReadSound(w: World, p: nat, e: RetireEvent)
    requires Good(w) && RetireCan(w, p, e) && (e.ReadRows? || e.ReadBeats?) && Keeps(NobodyBetween, w, Retiring(p, e))
    ensures FlightSound(w, RetireDo(w, p, e).flights[p])
  {
    var f := w.flights[p];
    assert FlightSound(w, f);
    var fp := w.table.rows[f.id].fingerprint;
    if e.ReadRows? {
      RowsReadTell(w, e.rows, fp);
    } else if NoneCounted(w, f.rows, fp) {
      ZeroCountIsZero(w, f.rows, fp);
    }
  }

  lemma SameFleet(w: World, w': World, f: Flight)
    requires FlightSound(w, f) && w' == w.(flights := w'.flights)
    ensures FlightSound(w', f)
  {
  }

  lemma OtherFlight(w: World, a: Action, w': World, p: nat)
    requires Step(w, a, w') && p in w'.flights && !(a.Retiring? && a.p == p)
    ensures p in w.flights && w'.flights[p] == w.flights[p]
  {
  }

  lemma FlightMoves(w: World, p: nat, e: RetireEvent, w': World)
    requires Good(w) && Step(w, Retiring(p, e), w') && Prudent(w, Retiring(p, e)) && p in w'.flights
    ensures FlightSound(w', w'.flights[p])
  {
    if e.Begin? {
      BeginSound(w, p, e.id);
    } else {
      assert Keeps(NobodyBetween, w, Retiring(p, e));
      ReadSound(w, p, e);
    }
    SameFleet(w, w', w'.flights[p]);
  }

  lemma FlightsStep(w: World, a: Action, w': World)
    requires Good(w) && Step(w, a, w') && Prudent(w, a)
    ensures forall p :: p in w'.flights ==> FlightSound(w', w'.flights[p])
  {
    assert Keeps(BootsActive, w, a);
    TableStep(w, a, w');
    forall p | p in w'.flights ensures FlightSound(w', w'.flights[p]) {
      if a.Retiring? && a.p == p {
        FlightMoves(w, p, a.re, w');
      } else {
        OtherFlight(w, a, w', p);
        FlightKept(w, a, w', w.flights[p]);
      }
    }
  }

  /** A CA becomes retired by being abandoned while staged, or by a retire that counted zero. */
  lemma NewlyRetired(w: World, a: Action, w': World, id: nat)
    requires Inv(w.table) && Step(w, a, w') && !InState(w.table, id, Retired) && InState(w'.table, id, Retired)
    ensures w' == w.(table := w'.table, flights := w'.flights)
    ensures id in w.table.rows && w'.table.rows[id].fingerprint == w.table.rows[id].fingerprint
    ensures InState(w.table, id, Staged) || (a.Retiring? && a.p in w.flights && w.flights[a.p] == HasCount(id, true))
  {
    match a {
      case Lifecycle(e, t) =>
      case Retiring(p, re) =>
      case _ =>
    }
  }

  /** A staged CA has signed nothing. */
  lemma NeverIssued(w: World, id: nat)
    requires Inv(w.table) && SourcesKnown(w) && InState(w.table, id, Staged)
    ensures Settled(w, id)
  {
    var fp := w.table.rows[id].fingerprint;
    assert !Known(w.table, fp);
    forall ip | ip in w.hosts ensures !Holds(w.hosts[ip], fp, w.now) {
      assert HostKnown(w.table, w.hosts[ip]);
    }
    forall ip | ip in w.hosts && !w.hosts[ip].job.Idle? ensures Harmless(w.hosts[ip].job.leaf, fp, w.now) {
      assert HostKnown(w.table, w.hosts[ip]);
    }
  }

  lemma SettledElsewhere(w: World, w': World, id: nat)
    requires id in w.table.rows && Settled(w, id) && w' == w.(table := w'.table, flights := w'.flights)
    requires id in w'.table.rows && w'.table.rows[id].fingerprint == w.table.rows[id].fingerprint
    ensures Settled(w', id)
  {
  }

  lemma RetiredStep(w: World, a: Action, w': World, id: nat)
    requires Good(w) && Step(w, a, w') && Prudent(w, a) && InState(w'.table, id, Retired)
    ensures Settled(w', id)
  {
    if InState(w.table, id, Retired) {
      assert Keeps(BootsActive, w, a);
      SettledStays(w, a, w', id);
    } else {
      NewlyRetired(w, a, w', id);
      if InState(w.table, id, Staged) {
        NeverIssued(w, id);
      } else {
        assert FlightSound(w, w.flights[a.p]);
      }
      SettledElsewhere(w, w', id);
    }
  }

  lemma StepKeepsGood(w: World, a: Action, w': World)
    requires Good(w) && Step(w, a, w') && Prudent(w, a)
    ensures Good(w')
  {
    assert Keeps(BootsActive, w, a);
    TableStep(w, a, w');
    TimeStep(w, a, w');
    NonBlankStays(w, a, w');
    SourcesStep(w, a, w');
    RecordsStep(w, a, w');
    FlightsStep(w, a, w');
    forall id: nat | InState(w'.table, id, Retired) ensures Settled(w', id) {
      RetiredStep(w, a, w', id);
    }
  }

  // ---------------------------------------------------------------- whole runs

  ghost function AfterAll(w: World, acts: seq<Action>): World {
    if acts == [] then w
    else
      var v := AfterAll(w, acts[..|acts| - 1]);
      if Can(v, acts[|acts| - 1]) then Do(v, acts[|acts| - 1]) else v
  }

  /** The actions can be taken one after the other. */
  ghost predicate CanAll(w: World, acts: seq<Action>) {
    acts != [] ==> CanAll(w, acts[..|acts| - 1]) && Can(AfterAll(w, acts[..|acts| - 1]), acts[|acts| - 1])
  }

  /** Every one of them keeps the rule. */
  ghost predicate KeepsAll(r: Rule, w: World, acts: seq<Action>) {
    acts != [] ==>
      KeepsAll(r, w, acts[..|acts| - 1]) && Keeps(r, AfterAll(w, acts[..|acts| - 1]), acts[|acts| - 1])
  }

  lemma {:induction false} RunIsGood(acts: seq<Action>)
    requires CanAll(START, acts) && forall r :: KeepsAll(r, START, acts)
    ensures Good(AfterAll(START, acts))
  {
    if acts != [] {
      var init, a := acts[..|acts| - 1], acts[|acts| - 1];
      forall r ensures KeepsAll(r, START, init) && Keeps(r, AfterAll(START, init), a) {
        assert KeepsAll(r, START, acts);
      }
      RunIsGood(init);
      StepKeepsGood(AfterAll(START, init), a, AfterAll(START, acts));
    }
  }

  ghost predicate Stranded(w: World, id: nat) {
    id in w.table.rows && exists ip :: ip in w.hosts && Holds(w.hosts[ip], w.table.rows[id].fingerprint, w.now)
  }

  /** In no state that prudent operation reaches does a host hold an unexpired leaf of a retired CA. */
  lemma RetiredStrandsNobody(acts: seq<Action>, id: nat)
    requires CanAll(START, acts) && forall r :: KeepsAll(r, START, acts)
    requires InState(AfterAll(START, acts).table, id, Retired)
    ensures !Stranded(AfterAll(START, acts), id)
  {
    RunIsGood(acts);
    assert Settled(AfterAll(START, acts), id);
  }

  // ---------------------------------------------------------------- exactly when a retired CA is safe

  ghost predicate NoBoots(acts: seq<Action>, id: nat) {
    forall i :: 0 <= i < |acts| ==> !BootsOn(acts[i], id)
  }

  lemma {:induction false} SettledForever(w: World, acts: seq<Action>, id: nat)
    requires Inv(w.table) && InState(w.table, id, Retired) && Settled(w, id) && CanAll(w, acts) && NoBoots(acts, id)
    ensures var v := AfterAll(w, acts); Inv(v.table) && InState(v.table, id, Retired) && Settled(v, id)
  {
    if acts != [] {
      var init := acts[..|acts| - 1];
      SettledForever(w, init, id);
      assert BootsOn(acts[|acts| - 1], id) == false;
      TableStep(AfterAll(w, init), acts[|acts| - 1], AfterAll(w, acts));
      SettledStays(AfterAll(w, init), acts[|acts| - 1], AfterAll(w, acts), id);
    }
  }

  /** Steps that touch neither the table nor the clock. */
  predicate Mild(a: Action) {
    a.EnrollSign? || a.EnrollRecord? || a.OnHost? || (a.Signing? && a.se.Store?)
  }

  /** `acts` lead from `w` to `v` by such steps. */
  ghost predicate Leads(w: World, acts: seq<Action>, v: World) {
    && CanAll(w, acts) && AfterAll(w, acts) == v && v.table == w.table && v.now == w.now
    && forall i :: 0 <= i < |acts| ==> Mild(acts[i])
  }

  lemma Extend(w: World, acts: seq<Action>, v: World, a: Action) returns (v': World)
    requires Leads(w, acts, v) && Can(v, a) && Mild(a)
    ensures v' == Do(v, a) && Leads(w, acts + [a], v')
  {
    v' := Do(v, a);
    assert (acts + [a])[..|acts|] == acts;
  }

  /** A leaf on its way to a host can always be brought to it. */
  lemma {:induction false} BringHome(w: World, acts: seq<Action>, v: World, ip: string) returns (more: seq<Action>, v': World)
    requires Leads(w, acts, v) && ip in v.hosts && !v.hosts[ip].job.Idle?
    ensures Leads(w, more, v') && ip in v'.hosts && v'.hosts[ip].held == Some(v.hosts[ip].job.leaf)
    decreases match v.hosts[ip].job case Signed(_) => 3 case Stamped(_) => 2 case _ => 1
  {
    var a := OnHost(ip, match v.hosts[ip].job case Signed(_) => Stamp case Stamped(_) => Update(false) case _ => Deliver);
    var u := Extend(w, acts, v, a);
    if u.hosts[ip].job.Idle? {
      more, v' := acts + [a], u;
    } else {
      more, v' := BringHome(w, acts + [a], u, ip);
    }
  }

  lemma {:induction false} LongerThan(names: set<string>) returns (n: nat)
    ensures forall s :: s in names ==> |s| < n
  {
    if names == {} {
      n := 0;
    } else {
      var s :| s in names;
      n := LongerThan(names - {s});
      n := if |s| < n then n else |s| + 1;
    }
  }

  lemma FreshName(names: set<string>) returns (s: string)
    ensures s !in names
  {
    var n := LongerThan(names);
    s := seq(n, _ => 'x');
  }

  /** A process that signs with the CA can bring out a fresh leaf. */
  lemma SignerStrands(w: World, acts: seq<Action>, v: World, s: nat) returns (more: seq<Action>, v': World, ip: string)
    requires Leads(w, acts, v) && s in v.signers
    ensures Leads(w, more, v') && ip in v'.hosts && Holds(v'.hosts[ip], v.signers[s], w.now)
  {
    ip := FreshName(v.hosts.Keys + v.enrolling.Keys);
    var leaf := Leaf(v.signers[s], w.now + 1);
    var u := Extend(w, acts, v, EnrollSign(ip, s, leaf.exp));
    assert u.enrolling[ip] == leaf;
    more, v' := RecordAndBring(w, acts + [EnrollSign(ip, s, leaf.exp)], u, ip);
  }

  lemma RecordAndBring(w: World, acts: seq<Action>, v: World, ip: string) returns (more: seq<Action>, v': World)
    requires Leads(w, acts, v) && ip in v.enrolling
    ensures Leads(w, more, v') && ip in v'.hosts && v'.hosts[ip].held == Some(v.enrolling[ip])
  {
    var u := Extend(w, acts, v, EnrollRecord(ip, true));
    more, v' := BringHome(w, acts + [EnrollRecord(ip, true)], u, ip);
  }

  lemma Lands(w: World, acts: seq<Action>, v: World, id: nat, ip: string)
    requires Leads(w, acts, v) && id in w.table.rows && ip in v.hosts && Holds(v.hosts[ip], w.table.rows[id].fingerprint, w.now)
    ensures CanAll(w, acts) && NoBoots(acts, id) && Stranded(AfterAll(w, acts), id)
  {
  }

  lemma ReconcileStrands(w: World, q: nat) returns (acts: seq<Action>, v: World, ip: string)
    requires q in w.swaps
    ensures Leads(w, acts, v) && ip in v.hosts && Holds(v.hosts[ip], w.swaps[q].fp, w.now)
  {
    acts := [Signing(Store(q))];
    v := Extend(w, [], w, Signing(Store(q)));
    assert [] + [Signing(Store(q))] == acts;
    acts, v, ip := SignerStrands(w, acts, v, w.swaps[q].s);
  }

  lemma Unsettled(w: World, id: nat) returns (acts: seq<Action>)
    requires id in w.table.rows && !Settled(w, id)
    ensures CanAll(w, acts) && NoBoots(acts, id) && Stranded(AfterAll(w, acts), id)
  {
    var fp := w.table.rows[id].fingerprint;
    var v, ip := w, "";
    acts := [];
    if q :| q in w.swaps && w.swaps[q].fp == fp {
      acts, v, ip := ReconcileStrands(w, q);
    } else if s :| s in w.signers && w.signers[s] == fp {
      acts, v, ip := SignerStrands(w, [], w, s);
    } else if i :| i in w.enrolling && !Harmless(w.enrolling[i], fp, w.now) {
      ip := i;
      acts, v := RecordAndBring(w, [], w, ip);
    } else if i :| i in w.hosts && !w.hosts[i].job.Idle? && !Harmless(w.hosts[i].job.leaf, fp, w.now) {
      ip := i;
      acts, v := BringHome(w, [], w, ip);
    } else {
      ip :| ip in w.hosts && Holds(w.hosts[ip], fp, w.now);
    }
    Lands(w, acts, v, id, ip);
  }

  ghost predicate CanStrand(w: World, id: nat) {
    exists acts :: CanAll(w, acts) && NoBoots(acts, id) && Stranded(AfterAll(w, acts), id)
  }

  /**
   A retired CA can strand a host, now or in some continuation that starts no process on it, if and only if it is
   not settled: some process signs or is about to sign with it, or an unexpired leaf of it is held or on its way.
   */
  lemma StrandsExactly(w: World, id: nat)
    requires Inv(w.table) && InState(w.table, id, Retired)
    ensures CanStrand(w, id) <==> !Settled(w, id)
  {
    if Settled(w, id) {
      forall acts | CanAll(w, acts) && NoBoots(acts, id) ensures !Stranded(AfterAll(w, acts), id) {
        SettledForever(w, acts, id);
      }
    } else {
      var acts := Unsettled(w, id);
    }
  }

  lemma {:induction false} Prepend(w: World, a: Action, acts: seq<Action>)
    requires Can(w, a) && CanAll(Do(w, a), acts)
    ensures CanAll(w, [a] + acts) && AfterAll(w, [a] + acts) == AfterAll(Do(w, a), acts)
  {
    var all := [a] + acts;
    if acts == [] {
      assert all[..0] == [];
    } else {
      Prepend(w, a, acts[..|acts| - 1]);
      assert all[..|all| - 1] == [a] + acts[..|acts| - 1];
    }
  }

  /** A process started on a CA can always strand a host, however settled the CA was. */
  lemma BootStrands(w: World, id: nat) returns (acts: seq<Action>)
    requires id in w.table.rows
    ensures CanAll(w, acts) && Stranded(AfterAll(w, acts), id)
  {
    var a := Signing(Boot(0, id));
    var u := Do(w, a);
    var more, v, ip := SignerStrands(u, [], u, 0);
    Lands(u, more, v, id, ip);
    Prepend(w, a, more);
    acts := [a] + more;
  }
}
