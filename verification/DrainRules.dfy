/**
 Every rule of `DrainSafety` is needed: for each there is a run from the start that breaks no other rule and
 ends with a host holding an unexpired leaf of a retired CA.
 */
module DrainRules {
  import opened Text
  import opened Wildcards
  import opened CaLifecycle
  import opened CaDependents
  import opened DrainSafety

  /** The run breaks no rule but `r`, and ends in `w`. */
  ghost predicate Breaks(r: Rule, acts: seq<Action>, w: World) {
    CanAll(START, acts) && AfterAll(START, acts) == w && forall q :: q != r ==> KeepsAll(q, START, acts)
  }

  /** The promise fails: the run ends with a retired CA that an unexpired held leaf chains to. */
  ghost predicate Fails(r: Rule, acts: seq<Action>) {
    exists w, id: nat :: Breaks(r, acts, w) && InState(w.table, id, Retired) && Stranded(w, id)
  }

  lemma Go(r: Rule, acts: seq<Action>, w: World, a: Action) returns (more: seq<Action>, w': World)
    requires Breaks(r, acts, w) && Can(w, a) && forall q :: q != r ==> Keeps(q, w, a)
    ensures w' == Do(w, a) && Breaks(r, more, w')
  {
    more, w' := acts + [a], Do(w, a);
    assert more[..|acts|] == acts;
    forall q | q != r ensures KeepsAll(q, START, more) {
      assert KeepsAll(q, START, acts) && Keeps(q, w, a);
    }
  }

  /** Actions no rule speaks of. */
  predicate Free(a: Action) {
    a.Lifecycle? || a.Tick? || a.EnrollSign? || a.EnrollRecord? || (a.Signing? && !a.se.Boot?)
  }

  lemma GoFree(r: Rule, acts: seq<Action>, w: World, a: Action) returns (more: seq<Action>, w': World)
    requires Breaks(r, acts, w) && Can(w, a) && Free(a)
    ensures w' == Do(w, a) && Breaks(r, more, w')
  {
    more, w' := Go(r, acts, w, a);
  }

  // ---------------------------------------------------------------- two CAs

  function Ca(name: string, fp: string, st: State): CA {
    CA(name, fp, "", "", st, 0, 0, 0, 0)
  }

  function Cas(fa: string, fb: string, a: State, b: State): Table {
    Table(map[0 := Ca("first", fa, a), 1 := Ca("second", fb, b)], 2)
  }

  predicate TwoDigests(fa: string, fb: string) {
    Normal(fa) != "" && Normal(fb) != "" && Normal(fa) != Normal(fb)
  }

  lemma TableSteps(fa: string, fb: string)
    requires TwoDigests(fa, fb)
    ensures var t := Table(map[0 := Ca("first", fa, Active)], 1);
            && CaLifecycle.Step(EMPTY, Insert(Ca("first", fa, Active)), t)
            && CaLifecycle.Step(t, Insert(Ca("second", fb, Staged)), Cas(fa, fb, Active, Staged))
  {
    var t := Table(map[0 := Ca("first", fa, Active)], 1);
    assert InsertRow(EMPTY, Ca("first", fa, Active)) == t;
    assert InsertRow(t, Ca("second", fb, Staged)) == Cas(fa, fb, Active, Staged);
  }

  lemma CutOverStep(fa: string, fb: string)
    requires TwoDigests(fa, fb)
    ensures CaLifecycle.Step(Cas(fa, fb, Active, Staged), Promote(1, Some(0)), Cas(fa, fb, Draining, Active))
  {
    assert CutOver(Cas(fa, fb, Active, Staged), 1, Some(0)) == Cas(fa, fb, Draining, Active);
  }

  /** The first CA active and process 0 signing with it, the second CA staged. */
  function Base(fa: string, fb: string): World {
    START.(table := Cas(fa, fb, Active, Staged), signers := map[0 := fa])
  }

  lemma Setup(r: Rule, fa: string, fb: string) returns (acts: seq<Action>, w: World)
    requires TwoDigests(fa, fb)
    ensures w == Base(fa, fb) && Breaks(r, acts, w)
  {
    TableSteps(fa, fb);
    acts, w := [], START;
    acts, w := GoFree(r, acts, w, Lifecycle(Insert(Ca("first", fa, Active)), Table(map[0 := Ca("first", fa, Active)], 1)));
    acts, w := GoFree(r, acts, w, Lifecycle(Insert(Ca("second", fb, Staged)), Cas(fa, fb, Active, Staged)));
    acts, w := GoFree(r, acts, w, Signing(Read(0, 0, 0)));
    acts, w := GoFree(r, acts, w, Signing(Store(0)));
    assert w.swaps == map[];
  }

  /** The second CA takes over and process 0 follows it. */
  lemma TakeOver(r: Rule, acts: seq<Action>, w: World, fa: string, fb: string, follow: bool) returns (more: seq<Action>, w': World)
    requires Breaks(r, acts, w) && TwoDigests(fa, fb) && w.table == Cas(fa, fb, Active, Staged) && 9 !in w.swaps
    ensures Breaks(r, more, w')
    ensures w' == w.(table := Cas(fa, fb, Draining, Active), signers := if follow then w.signers[0 := fb] else w.signers)
  {
    CutOverStep(fa, fb);
    more, w' := GoFree(r, acts, w, Lifecycle(Promote(1, Some(0)), Cas(fa, fb, Draining, Active)));
    if follow {
      more, w' := GoFree(r, more, w', Signing(Read(9, 0, 1)));
      more, w' := GoFree(r, more, w', Signing(Store(9)));
      assert w'.swaps == w.swaps;
    }
  }

  ghost predicate MayRetire(r: Rule, w: World, fp: string) {
    && (r == SignersLeft || NoSigner(w, fp))
    && (r == ReconcilesDone || NoReconcile(w, fp))
    && (r == LeavesDelivered || NoSignature(w, fp))
    && (r == NobodyBetween || NobodyMoving(w, fp))
  }

  /** The four steps of one retire, undisturbed, go through whenever no row is counted. */
  lemma RetireGoesThrough(r: Rule, acts: seq<Action>, w: World, fa: string, fb: string, rows: seq<Enrollment>)
    returns (more: seq<Action>, w': World)
    requires Breaks(r, acts, w) && w.table == Cas(fa, fb, Draining, Active) && w.flights == map[]
    requires MayRetire(r, w, fa) && AllRows(w, rows) && NoneCounted(w, rows, fa)
    ensures Breaks(r, more, w') && w' == w.(table := Cas(fa, fb, Retired, Active))
  {
    var w1, w2;
    more, w1 := BeginAndReadRows(r, acts, w, fa, rows);
    SameCount(w, w1, rows, fa);
    more, w2 := CountZero(r, more, w1, fa, rows);
    more, w' := WriteRetired(r, more, w2);
    RetiredTable(fa, fb);
  }

  lemma SameCount(w: World, w': World, rows: seq<Enrollment>, fp: string)
    requires w' == w.(flights := w'.flights)
    ensures NoneCounted(w', rows, fp) <==> NoneCounted(w, rows, fp)
    ensures NobodyMoving(w', fp) <==> NobodyMoving(w, fp)
  {
    assert Beats(w') == Beats(w);
  }

  lemma RetiredTable(fa: string, fb: string)
    ensures SetState(Cas(fa, fb, Draining, Active), 0, Retired) == Cas(fa, fb, Retired, Active)
  {
  }

  lemma CountZero(r: Rule, acts: seq<Action>, w: World, fa: string, rows: seq<Enrollment>)
    returns (more: seq<Action>, w': World)
    requires Breaks(r, acts, w) && 0 in w.table.rows && w.table.rows[0].fingerprint == fa
    requires w.flights == map[0 := HasRows(0, rows)] && NoneCounted(w, rows, fa) && (r == NobodyBetween || NobodyMoving(w, fa))
    ensures Breaks(r, more, w') && w' == w.(flights := map[0 := HasCount(0, true)])
  {
    more, w' := Go(r, acts, w, Retiring(0, ReadBeats));
  }

  lemma WriteRetired(r: Rule, acts: seq<Action>, w: World) returns (more: seq<Action>, w': World)
    requires Breaks(r, acts, w) && InState(w.table, 0, Draining) && w.flights == map[0 := HasCount(0, true)]
    ensures Breaks(r, more, w') && w' == w.(table := SetState(w.table, 0, Retired), flights := map[])
  {
    more, w' := Go(r, acts, w, Retiring(0, RetireEvent.Write));
    assert w'.flights == map[];
  }

  lemma BeginAndReadRows(r: Rule, acts: seq<Action>, w: World, fa: string, rows: seq<Enrollment>)
    returns (more: seq<Action>, w': World)
    requires Breaks(r, acts, w) && InState(w.table, 0, Draining) && w.table.rows[0].fingerprint == fa && w.flights == map[]
    requires MayRetire(r, w, fa) && AllRows(w, rows)
    ensures Breaks(r, more, w') && w' == w.(flights := map[0 := HasRows(0, rows)])
  {
    var w1;
    more, w1 := Go(r, acts, w, Retiring(0, Begin(0)));
    assert w1 == w.(flights := map[0 := HasRead(0)]) && AllRows(w1, rows);
    more, w' := Go(r, more, w1, Retiring(0, ReadRows(rows)));
  }

  lemma RetireAlone(r: Rule, acts: seq<Action>, w: World, fa: string, fb: string) returns (more: seq<Action>, w': World)
    requires Breaks(r, acts, w) && w.table == Cas(fa, fb, Draining, Active) && w.flights == map[] && w.hosts == map[]
    requires MayRetire(r, w, fa)
    ensures Breaks(r, more, w') && w' == w.(table := Cas(fa, fb, Retired, Active))
  {
    assert NoneCounted(w, [], fa);
    more, w' := RetireGoesThrough(r, acts, w, fa, fb, []);
  }

  lemma RetireWithHost(r: Rule, acts: seq<Action>, w: World, fa: string, fb: string, h: Host)
    returns (more: seq<Action>, w': World)
    requires Breaks(r, acts, w) && w.table == Cas(fa, fb, Draining, Active) && w.flights == map[] && w.hosts == map["h" := h]
    requires MayRetire(r, w, fa) && !Depends(RowOf("h", h), Beats(w), fa, w.now)
    ensures Breaks(r, more, w') && w' == w.(table := Cas(fa, fb, Retired, Active))
  {
    var rows := [RowOf("h", h)];
    assert rows[..0] == [];
    assert NoneCounted(w, rows, fa);
    more, w' := RetireGoesThrough(r, acts, w, fa, fb, rows);
  }

  // ---------------------------------------------------------------- one host

  function Fresh(leaf: Leaf): Host {
    Host(Some(leaf), Normal(leaf.issuer), leaf, None, None, Idle, [])
  }

  lemma RecordOne(r: Rule, acts: seq<Action>, w: World, leaf: Leaf) returns (more: seq<Action>, w': World)
    requires Breaks(r, acts, w) && w.hosts == map[] && w.enrolling == map["h" := leaf]
    ensures Breaks(r, more, w') && w' == w.(hosts := map["h" := Fresh(leaf)], enrolling := map[])
  {
    var w1, h, h';
    more, w1 := GoFree(r, acts, w, EnrollRecord("h", true));
    h := Host(None, Normal(leaf.issuer), leaf, None, None, Answered(leaf), []);
    assert w1 == w.(hosts := map["h" := h], enrolling := map[]);
    more, w', h' := OneMore(r, more, w1, h, Deliver);
  }

  lemma EnrollOne(r: Rule, acts: seq<Action>, w: World, s: nat, exp: int) returns (more: seq<Action>, w': World)
    requires Breaks(r, acts, w) && s in w.signers && w.hosts == map[] && w.enrolling == map[]
    ensures Breaks(r, more, w') && w' == w.(hosts := map["h" := Fresh(Leaf(w.signers[s], exp))])
  {
    more, w' := GoFree(r, acts, w, EnrollSign("h", s, exp));
    more, w' := RecordOne(r, more, w', Leaf(w.signers[s], exp));
  }

  lemma OneMore(r: Rule, acts: seq<Action>, w: World, h: Host, e: HostEvent) returns (more: seq<Action>, w': World, h': Host)
    requires Breaks(r, acts, w) && w.hosts == map["h" := h] && HostCan(h, w.now, e)
    requires e.Sign? ==> e.s in w.signers && e.leaf.issuer == w.signers[e.s]
    requires r == AnswersArrive || !e.GiveUp?
    requires r == BeatFirst || (e.Update? ==> e.ok && h.beat.Some?)
    requires r == BeatsCurrent || (e.Receive? ==> ReportCurrent(h))
    requires r == BeatsReport || (e.Receive? ==> ReportTells(h))
    ensures h' == HostDo(h, w.now, e) && w' == w.(hosts := map["h" := h']) && Breaks(r, more, w')
  {
    h' := HostDo(h, w.now, e);
    more, w' := Go(r, acts, w, OnHost("h", e));
  }

  lemma Done(r: Rule, acts: seq<Action>, w: World, fa: string, fb: string)
    requires Breaks(r, acts, w) && w.table == Cas(fa, fb, Retired, Active)
    requires "h" in w.hosts && Holds(w.hosts["h"], fa, w.now)
    ensures Fails(r, acts)
  {
    assert InState(w.table, 0, Retired) && Stranded(w, 0);
  }

  // ---------------------------------------------------------------- one run for each rule

  /** A process that still signs with the CA when the retire begins enrolls a host under it afterwards. */
  lemma LaggingSignerStrands(fa: string, fb: string) returns (acts: seq<Action>)
    requires TwoDigests(fa, fb)
    ensures Fails(SignersLeft, acts)
  {
    var w;
    acts, w := Setup(SignersLeft, fa, fb);
    acts, w := TakeOver(SignersLeft, acts, w, fa, fb, false);
    acts, w := RetireAlone(SignersLeft, acts, w, fa, fb);
    acts, w := EnrollOne(SignersLeft, acts, w, 0, 1);
    Done(SignersLeft, acts, w, fa, fb);
  }

  /** A reconcile that read the CA while it was active stores it after the retire. */
  lemma StaleReconcileStrands(fa: string, fb: string) returns (acts: seq<Action>)
    requires TwoDigests(fa, fb)
    ensures Fails(ReconcilesDone, acts)
  {
    var w;
    acts, w := Setup(ReconcilesDone, fa, fb);
    acts, w := GoFree(ReconcilesDone, acts, w, Signing(Read(5, 1, 0)));
    acts, w := TakeOver(ReconcilesDone, acts, w, fa, fb, true);
    acts, w := RetireAlone(ReconcilesDone, acts, w, fa, fb);
    acts, w := GoFree(ReconcilesDone, acts, w, Signing(Store(5)));
    acts, w := EnrollOne(ReconcilesDone, acts, w, 1, 1);
    Done(ReconcilesDone, acts, w, fa, fb);
  }

  /** A leaf signed before the signer moved on is recorded and delivered after the retire. */
  lemma LateLeafStrands(fa: string, fb: string) returns (acts: seq<Action>)
    requires TwoDigests(fa, fb)
    ensures Fails(LeavesDelivered, acts)
  {
    var w;
    acts, w := Setup(LeavesDelivered, fa, fb);
    acts, w := GoFree(LeavesDelivered, acts, w, EnrollSign("h", 0, 1));
    acts, w := TakeOver(LeavesDelivered, acts, w, fa, fb, true);
    acts, w := RetireAlone(LeavesDelivered, acts, w, fa, fb);
    acts, w := RecordOne(LeavesDelivered, acts, w, Leaf(fa, 1));
    Done(LeavesDelivered, acts, w, fa, fb);
  }

  /** A host with a heartbeat row, holding a leaf of the first CA that runs to 10, with the second CA in charge. */
  lemma BeatingHost(r: Rule, fa: string, fb: string) returns (acts: seq<Action>, w: World, h: Host)
    requires TwoDigests(fa, fb)
    ensures Breaks(r, acts, w) && h == Fresh(Leaf(fa, 10)).(beat := Some(10))
    ensures w == START.(table := Cas(fa, fb, Draining, Active), signers := map[0 := fb], hosts := map["h" := h])
  {
    acts, w := Setup(r, fa, fb);
    acts, w := EnrollOne(r, acts, w, 0, 10);
    acts, w, h := OneMore(r, acts, w, Fresh(Leaf(fa, 10)), Send(true));
    acts, w, h := OneMore(r, acts, w, h, Receive);
    acts, w := TakeOver(r, acts, w, fa, fb, true);
  }

  /** A host that gave up on a renewal keeps its leaf, while the record moves to the new CA. */
  lemma LostRenewalStrands(fa: string, fb: string) returns (acts: seq<Action>)
    requires TwoDigests(fa, fb)
    ensures Fails(AnswersArrive, acts)
  {
    var w, h;
    acts, w, h := BeatingHost(AnswersArrive, fa, fb);
    acts, w, h := OneMore(AnswersArrive, acts, w, h, Sign(0, Leaf(fb, 20)));
    acts, w, h := OneMore(AnswersArrive, acts, w, h, GiveUp);
    acts, w, h := OneMore(AnswersArrive, acts, w, h, CarryOn(0));
    NormalIdempotent(fb);
    acts, w := RetireWithHost(AnswersArrive, acts, w, fa, fb, h);
    Done(AnswersArrive, acts, w, fa, fb);
  }

  /** Between the record of a renewal and its delivery the host is on the old CA and counted on the new one. */
  lemma RetireBetweenStrands(fa: string, fb: string) returns (acts: seq<Action>)
    requires TwoDigests(fa, fb)
    ensures Fails(NobodyBetween, acts)
  {
    var w, h;
    acts, w, h := BeatingHost(NobodyBetween, fa, fb);
    acts, w, h := OneMore(NobodyBetween, acts, w, h, Sign(0, Leaf(fb, 20)));
    acts, w, h := OneMore(NobodyBetween, acts, w, h, Stamp);
    NormalIdempotent(fb);
    acts, w := RetireWithHost(NobodyBetween, acts, w, fa, fb, h);
    Done(NobodyBetween, acts, w, fa, fb);
  }

  /** From a host whose renewed leaf runs to 10 but whose recorded expiry is 1, time and a take-over do the rest. */
  lemma UnderRecorded(r: Rule, acts: seq<Action>, w: World, h: Host, fa: string, fb: string) returns (more: seq<Action>)
    requires TwoDigests(fa, fb) && Breaks(r, acts, w) && w == Base(fa, fb).(hosts := map["h" := h])
    requires h.held == Some(Leaf(fa, 10)) && h.job.Idle? && h.frozen.exp == 1 && (h.beat.None? || h.beat == Some(1) || h.beat == Some(0))
    ensures Fails(r, more)
  {
    var w1;
    more, w1 := GoFree(r, acts, w, Tick(2));
    more, w1 := TakeOver(r, more, w1, fa, fb, true);
    more, w1 := RetireWithHost(r, more, w1, fa, fb, h);
    Done(r, more, w1, fa, fb);
  }

  /** A host that renews before it has a heartbeat row is counted only as long as its enroll certificate lasts. */
  lemma SilentRenewalStrands(fa: string, fb: string) returns (acts: seq<Action>)
    requires TwoDigests(fa, fb)
    ensures Fails(BeatFirst, acts)
  {
    var w, h;
    acts, w := Setup(BeatFirst, fa, fb);
    acts, w := EnrollOne(BeatFirst, acts, w, 0, 1);
    acts, w, h := OneMore(BeatFirst, acts, w, Fresh(Leaf(fa, 1)), Sign(0, Leaf(fa, 10)));
    acts, w, h := OneMore(BeatFirst, acts, w, h, Stamp);
    acts, w, h := OneMore(BeatFirst, acts, w, h, Update(true));
    acts, w, h := OneMore(BeatFirst, acts, w, h, Deliver);
    acts := UnderRecorded(BeatFirst, acts, w, h, fa, fb);
  }

  /** A heartbeat sent before a renewal and written after it puts the old expiry back. */
  lemma LateBeatStrands(fa: string, fb: string) returns (acts: seq<Action>)
    requires TwoDigests(fa, fb)
    ensures Fails(BeatsCurrent, acts)
  {
    var w, h;
    acts, w := Setup(BeatsCurrent, fa, fb);
    acts, w := EnrollOne(BeatsCurrent, acts, w, 0, 1);
    acts, w, h := OneMore(BeatsCurrent, acts, w, Fresh(Leaf(fa, 1)), Send(true));
    acts, w, h := OneMore(BeatsCurrent, acts, w, h, Receive);
    acts, w, h := OneMore(BeatsCurrent, acts, w, h, Send(true));
    acts, w, h := OneMore(BeatsCurrent, acts, w, h, Sign(0, Leaf(fa, 10)));
    acts, w, h := OneMore(BeatsCurrent, acts, w, h, Stamp);
    acts, w, h := OneMore(BeatsCurrent, acts, w, h, Update(true));
    acts, w, h := OneMore(BeatsCurrent, acts, w, h, Deliver);
    acts, w, h := OneMore(BeatsCurrent, acts, w, h, Receive);
    acts := UnderRecorded(BeatsCurrent, acts, w, h, fa, fb);
  }

  /** A heartbeat that tells no expiry after a renewal leaves only the enroll certificate to count by. */
  lemma UntoldBeatStrands(fa: string, fb: string) returns (acts: seq<Action>)
    requires TwoDigests(fa, fb)
    ensures Fails(BeatsReport, acts)
  {
    var w, h;
    acts, w := Setup(BeatsReport, fa, fb);
    acts, w := EnrollOne(BeatsReport, acts, w, 0, 1);
    acts, w, h := OneMore(BeatsReport, acts, w, Fresh(Leaf(fa, 1)), Send(true));
    acts, w, h := OneMore(BeatsReport, acts, w, h, Receive);
    acts, w, h := OneMore(BeatsReport, acts, w, h, Sign(0, Leaf(fa, 10)));
    acts, w, h := OneMore(BeatsReport, acts, w, h, Stamp);
    acts, w, h := OneMore(BeatsReport, acts, w, h, Update(true));
    acts, w, h := OneMore(BeatsReport, acts, w, h, Deliver);
    acts, w, h := OneMore(BeatsReport, acts, w, h, Send(false));
    acts, w, h := OneMore(BeatsReport, acts, w, h, Receive);
    acts := UnderRecorded(BeatsReport, acts, w, h, fa, fb);
  }

  lemma BootOnFirst(acts: seq<Action>, w: World, fa: string, fb: string) returns (more: seq<Action>, w': World)
    requires Breaks(BootsActive, acts, w) && w.table == Cas(fa, fb, Retired, Active)
    ensures Breaks(BootsActive, more, w') && w' == w.(signers := w.signers[1 := fa])
  {
    more, w' := Go(BootsActive, acts, w, Signing(Boot(1, 0)));
  }

  /** A process started on a retired CA, its first reconcile failing, enrolls a host under it. */
  lemma StaleBootStrands(fa: string, fb: string) returns (acts: seq<Action>)
    requires TwoDigests(fa, fb)
    ensures Fails(BootsActive, acts)
  {
    var w;
    acts, w := Setup(BootsActive, fa, fb);
    acts, w := TakeOver(BootsActive, acts, w, fa, fb, true);
    acts, w := RetireAlone(BootsActive, acts, w, fa, fb);
    acts, w := BootOnFirst(acts, w, fa, fb);
    acts, w := EnrollOne(BootsActive, acts, w, 1, 1);
    Done(BootsActive, acts, w, fa, fb);
  }
}
