/**
 Group changes and certificate renewals interleaved.  A bulk entry, a single-device update and a renewal each
 read the row and write it later; the first guards its write by the generation it read, the second does not,
 the third guards by the generation last issued.
 */
module RegroupRuns {
  import opened Text
  import opened CloudTrust
  import opened Groups
  import opened Regroup

  // ---------------------------------------------------------------- what a renewal signs

  /** The desired groups, then every reserved group of the live certificate they lack. */
  function KeepReserved(issued: seq<string>, desired: seq<string>): (r: seq<string>)
    ensures forall g :: g in r <==> g in desired || (g in issued && IsReservedGroup(g))
    ensures |r| >= |desired| && r[..|desired|] == desired
  {
    if issued == [] then desired
    else
      var n := |issued| - 1;
      var r := KeepReserved(issued[..n], desired);
      assert issued == issued[..n] + [issued[n]];
      if IsReservedGroup(issued[n]) && issued[n] !in r then r + [issued[n]] else r
  }

  lemma {:induction false} NothingToKeep(issued: seq<string>, desired: seq<string>)
    requires !GrantsReserved(issued)
    ensures KeepReserved(issued, desired) == desired
  {
    if issued != [] {
      NothingToKeep(issued[..|issued| - 1], desired);
    }
  }

  method KeepReservedGroups(issued: seq<string>, desired: seq<string>) returns (r: seq<string>, kept: seq<string>)
    ensures r == KeepReserved(issued, desired) && r == desired + kept
    ensures forall g :: g in kept ==> g in issued && IsReservedGroup(g) && g !in desired
    ensures forall i, j :: 0 <= i < j < |kept| ==> kept[i] != kept[j]
  {
    r, kept := desired, [];
    if !GrantsReserved(issued) {
      NothingToKeep(issued, desired);
      return;
    }
    for i := 0 to |issued|
      invariant r == KeepReserved(issued[..i], desired) && r == desired + kept
      invariant forall g :: g in kept ==> g in issued && IsReservedGroup(g) && g !in desired
      invariant forall j, k :: 0 <= j < k < |kept| ==> kept[j] != kept[k]
    {
      assert issued[..i + 1][..i] == issued[..i];
      if IsReservedGroup(issued[i]) && issued[i] !in r {
        r, kept := r + [issued[i]], kept + [issued[i]];
      }
    }
    assert issued[..|issued|] == issued;
  }

  /** A certificate carrying `signed` gives a device the groups wanted, and beyond them reserved ones at most. */
  ghost predicate Carries(signed: seq<string>, wanted: seq<string>) {
    && (forall g :: g in wanted ==> g in signed)
    && (forall g :: g in signed && g !in wanted ==> IsReservedGroup(g))
  }

  // ---------------------------------------------------------------- the steps

  /** A single-device update between its read and its write. */
  datatype Patch = Patch(enrollmentId: nat, seen: nat, groups: seq<string>)

  /** A certificate signed for the generation a renewal captured; `recorded` once its row write has been tried. */
  datatype Renewal = Renewal(enrollmentId: nat, captured: nat, signed: seq<string>, recorded: bool)

  /** A write of desired groups that was reported applied. */
  datatype Logged = Logged(enrollmentId: nat, base: nat, groups: seq<string>)

  /** `renewals` are under way, and `held` is the certificate each device really has. */
  datatype World = World(rows: Rows, entries: map<nat, Entry>, patches: map<nat, Patch>, renewals: map<nat, Renewal>,
                         held: map<nat, Renewal>, log: seq<Logged>)

  const START := World(map[], map[], map[], map[], map[], [])

  datatype Action =
    | Enroll(id: nat, ip: string, groups: seq<string>)
    | SetIssued(id: nat, issued: bool)
    | EntryRead(p: nat, e: Entry)
    | EntryWrite(p: nat)
    | PatchRead(p: nat, id: nat, groups: seq<string>)
    | PatchWrite(p: nat)
    | RenewRead(p: nat, id: nat)
    | RenewWrite(p: nat, ok: bool)
    | Deliver(p: nat)
    | Lose(p: nat)

  ghost predicate Step(w: World, a: Action, w': World) {
    match a
    case Enroll(id, ip, groups) =>
      && id !in w.rows
      && w' == w.(rows := w.rows[id := Enrollment(ip, true, groups, groups, 0, 0)],
                  held := w.held[id := Renewal(id, 0, groups, true)])
    case SetIssued(id, issued) => id in w.rows && w' == w.(rows := w.rows[id := w.rows[id].(issued := issued)])
    case EntryRead(p, e) => p !in w.entries && Judge(w.rows, e) == Applied && w' == w.(entries := w.entries[p := e])
    case EntryWrite(p) => p in w.entries && w' == AfterEntry(w, p)
    case PatchRead(p, id, groups) =>
      && p !in w.patches && id in w.rows && IsLatest(w.rows, w.rows[id].overlayIp, id)
      && !GrantsReserved(w.rows[id].groups) && !GrantsReserved(Norm(groups))
      && GroupSet(w.rows[id].desired) != GroupSet(groups)
      && w' == w.(patches := w.patches[p := Patch(id, w.rows[id].generation, groups)])
    case PatchWrite(p) => p in w.patches && w.patches[p].enrollmentId in w.rows && w' == AfterPatch(w, p)
    case RenewRead(p, id) =>
      && p !in w.renewals && id in w.rows
      && w' == w.(renewals := w.renewals[p := Renewal(id, w.rows[id].generation,
                                                      KeepReserved(w.rows[id].groups, w.rows[id].desired), false)])
    case RenewWrite(p, ok) =>
      p in w.renewals && !w.renewals[p].recorded && w.renewals[p].enrollmentId in w.rows && w' == AfterRenewal(w, p, ok)
    case Deliver(p) =>
      && p in w.renewals && w.renewals[p].recorded
      && w' == w.(held := w.held[w.renewals[p].enrollmentId := w.renewals[p]], renewals := w.renewals - {p})
    case Lose(p) => p in w.renewals && w' == w.(renewals := w.renewals - {p})
  }

  ghost function Apply(w: World, id: nat, base: nat, groups: seq<string>): World
    requires id in w.rows
  {
    w.(rows := Write(w.rows, id, base, groups), log := w.log + [Logged(id, base, Norm(groups))])
  }

  ghost predicate StillAt(w: World, id: nat, generation: nat) {
    id in w.rows && w.rows[id].generation == generation
  }

  ghost function AfterEntry(w: World, p: nat): World
    requires p in w.entries
  {
    var e := w.entries[p];
    var w1 := if StillAt(w, e.enrollmentId, e.baseGeneration) then Apply(w, e.enrollmentId, e.baseGeneration, e.target) else w;
    w1.(entries := w.entries - {p})
  }

  ghost function AfterPatch(w: World, p: nat): World
    requires p in w.patches && w.patches[p].enrollmentId in w.rows
  {
    var c := w.patches[p];
    Apply(w, c.enrollmentId, c.seen, c.groups).(patches := w.patches - {p})
  }

  /** The write-back is best-effort: the answer goes out even if it fails. */
  ghost function AfterRenewal(w: World, p: nat, ok: bool): World
    requires p in w.renewals && w.renewals[p].enrollmentId in w.rows
  {
    var r := w.renewals[p];
    var row := w.rows[r.enrollmentId];
    var row' := if ok && row.issuedGeneration < r.captured then row.(groups := r.signed, issuedGeneration := r.captured) else row;
    w.(rows := w.rows[r.enrollmentId := row'], renewals := w.renewals[p := r.(recorded := true)])
  }

  /** No write got between a single-device update's read and its write. */
  ghost predicate Undisturbed(w: World, a: Action) {
    a.PatchWrite? && a.p in w.patches ==> StillAt(w, w.patches[a.p].enrollmentId, w.patches[a.p].seen)
  }

  // ---------------------------------------------------------------- the invariant

  /** How many applied writes an enrollment has seen. */
  function Writes(log: seq<Logged>, id: nat): nat {
    if log == [] then 0
    else Writes(log[..|log| - 1], id) + (if log[|log| - 1].enrollmentId == id then 1 else 0)
  }

  ghost predicate Made(log: seq<Logged>, i: int, id: nat, generation: nat, desired: seq<string>) {
    0 <= i < |log| && log[i].enrollmentId == id && log[i].base + 1 == generation && log[i].groups == desired
  }

  ghost predicate Signs(log: seq<Logged>, i: int, id: nat, generation: nat, signed: seq<string>) {
    0 <= i < |log| && log[i].enrollmentId == id && log[i].base + 1 == generation && Carries(signed, log[i].groups)
  }

  ghost predicate SomeSigns(log: seq<Logged>, id: nat, generation: nat, signed: seq<string>) {
    exists i :: Signs(log, i, id, generation, signed)
  }

  ghost predicate RowGood(log: seq<Logged>, id: nat, row: Enrollment) {
    && row.generation == Writes(log, id) && row.issuedGeneration <= row.generation
    && (row.generation > 0 ==> exists i :: Made(log, i, id, row.generation, row.desired))
    && (row.generation == 0 ==> row.groups == row.desired)
    && (row.issuedGeneration > 0 ==> SomeSigns(log, id, row.issuedGeneration, row.groups))
  }

  ghost predicate RenewalGood(log: seq<Logged>, rows: Rows, r: Renewal) {
    && r.enrollmentId in rows && r.captured <= rows[r.enrollmentId].generation
    && (r.captured > 0 ==> SomeSigns(log, r.enrollmentId, r.captured, r.signed))
    && (rows[r.enrollmentId].generation == 0 ==> Carries(r.signed, rows[r.enrollmentId].desired))
  }

  ghost predicate AllGood(log: seq<Logged>, rows: Rows, rs: map<nat, Renewal>) {
    forall p :: p in rs ==> RenewalGood(log, rows, rs[p])
  }

  ghost predicate HeldGood(log: seq<Logged>, rows: Rows, held: map<nat, Renewal>) {
    held.Keys == rows.Keys && AllGood(log, rows, held) && forall id :: id in held ==> held[id].enrollmentId == id
  }

  ghost predicate LogBelow(rows: Rows, log: seq<Logged>) {
    forall i :: 0 <= i < |log| ==> log[i].enrollmentId in rows && log[i].base < rows[log[i].enrollmentId].generation
  }

  ghost predicate Ordered(log: seq<Logged>) {
    forall i, j :: 0 <= i < j < |log| && log[i].enrollmentId == log[j].enrollmentId ==> log[i].base < log[j].base
  }

  ghost predicate BooksGood(log: seq<Logged>, rows: Rows) {
    LogBelow(rows, log) && Ordered(log) && forall id: nat :: id in rows ==> RowGood(log, id, rows[id])
  }

  ghost predicate Good(w: World) {
    BooksGood(w.log, w.rows) && AllGood(w.log, w.rows, w.renewals) && HeldGood(w.log, w.rows, w.held)
  }

  // ---------------------------------------------------------------- it is kept

  lemma WritesSnoc(log: seq<Logged>, l: Logged, id: nat)
    ensures Writes(log + [l], id) == Writes(log, id) + (if l.enrollmentId == id then 1 else 0)
  {
    assert (log + [l])[..|log|] == log;
  }

  lemma {:induction false} NoWrites(log: seq<Logged>, id: nat)
    requires forall i :: 0 <= i < |log| ==> log[i].enrollmentId != id
    ensures Writes(log, id) == 0
  {
    if log != [] {
      NoWrites(log[..|log| - 1], id);
    }
  }

  lemma SignsSnoc(log: seq<Logged>, l: Logged, id: nat, generation: nat, signed: seq<string>)
    requires SomeSigns(log, id, generation, signed)
    ensures SomeSigns(log + [l], id, generation, signed)
  {
    var i :| Signs(log, i, id, generation, signed);
    assert (log + [l])[i] == log[i];
    assert Signs(log + [l], i, id, generation, signed);
  }

  lemma OtherRowGood(log: seq<Logged>, l: Logged, id: nat, row: Enrollment)
    requires RowGood(log, id, row) && l.enrollmentId != id
    ensures RowGood(log + [l], id, row)
  {
    WritesSnoc(log, l, id);
    if row.generation > 0 {
      var i :| Made(log, i, id, row.generation, row.desired);
      assert (log + [l])[i] == log[i];
      assert Made(log + [l], i, id, row.generation, row.desired);
    }
    if row.issuedGeneration > 0 {
      SignsSnoc(log, l, id, row.issuedGeneration, row.groups);
    }
  }

  lemma WrittenRowGood(log: seq<Logged>, id: nat, row: Enrollment, groups: seq<string>)
    requires RowGood(log, id, row)
    ensures RowGood(log + [Logged(id, row.generation, groups)], id, row.(desired := groups, generation := row.generation + 1))
  {
    var l := Logged(id, row.generation, groups);
    WritesSnoc(log, l, id);
    assert Made(log + [l], |log|, id, row.generation + 1, groups);
    if row.issuedGeneration > 0 {
      SignsSnoc(log, l, id, row.issuedGeneration, row.groups);
    }
  }

  lemma ApplyKeepsLog(w: World, id: nat, groups: seq<string>)
    requires id in w.rows && LogBelow(w.rows, w.log) && Ordered(w.log)
    ensures var w' := Apply(w, id, w.rows[id].generation, groups); LogBelow(w'.rows, w'.log) && Ordered(w'.log)
  {
  }

  lemma ApplyKeepsRows(w: World, id: nat, groups: seq<string>)
    requires BooksGood(w.log, w.rows) && id in w.rows
    ensures var w' := Apply(w, id, w.rows[id].generation, groups); forall j: nat :: j in w'.rows ==> RowGood(w'.log, j, w'.rows[j])
  {
    var base := w.rows[id].generation;
    var w' := Apply(w, id, base, groups);
    WrittenRowGood(w.log, id, w.rows[id], Norm(groups));
    forall j: nat | j in w'.rows ensures RowGood(w'.log, j, w'.rows[j]) {
      if j != id {
        OtherRowGood(w.log, Logged(id, base, Norm(groups)), j, w.rows[j]);
      }
    }
  }

  /** Writing at the current generation keeps the books. */
  lemma ApplyKeepsGood(w: World, id: nat, groups: seq<string>)
    requires Good(w) && id in w.rows
    ensures Good(Apply(w, id, w.rows[id].generation, groups))
  {
    ApplyKeepsLog(w, id, groups);
    ApplyKeepsRows(w, id, groups);
    ApplyKeepsRenewals(w, id, groups, w.renewals);
    ApplyKeepsRenewals(w, id, groups, w.held);
  }

  lemma ApplyKeepsRenewals(w: World, id: nat, groups: seq<string>, rs: map<nat, Renewal>)
    requires id in w.rows && AllGood(w.log, w.rows, rs)
    ensures var w' := Apply(w, id, w.rows[id].generation, groups); AllGood(w'.log, w'.rows, rs)
  {
    var w' := Apply(w, id, w.rows[id].generation, groups);
    forall p | p in rs ensures RenewalGood(w'.log, w'.rows, rs[p]) {
      assert RenewalGood(w.log, w.rows, rs[p]);
      if rs[p].captured > 0 {
        SignsSnoc(w.log, Logged(id, w.rows[id].generation, Norm(groups)), rs[p].enrollmentId, rs[p].captured, rs[p].signed);
      }
    }
  }

  lemma MoreRows(log: seq<Logged>, rows: Rows, id: nat, row: Enrollment, rs: map<nat, Renewal>)
    requires id !in rows && AllGood(log, rows, rs)
    ensures AllGood(log, rows[id := row], rs)
  {
    forall p | p in rs ensures RenewalGood(log, rows[id := row], rs[p]) {
      assert RenewalGood(log, rows, rs[p]);
    }
  }

  lemma EnrollBooks(log: seq<Logged>, rows: Rows, id: nat, ip: string, groups: seq<string>)
    requires BooksGood(log, rows) && id !in rows
    ensures BooksGood(log, rows[id := Enrollment(ip, true, groups, groups, 0, 0)])
  {
    NoWrites(log, id);
  }

  lemma HoldMore(log: seq<Logged>, rows: Rows, held: map<nat, Renewal>, id: nat, r: Renewal)
    requires AllGood(log, rows, held) && held.Keys + {id} == rows.Keys && (forall i :: i in held ==> held[i].enrollmentId == i)
    requires RenewalGood(log, rows, r) && r.enrollmentId == id
    ensures HeldGood(log, rows, held[id := r])
  {
    var more := held[id := r];
    forall p | p in more ensures RenewalGood(log, rows, more[p]) {
      if p != id {
        assert RenewalGood(log, rows, held[p]);
      }
    }
  }

  lemma EnrollKeepsGood(w: World, id: nat, ip: string, groups: seq<string>, w': World)
    requires Good(w) && Step(w, Enroll(id, ip, groups), w')
    ensures Good(w')
  {
    var row := Enrollment(ip, true, groups, groups, 0, 0);
    EnrollBooks(w.log, w.rows, id, ip, groups);
    MoreRows(w.log, w.rows, id, row, w.renewals);
    MoreRows(w.log, w.rows, id, row, w.held);
    HoldMore(w.log, w'.rows, w.held, id, Renewal(id, 0, groups, true));
  }

  lemma SetIssuedKeepsGood(w: World, id: nat, issued: bool, w': World)
    requires Good(w) && Step(w, SetIssued(id, issued), w')
    ensures Good(w')
  {
    assert RowGood(w.log, id, w.rows[id]);
    RowReplaced(w, id, w'.rows[id], w');
  }

  /** What a renewal signs carries the groups of the write that made the generation it captured. */
  lemma RenewReadKeepsGood(w: World, p: nat, id: nat, w': World)
    requires Good(w) && Step(w, RenewRead(p, id), w')
    ensures Good(w')
  {
    var row, r := w.rows[id], w'.renewals[p];
    assert RowGood(w.log, id, row);
    if row.generation > 0 {
      var i :| Made(w.log, i, id, row.generation, row.desired);
      assert Signs(w.log, i, id, r.captured, r.signed);
    }
    assert RenewalGood(w.log, w.rows, r);
  }

  lemma RenewedRowGood(log: seq<Logged>, id: nat, row: Enrollment, captured: nat, signed: seq<string>)
    requires RowGood(log, id, row) && row.issuedGeneration < captured <= row.generation
    requires SomeSigns(log, id, captured, signed)
    ensures RowGood(log, id, row.(groups := signed, issuedGeneration := captured))
  {
  }

  lemma RenewWriteKeepsGood(w: World, p: nat, ok: bool, w': World)
    requires Good(w) && Step(w, RenewWrite(p, ok), w')
    ensures Good(w')
  {
    var r := w.renewals[p];
    var id := r.enrollmentId;
    assert RenewalGood(w.log, w.rows, r) && RowGood(w.log, id, w.rows[id]);
    if ok && w.rows[id].issuedGeneration < r.captured {
      RenewedRowGood(w.log, id, w.rows[id], r.captured, r.signed);
    }
    RowReplaced(w, id, w'.rows[id], w');
  }

  /** Whether a renewal has been recorded does not matter to what it carries. */
  predicate SameRenewal(a: Renewal, b: Renewal) {
    a.enrollmentId == b.enrollmentId && a.captured == b.captured && a.signed == b.signed
  }

  lemma SameRenewals(w: World, rows: Rows, rs: map<nat, Renewal>, rs': map<nat, Renewal>)
    requires AllGood(w.log, w.rows, rs) && rows.Keys == w.rows.Keys
    requires forall id :: id in rows ==> rows[id].generation == w.rows[id].generation && rows[id].desired == w.rows[id].desired
    requires forall p :: p in rs' ==> p in rs && SameRenewal(rs[p], rs'[p])
    ensures AllGood(w.log, rows, rs')
  {
    forall p | p in rs' ensures RenewalGood(w.log, rows, rs'[p]) {
      assert RenewalGood(w.log, w.rows, rs[p]);
    }
  }

  lemma RowReplaced(w: World, id: nat, row: Enrollment, w': World)
    requires Good(w) && id in w.rows && RowGood(w.log, id, row)
    requires row.generation == w.rows[id].generation && row.desired == w.rows[id].desired
    requires w'.log == w.log && w'.rows == w.rows[id := row] && w'.held == w.held
    requires forall p :: p in w'.renewals ==> p in w.renewals && SameRenewal(w.renewals[p], w'.renewals[p])
    ensures Good(w')
  {
    SameRenewals(w, w'.rows, w.renewals, w'.renewals);
    SameRenewals(w, w'.rows, w.held, w'.held);
  }

  lemma FewerRenewals(log: seq<Logged>, rows: Rows, rs: map<nat, Renewal>, p: nat)
    requires AllGood(log, rows, rs)
    ensures AllGood(log, rows, rs - {p})
  {
    forall q | q in rs - {p} ensures RenewalGood(log, rows, (rs - {p})[q]) {
      assert RenewalGood(log, rows, rs[q]);
    }
  }

  lemma DeliverKeepsGood(w: World, p: nat, w': World)
    requires Good(w) && Step(w, Deliver(p), w')
    ensures Good(w')
  {
    var r := w.renewals[p];
    assert RenewalGood(w.log, w.rows, r);
    HoldMore(w.log, w.rows, w.held, r.enrollmentId, r);
    FewerRenewals(w.log, w.rows, w.renewals, p);
  }

  lemma StepKeepsGood(w: World, a: Action, w': World)
    requires Good(w) && Step(w, a, w') && Undisturbed(w, a)
    ensures Good(w')
  {
    match a {
      case Enroll(id, ip, groups) => EnrollKeepsGood(w, id, ip, groups, w');
      case SetIssued(id, issued) => SetIssuedKeepsGood(w, id, issued, w');
      case EntryWrite(p) =>
        var e := w.entries[p];
        if StillAt(w, e.enrollmentId, e.baseGeneration) {
          ApplyKeepsGood(w, e.enrollmentId, e.target);
        }
      case PatchWrite(p) => ApplyKeepsGood(w, w.patches[p].enrollmentId, w.patches[p].groups);
      case RenewRead(p, id) => RenewReadKeepsGood(w, p, id, w');
      case RenewWrite(p, ok) => RenewWriteKeepsGood(w, p, ok, w');
      case Deliver(p) => DeliverKeepsGood(w, p, w');
      case Lose(p) => FewerRenewals(w.log, w.rows, w.renewals, p);
      case _ =>
    }
  }

  ghost predicate Run(ws: seq<World>, acts: seq<Action>) {
    && |ws| == |acts| + 1 && ws[0] == START
    && forall i :: 0 <= i < |acts| ==> Step(ws[i], acts[i], ws[i + 1]) && Undisturbed(ws[i], acts[i])
  }

  lemma {:induction false} RunIsGood(ws: seq<World>, acts: seq<Action>, i: nat)
    requires Run(ws, acts) && i < |ws|
    ensures Good(ws[i])
  {
    if i > 0 {
      RunIsGood(ws, acts, i - 1);
      StepKeepsGood(ws[i - 1], acts[i - 1], ws[i]);
    }
  }

  // ---------------------------------------------------------------- what follows

  /** However the writers interleave, no (enrollment, base generation) is ever applied twice. */
  lemma AppliedAtMostOnce(ws: seq<World>, acts: seq<Action>, i: nat, m: nat, n: nat)
    requires Run(ws, acts) && i < |ws| && m < n < |ws[i].log|
    ensures ws[i].log[m].enrollmentId != ws[i].log[n].enrollmentId || ws[i].log[m].base != ws[i].log[n].base
  {
    RunIsGood(ws, acts, i);
  }

  /**
   The generation counts the applied writes, and the desired groups are those of the last of them, which is
   also the one that made the current generation.
   */
  lemma DesiredIsTheLastWrite(ws: seq<World>, acts: seq<Action>, i: nat, id: nat)
    requires Run(ws, acts) && i < |ws| && id in ws[i].rows
    ensures var w := ws[i]; var row := w.rows[id];
            && row.generation == Writes(w.log, id)
            && (row.generation > 0 ==> exists k :: Made(w.log, k, id, row.generation, row.desired) && LastOf(w.log, k))
  {
    RunIsGood(ws, acts, i);
    var w := ws[i];
    var row := w.rows[id];
    assert RowGood(w.log, id, row);
    if row.generation > 0 {
      var k :| Made(w.log, k, id, row.generation, row.desired);
      assert LastOf(w.log, k) by {
        if j :| k < j < |w.log| && w.log[j].enrollmentId == w.log[k].enrollmentId {
          assert false;
        }
      }
    }
  }

  ghost predicate LastOf(log: seq<Logged>, k: int)
    requires 0 <= k < |log|
  {
    forall j :: k < j < |log| ==> log[j].enrollmentId != log[k].enrollmentId
  }

  /** Groups signed for the generation a row is at are its desired groups. */
  lemma CurrentCarriesDesired(w: World, id: nat, signed: seq<string>)
    requires Good(w) && id in w.rows && w.rows[id].generation > 0 && SomeSigns(w.log, id, w.rows[id].generation, signed)
    ensures Carries(signed, w.rows[id].desired)
  {
    var row := w.rows[id];
    assert RowGood(w.log, id, row);
    var k :| Made(w.log, k, id, row.generation, row.desired);
    var n :| Signs(w.log, n, id, row.generation, signed);
    assert k == n by {
      if k < n {
        assert false;
      }
      if n < k {
        assert false;
      }
    }
  }

  /** The record of a device that is not pending is of a certificate with its desired groups. */
  lemma ConvergedCarriesDesired(ws: seq<World>, acts: seq<Action>, i: nat, id: nat)
    requires Run(ws, acts) && i < |ws| && id in ws[i].rows
    requires ws[i].rows[id].issuedGeneration == ws[i].rows[id].generation
    ensures Carries(ws[i].rows[id].groups, ws[i].rows[id].desired)
  {
    RunIsGood(ws, acts, i);
    assert RowGood(ws[i].log, id, ws[i].rows[id]);
    if ws[i].rows[id].generation > 0 {
      CurrentCarriesDesired(ws[i], id, ws[i].rows[id].groups);
    }
  }

  // ---------------------------------------------------------------- what each generation asked for

  /** The groups an enrollment was made with. */
  ghost function Enrolled(acts: seq<Action>, id: nat): seq<string> {
    if acts == [] then []
    else
      var a := acts[|acts| - 1];
      if a.Enroll? && a.id == id then a.groups else Enrolled(acts[..|acts| - 1], id)
  }

  /** The groups of the write that made a generation. */
  ghost function Written(log: seq<Logged>, id: nat, generation: nat): seq<string> {
    if log == [] then []
    else
      var l := log[|log| - 1];
      if l.enrollmentId == id && l.base + 1 == generation then l.groups else Written(log[..|log| - 1], id, generation)
  }

  /** What a generation of an enrollment stands for: its first groups, or those of the write that made it. */
  ghost function Wish(acts: seq<Action>, log: seq<Logged>, id: nat, generation: nat): seq<string> {
    if generation == 0 then Enrolled(acts, id) else Written(log, id, generation)
  }

  lemma {:induction false} WrittenIs(log: seq<Logged>, n: nat)
    requires Ordered(log) && n < |log|
    ensures Written(log, log[n].enrollmentId, log[n].base + 1) == log[n].groups
  {
    if n < |log| - 1 {
      WrittenIs(log[..|log| - 1], n);
    }
  }

  lemma EnrolledSnoc(acts: seq<Action>, a: Action, id: nat)
    ensures Enrolled(acts + [a], id) == if a.Enroll? && a.id == id then a.groups else Enrolled(acts, id)
  {
    assert (acts + [a])[..|acts|] == acts;
  }

  /** A certificate signed for generation 0 carries the groups of the enrollment. */
  ghost predicate FirstCarried(acts: seq<Action>, r: Renewal) {
    r.captured == 0 ==> Carries(r.signed, Enrolled(acts, r.enrollmentId))
  }

  ghost predicate FirstDesired(acts: seq<Action>, id: nat, row: Enrollment) {
    row.generation == 0 ==> row.desired == Enrolled(acts, id)
  }

  ghost predicate Rooted(w: World, acts: seq<Action>) {
    && (forall id: nat :: id in w.rows ==> FirstDesired(acts, id, w.rows[id]))
    && (forall p :: p in w.renewals ==> FirstCarried(acts, w.renewals[p]))
    && (forall id :: id in w.held ==> FirstCarried(acts, w.held[id]))
  }

  lemma RowBefore(w: World, a: Action, w': World, id: nat)
    requires Step(w, a, w') && id in w'.rows && w'.rows[id].generation == 0
    ensures if a.Enroll? && a.id == id then w'.rows[id].desired == a.groups
            else id in w.rows && w.rows[id].generation == 0 && w'.rows[id].desired == w.rows[id].desired
  {
  }

  /** A renewal was under way before, or has just read its row. */
  lemma RenewalBefore(w: World, a: Action, w': World, p: nat)
    requires Step(w, a, w') && p in w'.renewals
    ensures || (p in w.renewals && SameRenewal(w.renewals[p], w'.renewals[p]))
            || (&& a == RenewRead(p, w'.renewals[p].enrollmentId) && a.id in w.rows && w'.renewals[p].captured == w.rows[a.id].generation
                && w'.renewals[p].signed == KeepReserved(w.rows[a.id].groups, w.rows[a.id].desired))
  {
  }

  /** A certificate was held before, has just been delivered, or is that of an enrollment. */
  lemma HeldBefore(w: World, a: Action, w': World, id: nat)
    requires Step(w, a, w') && id in w'.held
    ensures || (id in w.held && w'.held[id] == w.held[id])
            || (exists p :: p in w.renewals && w'.held[id] == w.renewals[p])
            || (a.Enroll? && a.id == id && w'.held[id] == Renewal(id, 0, a.groups, true))
  {
  }

  lemma CarriedOn(w: World, acts: seq<Action>, a: Action, w': World, r: Renewal)
    requires Step(w, a, w') && r.enrollmentId in w.rows && FirstCarried(acts, r)
    ensures FirstCarried(acts + [a], r)
  {
    EnrolledSnoc(acts, a, r.enrollmentId);
  }

  lemma RenewalRooted(w: World, acts: seq<Action>, a: Action, w': World, p: nat)
    requires Good(w) && Rooted(w, acts) && Step(w, a, w') && p in w'.renewals
    ensures FirstCarried(acts + [a], w'.renewals[p])
  {
    RenewalBefore(w, a, w', p);
    if p in w.renewals && SameRenewal(w.renewals[p], w'.renewals[p]) {
      assert RenewalGood(w.log, w.rows, w.renewals[p]);
    } else {
      assert RowGood(w.log, a.id, w.rows[a.id]) && FirstDesired(acts, a.id, w.rows[a.id]);
    }
    CarriedOn(w, acts, a, w', w'.renewals[p]);
  }

  lemma HeldRooted(w: World, acts: seq<Action>, a: Action, w': World, id: nat)
    requires Good(w) && Rooted(w, acts) && Step(w, a, w') && id in w'.held
    ensures FirstCarried(acts + [a], w'.held[id])
  {
    HeldBefore(w, a, w', id);
    if a.Enroll? && a.id == id {
      EnrolledSnoc(acts, a, id);
    } else {
      assert RenewalGood(w.log, w.rows, w'.held[id]);
      CarriedOn(w, acts, a, w', w'.held[id]);
    }
  }

  lemma StepKeepsRooted(w: World, acts: seq<Action>, a: Action, w': World)
    requires Good(w) && Rooted(w, acts) && Step(w, a, w')
    ensures Rooted(w', acts + [a])
  {
    forall id: nat | id in w'.rows ensures FirstDesired(acts + [a], id, w'.rows[id]) {
      if w'.rows[id].generation == 0 {
        RowBefore(w, a, w', id);
        EnrolledSnoc(acts, a, id);
      }
    }
    forall p | p in w'.renewals ensures FirstCarried(acts + [a], w'.renewals[p]) {
      RenewalRooted(w, acts, a, w', p);
    }
    forall id | id in w'.held ensures FirstCarried(acts + [a], w'.held[id]) {
      HeldRooted(w, acts, a, w', id);
    }
  }

  lemma Upto(acts: seq<Action>, i: nat)
    requires 0 < i <= |acts|
    ensures acts[..i] == acts[..i - 1] + [acts[i - 1]]
  {
  }

  lemma {:induction false} RunIsRooted(ws: seq<World>, acts: seq<Action>, i: nat)
    requires Run(ws, acts) && i < |ws|
    ensures Rooted(ws[i], acts[..i])
  {
    if i > 0 {
      RunIsRooted(ws, acts, i - 1);
      RunIsGood(ws, acts, i - 1);
      Upto(acts, i);
      var init, a, w, w' := acts[..i - 1], acts[i - 1], ws[i - 1], ws[i];
      StepKeepsRooted(w, init, a, w');
    }
  }

  lemma SignedForWish(acts: seq<Action>, log: seq<Logged>, rows: Rows, r: Renewal)
    requires Ordered(log) && RenewalGood(log, rows, r) && FirstCarried(acts, r)
    ensures Carries(r.signed, Wish(acts, log, r.enrollmentId, r.captured))
  {
    if r.captured > 0 {
      var n: nat :| Signs(log, n, r.enrollmentId, r.captured, r.signed);
      WrittenIs(log, n);
    }
  }

  lemma MadeByWish(acts: seq<Action>, log: seq<Logged>, id: nat, row: Enrollment)
    requires Ordered(log) && RowGood(log, id, row) && FirstDesired(acts, id, row)
    ensures row.desired == Wish(acts, log, id, row.generation)
  {
    if row.generation > 0 {
      var n: nat :| Made(log, n, id, row.generation, row.desired);
      WrittenIs(log, n);
    }
  }

  /**
   The certificate a device really holds was signed for some generation up to the current one, and carries what
   that generation stands for.  What the current one stands for is what is desired.
   */
  lemma HeldCarriesItsGeneration(ws: seq<World>, acts: seq<Action>, i: nat, id: nat)
    requires Run(ws, acts) && i < |ws| && id in ws[i].rows
    ensures var w := ws[i];
            && id in w.held && w.held[id].captured <= w.rows[id].generation
            && Carries(w.held[id].signed, Wish(acts[..i], w.log, id, w.held[id].captured))
            && (0 < w.held[id].captured ==> SomeSigns(w.log, id, w.held[id].captured, w.held[id].signed))
            && w.rows[id].desired == Wish(acts[..i], w.log, id, w.rows[id].generation)
  {
    RunIsGood(ws, acts, i);
    RunIsRooted(ws, acts, i);
    var w := ws[i];
    assert RenewalGood(w.log, w.rows, w.held[id]) && RowGood(w.log, id, w.rows[id]);
    assert FirstCarried(acts[..i], w.held[id]) && FirstDesired(acts[..i], id, w.rows[id]);
    SignedForWish(acts[..i], w.log, w.rows, w.held[id]);
    MadeByWish(acts[..i], w.log, id, w.rows[id]);
  }

  /** Not pending is not enough: a renewal recorded but never delivered leaves the device without its groups. */
  lemma LostAnswerLeavesTheOldCertificate(ip: string, target: seq<string>, g: string) returns (ws: seq<World>, acts: seq<Action>)
    requires !GrantsReserved(target) && g in Norm(target)
    ensures Run(ws, acts)
    ensures var w := ws[|acts|];
            && 1 in w.rows && 1 in w.held && w.rows[1].issuedGeneration == w.rows[1].generation == 1 && w.renewals == map[]
            && g in w.rows[1].desired && g !in w.held[1].signed
  {
    var e := Entry(ip, 1, 0, target);
    var w1, w2 := EnrolledAndRead(ip, e);
    var w3, w6 := AppliedAndRenewed(w2, e);
    ws, acts := [START], [];
    ws, acts := Extend(ws, acts, Enroll(1, ip, []), w1);
    ws, acts := Extend(ws, acts, EntryRead(0, e), w2);
    ws, acts := Extend(ws, acts, EntryWrite(0), w3);
    ws, acts := Extend(ws, acts, RenewRead(0, 1), AfterRead(w3));
    ws, acts := Extend(ws, acts, RenewWrite(0, true), AfterRenewal(AfterRead(w3), 0, true));
    ws, acts := Extend(ws, acts, Lose(0), w6);
  }

  lemma Extend(ws: seq<World>, acts: seq<Action>, a: Action, w': World) returns (vs: seq<World>, more: seq<Action>)
    requires Run(ws, acts) && Step(ws[|acts|], a, w') && Undisturbed(ws[|acts|], a)
    ensures Run(vs, more) && vs[|more|] == w'
  {
    vs, more := ws + [w'], acts + [a];
  }

  lemma EnrolledAndRead(ip: string, e: Entry) returns (w1: World, w2: World)
    requires e.overlayIp == ip && e.enrollmentId == 1 && e.baseGeneration == 0 && !GrantsReserved(e.target)
    ensures Step(START, Enroll(1, ip, []), w1) && Step(w1, EntryRead(0, e), w2)
    ensures w2 == START.(rows := map[1 := Enrollment(ip, true, [], [], 0, 0)], held := map[1 := Renewal(1, 0, [], true)],
                         entries := map[0 := e])
  {
    w1 := START.(rows := map[1 := Enrollment(ip, true, [], [], 0, 0)], held := map[1 := Renewal(1, 0, [], true)]);
    assert IsLatest(w1.rows, ip, 1) && Judge(w1.rows, e) == Applied;
    w2 := w1.(entries := map[0 := e]);
  }

  ghost function AfterRead(w: World): World
    requires 1 in w.rows
  {
    w.(renewals := map[0 := Renewal(1, w.rows[1].generation, KeepReserved(w.rows[1].groups, w.rows[1].desired), false)])
  }

  lemma AppliedAndRenewed(w: World, e: Entry) returns (w1: World, w4: World)
    requires w.entries == map[0 := e] && w.renewals == map[] && e.enrollmentId == 1 && e.baseGeneration == 0
    requires StillAt(w, 1, 0) && w.rows[1].groups == [] && w.rows[1].issuedGeneration == 0
    ensures Step(w, EntryWrite(0), w1) && 1 in w1.rows && Step(w1, RenewRead(0, 1), AfterRead(w1))
    ensures Step(AfterRead(w1), RenewWrite(0, true), AfterRenewal(AfterRead(w1), 0, true))
    ensures Step(AfterRenewal(AfterRead(w1), 0, true), Lose(0), w4)
    ensures 1 in w4.rows && w4.rows[1].desired == Norm(e.target) && w4.rows[1].generation == w4.rows[1].issuedGeneration == 1
    ensures w4.held == w.held && w4.renewals == map[]
  {
    w1 := AfterEntry(w, 0);
    var w3 := AfterRenewal(AfterRead(w1), 0, true);
    w4 := w3.(renewals := w3.renewals - {0});
    assert w1.renewals[0 := AfterRead(w1).renewals[0]] == AfterRead(w1).renewals;
    assert w4.renewals == map[];
  }

  /**
   The unguarded update needs its condition: with a write in between, it reuses an old generation, and the
   books are wrong exactly then.
   */
  lemma StalePatchBreaksTheBooks(w: World, p: nat, w': World)
    requires Good(w) && Step(w, PatchWrite(p), w') && w.patches[p].seen <= w.rows[w.patches[p].enrollmentId].generation
    ensures Good(w') <==> StillAt(w, w.patches[p].enrollmentId, w.patches[p].seen)
  {
    var c := w.patches[p];
    if w.rows[c.enrollmentId].generation == c.seen {
      ApplyKeepsGood(w, c.enrollmentId, c.groups);
    } else {
      assert RowGood(w.log, c.enrollmentId, w.rows[c.enrollmentId]);
      WritesSnoc(w.log, Logged(c.enrollmentId, c.seen, Norm(c.groups)), c.enrollmentId);
      assert !RowGood(w'.log, c.enrollmentId, w'.rows[c.enrollmentId]);
    }
  }

  /** Such runs exist for any pair of changes: both report applied at generation 0, and the first is lost. */
  lemma PatchOverwritesAnEntry(ip: string, target: seq<string>, groups: seq<string>) returns (ws: seq<World>, acts: seq<Action>)
    requires !GrantsReserved(target) && !GrantsReserved(Norm(groups)) && GroupSet(groups) != {}
    ensures |ws| == |acts| + 1 && ws[0] == START
    ensures forall i :: 0 <= i < |acts| ==> Step(ws[i], acts[i], ws[i + 1])
    ensures var w := ws[|acts|];
            && w.log == [Logged(1, 0, Norm(target)), Logged(1, 0, Norm(groups))]
            && 1 in w.rows && w.rows[1].generation == 1 && w.rows[1].desired == Norm(groups)
  {
    var rows: Rows := map[1 := Enrollment(ip, true, [], [], 0, 0)];
    var e, c := Entry(ip, 1, 0, target), Patch(1, 0, groups);
    var w0 := START;
    var w1 := w0.(rows := rows, held := map[1 := Renewal(1, 0, [], true)]);
    assert Step(w0, Enroll(1, ip, []), w1);
    BothRead(ip, rows, e, groups);
    var w2 := w1.(patches := map[0 := c]);
    var w3 := w2.(entries := map[0 := e]);
    assert Step(w1, PatchRead(0, 1, groups), w2) && Step(w2, EntryRead(0, e), w3);
    var w4, w5 := BothWrite(w3, e, c);
    ws := [w0, w1, w2, w3, w4, w5];
    acts := [Enroll(1, ip, []), PatchRead(0, 1, groups), EntryRead(0, e), EntryWrite(0), PatchWrite(0)];
  }

  lemma BothWrite(w: World, e: Entry, c: Patch) returns (w1: World, w2: World)
    requires w.entries == map[0 := e] && w.patches == map[0 := c] && w.log == []
    requires e.enrollmentId == c.enrollmentId == 1 && e.baseGeneration == c.seen == 0 && StillAt(w, 1, 0)
    ensures Step(w, EntryWrite(0), w1) && Step(w1, PatchWrite(0), w2)
    ensures w2.log == [Logged(1, 0, Norm(e.target)), Logged(1, 0, Norm(c.groups))]
    ensures 1 in w2.rows && w2.rows[1].generation == 1 && w2.rows[1].desired == Norm(c.groups)
  {
    w1 := AfterEntry(w, 0);
    w2 := AfterPatch(w1, 0);
  }

  lemma BothRead(ip: string, rows: Rows, e: Entry, groups: seq<string>)
    requires rows == map[1 := Enrollment(ip, true, [], [], 0, 0)] && e.overlayIp == ip && e.enrollmentId == 1
    requires e.baseGeneration == 0 && !GrantsReserved(e.target) && GroupSet(groups) != {}
    ensures IsLatest(rows, ip, 1) && Judge(rows, e) == Applied && GroupSet(rows[1].desired) != GroupSet(groups)
  {
    assert IsLatest(rows, ip, 1);
    assert GroupSet([]) == {};
  }

  // ---------------------------------------------------------------- reserved groups

  ghost function ReservedOf(groups: seq<string>): set<string> {
    set g | g in groups && IsReservedGroup(g)
  }

  /** Nobody has asked for a reserved group, and every renewal in flight signs those the device holds. */
  ghost predicate Settled(w: World) {
    && (forall id :: id in w.rows ==> ReservedOf(w.rows[id].desired) <= ReservedOf(w.rows[id].groups))
    && (forall p :: p in w.entries ==> ReservedOf(Norm(w.entries[p].target)) == {})
    && (forall p :: p in w.patches ==> ReservedOf(Norm(w.patches[p].groups)) == {})
    && (forall p :: p in w.renewals ==>
          && w.renewals[p].enrollmentId in w.rows
          && ReservedOf(w.renewals[p].signed) == ReservedOf(w.rows[w.renewals[p].enrollmentId].groups))
    && w.held.Keys == w.rows.Keys
    && (forall id :: id in w.held ==> ReservedOf(w.held[id].signed) == ReservedOf(w.rows[id].groups))
  }

  lemma UnpaddedIsClean(groups: seq<string>)
    requires !GrantsReserved(groups) && Unpadded(groups)
    ensures ReservedOf(Norm(groups)) == {}
  {
  }

  lemma KeepReservedExactly(issued: seq<string>, desired: seq<string>)
    requires ReservedOf(desired) <= ReservedOf(issued)
    ensures ReservedOf(KeepReserved(issued, desired)) == ReservedOf(issued)
  {
    forall g ensures g in ReservedOf(KeepReserved(issued, desired)) <==> g in ReservedOf(issued) {
      assert g in desired && IsReservedGroup(g) ==> g in ReservedOf(desired);
    }
  }

  ghost predicate HoldsTheSame(w: World, w': World) {
    && w.rows.Keys <= w'.rows.Keys
    && forall id :: id in w.rows ==> ReservedOf(w'.rows[id].groups) == ReservedOf(w.rows[id].groups)
  }

  lemma StepKeepsReserved(w: World, a: Action, w': World)
    requires Settled(w) && Step(w, a, w') && (a.EntryRead? ==> Unpadded(a.e.target))
    ensures Settled(w') && HoldsTheSame(w, w')
  {
    match a {
      case Enroll(id, ip, groups) => EnrollKeepsReserved(w, id, ip, groups, w');
      case SetIssued(id, issued) => SetIssuedKeepsReserved(w, id, issued, w');
      case EntryRead(p, e) => EntryReadKeepsReserved(w, p, e, w');
      case EntryWrite(p) => EntryWriteKeepsReserved(w, p, w');
      case PatchRead(p, id, groups) => PatchReadKeepsReserved(w, p, id, groups, w');
      case PatchWrite(p) => PatchWriteKeepsReserved(w, p, w');
      case RenewRead(p, id) => RenewReadKeepsReserved(w, p, id, w');
      case RenewWrite(p, ok) => RenewWriteKeepsReserved(w, p, ok, w');
      case Deliver(p) => DeliverKeepsReserved(w, p, w');
      case Lose(p) => LoseKeepsReserved(w, p, w');
    }
  }

  lemma SetIssuedKeepsReserved(w: World, id: nat, issued: bool, w': World)
    requires Settled(w) && Step(w, SetIssued(id, issued), w')
    ensures Settled(w') && HoldsTheSame(w, w')
  {
    RowsKeepReserved(w, w');
  }

  lemma EntryReadKeepsReserved(w: World, p: nat, e: Entry, w': World)
    requires Settled(w) && Step(w, EntryRead(p, e), w') && Unpadded(e.target)
    ensures Settled(w') && HoldsTheSame(w, w')
  {
    UnpaddedIsClean(e.target);
  }

  lemma PatchReadKeepsReserved(w: World, p: nat, id: nat, groups: seq<string>, w': World)
    requires Settled(w) && Step(w, PatchRead(p, id, groups), w')
    ensures Settled(w') && HoldsTheSame(w, w')
  {
    assert ReservedOf(Norm(groups)) == {};
  }

  lemma PatchWriteKeepsReserved(w: World, p: nat, w': World)
    requires Settled(w) && Step(w, PatchWrite(p), w')
    ensures Settled(w') && HoldsTheSame(w, w')
  {
    var c := w.patches[p];
    ApplyKeepsReserved(w, c.enrollmentId, c.seen, c.groups, w');
  }

  lemma RenewWriteKeepsReserved(w: World, p: nat, ok: bool, w': World)
    requires Settled(w) && Step(w, RenewWrite(p, ok), w')
    ensures Settled(w') && HoldsTheSame(w, w')
  {
    RowsKeepReserved(w, w');
  }

  lemma LoseKeepsReserved(w: World, p: nat, w': World)
    requires Settled(w) && Step(w, Lose(p), w')
    ensures Settled(w') && HoldsTheSame(w, w')
  {
    RowsKeepReserved(w, w');
  }

  lemma DeliverKeepsReserved(w: World, p: nat, w': World)
    requires Settled(w) && Step(w, Deliver(p), w')
    ensures Settled(w') && HoldsTheSame(w, w')
  {
  }

  /** A change of rows is harmless if each still holds the same reserved groups and wants no others. */
  lemma RowsKeepReserved(w: World, w': World)
    requires Settled(w) && w.rows.Keys <= w'.rows.Keys
    requires forall id :: id in w'.rows ==> ReservedOf(w'.rows[id].desired) <= ReservedOf(w'.rows[id].groups)
    requires forall id :: id in w.rows ==> ReservedOf(w'.rows[id].groups) == ReservedOf(w.rows[id].groups)
    requires forall p :: p in w'.entries ==> p in w.entries && w'.entries[p] == w.entries[p]
    requires forall p :: p in w'.patches ==> p in w.patches && w'.patches[p] == w.patches[p]
    requires forall p :: p in w'.renewals ==> p in w.renewals && SameRenewal(w.renewals[p], w'.renewals[p])
    requires w'.held.Keys == w'.rows.Keys
    requires forall id :: id in w'.held ==>
               (id in w.held && w'.held[id] == w.held[id]) || ReservedOf(w'.held[id].signed) == ReservedOf(w'.rows[id].groups)
    ensures Settled(w') && HoldsTheSame(w, w')
  {
  }

  lemma EnrollKeepsReserved(w: World, id: nat, ip: string, groups: seq<string>, w': World)
    requires Settled(w) && Step(w, Enroll(id, ip, groups), w')
    ensures Settled(w') && HoldsTheSame(w, w')
  {
    RowsKeepReserved(w, w');
  }

  /** Writing groups that name no reserved one is harmless. */
  lemma ApplyKeepsReserved(w: World, id: nat, base: nat, groups: seq<string>, w': World)
    requires Settled(w) && id in w.rows && ReservedOf(Norm(groups)) == {}
    requires w'.rows == Write(w.rows, id, base, groups) && w'.renewals == w.renewals && w'.held == w.held
    requires forall p :: p in w'.entries ==> p in w.entries && w'.entries[p] == w.entries[p]
    requires forall p :: p in w'.patches ==> p in w.patches && w'.patches[p] == w.patches[p]
    ensures Settled(w') && HoldsTheSame(w, w')
  {
    RowsKeepReserved(w, w');
  }

  lemma EntryWriteKeepsReserved(w: World, p: nat, w': World)
    requires Settled(w) && Step(w, EntryWrite(p), w')
    ensures Settled(w') && HoldsTheSame(w, w')
  {
    var e := w.entries[p];
    if StillAt(w, e.enrollmentId, e.baseGeneration) {
      ApplyKeepsReserved(w, e.enrollmentId, e.baseGeneration, e.target, w');
    } else {
      RowsKeepReserved(w, w');
    }
  }

  lemma RenewReadKeepsReserved(w: World, p: nat, id: nat, w': World)
    requires Settled(w) && Step(w, RenewRead(p, id), w')
    ensures Settled(w') && HoldsTheSame(w, w')
  {
    KeepReservedExactly(w.rows[id].groups, w.rows[id].desired);
  }

  lemma {:induction false} RecordedReservedStay(ws: seq<World>, acts: seq<Action>, i: nat, j: nat, id: nat)
    requires Run(ws, acts) && i <= j < |ws| && id in ws[i].rows
    requires forall k :: 0 <= k < |acts| && acts[k].EntryRead? ==> Unpadded(acts[k].e.target)
    ensures id in ws[j].rows && ReservedOf(ws[j].rows[id].groups) == ReservedOf(ws[i].rows[id].groups)
  {
    if i < j {
      RecordedReservedStay(ws, acts, i, j - 1, id);
      ReservedStep(ws, acts, j - 1, id);
    }
  }

  lemma ReservedStep(ws: seq<World>, acts: seq<Action>, j: nat, id: nat)
    requires Run(ws, acts) && j < |acts| && id in ws[j].rows
    requires forall k :: 0 <= k < |acts| && acts[k].EntryRead? ==> Unpadded(acts[k].e.target)
    ensures id in ws[j + 1].rows && ReservedOf(ws[j + 1].rows[id].groups) == ReservedOf(ws[j].rows[id].groups)
  {
    AlwaysSettled(ws, acts, j);
    StepKeepsReserved(ws[j], acts[j], ws[j + 1]);
  }

  /**
   No renewal ever strips a reserved group off a device, nor adds one, in the record or in the certificate it
   holds, delivered or not, as long as no bulk entry names a reserved group with white space around it.
   */
  lemma ReservedGroupsStay(ws: seq<World>, acts: seq<Action>, i: nat, j: nat, id: nat)
    requires Run(ws, acts) && i <= j < |ws| && id in ws[i].rows
    requires forall k :: 0 <= k < |acts| && acts[k].EntryRead? ==> Unpadded(acts[k].e.target)
    ensures id in ws[j].rows && ReservedOf(ws[j].rows[id].groups) == ReservedOf(ws[i].rows[id].groups)
    ensures id in ws[j].held && ReservedOf(ws[j].held[id].signed) == ReservedOf(ws[i].rows[id].groups)
  {
    RecordedReservedStay(ws, acts, i, j, id);
    AlwaysSettled(ws, acts, j);
  }

  ghost function PlainOf(groups: seq<string>): set<string> {
    set g | g in groups && !IsReservedGroup(g)
  }

  /** Groups that carry one wish carry another if and only if the two differ at most in reserved groups they have. */
  lemma CarriesBoth(signed: seq<string>, wish: seq<string>, other: seq<string>)
    requires Carries(signed, wish)
    ensures Carries(signed, other) <==> PlainOf(wish) == PlainOf(other) && ReservedOf(other) <= ReservedOf(signed)
  {
    if PlainOf(wish) == PlainOf(other) && ReservedOf(other) <= ReservedOf(signed) {
      forall g ensures g in other ==> g in signed
               ensures g in signed && g !in other ==> IsReservedGroup(g)
      {
        assert g in PlainOf(wish) <==> g in PlainOf(other);
        assert g in ReservedOf(other) ==> g in ReservedOf(signed);
      }
    }
  }

  /**
   Exactly when a device holds its desired groups: if and only if the generation its certificate was signed for
   stands, reserved groups apart, for what is desired now, and no reserved group is desired that it lacks.  The
   last is never the case as long as no bulk entry names a reserved group with white space around it.
   */
  lemma HeldHasDesiredExactly(ws: seq<World>, acts: seq<Action>, i: nat, id: nat)
    requires Run(ws, acts) && i < |ws| && id in ws[i].rows
    ensures var w := ws[i];
            && id in w.held
            && var same := PlainOf(Wish(acts[..i], w.log, id, w.held[id].captured)) == PlainOf(w.rows[id].desired);
               && (Carries(w.held[id].signed, w.rows[id].desired) <==>
                   same && ReservedOf(w.rows[id].desired) <= ReservedOf(w.held[id].signed))
               && ((forall k :: 0 <= k < |acts| && acts[k].EntryRead? ==> Unpadded(acts[k].e.target)) ==>
                   (Carries(w.held[id].signed, w.rows[id].desired) <==> same))
  {
    HeldCarriesItsGeneration(ws, acts, i, id);
    var w := ws[i];
    CarriesBoth(w.held[id].signed, Wish(acts[..i], w.log, id, w.held[id].captured), w.rows[id].desired);
    if forall k :: 0 <= k < |acts| && acts[k].EntryRead? ==> Unpadded(acts[k].e.target) {
      AlwaysSettled(ws, acts, i);
    }
  }

  lemma {:induction false} AlwaysSettled(ws: seq<World>, acts: seq<Action>, i: nat)
    requires Run(ws, acts) && i < |ws|
    requires forall k :: 0 <= k < |acts| && acts[k].EntryRead? ==> Unpadded(acts[k].e.target)
    ensures Settled(ws[i])
  {
    if i > 0 {
      AlwaysSettled(ws, acts, i - 1);
      StepKeepsReserved(ws[i - 1], acts[i - 1], ws[i]);
    }
  }
}
