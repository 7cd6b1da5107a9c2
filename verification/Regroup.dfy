/**
 Applying confirmed group changes.  An entry names the enrollment and the generation it was previewed at, and
 is applied only if the address still resolves to that enrollment at that generation.
 */
module Regroup {
  import opened Wildcards
  import opened Groups
  import opened CloudTrust
  import opened Text

  /** `groups` is what the live certificate carries, `desired` what the next one should. */
  datatype Enrollment = Enrollment(overlayIp: string, issued: bool, groups: seq<string>, desired: seq<string>,
                                   generation: nat, issuedGeneration: nat)

  type Rows = map<nat, Enrollment>

  datatype Entry = Entry(overlayIp: string, enrollmentId: nat, baseGeneration: nat, target: seq<string>)

  predicate GrantsReserved(groups: seq<string>) {
    exists g :: g in groups && IsReservedGroup(g)
  }

  // ---------------------------------------------------------------- one entry, one batch

  datatype Status = Applied | NotFound | ChangedSincePreview | Reserved

  /** The authoritative row at an address: the latest issued enrollment. */
  ghost predicate IsLatest(rows: Rows, ip: string, id: nat) {
    && id in rows && rows[id].overlayIp == ip && rows[id].issued
    && forall j :: j in rows && rows[j].overlayIp == ip && rows[j].issued ==> j <= id
  }

  lemma LatestUnique(rows: Rows, ip: string, a: nat, b: nat)
    requires IsLatest(rows, ip, a) && IsLatest(rows, ip, b)
    ensures a == b
  {
    assert b in rows && a in rows;
  }

  ghost function Judge(rows: Rows, e: Entry): Status {
    if forall id: nat :: !IsLatest(rows, e.overlayIp, id) then NotFound
    else if !(IsLatest(rows, e.overlayIp, e.enrollmentId) && rows[e.enrollmentId].generation == e.baseGeneration)
    then ChangedSincePreview
    else if GrantsReserved(rows[e.enrollmentId].groups) || GrantsReserved(e.target) then Reserved
    else Applied
  }

  function Write(rows: Rows, id: nat, base: nat, target: seq<string>): Rows
    requires id in rows
  {
    rows[id := rows[id].(desired := Norm(target), generation := base + 1)]
  }

  ghost function ApplyOne(rows: Rows, e: Entry): Rows {
    if Judge(rows, e) == Applied && e.enrollmentId in rows then Write(rows, e.enrollmentId, e.baseGeneration, e.target) else rows
  }

  ghost function ApplyAll(rows: Rows, es: seq<Entry>): Rows {
    if es == [] then rows else ApplyOne(ApplyAll(rows, es[..|es| - 1]), es[|es| - 1])
  }

  ghost function Statuses(rows: Rows, es: seq<Entry>): seq<Status> {
    if es == [] then [] else
      var n := |es| - 1;
      Statuses(rows, es[..n]) + [Judge(ApplyAll(rows, es[..n]), es[n])]
  }

  class Store {
    var rows: Rows

    method Latest(ip: string) returns (id: Option<nat>)
      ensures id.Some? ==> IsLatest(rows, ip, id.value) && id.value in rows && rows[id.value].overlayIp == ip && rows[id.value].issued
      ensures id.Some? ==> forall j :: j in rows && rows[j].overlayIp == ip && rows[j].issued ==> j <= id.value
      ensures id.None? ==> forall j :: j in rows ==> !(rows[j].overlayIp == ip && rows[j].issued)
    {
      var at := set j | j in rows && rows[j].overlayIp == ip && rows[j].issued;
      if at == {} {
        assert forall j :: j in rows && rows[j].overlayIp == ip && rows[j].issued ==> j in at;
        return None;
      }
      var best :| best in at;
      var rest := at - {best};
      while rest != {}
        invariant best in at && rest <= at && forall j :: j in at && j !in rest ==> j <= best
        decreases rest
      {
        var j :| j in rest;
        if j > best {
          best := j;
        }
        rest := rest - {j};
      }
      assert forall j :: j in rows && rows[j].overlayIp == ip && rows[j].issued ==> j in at;
      return Some(best);
    }

    method ApplyRegroupOne(e: Entry) returns (st: Status)
      modifies this
      ensures st == Judge(old(rows), e)
      ensures st == NotFound <==> forall j :: j in old(rows) ==> !(old(rows)[j].overlayIp == e.overlayIp && old(rows)[j].issued)
      ensures st == Applied || st == Reserved <==>
                && e.enrollmentId in old(rows) && old(rows)[e.enrollmentId].generation == e.baseGeneration
                && old(rows)[e.enrollmentId].overlayIp == e.overlayIp && old(rows)[e.enrollmentId].issued
                && forall j :: j in old(rows) && old(rows)[j].overlayIp == e.overlayIp && old(rows)[j].issued ==> j <= e.enrollmentId
      ensures st == Reserved ==>
                exists g :: (g in old(rows)[e.enrollmentId].groups || g in e.target) && (g == "control-plane" || g == "lighthouse")
      ensures st == Applied ==>
                forall g :: g in old(rows)[e.enrollmentId].groups || g in e.target ==> g != "control-plane" && g != "lighthouse"
      ensures rows == ApplyOne(old(rows), e)
      ensures rows == if st != Applied then old(rows)
                      else old(rows)[e.enrollmentId := old(rows)[e.enrollmentId].(desired := Norm(e.target),
                                                                                  generation := e.baseGeneration + 1)]
    {
      var cur := Latest(e.overlayIp);
      if cur.None? {
        return NotFound;
      }
      forall a: nat | IsLatest(rows, e.overlayIp, a) ensures a == cur.value {
        LatestUnique(rows, e.overlayIp, a, cur.value);
      }
      if cur.value != e.enrollmentId || rows[cur.value].generation != e.baseGeneration {
        return ChangedSincePreview;
      }
      if GrantsReserved(rows[cur.value].groups) || GrantsReserved(e.target) {
        return Reserved;
      }
      var target := NormGroups(e.target);
      rows := rows[e.enrollmentId := rows[e.enrollmentId].(desired := target, generation := e.baseGeneration + 1)];
      return Applied;
    }

    /** Every entry is judged against the rows the earlier entries left behind. */
    method ApplyRegroup(es: seq<Entry>) returns (out: seq<Status>)
      modifies this
      ensures rows == ApplyAll(old(rows), es)
      ensures out == Statuses(old(rows), es)
    {
      ghost var before := rows;
      out := [];
      for i := 0 to |es|
        invariant rows == ApplyAll(before, es[..i]) && out == Statuses(before, es[..i])
      {
        assert es[..i + 1][..i] == es[..i];
        var st := ApplyRegroupOne(es[i]);
        out := out + [st];
      }
      assert es[..|es|] == es;
    }
  }

  lemma {:induction false} ApplyAllFrame(rows: Rows, es: seq<Entry>, id: nat)
    requires id in rows
    ensures id in ApplyAll(rows, es) && rows[id].generation <= ApplyAll(rows, es)[id].generation
    ensures rows[id].overlayIp == ApplyAll(rows, es)[id].overlayIp && rows[id].issued == ApplyAll(rows, es)[id].issued
    ensures rows[id].groups == ApplyAll(rows, es)[id].groups
    ensures ApplyAll(rows, es).Keys == rows.Keys
  {
    if es != [] {
      ApplyAllFrame(rows, es[..|es| - 1], id);
    }
  }

  lemma LatestFrame(rows: Rows, es: seq<Entry>, ip: string, id: nat)
    ensures IsLatest(ApplyAll(rows, es), ip, id) <==> IsLatest(rows, ip, id)
  {
    var after := ApplyAll(rows, es);
    ApplyAllKeys(rows, es);
    forall j: nat | j in rows ensures after[j].overlayIp == rows[j].overlayIp && after[j].issued == rows[j].issued {
      ApplyAllFrame(rows, es, j);
    }
  }

  lemma {:induction false} ApplyAllKeys(rows: Rows, es: seq<Entry>)
    ensures ApplyAll(rows, es).Keys == rows.Keys
  {
    if es != [] {
      ApplyAllKeys(rows, es[..|es| - 1]);
    }
  }

  /** No entry of the batch is ahead of its row, as no preview ever is. */
  ghost predicate NotAhead(rows: Rows, es: seq<Entry>) {
    forall i :: 0 <= i < |es| && es[i].enrollmentId in rows ==> es[i].baseGeneration <= rows[es[i].enrollmentId].generation
  }

  lemma {:induction false} ApplyAllConcat(rows: Rows, a: seq<Entry>, b: seq<Entry>)
    ensures ApplyAll(rows, a + b) == ApplyAll(ApplyAll(rows, a), b)
  {
    if b == [] {
      assert a + b == a;
    } else {
      var n := |b| - 1;
      ApplyAllConcat(rows, a, b[..n]);
      assert (a + b)[..|a| + n] == a + b[..n];
    }
  }

  /** What an entry needs besides the right generation; no batch changes it. */
  ghost predicate Fits(rows: Rows, e: Entry) {
    && IsLatest(rows, e.overlayIp, e.enrollmentId)
    && !GrantsReserved(rows[e.enrollmentId].groups) && !GrantsReserved(e.target)
  }

  lemma FitsStays(rows: Rows, es: seq<Entry>, e: Entry)
    ensures Fits(ApplyAll(rows, es), e) <==> Fits(rows, e)
  {
    LatestFrame(rows, es, e.overlayIp, e.enrollmentId);
    if e.enrollmentId in rows {
      ApplyAllFrame(rows, es, e.enrollmentId);
    }
  }

  lemma JudgedApplied(rows: Rows, e: Entry)
    ensures Judge(rows, e) == Applied <==> Fits(rows, e) && rows[e.enrollmentId].generation == e.baseGeneration
  {
  }

  lemma TriedMovesPast(rows: Rows, e: Entry)
    requires Fits(rows, e) && e.baseGeneration <= rows[e.enrollmentId].generation
    ensures e.enrollmentId in ApplyOne(rows, e) && e.baseGeneration < ApplyOne(rows, e)[e.enrollmentId].generation
  {
    JudgedApplied(rows, e);
  }

  /** After a batch whose entries were not ahead of their rows, none of its entries can apply any more. */
  lemma NoneAppliesAgain(rows: Rows, es: seq<Entry>, i: nat)
    requires NotAhead(rows, es) && i < |es|
    ensures Judge(ApplyAll(rows, es), es[i]) != Applied
  {
    var e := es[i];
    JudgedApplied(ApplyAll(rows, es), e);
    FitsStays(rows, es, e);
    if Fits(rows, e) {
      EndsPast(rows, es, i);
    }
  }

  lemma EndsPast(rows: Rows, es: seq<Entry>, i: nat)
    requires i < |es| && Fits(rows, es[i]) && es[i].baseGeneration <= rows[es[i].enrollmentId].generation
    ensures es[i].enrollmentId in ApplyAll(rows, es)
    ensures es[i].baseGeneration < ApplyAll(rows, es)[es[i].enrollmentId].generation
  {
    var e := es[i];
    var mid := ApplyAll(rows, es[..i]);
    ApplyAllFrame(rows, es[..i], e.enrollmentId);
    FitsStays(rows, es[..i], e);
    TriedMovesPast(mid, e);
    assert es[..i + 1][..i] == es[..i];
    assert es == es[..i + 1] + es[i + 1..];
    ApplyAllConcat(rows, es[..i + 1], es[i + 1..]);
    ApplyAllFrame(ApplyOne(mid, e), es[i + 1..], e.enrollmentId);
  }

  lemma {:induction false} NothingApplies(rows: Rows, es: seq<Entry>)
    requires forall i :: 0 <= i < |es| ==> Judge(rows, es[i]) != Applied
    ensures ApplyAll(rows, es) == rows
  {
    if es != [] {
      NothingApplies(rows, es[..|es| - 1]);
    }
  }

  lemma SomethingApplies(rows: Rows, es: seq<Entry>, k: nat)
    requires k < |es| && Judge(rows, es[k]) == Applied
    requires forall i :: 0 <= i < k ==> Judge(rows, es[i]) != Applied
    ensures ApplyAll(rows, es) != rows
  {
    var id := es[k].enrollmentId;
    NothingApplies(rows, es[..k]);
    assert es[..k + 1][..k] == es[..k];
    assert es == es[..k + 1] + es[k + 1..];
    ApplyAllConcat(rows, es[..k + 1], es[k + 1..]);
    ApplyAllFrame(ApplyOne(rows, es[k]), es[k + 1..], id);
  }

  lemma {:induction false} FirstApplied(rows: Rows, es: seq<Entry>, n: nat) returns (k: nat)
    requires n < |es| && Judge(rows, es[n]) == Applied
    ensures k <= n && Judge(rows, es[k]) == Applied && forall i :: 0 <= i < k ==> Judge(rows, es[i]) != Applied
  {
    if i :| 0 <= i < n && Judge(rows, es[i]) == Applied {
      k := FirstApplied(rows, es, i);
    } else {
      k := n;
    }
  }

  /**
   Replaying a batch changes nothing if and only if no fitting entry was previewed at exactly the generation
   the batch leaves its row at.
   */
  lemma ReplayExactly(rows: Rows, es: seq<Entry>)
    ensures ApplyAll(ApplyAll(rows, es), es) == ApplyAll(rows, es) <==>
            forall i :: 0 <= i < |es| && Fits(rows, es[i]) ==>
                          LeftAt(rows, es, es[i].enrollmentId) != es[i].baseGeneration
  {
    var after := ApplyAll(rows, es);
    forall i | 0 <= i < |es|
      ensures Judge(after, es[i]) == Applied <==> Fits(rows, es[i]) && LeftAt(rows, es, es[i].enrollmentId) == es[i].baseGeneration
    {
      FitsStays(rows, es, es[i]);
    }
    if n :| 0 <= n < |es| && Judge(after, es[n]) == Applied {
      var k := FirstApplied(after, es, n);
      SomethingApplies(after, es, k);
    } else {
      NothingApplies(after, es);
    }
  }

  ghost function LeftAt(rows: Rows, es: seq<Entry>, id: nat): nat {
    var after := ApplyAll(rows, es);
    if id in after then after[id].generation else 0
  }

  /** In particular a batch none of whose entries is ahead of its row, as no preview is, replays to nothing. */
  lemma ReplayAppliesNothing(rows: Rows, es: seq<Entry>)
    requires NotAhead(rows, es)
    ensures ApplyAll(ApplyAll(rows, es), es) == ApplyAll(rows, es)
  {
    forall i | 0 <= i < |es| ensures Judge(ApplyAll(rows, es), es[i]) != Applied {
      NoneAppliesAgain(rows, es, i);
    }
    NothingApplies(ApplyAll(rows, es), es);
  }

  /** An entry ahead of its row is another matter: skipped the first time, it can apply on the replay. */
  lemma AheadAppliesOnReplay(ip: string, g: seq<string>)
    requires !GrantsReserved(g)
    ensures var rows: Rows := map[1 := Enrollment(ip, true, [], [], 0, 0)];
            var es := [Entry(ip, 1, 1, g), Entry(ip, 1, 0, g)];
            && Judge(rows, es[0]) != Applied
            && Judge(ApplyAll(rows, es), es[0]) == Applied
  {
    var rows: Rows := map[1 := Enrollment(ip, true, [], [], 0, 0)];
    var e0, e1 := Entry(ip, 1, 1, g), Entry(ip, 1, 0, g);
    assert IsLatest(rows, ip, 1);
    assert [e0, e1][..1] == [e0] && [e0][..0] == [];
    assert ApplyAll(rows, [e0]) == ApplyOne(ApplyAll(rows, []), e0) == rows;
    var after := ApplyOne(rows, e1);
    assert ApplyAll(rows, [e0, e1]) == after;
    assert IsLatest(after, ip, 1);
  }

  /**
   The reserved-group check reads the target before it is trimmed, so what an applied entry writes is free of
   reserved groups exactly when no group of the target is a reserved name with white space around it.
   */
  lemma ReservedGuardExactly(rows: Rows, e: Entry)
    requires Judge(rows, e) == Applied
    ensures GrantsReserved(ApplyOne(rows, e)[e.enrollmentId].desired) <==> !Unpadded(e.target)
  {
    assert ApplyOne(rows, e)[e.enrollmentId].desired == Norm(e.target);
    if !Unpadded(e.target) {
      var g :| g in e.target && IsReservedGroup(TrimSpace(g)) && !IsReservedGroup(g);
      assert TrimSpace(g) in Norm(e.target);
    }
  }

  predicate Unpadded(groups: seq<string>) {
    forall g :: g in groups && IsReservedGroup(TrimSpace(g)) ==> IsReservedGroup(g)
  }

  // ---------------------------------------------------------------- candidates

  datatype Row = Row(id: nat, overlayIp: string)

  function Ips(rows: seq<Row>): (ips: set<string>)
    ensures forall r :: r in rows ==> r.overlayIp in ips
  {
    if rows == [] then {}
    else
      assert rows == rows[..|rows| - 1] + [rows[|rows| - 1]];
      Ips(rows[..|rows| - 1]) + {rows[|rows| - 1].overlayIp}
  }

  /** The first row of each address, in order. */
  function FirstPerAddress(rows: seq<Row>): seq<Row> {
    if rows == [] then []
    else
      var init, last := rows[..|rows| - 1], rows[|rows| - 1];
      FirstPerAddress(init) + (if last.overlayIp in Ips(init) then [] else [last])
  }

  /** Compacts the rows kept to the front of the same array. */
  method DedupInPlace(rows: array<Row>) returns (kept: nat)
    modifies rows
    ensures kept <= rows.Length && rows[..kept] == FirstPerAddress(old(rows[..]))
  {
    var seen: set<string> := {};
    ghost var all := rows[..];
    kept := 0;
    for i := 0 to rows.Length
      invariant kept <= i && seen == Ips(all[..i]) && rows[..kept] == FirstPerAddress(all[..i])
      invariant forall j :: i <= j < rows.Length ==> rows[j] == all[j]
    {
      assert all[..i + 1][..i] == all[..i];
      if rows[i].overlayIp in seen {
        continue;
      }
      seen := seen + {rows[i].overlayIp};
      rows[kept] := rows[i];
      kept := kept + 1;
      assert rows[..kept] == rows[..kept - 1] + [all[i]];
    }
    assert all[..rows.Length] == all;
  }

  ghost predicate NewestFirst(rows: seq<Row>) {
    forall i, j :: 0 <= i < j < |rows| ==> rows[i].id > rows[j].id
  }

  ghost predicate Newest(rows: seq<Row>, r: Row) {
    r in rows && forall q :: q in rows && q.overlayIp == r.overlayIp ==> q.id <= r.id
  }

  lemma {:induction false} IpWitness(rows: seq<Row>, ip: string) returns (q: Row)
    requires ip in Ips(rows)
    ensures q in rows && q.overlayIp == ip
  {
    var n := |rows| - 1;
    if rows[n].overlayIp == ip {
      q := rows[n];
    } else {
      q := IpWitness(rows[..n], ip);
    }
  }

  /** As the rows come newest first, exactly the latest enrollment of each address is kept. */
  lemma {:induction false} LatestPerAddress(rows: seq<Row>, r: Row)
    requires NewestFirst(rows)
    ensures r in FirstPerAddress(rows) <==> Newest(rows, r)
  {
    if rows != [] {
      var init, last := rows[..|rows| - 1], rows[|rows| - 1];
      assert rows == init + [last];
      LatestPerAddress(init, r);
      OldestIsLast(init, last, r);
    }
  }

  lemma OldestIsLast(init: seq<Row>, last: Row, r: Row)
    requires NewestFirst(init + [last])
    ensures Newest(init + [last], r) <==> Newest(init, r) || (r == last && last.overlayIp !in Ips(init))
  {
    forall q | q in init ensures q.id > last.id {
      var i :| 0 <= i < |init| && init[i] == q;
      assert (init + [last])[i] == q && (init + [last])[|init|] == last;
    }
    if last.overlayIp in Ips(init) {
      var q := IpWitness(init, last.overlayIp);
    }
  }
}
