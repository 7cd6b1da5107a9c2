/** The two counts that gate a rotation: who still chains to a CA, and who already trusts one. */
module CaDependents {
  import opened Text
  import opened Wildcards

  // ---------------------------------------------------------------- selecting rows

  function Filter<T(!new)>(xs: seq<T>, p: T -> bool): (r: seq<T>)
    ensures forall x :: x in r <==> x in xs && p(x)
  {
    if xs == [] then []
    else
      assert xs == [xs[0]] + xs[1..];
      (if p(xs[0]) then [xs[0]] else []) + Filter(xs[1..], p)
  }

  lemma {:induction false} FilterSnoc<T(!new)>(xs: seq<T>, x: T, p: T -> bool)
    ensures Filter(xs + [x], p) == Filter(xs, p) + (if p(x) then [x] else [])
  {
    if xs == [] {
      assert ([] + [x])[1..] == [];
    } else {
      assert (xs + [x])[1..] == xs[1..] + [x];
      FilterSnoc(xs[1..], x, p);
    }
  }

  lemma {:induction false} FilterDisjoint<T(!new)>(xs: seq<T>, p: T -> bool, q: T -> bool)
    requires forall x :: x in xs ==> !(p(x) && q(x))
    ensures |Filter(xs, p)| + |Filter(xs, q)| <= |xs|
    ensures (forall x :: x in xs ==> p(x) || q(x)) ==> |Filter(xs, p)| + |Filter(xs, q)| == |xs|
  {
    if xs != [] {
      assert xs[0] in xs && forall x :: x in xs[1..] ==> x in xs;
      FilterDisjoint(xs[1..], p, q);
    }
  }

  ghost function Where<T>(xs: seq<T>, p: T -> bool): set<nat> {
    set i: nat | i < |xs| && p(xs[i])
  }

  lemma WhereSnoc<T>(xs: seq<T>, x: T, p: T -> bool)
    ensures |Where(xs + [x], p)| == |Where(xs, p)| + if p(x) then 1 else 0
  {
    var more := Where(xs + [x], p);
    forall i: nat ensures i in Where(xs, p) <==> i in more && i != |xs| {
    }
    assert Where(xs, p) == more - {|xs|};
  }

  lemma {:induction false} FilterSize<T(!new)>(xs: seq<T>, p: T -> bool)
    ensures |Filter(xs, p)| == |Where(xs, p)|
  {
    if xs != [] {
      var init, x := xs[..|xs| - 1], xs[|xs| - 1];
      assert xs == init + [x];
      FilterSize(init, p);
      FilterSnoc(init, x, p);
      WhereSnoc(init, x, p);
    }
  }

  // ---------------------------------------------------------------- live dependents

  datatype LeafCert = LeafCert(issuer: string, notAfter: int)

  /** `cert` is the certificate stored at enrollment, None if it does not parse; renewal never rewrites it. */
  datatype Enrollment = Enrollment(overlayIp: string, issued: bool, caFingerprint: string, cert: Option<LeafCert>)

  datatype Heartbeat = Heartbeat(overlayIp: string, lastSeen: int, trustedCas: seq<string>, certNotAfter: int)

  /** The CA of the current leaf: the re-stamped column, or for an older row the enroll certificate's issuer. */
  function IssuerOf(e: Enrollment): Option<string> {
    if Normal(e.caFingerprint) != "" then Some(Normal(e.caFingerprint))
    else if e.cert.Some? then Some(Normal(e.cert.value.issuer))
    else None
  }

  function ExpiryOf(e: Enrollment, reported: map<string, int>): int {
    if e.overlayIp in reported && reported[e.overlayIp] > 0 then reported[e.overlayIp]
    else if e.cert.Some? then e.cert.value.notAfter
    else 0
  }

  predicate Depends(e: Enrollment, reported: map<string, int>, fp: string, now: int) {
    e.issued && IssuerOf(e) == Some(Normal(fp)) && ExpiryOf(e, reported) > now
  }

  function DependsOn(reported: map<string, int>, fp: string, now: int): Enrollment -> bool {
    (e: Enrollment) => Depends(e, reported, fp, now)
  }

  /** Heartbeats are keyed by overlay address; a later row for the same address would win. */
  function Reported(hbs: seq<Heartbeat>): map<string, int> {
    if hbs == [] then map[]
    else
      var last := hbs[|hbs| - 1];
      Reported(hbs[..|hbs| - 1])[last.overlayIp := last.certNotAfter]
  }

  /** The heartbeat that counts for an address. */
  ghost predicate LastBeat(hbs: seq<Heartbeat>, ip: string, j: int) {
    0 <= j < |hbs| && hbs[j].overlayIp == ip && forall k :: j < k < |hbs| ==> hbs[k].overlayIp != ip
  }

  lemma {:induction false} ReportedIsLast(hbs: seq<Heartbeat>, ip: string)
    ensures ip in Reported(hbs) <==> exists j :: LastBeat(hbs, ip, j)
    ensures forall j :: LastBeat(hbs, ip, j) ==> Reported(hbs)[ip] == hbs[j].certNotAfter
  {
    if hbs != [] {
      var n := |hbs| - 1;
      ReportedIsLast(hbs[..n], ip);
      assert hbs[n].overlayIp == ip ==> LastBeat(hbs, ip, n);
      assert forall j :: hbs[n].overlayIp != ip ==> (LastBeat(hbs[..n], ip, j) <==> LastBeat(hbs, ip, j));
    }
  }

  /**
   An issued host's current leaf chains to the CA and has not run out.  Its CA is the one in the column, or for
   an older row that of the enroll certificate.  Its expiry is the last one its heartbeat reported; where the
   heartbeat reports none, or there is no heartbeat, that of the enroll certificate.
   */
  ghost predicate StillChains(e: Enrollment, hbs: seq<Heartbeat>, fp: string, now: int) {
    && e.issued
    && (|| Normal(e.caFingerprint) == Normal(fp) != ""
        || (Normal(e.caFingerprint) == "" && e.cert.Some? && Normal(e.cert.value.issuer) == Normal(fp)))
    && if exists j :: LastBeat(hbs, e.overlayIp, j) && hbs[j].certNotAfter > 0
       then exists j :: LastBeat(hbs, e.overlayIp, j) && hbs[j].certNotAfter > now
       else now < if e.cert.Some? then e.cert.value.notAfter else 0
  }

  lemma DependsExactly(e: Enrollment, hbs: seq<Heartbeat>, fp: string, now: int)
    ensures Depends(e, Reported(hbs), fp, now) <==> StillChains(e, hbs, fp, now)
  {
    ReportedIsLast(hbs, e.overlayIp);
  }

  /** The rows of hosts whose leaf still chains to the CA. */
  ghost function Chained(rows: seq<Enrollment>, hbs: seq<Heartbeat>, fp: string, now: int): set<nat> {
    set i: nat | i < |rows| && StillChains(rows[i], hbs, fp, now)
  }

  lemma CountIsChained(rows: seq<Enrollment>, hbs: seq<Heartbeat>, fp: string, now: int)
    ensures |Filter(rows, DependsOn(Reported(hbs), fp, now))| == |Chained(rows, hbs, fp, now)|
  {
    var test := DependsOn(Reported(hbs), fp, now);
    FilterSize(rows, test);
    forall i: nat ensures i in Where(rows, test) <==> i in Chained(rows, hbs, fp, now) {
      if i < |rows| {
        DependsExactly(rows[i], hbs, fp, now);
      }
    }
    assert Where(rows, test) == Chained(rows, hbs, fp, now);
  }

  lemma NoneChained(rows: seq<Enrollment>, hbs: seq<Heartbeat>, fp: string, now: int)
    ensures Filter(rows, DependsOn(Reported(hbs), fp, now)) == [] <==> forall e :: e in rows ==> !StillChains(e, hbs, fp, now)
  {
    var kept := Filter(rows, DependsOn(Reported(hbs), fp, now));
    forall e ensures e in kept <==> e in rows && StillChains(e, hbs, fp, now) {
      DependsExactly(e, hbs, fp, now);
    }
    assert kept != [] ==> kept[0] in kept;
  }

  method LiveDependents(rows: seq<Enrollment>, hbs: seq<Heartbeat>, caFingerprint: string, now: int) returns (n: nat)
    ensures n == |Chained(rows, hbs, caFingerprint, now)|
    ensures n == 0 <==> forall e :: e in rows ==> !StillChains(e, hbs, caFingerprint, now)
  {
    var fp := Normal(caFingerprint);
    var liveExp: map<string, int> := map[];
    for i := 0 to |hbs|
      invariant liveExp == Reported(hbs[..i])
    {
      assert hbs[..i + 1][..i] == hbs[..i];
      liveExp := liveExp[hbs[i].overlayIp := hbs[i].certNotAfter];
    }
    assert hbs[..|hbs|] == hbs;
    ghost var test := DependsOn(liveExp, caFingerprint, now);
    n := 0;
    for i := 0 to |rows|
      invariant n == |Filter(rows[..i], test)|
    {
      var e := rows[i];
      FilterSnoc(rows[..i], e, test);
      assert rows[..i + 1] == rows[..i] + [e];
      if !e.issued {
        continue;
      }
      var rowFp := Normal(e.caFingerprint);
      if rowFp == "" {
        if e.cert.None? {
          continue;
        }
        rowFp := Normal(e.cert.value.issuer);
      }
      if rowFp != fp {
        continue;
      }
      var exp := 0;
      if e.overlayIp in liveExp && liveExp[e.overlayIp] > 0 {
        exp := liveExp[e.overlayIp];
      } else if e.cert.Some? {
        exp := e.cert.value.notAfter;
      }
      if exp > now {
        n := n + 1;
      }
    }
    assert rows[..|rows|] == rows;
    CountIsChained(rows, hbs, caFingerprint, now);
    NoneChained(rows, hbs, caFingerprint, now);
  }

  /** No leaf is counted against two CAs, so together their counts are no more than all rows. */
  lemma DependentsDisjoint(rows: seq<Enrollment>, hbs: seq<Heartbeat>, fp: string, fp': string, now: int)
    requires Normal(fp) != Normal(fp')
    ensures Chained(rows, hbs, fp, now) !! Chained(rows, hbs, fp', now)
    ensures |Chained(rows, hbs, fp, now)| + |Chained(rows, hbs, fp', now)| <= |rows|
  {
    var p, q := DependsOn(Reported(hbs), fp, now), DependsOn(Reported(hbs), fp', now);
    FilterDisjoint(rows, p, q);
    CountIsChained(rows, hbs, fp, now);
    CountIsChained(rows, hbs, fp', now);
  }

  // ---------------------------------------------------------------- adoption

  datatype Adoption = Adoption(fingerprint: string, live: nat, adopted: nat, laggards: seq<string>, stale: seq<string>)

  predicate IsLive(h: Heartbeat, staleAfter: int, now: int) {
    staleAfter <= 0 || h.lastSeen >= now - staleAfter
  }

  predicate TrustsCa(h: Heartbeat, fp: string) {
    exists i :: 0 <= i < |h.trustedCas| && Normal(h.trustedCas[i]) == fp
  }

  function Stale(staleAfter: int, now: int): Heartbeat -> bool {
    (h: Heartbeat) => !IsLive(h, staleAfter, now)
  }

  function Adopter(fp: string, staleAfter: int, now: int): Heartbeat -> bool {
    (h: Heartbeat) => IsLive(h, staleAfter, now) && TrustsCa(h, fp)
  }

  function Laggard(fp: string, staleAfter: int, now: int): Heartbeat -> bool {
    (h: Heartbeat) => IsLive(h, staleAfter, now) && !TrustsCa(h, fp)
  }

  function Addresses(hbs: seq<Heartbeat>): (ips: seq<string>)
    ensures |ips| == |hbs|
  {
    if hbs == [] then [] else Addresses(hbs[..|hbs| - 1]) + [hbs[|hbs| - 1].overlayIp]
  }

  method ContainsFold(fps: seq<string>, fp: string) returns (found: bool)
    ensures found <==> exists i :: 0 <= i < |fps| && Normal(fps[i]) == fp
  {
    for i := 0 to |fps|
      invariant forall j :: 0 <= j < i ==> Normal(fps[j]) != fp
    {
      if Normal(fps[i]) == fp {
        return true;
      }
    }
    return false;
  }

  /** Lists of addresses hold exactly the laggards and the stale hosts, and everyone else has adopted. */
  ghost predicate Tallied(hbs: seq<Heartbeat>, fp: string, staleAfter: int, now: int,
                          adopted: nat, laggards: seq<string>, stale: seq<string>)
  {
    && adopted == |Filter(hbs, Adopter(fp, staleAfter, now))|
    && laggards == Addresses(Filter(hbs, Laggard(fp, staleAfter, now)))
    && stale == Addresses(Filter(hbs, Stale(staleAfter, now)))
  }

  lemma TalliedSnoc(hbs: seq<Heartbeat>, h: Heartbeat, fp: string, staleAfter: int, now: int,
                    adopted: nat, laggards: seq<string>, stale: seq<string>)
    requires Tallied(hbs, fp, staleAfter, now, adopted, laggards, stale)
    ensures !IsLive(h, staleAfter, now) ==>
              Tallied(hbs + [h], fp, staleAfter, now, adopted, laggards, stale + [h.overlayIp])
    ensures IsLive(h, staleAfter, now) && TrustsCa(h, fp) ==>
              Tallied(hbs + [h], fp, staleAfter, now, adopted + 1, laggards, stale)
    ensures IsLive(h, staleAfter, now) && !TrustsCa(h, fp) ==>
              Tallied(hbs + [h], fp, staleAfter, now, adopted, laggards + [h.overlayIp], stale)
  {
    FilterSnoc(hbs, h, Adopter(fp, staleAfter, now));
    FilteredAddressesSnoc(hbs, h, Laggard(fp, staleAfter, now));
    FilteredAddressesSnoc(hbs, h, Stale(staleAfter, now));
  }

  lemma FilteredAddressesSnoc(hbs: seq<Heartbeat>, h: Heartbeat, p: Heartbeat -> bool)
    ensures Addresses(Filter(hbs + [h], p)) == Addresses(Filter(hbs, p)) + (if p(h) then [h.overlayIp] else [])
  {
    FilterSnoc(hbs, h, p);
    if p(h) {
      AddressesSnoc(Filter(hbs, p), h);
    } else {
      assert Filter(hbs, p) + [] == Filter(hbs, p);
    }
  }

  lemma SortLength(xs: seq<string>)
    ensures |Sort(xs)| == |xs|
  {
    assert |multiset(Sort(xs))| == |multiset(xs)|;
  }

  /** Every heartbeat falls in exactly one of adopted, laggard and stale, and the counts add up. */
  method AdoptionStatus(hbs: seq<Heartbeat>, caFingerprint: string, staleAfter: int, now: int) returns (out: Adoption)
    ensures out.fingerprint == Normal(caFingerprint)
    ensures out.adopted == |Filter(hbs, Adopter(Normal(caFingerprint), staleAfter, now))|
    ensures out.laggards == Sort(Addresses(Filter(hbs, Laggard(Normal(caFingerprint), staleAfter, now))))
    ensures out.stale == Sort(Addresses(Filter(hbs, Stale(staleAfter, now))))
    ensures out.live + |out.stale| == |hbs|
    ensures out.adopted + |out.laggards| == out.live
  {
    var fp := Normal(caFingerprint);
    var live, adopted := 0, 0;
    var laggards: seq<string>, stale: seq<string> := [], [];
    for i := 0 to |hbs|
      invariant Tallied(hbs[..i], fp, staleAfter, now, adopted, laggards, stale)
      invariant live + |stale| == i && adopted + |laggards| == live
    {
      var h := hbs[i];
      TalliedSnoc(hbs[..i], h, fp, staleAfter, now, adopted, laggards, stale);
      assert hbs[..i + 1] == hbs[..i] + [h];
      if !(staleAfter <= 0) && h.lastSeen < now - staleAfter {
        stale := stale + [h.overlayIp];
        continue;
      }
      live := live + 1;
      var trusts := ContainsFold(h.trustedCas, fp);
      if trusts {
        adopted := adopted + 1;
      } else {
        laggards := laggards + [h.overlayIp];
      }
    }
    assert hbs[..|hbs|] == hbs;
    SortLength(laggards);
    SortLength(stale);
    out := Adoption(fp, live, adopted, Sort(laggards), Sort(stale));
  }

  lemma AddressesSnoc(hbs: seq<Heartbeat>, h: Heartbeat)
    ensures Addresses(hbs + [h]) == Addresses(hbs) + [h.overlayIp]
  {
    assert (hbs + [h])[..|hbs|] == hbs;
  }

  /** The cut-over decision: everyone live has adopted, or the operator forces it. */
  predicate AdoptionGate(ad: Adoption, force: bool) {
    |ad.laggards| == 0 || force
  }

  /** No laggards means every host seen recently enough trusts the CA. */
  lemma NoLaggards(hbs: seq<Heartbeat>, fp: string, staleAfter: int, now: int)
    ensures |Sort(Addresses(Filter(hbs, Laggard(fp, staleAfter, now))))| == 0 <==>
            forall h :: h in hbs && (staleAfter <= 0 || now - h.lastSeen <= staleAfter) ==>
                          exists i :: 0 <= i < |h.trustedCas| && Normal(h.trustedCas[i]) == fp
  {
    var lag := Laggard(fp, staleAfter, now);
    var kept := Filter(hbs, lag);
    SortLength(Addresses(kept));
    if kept != [] {
      assert kept[0] in kept && lag(kept[0]);
    } else {
      assert forall h :: h in hbs ==> !lag(h);
    }
  }

  /** The gate opens unforced exactly when every live host confirms trust of the target. */
  method GatedStatus(hbs: seq<Heartbeat>, caFingerprint: string, staleAfter: int, now: int, force: bool)
    returns (proceed: bool)
    ensures proceed <==>
              force || forall h :: h in hbs && (staleAfter <= 0 || now - h.lastSeen <= staleAfter) ==>
                                     exists i :: 0 <= i < |h.trustedCas| && Normal(h.trustedCas[i]) == Normal(caFingerprint)
  {
    var ad := AdoptionStatus(hbs, caFingerprint, staleAfter, now);
    NoLaggards(hbs, Normal(caFingerprint), staleAfter, now);
    proceed := AdoptionGate(ad, force);
  }
}
