/** Group lists as sets: normalising, comparing and changing them, and previewing a bulk change. */
module Groups {
  import opened Text
  import opened Wildcards

  // ---------------------------------------------------------------- normal form

  /** Trimmed, non-empty, without repeats, in order of first appearance. */
  function Norm(xs: seq<string>): (r: seq<string>)
    ensures Normalised(r)
    ensures forall g :: g in r <==> g in GroupSet(xs)
  {
    if xs == [] then []
    else
      var n := |xs| - 1;
      var r, g := Norm(xs[..n]), TrimSpace(xs[n]);
      assert xs == xs[..n] + [xs[n]];
      if g == "" || g in r then r else r + [g]
  }

  predicate Normalised(xs: seq<string>) {
    && (forall i :: 0 <= i < |xs| ==> xs[i] != "" && IsTrimmed(xs[i]))
    && (forall i, j :: 0 <= i < j < |xs| ==> xs[i] != xs[j])
  }

  /** The groups a list names. */
  ghost function GroupSet(xs: seq<string>): set<string> {
    set x | x in xs && TrimSpace(x) != "" :: TrimSpace(x)
  }

  lemma NormalisedInit(xs: seq<string>)
    requires xs != [] && Normalised(xs)
    ensures var init, g := xs[..|xs| - 1], xs[|xs| - 1]; Normalised(init) && g !in init && g != "" && TrimSpace(g) == g
  {
    var init := xs[..|xs| - 1];
    forall i | 0 <= i < |init| ensures init[i] == xs[i] && init[i] != xs[|xs| - 1] {
    }
  }

  lemma {:induction false} NormFixed(xs: seq<string>)
    requires Normalised(xs)
    ensures Norm(xs) == xs
  {
    if xs != [] {
      NormalisedInit(xs);
      NormFixed(xs[..|xs| - 1]);
      assert xs == xs[..|xs| - 1] + [xs[|xs| - 1]];
    }
  }

  ghost predicate FirstNamed(xs: seq<string>, g: string, i: int) {
    0 <= i < |xs| && TrimSpace(xs[i]) == g && forall j :: 0 <= j < i ==> TrimSpace(xs[j]) != g
  }

  lemma {:induction false} NamedEarlier(xs: seq<string>, n: nat, g: string, i: nat)
    requires n <= |xs| && g in Norm(xs[..n]) && FirstNamed(xs, g, i)
    ensures i < n && FirstNamed(xs[..n], g, i)
  {
    var h :| h in xs[..n] && TrimSpace(h) == g;
    var k :| 0 <= k < n && xs[..n][k] == h;
    assert xs[k] == h;
  }

  /** Groups are kept in order of first appearance. */
  lemma {:induction false} NormInOrder(xs: seq<string>, p: nat, q: nat, i: nat, j: nat)
    requires p < q < |Norm(xs)| && FirstNamed(xs, Norm(xs)[p], i) && FirstNamed(xs, Norm(xs)[q], j)
    ensures i < j
  {
    var n := |xs| - 1;
    var r := Norm(xs[..n]);
    assert r[p] in r;
    NamedEarlier(xs, n, r[p], i);
    if q < |r| {
      assert r[q] in r;
      NamedEarlier(xs, n, r[q], j);
      NormInOrder(xs[..n], p, q, i, j);
    }
  }

  method NormGroups(xs: seq<string>) returns (out: seq<string>)
    ensures out == Norm(xs)
  {
    var seen: set<string> := {};
    out := [];
    for i := 0 to |xs|
      invariant out == Norm(xs[..i]) && forall g :: g in seen <==> g in out
    {
      assert xs[..i + 1][..i] == xs[..i];
      var g := TrimSpace(xs[i]);
      if g == "" || g in seen {
        continue;
      }
      seen := seen + {g};
      out := out + [g];
    }
    assert xs[..|xs|] == xs;
  }

  // ---------------------------------------------------------------- comparing

  ghost function Elements(xs: seq<string>): set<string> {
    set x | x in xs
  }

  lemma {:induction false} DistinctSize(xs: seq<string>)
    requires Normalised(xs)
    ensures |Elements(xs)| == |xs|
  {
    if xs != [] {
      var n := |xs| - 1;
      assert forall i :: 0 <= i < n ==> xs[..n][i] == xs[i];
      DistinctSize(xs[..n]);
      assert xs == xs[..n] + [xs[n]];
      assert Elements(xs) == Elements(xs[..n]) + {xs[n]};
    }
  }

  lemma {:induction false} SubsetOfSameSize(a: set<string>, b: set<string>)
    requires a <= b && |a| == |b|
    ensures a == b
  {
    if x :| x in b && x !in a {
      SubsetSize(a, b - {x});
    }
  }

  lemma {:induction false} SubsetSize(a: set<string>, b: set<string>)
    requires a <= b
    ensures |a| <= |b|
  {
    if x :| x in a {
      SubsetSize(a - {x}, b - {x});
    }
  }

  /** Equal length and one-way containment is set equality, because neither list repeats itself. */
  lemma Pigeonhole(na: seq<string>, nb: seq<string>)
    requires Normalised(na) && Normalised(nb) && |na| == |nb| && forall g :: g in nb ==> g in na
    ensures Elements(na) == Elements(nb)
  {
    DistinctSize(na);
    DistinctSize(nb);
    SubsetOfSameSize(Elements(nb), Elements(na));
  }

  method SameGroupSet(a: seq<string>, b: seq<string>) returns (same: bool)
    ensures same <==> GroupSet(a) == GroupSet(b)
  {
    var na := NormGroups(a);
    var nb := NormGroups(b);
    assert Elements(na) == GroupSet(a) && Elements(nb) == GroupSet(b);
    if |na| != |nb| {
      DistinctSize(na);
      DistinctSize(nb);
      return false;
    }
    for i := 0 to |nb|
      invariant forall j :: 0 <= j < i ==> nb[j] in na
    {
      if nb[i] !in na {
        assert nb[i] in Elements(nb);
        return false;
      }
    }
    Pigeonhole(na, nb);
    return true;
  }

  method GroupsDropped(a: seq<string>, b: seq<string>) returns (dropped: bool)
    ensures dropped <==> exists g :: g in a && g !in b
    ensures dropped <==> Drops(a, b)
  {
    for i := 0 to |a|
      invariant forall j :: 0 <= j < i ==> a[j] in b
    {
      if a[i] !in b {
        return true;
      }
    }
    return false;
  }

  predicate Drops(a: seq<string>, b: seq<string>) {
    exists i :: 0 <= i < |a| && a[i] !in b
  }

  // ---------------------------------------------------------------- changing

  function Without(xs: seq<string>, remove: seq<string>): (r: seq<string>)
    ensures forall g :: g in r <==> g in xs && g !in remove
  {
    if xs == [] then []
    else
      var n := |xs| - 1;
      assert xs == xs[..n] + [xs[n]];
      Without(xs[..n], remove) + (if xs[n] in remove then [] else [xs[n]])
  }

  function Delta(current: seq<string>, add: seq<string>, remove: seq<string>, replace: Option<seq<string>>): seq<string> {
    if replace.Some? then Norm(replace.value) else Norm(Without(current + add, remove))
  }

  /** Compacts what is kept to the front of the same array. */
  method RemoveInPlace(buf: array<string>, remove: seq<string>) returns (kept: nat)
    modifies buf
    ensures kept <= buf.Length && buf[..kept] == Without(old(buf[..]), remove)
  {
    ghost var all := buf[..];
    kept := 0;
    for i := 0 to buf.Length
      invariant kept <= i && buf[..kept] == Without(all[..i], remove)
      invariant forall j :: i <= j < buf.Length ==> buf[j] == all[j]
    {
      WithoutSnoc(all, i, remove);
      if buf[i] !in remove {
        ghost var front := buf[..kept];
        buf[kept] := buf[i];
        kept := kept + 1;
        assert buf[..kept] == front + [all[i]];
      }
    }
    assert all[..buf.Length] == all;
  }

  lemma WithoutSnoc(xs: seq<string>, i: nat, remove: seq<string>)
    requires i < |xs|
    ensures Without(xs[..i + 1], remove) == if xs[i] in remove then Without(xs[..i], remove) else Without(xs[..i], remove) + [xs[i]]
  {
    assert xs[..i + 1][..i] == xs[..i];
  }

  method ApplyDelta(current: seq<string>, add: seq<string>, remove: seq<string>, replace: Option<seq<string>>)
    returns (target: seq<string>)
    ensures target == Delta(current, add, remove, replace) && Normalised(target)
    ensures replace.Some? ==> GroupSet(target) == GroupSet(replace.value)
    ensures replace.None? ==> forall g :: g in target <==>
              g != "" && exists h :: (h in current || h in add) && h !in remove && TrimSpace(h) == g
  {
    DeltaGroups(current, add, remove, replace);
    if replace.Some? {
      target := NormGroups(replace.value);
      return;
    }
    var all := current + add;
    var buf := new string[|all|](i requires 0 <= i < |all| => all[i]);
    assert buf[..] == all;
    var kept := RemoveInPlace(buf, remove);
    target := NormGroups(buf[..kept]);
  }

  /** What the result names: the replacement's groups, or those of the entries not removed by their exact text. */
  lemma DeltaGroups(current: seq<string>, add: seq<string>, remove: seq<string>, replace: Option<seq<string>>)
    ensures var target := Delta(current, add, remove, replace);
            && (replace.Some? ==> GroupSet(target) == GroupSet(replace.value))
            && (replace.None? ==> forall g :: g in target <==>
                  g != "" && exists h :: (h in current || h in add) && h !in remove && TrimSpace(h) == g)
  {
    var target := Delta(current, add, remove, replace);
    if replace.Some? {
      NormFixed(target);
      assert GroupSet(target) == GroupSet(replace.value);
    } else {
      var kept := Without(current + add, remove);
      assert forall h :: h in kept <==> (h in current || h in add) && h !in remove;
    }
  }

  /**
   The change asked for is made exactly when no current entry carries stray space around a group to be
   removed: removal is by exact text and comes before trimming.
   */
  lemma DeltaExactly(current: seq<string>, add: seq<string>, remove: seq<string>)
    requires Normalised(add) && Normalised(remove)
    ensures GroupSet(Delta(current, add, remove, None)) == GroupSet(current) + GroupSet(add) - GroupSet(remove)
            <==> forall h :: h in current && TrimSpace(h) in remove ==> IsTrimmed(h)
  {
    var kept := Without(current + add, remove);
    var target := Delta(current, add, remove, None);
    NormFixed(add);
    NormFixed(remove);
    assert GroupSet(target) == GroupSet(kept) by {
      NormFixed(target);
    }
    if h :| h in current && TrimSpace(h) in remove && !IsTrimmed(h) {
      assert h in kept && TrimSpace(h) in GroupSet(kept) && TrimSpace(h) in GroupSet(remove);
    } else {
      forall g ensures g in GroupSet(kept) <==> g in GroupSet(current) + GroupSet(add) - GroupSet(remove) {
        DeltaMember(current, add, remove, g);
      }
    }
  }

  lemma DeltaMember(current: seq<string>, add: seq<string>, remove: seq<string>, g: string)
    requires Normalised(add) && Normalised(remove)
    requires forall h :: h in current && TrimSpace(h) in remove ==> IsTrimmed(h)
    ensures g in GroupSet(Without(current + add, remove)) <==> g in GroupSet(current) + GroupSet(add) - GroupSet(remove)
  {
    NormFixed(remove);
    assert g in GroupSet(remove) <==> g in remove;
    var kept := Without(current + add, remove);
    if g in GroupSet(kept) {
      var h :| h in kept && TrimSpace(h) == g && g != "";
      assert h in current || h in add;
    }
    if g in GroupSet(current) + GroupSet(add) - GroupSet(remove) {
      var h :| (h in current || h in add) && TrimSpace(h) == g && g != "";
      assert h in remove ==> IsTrimmed(h);
      assert h in kept;
    }
  }

  // ---------------------------------------------------------------- the dry run

  const MAX_SET := 100

  /** A resolved device; `excluded` is its state-based skip reason, "" if it is eligible. */
  datatype Device = Device(overlayIp: string, enrollmentId: nat, current: seq<string>, generation: nat, excluded: string)

  datatype DryEntry = DryEntry(overlayIp: string, enrollmentId: nat, from_: seq<string>, target: seq<string>,
                               baseGeneration: nat, willReduce: bool, elevates: bool)

  datatype Skip = Skip(overlayIp: string, reason: string)

  datatype Change = Change(add: seq<string>, remove: seq<string>, replace: Option<seq<string>>)

  function TargetOf(d: Device, ch: Change): seq<string> {
    Delta(d.current, ch.add, ch.remove, ch.replace)
  }

  ghost predicate Moves(d: Device, ch: Change) {
    d.excluded == "" && GroupSet(d.current) != GroupSet(TargetOf(d, ch))
  }

  function EntryFor(d: Device, ch: Change): DryEntry {
    var target := TargetOf(d, ch);
    DryEntry(d.overlayIp, d.enrollmentId, d.current, target, d.generation, Drops(d.current, target), Drops(target, d.current))
  }

  /** The devices the change would move, and the ones it would not, in order. */
  ghost function Moved(ds: seq<Device>, ch: Change): seq<DryEntry> {
    if ds == [] then []
    else
      var n := |ds| - 1;
      Moved(ds[..n], ch) + (if Moves(ds[n], ch) then [EntryFor(ds[n], ch)] else [])
  }

  ghost function Unmoved(ds: seq<Device>, ch: Change): seq<Skip> {
    if ds == [] then []
    else
      var n := |ds| - 1;
      Unmoved(ds[..n], ch)
      + (if Moves(ds[n], ch) then [] else [SkipFor(ds[n])])
  }

  /** Some device has this entry, and some device this reason for being left alone. */
  ghost predicate HasEntry(ds: seq<Device>, ch: Change, e: DryEntry) {
    exists i :: 0 <= i < |ds| && Moves(ds[i], ch) && e == EntryFor(ds[i], ch)
  }

  ghost predicate HasSkip(ds: seq<Device>, ch: Change, k: Skip) {
    exists i :: 0 <= i < |ds| && !Moves(ds[i], ch) && k == SkipFor(ds[i])
  }

  lemma EntrySnoc(init: seq<Device>, d: Device, ch: Change, e: DryEntry)
    ensures HasEntry(init + [d], ch, e) <==> HasEntry(init, ch, e) || (Moves(d, ch) && e == EntryFor(d, ch))
  {
    var ds := init + [d];
    if HasEntry(init, ch, e) {
      var i :| 0 <= i < |init| && Moves(init[i], ch) && e == EntryFor(init[i], ch);
      assert ds[i] == init[i];
    }
    if Moves(d, ch) && e == EntryFor(d, ch) {
      assert ds[|init|] == d;
    }
  }

  lemma SkipSnoc(init: seq<Device>, d: Device, ch: Change, k: Skip)
    ensures HasSkip(init + [d], ch, k) <==> HasSkip(init, ch, k) || (!Moves(d, ch) && k == SkipFor(d))
  {
    var ds := init + [d];
    if HasSkip(init, ch, k) {
      var i :| 0 <= i < |init| && !Moves(init[i], ch) && k == SkipFor(init[i]);
      assert ds[i] == init[i];
    }
    if !Moves(d, ch) && k == SkipFor(d) {
      assert ds[|init|] == d;
    }
  }

  lemma LineSnoc(init: seq<Device>, d: Device, ch: Change)
    ensures Moved(init + [d], ch) == Moved(init, ch) + (if Moves(d, ch) then [EntryFor(d, ch)] else [])
    ensures Unmoved(init + [d], ch) == Unmoved(init, ch) + (if Moves(d, ch) then [] else [SkipFor(d)])
  {
    assert (init + [d])[..|init|] == init;
  }

  lemma MemberSnoc<T>(xs: seq<T>, ys: seq<T>, z: T, p: bool, x: T)
    requires ys == xs + (if p then [z] else [])
    ensures x in ys <==> x in xs || (p && x == z)
  {
  }

  /** The preview leaves no device out and makes none up. */
  lemma {:induction false} PreviewCoversAll(ds: seq<Device>, ch: Change, e: DryEntry, k: Skip)
    ensures e in Moved(ds, ch) <==> HasEntry(ds, ch, e)
    ensures k in Unmoved(ds, ch) <==> HasSkip(ds, ch, k)
    ensures |Moved(ds, ch)| + |Unmoved(ds, ch)| == |ds|
  {
    if ds != [] {
      var init, d := ds[..|ds| - 1], ds[|ds| - 1];
      assert ds == init + [d];
      PreviewCoversAll(init, ch, e, k);
      LineSnoc(init, d, ch);
      EntrySnoc(init, d, ch, e);
      SkipSnoc(init, d, ch, k);
      MemberSnoc(Moved(init, ch), Moved(ds, ch), EntryFor(d, ch), Moves(d, ch), e);
      MemberSnoc(Unmoved(init, ch), Unmoved(ds, ch), SkipFor(d), !Moves(d, ch), k);
    }
  }

  /** A device that moves gains a group or loses one. */
  lemma MovingShows(current: seq<string>, target: seq<string>)
    requires Normalised(target) && GroupSet(current) != GroupSet(target)
    ensures Drops(current, target) || Drops(target, current)
  {
    NormFixed(target);
    if g :| g in GroupSet(current) && g !in GroupSet(target) {
      var h :| h in current && TrimSpace(h) == g;
      assert h !in target;
    } else {
      var g :| g in GroupSet(target) && g !in GroupSet(current);
      var h :| h in target && TrimSpace(h) == g;
      assert h !in current;
    }
  }

  lemma DropsIsSetDifference(a: seq<string>, b: seq<string>)
    requires Normalised(a) && Normalised(b)
    ensures Drops(a, b) <==> !(GroupSet(a) <= GroupSet(b))
  {
    NormFixed(a);
    NormFixed(b);
    if i :| 0 <= i < |a| && a[i] !in b {
      assert a[i] in Norm(a) && a[i] !in Norm(b);
    } else {
      forall g | g in GroupSet(a) ensures g in GroupSet(b) {
        assert g in Norm(a) && g in Norm(b);
      }
    }
  }

  /** For groups as they are stored, an entry reduces when a group goes and elevates when one comes. */
  lemma EntryFlags(d: Device, ch: Change)
    requires Normalised(d.current)
    ensures EntryFor(d, ch).willReduce <==> exists g :: g in GroupSet(d.current) && g !in GroupSet(TargetOf(d, ch))
    ensures EntryFor(d, ch).elevates <==> exists g :: g in GroupSet(TargetOf(d, ch)) && g !in GroupSet(d.current)
  {
    DropsIsSetDifference(d.current, TargetOf(d, ch));
    DropsIsSetDifference(TargetOf(d, ch), d.current);
  }

  /** One device's line of the preview: an entry, or None with the reason it is left alone. */
  method Preview(d: Device, ch: Change) returns (e: Option<DryEntry>, skip: Skip)
    ensures e.Some? <==> d.excluded == "" && GroupSet(d.current) != GroupSet(TargetOf(d, ch))
    ensures e.Some? ==> && e.value == EntryFor(d, ch) && e.value.overlayIp == d.overlayIp
                        && e.value.enrollmentId == d.enrollmentId && e.value.baseGeneration == d.generation
                        && e.value.from_ == d.current && e.value.target == TargetOf(d, ch)
                        && (e.value.willReduce <==> exists g :: g in d.current && g !in e.value.target)
                        && (e.value.elevates <==> exists g :: g in e.value.target && g !in d.current)
    ensures e.None? ==> skip == SkipFor(d) == Skip(d.overlayIp, if d.excluded == "" then "no_op" else d.excluded)
  {
    skip := Skip(d.overlayIp, d.excluded);
    if d.excluded != "" {
      return None, skip;
    }
    var target := ApplyDelta(d.current, ch.add, ch.remove, ch.replace);
    var same := SameGroupSet(d.current, target);
    if same {
      return None, Skip(d.overlayIp, "no_op");
    }
    var reduces := GroupsDropped(d.current, target);
    var elevates := GroupsDropped(target, d.current);
    e := Some(DryEntry(d.overlayIp, d.enrollmentId, d.current, target, d.generation, reduces, elevates));
  }

  function SkipFor(d: Device): Skip {
    Skip(d.overlayIp, if d.excluded != "" then d.excluded else "no_op")
  }

  /**
   The preview lists the first hundred devices that would move, counts the rest, and says why each other
   device is left alone; every entry reduces or elevates.
   */
  method DryRun(ds: seq<Device>, ch: Change) returns (entries: seq<DryEntry>, skipped: seq<Skip>, capped: nat)
    ensures skipped == Unmoved(ds, ch) && CutAt(entries, capped, Moved(ds, ch))
    ensures |entries| + |skipped| + capped == |ds|
    ensures |entries| == if |Moved(ds, ch)| <= 100 then |Moved(ds, ch)| else 100
    ensures forall i :: 0 <= i < |entries| ==> entries[i].willReduce || entries[i].elevates
  {
    entries, skipped, capped := [], [], 0;
    for i := 0 to |ds|
      invariant skipped == Unmoved(ds[..i], ch) && CutAt(entries, capped, Moved(ds[..i], ch))
      invariant |entries| + |skipped| + capped == i
    {
      entries, skipped, capped := DryLine(ds, i, ch, entries, skipped, capped);
    }
    assert ds[..|ds|] == ds;
    MovedShow(ds, ch);
  }

  method DryLine(ds: seq<Device>, i: nat, ch: Change, es: seq<DryEntry>, ss: seq<Skip>, c: nat)
    returns (entries: seq<DryEntry>, skipped: seq<Skip>, capped: nat)
    requires i < |ds| && ss == Unmoved(ds[..i], ch) && CutAt(es, c, Moved(ds[..i], ch))
    ensures skipped == Unmoved(ds[..i + 1], ch) && CutAt(entries, capped, Moved(ds[..i + 1], ch))
    ensures |entries| + |skipped| + capped == |es| + |ss| + c + 1
  {
    entries, skipped, capped := es, ss, c;
    var e, skip := Preview(ds[i], ch);
    PreviewSnoc(ds, i, ch);
    if e.None? {
      skipped := ss + [skip];
      return;
    }
    CutAtSnoc(es, c, Moved(ds[..i], ch), e.value);
    if |es| >= MAX_SET {
      capped := c + 1;
    } else {
      entries := es + [e.value];
    }
  }

  /** The first hundred of `moved`, and how many are left over. */
  ghost predicate CutAt(entries: seq<DryEntry>, capped: nat, moved: seq<DryEntry>) {
    && entries <= moved && |entries| + capped == |moved|
    && |entries| <= MAX_SET && (capped > 0 ==> |entries| == MAX_SET)
  }

  lemma CutAtSnoc(entries: seq<DryEntry>, capped: nat, moved: seq<DryEntry>, e: DryEntry)
    requires CutAt(entries, capped, moved)
    ensures if |entries| < MAX_SET then CutAt(entries + [e], capped, moved + [e]) else CutAt(entries, capped + 1, moved + [e])
  {
  }

  lemma {:induction false} MovedShow(ds: seq<Device>, ch: Change)
    ensures forall i :: 0 <= i < |Moved(ds, ch)| ==> Moved(ds, ch)[i].willReduce || Moved(ds, ch)[i].elevates
  {
    if ds != [] {
      var n := |ds| - 1;
      MovedShow(ds[..n], ch);
      if Moves(ds[n], ch) {
        MovingShows(ds[n].current, TargetOf(ds[n], ch));
      }
    }
  }

  lemma PreviewSnoc(ds: seq<Device>, i: nat, ch: Change)
    requires i < |ds|
    ensures Moved(ds[..i + 1], ch) == Moved(ds[..i], ch) + (if Moves(ds[i], ch) then [EntryFor(ds[i], ch)] else [])
    ensures Unmoved(ds[..i + 1], ch) == Unmoved(ds[..i], ch) + (if Moves(ds[i], ch) then [] else [SkipFor(ds[i])])
  {
    assert ds[..i + 1] == ds[..i] + [ds[i]];
    LineSnoc(ds[..i], ds[i], ch);
  }
}
