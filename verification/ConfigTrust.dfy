/**
 Rotating the config-signing key.  The registry moves keys along the lifecycle and numbers its states; Core
 builds a bundle by reading the trusted keys, then reading the generation, then signing; bundles travel in
 any order and any number of times; a host verifies against its trusted set and learns from what it accepts.
 Signatures are ideal: a bundle verifies exactly when its signing key is in the set.
 */
module ConfigTrust {
  import opened Wildcards
  import opened CaLifecycle
  import opened TrustFile
  import ConfigSigner

  /** Every key ever registered, with its lifecycle state. */
  type Reg = map<Key, State>

  predicate TrustedIn(r: Reg, k: Key) {
    k in r && r[k] != Retired
  }

  /** One registry write: keys enter as staged (or seeded active) and move along the lifecycle's edges. */
  ghost predicate RegNext(r: Reg, r': Reg) {
    && (forall k :: k in r ==> k in r' && Edge(r[k], r'[k]))
    && (forall k :: k in r' && k !in r ==> r'[k] == Staged || r'[k] == Active)
  }

  ghost predicate Lists(keys: seq<Key>, r: Reg) {
    forall k :: k in keys <==> TrustedIn(r, k)
  }

  /** `origin` is the generation whose keys these are, None when they are the static fallback. */
  datatype Draft = Draft(keys: seq<Key>, origin: Option<nat>)

  datatype Bundle = Bundle(keys: seq<Key>, version: nat, signer: Key, origin: Option<nat>)

  datatype Pilot = Pilot(pins: set<Key>, file: Option<Content>)

  /** `hist` holds the registry at each generation so far; the last is the current one. */
  datatype World = World(hist: seq<Reg>, drafts: map<nat, Draft>, net: set<Bundle>, pilots: map<string, Pilot>)

  datatype Action =
    | Mutate(r: Reg)
    | ReadKeys(p: nat, keys: seq<Key>)
    | ReadKeysFails(p: nat, fallback: Key)    // a failed or empty read falls back to the static key
    | Finish(p: nat, signer: Key)
    | FinishUnversioned(p: nat, signer: Key)  // the generation read failed; the bundle carries 0
    | Deliver(h: string, b: Bundle, stop: Stop)

  /** Registry keys were parsed when staged, so their PEM blocks parse on the host. */
  function Plain(pem: string): Option<Key> {
    Some(pem)
  }

  lemma PlainKeys(pems: seq<string>, k: Key)
    ensures k in ParseAll(Plain, pems) <==> k in pems
  {
    if k in pems {
      var i :| 0 <= i < |pems| && pems[i] == k;
      assert Plain(pems[i]) == Some(k);
    }
  }

  ghost predicate Trusts(pilot: Pilot, k: Key) {
    k in pilot.pins || k in LoadedKeys(Plain, pilot.file)
  }

  function Learn(pilot: Pilot, b: Bundle, stop: Stop): Pilot {
    pilot.(file := Persisted(pilot.file, Call(b.version, b.keys, stop)))
  }

  function Gen(w: World): int {
    |w.hist| - 1
  }

  ghost predicate Step(w: World, a: Action, w': World) {
    w.hist != [] &&
    match a
    case Mutate(r) => RegNext(w.hist[Gen(w)], r) && w' == w.(hist := w.hist + [r])
    case ReadKeys(p, keys) =>
      keys != [] && Lists(keys, w.hist[Gen(w)]) && w' == w.(drafts := w.drafts[p := Draft(keys, Some(Gen(w)))])
    case ReadKeysFails(p, fallback) => w' == w.(drafts := w.drafts[p := Draft([fallback], None)])
    case Finish(p, signer) =>
      && p in w.drafts
      && var b := Bundle(w.drafts[p].keys, Gen(w), signer, w.drafts[p].origin);
         w' == w.(drafts := w.drafts - {p}, net := w.net + {b})
    case FinishUnversioned(p, signer) =>
      && p in w.drafts
      && var b := Bundle(w.drafts[p].keys, 0, signer, w.drafts[p].origin);
         w' == w.(drafts := w.drafts - {p}, net := w.net + {b})
    case Deliver(h, b, stop) =>
      && h in w.pilots && b in w.net
      && w' == if Trusts(w.pilots[h], b.signer) then w.(pilots := w.pilots[h := Learn(w.pilots[h], b, stop)]) else w
  }

  ghost predicate Init(w: World) {
    && w.hist == [map[]] && w.drafts == map[] && w.net == {}
    && forall h :: h in w.pilots ==> w.pilots[h].file == None
  }

  // ---------------------------------------------------------------- bundles that keep their word

  /** A bundle's keys are the ones trusted at the version it carries. */
  ghost predicate Matching(w: World, a: Action) {
    && (a.Finish? && a.p in w.drafts && w.hist != [] ==> Lists(w.drafts[a.p].keys, w.hist[Gen(w)]))
    && !a.FinishUnversioned?
  }

  ghost predicate BundleSound(w: World, b: Bundle) {
    b.version < |w.hist| && Lists(b.keys, w.hist[b.version])
  }

  ghost predicate DraftSound(w: World, d: Draft) {
    d.origin.Some? ==> d.origin.value < |w.hist| && Lists(d.keys, w.hist[d.origin.value])
  }

  ghost predicate PilotSound(w: World, pilot: Pilot) {
    pilot.file.Some? ==>
      && pilot.file.value.Record? && 0 <= pilot.file.value.version < |w.hist|
      && Lists(pilot.file.value.pems, w.hist[pilot.file.value.version])
  }

  ghost predicate HistSound(hist: seq<Reg>) {
    hist != [] && forall i :: 0 < i < |hist| ==> RegNext(hist[i - 1], hist[i])
  }

  ghost predicate Good(w: World) {
    && HistSound(w.hist)
    && (forall p :: p in w.drafts ==> DraftSound(w, w.drafts[p]))
    && (forall b :: b in w.net ==> BundleSound(w, b))
    && (forall h :: h in w.pilots ==> PilotSound(w, w.pilots[h]))
  }

  lemma StepKeepsGood(w: World, a: Action, w': World)
    requires Good(w) && Step(w, a, w') && Matching(w, a)
    ensures Good(w')
  {
    assert forall i :: 0 <= i < |w.hist| ==> w'.hist[i] == w.hist[i];
    forall b | b in w'.net ensures BundleSound(w', b) {
      if b in w.net {
        assert BundleSound(w, b);
      }
    }
    forall h | h in w'.pilots ensures PilotSound(w', w'.pilots[h]) {
      assert PilotSound(w, w.pilots[h]);
      if a.Deliver? && a.h == h {
        assert BundleSound(w, a.b);
      }
    }
    forall p | p in w'.drafts ensures DraftSound(w', w'.drafts[p]) {
      if p in w.drafts {
        assert DraftSound(w, w.drafts[p]);
      }
    }
  }

  ghost predicate Run(ws: seq<World>, acts: seq<Action>) {
    && |ws| == |acts| + 1 && Init(ws[0])
    && forall i :: 0 <= i < |acts| ==> Step(ws[i], acts[i], ws[i + 1])
  }

  ghost predicate MatchingRun(ws: seq<World>, acts: seq<Action>) {
    Run(ws, acts) && forall i :: 0 <= i < |acts| ==> Matching(ws[i], acts[i])
  }

  lemma {:induction false} RunIsGood(ws: seq<World>, acts: seq<Action>, i: nat)
    requires MatchingRun(ws, acts) && i < |ws|
    ensures Good(ws[i])
  {
    if i > 0 {
      RunIsGood(ws, acts, i - 1);
      StepKeepsGood(ws[i - 1], acts[i - 1], ws[i]);
    }
  }

  /** Nothing was written between the two reads. */
  ghost predicate OneSnapshot(w: World, a: Action) {
    && (a.Finish? && a.p in w.drafts ==> w.drafts[a.p].origin == Some(Gen(w)))
    && !a.FinishUnversioned?
  }

  /** Reading keys and version from one registry state is one way to make them match. */
  lemma {:induction false} SnapshotsMatch(ws: seq<World>, acts: seq<Action>, n: nat)
    requires Run(ws, acts) && n <= |acts| && forall i :: 0 <= i < n ==> OneSnapshot(ws[i], acts[i])
    ensures MatchingRun(ws[..n + 1], acts[..n])
  {
    if n > 0 {
      SnapshotsMatch(ws, acts, n - 1);
      RunIsGood(ws[..n], acts[..n - 1], n - 1);
      assert ws[..n][n - 1] == ws[n - 1];
      if acts[n - 1].Finish? {
        assert Step(ws[n - 1], acts[n - 1], ws[n]) && OneSnapshot(ws[n - 1], acts[n - 1]);
        assert DraftSound(ws[n - 1], ws[n - 1].drafts[acts[n - 1].p]);
      }
      assert forall i :: 0 <= i < n - 1 ==> ws[..n][i] == ws[i] && acts[..n - 1][i] == acts[i];
      forall i | 0 <= i < n ensures Matching(ws[..n + 1][i], acts[..n][i]) {
        if i < n - 1 {
          assert Matching(ws[..n][i], acts[..n - 1][i]);
        }
      }
    }
  }

  lemma {:induction false} HistForward(hist: seq<Reg>, i: nat, j: nat, k: Key)
    requires HistSound(hist) && i <= j < |hist| && k in hist[i]
    ensures k in hist[j] && Rank(hist[i][k]) <= Rank(hist[j][k])
    decreases j
  {
    if i < j {
      HistForward(hist, i, j - 1, k);
      assert RegNext(hist[j - 1], hist[j]);
    }
  }

  /** What a host accepts is its pins and exactly the keys that were not retired at its learned version. */
  lemma AcceptsExactly(ws: seq<World>, acts: seq<Action>, i: nat, h: string, k: Key)
    requires MatchingRun(ws, acts) && i < |ws| && h in ws[i].pilots
    ensures var pilot := ws[i].pilots[h]; var v := LoadedVersion(pilot.file);
            && 0 <= v < |ws[i].hist|
            && (Trusts(pilot, k) <==> k in pilot.pins || (pilot.file.Some? && TrustedIn(ws[i].hist[v], k)))
  {
    RunIsGood(ws, acts, i);
    var pilot := ws[i].pilots[h];
    assert PilotSound(ws[i], pilot);
    if pilot.file.Some? {
      PlainKeys(pilot.file.value.pems, k);
    }
  }

  /**
   A host that has learned any version from a key's staging on accepts every bundle the key signs, as long as
   the key was not retired at that version.
   */
  lemma LearnedHostAccepts(ws: seq<World>, acts: seq<Action>, i: nat, h: string, k: Key, staged: nat)
    requires MatchingRun(ws, acts) && i < |ws| && h in ws[i].pilots && ws[i].pilots[h].file.Some?
    requires staged < |ws[i].hist| && k in ws[i].hist[staged]
    requires var v := LoadedVersion(ws[i].pilots[h].file);
             staged <= v < |ws[i].hist| && (k in ws[i].hist[v] ==> ws[i].hist[v][k] != Retired)
    ensures Trusts(ws[i].pilots[h], k)
  {
    RunIsGood(ws, acts, i);
    HistForward(ws[i].hist, staged, LoadedVersion(ws[i].pilots[h].file), k);
    AcceptsExactly(ws, acts, i, h, k);
  }

  /** In terms of the verifier: such a bundle passes against the host's trusted set, and its contents are read. */
  lemma LearnedHostVerifies(ws: seq<World>, acts: seq<Action>, i: nat, h: string, k: Key, staged: nat,
                            trusted: seq<Key>, kid: string, body: string)
    requires MatchingRun(ws, acts) && i < |ws| && h in ws[i].pilots && ws[i].pilots[h].file.Some?
    requires staged < |ws[i].hist| && k in ws[i].hist[staged]
    requires var v := LoadedVersion(ws[i].pilots[h].file);
             staged <= v < |ws[i].hist| && (k in ws[i].hist[v] ==> ws[i].hist[v][k] != Retired)
    requires forall x :: x in trusted <==> Trusts(ws[i].pilots[h], x)
    ensures ConfigSigner.Authentic(ConfigSigner.SignBundle(k, kid, body), trusted)
  {
    LearnedHostAccepts(ws, acts, i, h, k, staged);
    ConfigSigner.SignThenVerify(k, kid, body, trusted);
  }

  lemma {:induction false} Monotone(ws: seq<World>, acts: seq<Action>, i: nat, j: nat, h: string)
    requires MatchingRun(ws, acts) && i <= j < |ws| && h in ws[i].pilots
    ensures h in ws[j].pilots && ws[i].hist <= ws[j].hist
    ensures ws[j].pilots[h].pins == ws[i].pilots[h].pins
    ensures LoadedVersion(ws[i].pilots[h].file) <= LoadedVersion(ws[j].pilots[h].file)
    ensures ws[i].pilots[h].file.Some? ==> ws[j].pilots[h].file.Some?
    decreases j
  {
    if i < j {
      Monotone(ws, acts, i, j - 1, h);
      assert Step(ws[j - 1], acts[j - 1], ws[j]);
    }
  }

  /**
   Adoption is permanent: a host that trusts a key, as the heartbeat gate observed, goes on accepting every
   bundle it signs, through any deliveries and replays, until the registry retires the key.
   */
  lemma AdoptionIsPermanent(ws: seq<World>, acts: seq<Action>, i: nat, j: nat, h: string, k: Key)
    requires MatchingRun(ws, acts) && i <= j < |ws| && h in ws[i].pilots && Trusts(ws[i].pilots[h], k)
    requires ws[j].hist != [] && (k in ws[j].hist[Gen(ws[j])] ==> ws[j].hist[Gen(ws[j])][k] != Retired)
    ensures h in ws[j].pilots && Trusts(ws[j].pilots[h], k)
  {
    Monotone(ws, acts, i, j, h);
    RunIsGood(ws, acts, j);
    AcceptsExactly(ws, acts, i, h, k);
    AcceptsExactly(ws, acts, j, h, k);
    if k !in ws[i].pilots[h].pins {
      var v := LoadedVersion(ws[i].pilots[h].file);
      var v' := LoadedVersion(ws[j].pilots[h].file);
      assert ws[j].hist[v] == ws[i].hist[v];
      HistForward(ws[j].hist, v, v', k);
      HistForward(ws[j].hist, v', Gen(ws[j]), k);
    }
  }

  // ---------------------------------------------------------------- two reads that do not match

  ghost predicate AcceptsAt(pilot: Pilot, r: Reg) {
    forall k :: Trusts(pilot, k) <==> k in pilot.pins || TrustedIn(r, k)
  }

  /**
   Exactly when a bundle finished now does right by a host: once delivered, the host accepts its pins and the
   keys trusted at this generation if and only if, the pins apart, the draft lists exactly those keys.
   */
  lemma DraftExactly(w: World, p: nat, h: string, signer: Key, w1: World, b: Bundle, w2: World)
    requires p in w.drafts && h in w.pilots && Trusts(w.pilots[h], signer) && w.drafts[p].keys != []
    requires w.hist != [] && LoadedVersion(w.pilots[h].file) <= Gen(w)
    requires b == Bundle(w.drafts[p].keys, Gen(w), signer, w.drafts[p].origin)
    requires Step(w, Finish(p, signer), w1) && Step(w1, Deliver(h, b, Never), w2)
    ensures AcceptsAt(w2.pilots[h], w.hist[Gen(w)]) <==>
            forall k :: k !in w.pilots[h].pins ==> (k in w.drafts[p].keys <==> TrustedIn(w.hist[Gen(w)], k))
  {
    var pilot := w2.pilots[h];
    assert pilot.file == Some(Record(Gen(w), w.drafts[p].keys));
    forall k ensures Trusts(pilot, k) <==> k in pilot.pins || k in w.drafts[p].keys {
      PlainKeys(w.drafts[p].keys, k);
    }
  }

  /** A bundle whose version could not be read carries 0: a host that has learned any version ignores it. */
  lemma UnversionedExactly(pilot: Pilot, b: Bundle)
    requires b.version == 0 && b.keys != []
    ensures Learn(pilot, b, Never) == pilot <==> LoadedVersion(pilot.file) > 0 || pilot.file == Some(Record(0, b.keys))
  {
  }

  /**
   A registry write between the two reads yields a bundle whose version promises more than its keys deliver.
   Delivered, it makes the host forget a key it had adopted, whichever trusted key signed the bundle.
   */
  lemma TornBundleUnlearns(w: World, p: nat, h: string, k: Key, signer: Key)
    returns (w1: World, w2: World)
    requires w.hist != [] && h in w.pilots && p in w.drafts
    requires k !in w.drafts[p].keys && k !in w.pilots[h].pins && w.drafts[p].keys != []
    requires Trusts(w.pilots[h], signer) && LoadedVersion(w.pilots[h].file) <= Gen(w)
    ensures Step(w, Finish(p, signer), w1)
    ensures exists b :: Step(w1, Deliver(h, b, Never), w2)
    ensures LoadedVersion(w2.pilots[h].file) == Gen(w) && !Trusts(w2.pilots[h], k)
  {
    var b := Bundle(w.drafts[p].keys, Gen(w), signer, w.drafts[p].origin);
    w1 := w.(drafts := w.drafts - {p}, net := w.net + {b});
    w2 := w1.(pilots := w1.pilots[h := Learn(w1.pilots[h], b, Never)]);
    assert Step(w1, Deliver(h, b, Never), w2);
    PlainKeys(b.keys, k);
  }

  lemma StagedBetweenReads(w0: World, k1: Key, k2: Key, r1: Reg, r2: Reg) returns (w1: World, w2: World, w3: World)
    requires k1 != k2 && w0.hist == [map[]] && w0.drafts == map[]
    requires r1 == map[k1 := Active] && r2 == map[k1 := Active, k2 := Staged]
    ensures Step(w0, Mutate(r1), w1) && Step(w1, ReadKeys(7, [k1]), w2) && Step(w2, Mutate(r2), w3)
    ensures w3 == w0.(hist := [map[], r1, r2], drafts := map[7 := Draft([k1], Some(1))])
  {
    w1 := w0.(hist := [map[], r1]);
    w2 := w1.(drafts := map[7 := Draft([k1], Some(1))]);
    w3 := w2.(hist := [map[], r1, r2]);
    assert [map[]] + [r1] == [map[], r1] && [map[], r1] + [r2] == [map[], r1, r2];
  }

  /**
   Such a draft does arise in a run of the code: keys are read, the next key is staged, then the generation is
   read.  The host ends up at the generation that staged the key, rejecting every bundle the key signs.
   */
  lemma TornRunRejectsStagedKey(k1: Key, k2: Key) returns (ws: seq<World>, acts: seq<Action>)
    requires k1 != k2
    ensures Run(ws, acts) && |acts| == 5
    ensures var w := ws[5];
            && "host" in w.pilots && w.hist != [] && w.hist[Gen(w)] == map[k1 := Active, k2 := Staged]
            && LoadedVersion(w.pilots["host"].file) == Gen(w) && !Trusts(w.pilots["host"], k2)
  {
    var r1: Reg, r2: Reg := map[k1 := Active], map[k1 := Active, k2 := Staged];
    var w0 := World([map[]], map[], {}, map["host" := Pilot({k1}, None)]);
    var w1, w2, w3 := StagedBetweenReads(w0, k1, k2, r1, r2);
    var w4, w5 := TornBundleUnlearns(w3, 7, "host", k2, k1);
    var b :| Step(w4, Deliver("host", b, Never), w5);
    ws := [w0, w1, w2, w3, w4, w5];
    acts := [Mutate(r1), ReadKeys(7, [k1]), Mutate(r2), Finish(7, k1), Deliver("host", b, Never)];
  }
}
