/** Signing config bundles with a key that can be swapped while signing goes on, and verifying them. */
module ConfigSigner {
  import opened Text
  import opened Wildcards
  import opened TrustFile

  // ---------------------------------------------------------------- bundles on the wire

  const PROTOCOL_VERSION := 1
  const BUNDLE_TYPE := "config-bundle"
  const TYP_BUNDLE := "ncp-bundle+jws"
  const ALG := "ES256"

  datatype Payload = Payload(protocolVersion: int, typ: string, body: string)

  /** An ideal signature: `signedBy` is the key that really signed, whatever the Kid header says. */
  datatype Envelope = Garbled | Envelope(alg: string, typ: string, kid: string, signedBy: Key, payload: Option<Payload>)

  function SignBundle(key: Key, kid: string, body: string): Envelope {
    Envelope(ALG, TYP_BUNDLE, kid, key, Some(Payload(PROTOCOL_VERSION, BUNDLE_TYPE, body)))
  }

  ghost predicate Authentic(env: Envelope, trusted: seq<Key>) {
    && env.Envelope? && env.alg == ALG && env.signedBy in trusted && env.typ == TYP_BUNDLE
    && env.payload.Some? && env.payload.value.typ == BUNDLE_TYPE
  }

  /** The host's gate: nothing in a bundle counts until some trusted key is found to have signed it. */
  method Verify(env: Envelope, trusted: seq<Key>) returns (b: Option<Payload>)
    ensures b.Some? <==> && env.Envelope? && env.alg == ALG && env.typ == TYP_BUNDLE && env.signedBy in trusted
                         && env.payload.Some? && env.payload.value.typ == BUNDLE_TYPE
    ensures b.Some? ==> b == env.payload
    ensures b.Some? <==> Authentic(env, trusted)
  {
    if env.Garbled? || env.alg != ALG {
      return None;
    }
    var found := false;
    for i := 0 to |trusted|
      invariant !found && env.signedBy !in trusted[..i]
    {
      if trusted[i] == env.signedBy {
        found := true;
        break;
      }
      assert trusted[..i + 1] == trusted[..i] + [trusted[i]];
    }
    if !found || env.typ != TYP_BUNDLE || env.payload.None? || env.payload.value.typ != BUNDLE_TYPE {
      assert !found ==> env.signedBy !in trusted by {
        assert trusted[..|trusted|] == trusted;
      }
      return None;
    }
    return env.payload;
  }

  /** A signed bundle is accepted, with its own contents, by exactly the hosts that trust the key. */
  lemma SignThenVerify(key: Key, kid: string, body: string, trusted: seq<Key>)
    ensures Authentic(SignBundle(key, kid, body), trusted) <==> key in trusted
    ensures SignBundle(key, kid, body).payload == Some(Payload(PROTOCOL_VERSION, BUNDLE_TYPE, body))
  {
  }

  // ---------------------------------------------------------------- the signer

  type Hash = Key -> string

  /** A signing backend: the key it holds, or None if its public key cannot be read or is no P256 point. */
  type Backend = Option<Key>

  datatype Identity = Identity(key: Key, kid: string)

  /** The registry's active key as reported to the reconciler. */
  datatype Ref = Ref(fingerprint: string, parses: bool)

  /** What one reconcile tick finds: a failed read, or a reference and what the factory builds for it. */
  datatype Reading = ReadFailed | Read(ref: Ref, built: Option<Backend>)

  datatype Tick = Kept | Failed | Swapped(id: Identity)

  function NewIdentity(hash: Hash, backend: Backend): Option<Identity> {
    if backend.None? then None else Some(Identity(backend.value, hash(backend.value)))
  }

  /** The outcome of a tick for a signer now using `cur`. */
  function Reconcile(hash: Hash, cur: Identity, r: Reading): Tick {
    if r.ReadFailed? then Failed
    else if TrimSpace(r.ref.fingerprint) == "" || r.ref.fingerprint == cur.kid then Kept
    else if !r.ref.parses || r.built.None? then Failed
    else match NewIdentity(hash, r.built.value)
      case None => Failed
      case Some(id) => if id.kid != r.ref.fingerprint then Failed else Swapped(id)
  }

  /** The reading names `k` as the active key, and the factory builds it. */
  predicate Names(hash: Hash, r: Reading, k: Key) {
    && r.Read? && r.ref.parses && r.built == Some(Some(k))
    && r.ref.fingerprint == hash(k) && TrimSpace(r.ref.fingerprint) != ""
  }

  /** In terms of the reading: a tick follows exactly a readable new key, and fails on every other new reference. */
  lemma ReconcileExactly(hash: Hash, cur: Identity, r: Reading)
    ensures var t := Reconcile(hash, cur, r);
            && (t.Swapped? <==> r.Read? && r.ref.fingerprint != cur.kid && exists k :: Names(hash, r, k))
            && (t.Swapped? ==> Names(hash, r, t.id.key) && t.id.kid == r.ref.fingerprint)
            && (t.Kept? <==> r.Read? && (TrimSpace(r.ref.fingerprint) == "" || r.ref.fingerprint == cur.kid))
  {
    if r.Read? && r.built.Some? && r.built.value.Some? {
      var k := r.built.value.value;
      assert Names(hash, r, k) <==> r.ref.parses && hash(k) == r.ref.fingerprint && TrimSpace(r.ref.fingerprint) != "";
    }
  }

  class ConfigSigner {
    const hash: Hash
    var identity: Identity

    ghost predicate Valid()
      reads this
    {
      identity.kid == hash(identity.key)
    }

    constructor (hash: Hash, key: Key)
      ensures Valid() && this.hash == hash && identity.key == key
    {
      this.hash := hash;
      identity := Identity(key, hash(key));
    }

    /** The Kid always names the key that signed. */
    method Sign(body: string) returns (env: Envelope)
      requires Valid()
      ensures env.Envelope? && env.kid == hash(env.signedBy) && env.signedBy == identity.key
      ensures env.payload == Some(Payload(PROTOCOL_VERSION, BUNDLE_TYPE, body))
    {
      var id := identity;
      env := SignBundle(id.key, id.kid, body);
    }

    method Swap(backend: Backend) returns (ok: bool)
      requires Valid()
      modifies this`identity
      ensures Valid()
      ensures ok <==> backend.Some?
      ensures !ok ==> identity == old(identity)
      ensures ok ==> identity.kid == hash(backend.value)
      ensures ok && old(identity).kid != hash(backend.value) ==> identity.key == backend.value
      ensures ok && old(identity).kid == hash(backend.value) ==> identity == old(identity)
    {
      var id := NewIdentity(hash, backend);
      if id.None? {
        return false;
      }
      if identity.kid != id.value.kid {
        identity := id.value;
      }
      return true;
    }

    /** A tick follows the registry to a new key it can build, leaves things as they are, or fails and does so too. */
    method ReconcileActive(r: Reading) returns (swapped: bool, ok: bool)
      requires Valid()
      modifies this`identity
      ensures Valid()
      ensures swapped <==> && r.Read? && TrimSpace(r.ref.fingerprint) != "" && r.ref.fingerprint != old(identity).kid
                           && r.ref.parses && r.built.Some? && r.built.value.Some?
                           && hash(r.built.value.value) == r.ref.fingerprint
      ensures identity == if swapped then Identity(r.built.value.value, r.ref.fingerprint) else old(identity)
      ensures ok <==> r.Read? && (TrimSpace(r.ref.fingerprint) == "" || r.ref.fingerprint == old(identity).kid || swapped)
      ensures identity == Ticked(hash, old(identity), r)
    {
      if r.ReadFailed? {
        return false, false;
      }
      if TrimSpace(r.ref.fingerprint) == "" || r.ref.fingerprint == identity.kid {
        return false, true;
      }
      if !r.ref.parses || r.built.None? {
        return false, false;
      }
      var id := NewIdentity(hash, r.built.value);
      if id.None? || id.value.kid != r.ref.fingerprint {
        return false, false;
      }
      identity := id.value;
      return true, true;
    }
  }

  function Ticked(hash: Hash, cur: Identity, r: Reading): Identity {
    match Reconcile(hash, cur, r) case Swapped(id) => id case _ => cur
  }

  function AfterTicks(hash: Hash, cur: Identity, rs: seq<Reading>): Identity {
    if rs == [] then cur else Ticked(hash, AfterTicks(hash, cur, rs[..|rs| - 1]), rs[|rs| - 1])
  }

  /** Once a tick has succeeded for a reference, further ticks with that reference change nothing and never fail. */
  lemma StableSourceConverges(hash: Hash, cur: Identity, r: Reading, again: Reading)
    requires r.Read? && Reconcile(hash, cur, r) != Failed && again.Read? && again.ref == r.ref
    ensures Reconcile(hash, Ticked(hash, cur, r), again) == Kept
  {
  }

  /** The reading does not report another key as active. */
  predicate NoOther(hash: Hash, r: Reading, k: Key) {
    r.Read? ==> TrimSpace(r.ref.fingerprint) == "" || r.ref.fingerprint == hash(k)
  }

  /**
   Whatever the ticks before found, one that names a key moves the signer to it, and it stays there through
   failing reads, missing references and keys that cannot be rebuilt until the registry reports another.
   */
  lemma {:induction false} FollowsTheRegistry(hash: Hash, cur: Identity, rs: seq<Reading>, n: nat, k: Key)
    requires n < |rs| && Names(hash, rs[n], k) && forall i :: n < i < |rs| ==> NoOther(hash, rs[i], k)
    ensures AfterTicks(hash, cur, rs).kid == hash(k)
    ensures AfterTicks(hash, cur, rs[..n]).kid != hash(k) ==> AfterTicks(hash, cur, rs).key == k
  {
    var init, r := rs[..|rs| - 1], rs[|rs| - 1];
    var before := AfterTicks(hash, cur, init);
    ReconcileExactly(hash, before, r);
    if n < |rs| - 1 {
      assert init[..n] == rs[..n];
      FollowsTheRegistry(hash, cur, init, n, k);
    }
  }

  // ---------------------------------------------------------------- interleavings

  /**
   One process: signing calls that have loaded the identity but not yet signed, reconciler ticks that have
   decided but not yet stored, everything signed so far, and every fingerprint the registry has reported.
   */
  datatype World = World(identity: Identity, signing: map<nat, (Identity, string)>, storing: map<nat, Identity>,
                         out: set<Envelope>, reported: set<string>)

  datatype Action =
    | SignLoad(p: nat, body: string)
    | SignDone(p: nat)
    | SwapTo(backend: Backend)
    | TickRead(p: nat, r: Reading)
    | TickStore(p: nat)

  ghost predicate Step(hash: Hash, w: World, a: Action, w': World) {
    match a
    case SignLoad(p, body) => w' == w.(signing := w.signing[p := (w.identity, body)])
    case SignDone(p) =>
      && p in w.signing
      && var (id, body) := w.signing[p];
         w' == w.(signing := w.signing - {p}, out := w.out + {SignBundle(id.key, id.kid, body)})
    case SwapTo(backend) =>
      w' == (match NewIdentity(hash, backend)
             case None => w
             case Some(id) => if id.kid == w.identity.kid then w else w.(identity := id))
    case TickRead(p, r) =>
      && var seen := if r.Read? then w.reported + {r.ref.fingerprint} else w.reported;
         w' == (match Reconcile(hash, w.identity, r)
                case Swapped(id) => w.(storing := w.storing[p := id], reported := seen)
                case _ => w.(reported := seen))
    case TickStore(p) => p in w.storing && w' == w.(identity := w.storing[p], storing := w.storing - {p})
  }

  predicate Coherent(hash: Hash, id: Identity) {
    id.kid == hash(id.key)
  }

  ghost predicate Good(hash: Hash, w: World) {
    && Coherent(hash, w.identity)
    && (forall p :: p in w.signing ==> Coherent(hash, w.signing[p].0))
    && (forall p :: p in w.storing ==> Coherent(hash, w.storing[p]) && w.storing[p].kid in w.reported)
    && (forall e :: e in w.out ==> e.Envelope? && e.kid == hash(e.signedBy))
  }

  ghost predicate Run(hash: Hash, boot: Key, ws: seq<World>, acts: seq<Action>) {
    && |ws| == |acts| + 1
    && ws[0] == World(Identity(boot, hash(boot)), map[], map[], {}, {})
    && forall i :: 0 <= i < |acts| ==> Step(hash, ws[i], acts[i], ws[i + 1])
  }

  lemma {:induction false} RunIsGood(hash: Hash, boot: Key, ws: seq<World>, acts: seq<Action>, i: nat)
    requires Run(hash, boot, ws, acts) && i < |ws|
    ensures Good(hash, ws[i])
  {
    if i > 0 {
      RunIsGood(hash, boot, ws, acts, i - 1);
      assert Step(hash, ws[i - 1], acts[i - 1], ws[i]);
    }
  }

  /** However signing, swapping and reconciling interleave, no bundle ever carries another key's Kid. */
  lemma KidNamesTheSigner(hash: Hash, boot: Key, ws: seq<World>, acts: seq<Action>, i: nat, e: Envelope)
    requires Run(hash, boot, ws, acts) && i < |ws| && e in ws[i].out
    ensures e.Envelope? && e.kid == hash(e.signedBy)
  {
    RunIsGood(hash, boot, ws, acts, i);
  }

  /** Without manual swaps, the key in use is the boot key or one the registry has reported as active. */
  lemma {:induction false} OnlyReportedKeys(hash: Hash, boot: Key, ws: seq<World>, acts: seq<Action>, i: nat)
    requires Run(hash, boot, ws, acts) && i < |ws| && forall j :: 0 <= j < |acts| ==> !acts[j].SwapTo?
    ensures ws[i].identity.kid == hash(boot) || ws[i].identity.kid in ws[i].reported
  {
    if i > 0 {
      OnlyReportedKeys(hash, boot, ws, acts, i - 1);
      RunIsGood(hash, boot, ws, acts, i - 1);
      assert Step(hash, ws[i - 1], acts[i - 1], ws[i]);
    }
  }

  /** The identity changes only where a tick is stored or a manual swap is made. */
  lemma {:induction false} IdentityStays(hash: Hash, boot: Key, ws: seq<World>, acts: seq<Action>, i: nat, j: nat)
    requires Run(hash, boot, ws, acts) && i <= j < |ws|
    requires forall n :: i <= n < j ==> !acts[n].TickStore? && !acts[n].SwapTo?
    ensures ws[j].identity == ws[i].identity
  {
    if i < j {
      IdentityStays(hash, boot, ws, acts, i, j - 1);
      assert Step(hash, ws[j - 1], acts[j - 1], ws[j]);
    }
  }

  /** A decided tick keeps what it is going to store until it stores it. */
  lemma {:induction false} WaitsToStore(hash: Hash, boot: Key, ws: seq<World>, acts: seq<Action>, i: nat, j: nat, p: nat)
    requires Run(hash, boot, ws, acts) && i <= j < |ws| && p in ws[i].storing
    requires forall n :: i <= n < j ==> acts[n] != TickStore(p) && !(acts[n].TickRead? && acts[n].p == p)
    ensures p in ws[j].storing && ws[j].storing[p] == ws[i].storing[p]
  {
    if i < j {
      WaitsToStore(hash, boot, ws, acts, i, j - 1, p);
      assert Step(hash, ws[j - 1], acts[j - 1], ws[j]);
    }
  }

  /**
   In every interleaving, a tick that reads a new active key and stores it makes every bundle whose signing
   starts from then on, until the next store or swap, one signed by that key.
   */
  lemma SignsWithTheNamedKey(hash: Hash, boot: Key, ws: seq<World>, acts: seq<Action>, p: nat, r: Reading, k: Key,
                             i: nat, j: nat, m: nat, q: nat, body: string)
    requires Run(hash, boot, ws, acts) && i < j < m < |acts|
    requires acts[i] == TickRead(p, r) && Names(hash, r, k) && ws[i].identity.kid != hash(k)
    requires acts[j] == TickStore(p) && forall n :: i < n < j ==> acts[n] != TickStore(p) && !(acts[n].TickRead? && acts[n].p == p)
    requires acts[m] == SignLoad(q, body) && forall n :: j < n < m ==> !acts[n].TickStore? && !acts[n].SwapTo?
    ensures q in ws[m + 1].signing && ws[m + 1].signing[q] == (Identity(k, hash(k)), body)
  {
    assert Step(hash, ws[i], acts[i], ws[i + 1]) && Step(hash, ws[j], acts[j], ws[j + 1]) && Step(hash, ws[m], acts[m], ws[m + 1]);
    ReconcileExactly(hash, ws[i].identity, r);
    WaitsToStore(hash, boot, ws, acts, i + 1, j, p);
    IdentityStays(hash, boot, ws, acts, j + 1, m);
  }
}
