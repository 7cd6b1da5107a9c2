/** One collect cycle: Harbor claims leased candidates from a gateway, processes them, ships results, then acks. */
module Collect {
  import opened Wildcards

  // ---------------------------------------------------------------- the gateway's queue

  datatype Status = Ready | Inflight | Dead

  /** `genuine` is the outcome of checking the message's MAC. */
  datatype Item = Item(enrollmentId: string, genuine: bool, status: Status, attempts: nat, leaseUntil: int)

  datatype Candidate = Candidate(leaseId: nat, enrollmentId: string)

  datatype Result = Result(enrollmentId: string, status: string, secretHash: string, bundle: string, reason: string,
                           expiresAt: int)

  datatype Stored = Stored(status: string, secretHash: string, bundle: string, reason: string, expiresAt: int,
                           readCount: nat)

  type Items = map<nat, Item>
  type Results = map<string, Stored>

  function Shown(r: Result, secret: string, readCount: nat): Stored {
    Stored(r.status, secret, r.bundle, r.reason, r.expiresAt, readCount)
  }

  /** An upsert: the secret and the read count of an existing row survive. */
  function Put(results: Results, r: Result): Results {
    var e := r.enrollmentId;
    if e in results then results[e := Shown(r, results[e].secretHash, results[e].readCount)]
    else results[e := Shown(r, r.secretHash, 0)]
  }

  function PutAll(results: Results, rs: seq<Result>): (out: Results)
    ensures forall e :: e in out <==> e in results || exists i :: 0 <= i < |rs| && rs[i].enrollmentId == e
  {
    if rs == [] then results else Put(PutAll(results, rs[..|rs| - 1]), rs[|rs| - 1])
  }

  ghost predicate Mentions(rs: seq<Result>, e: string) {
    exists i :: 0 <= i < |rs| && rs[i].enrollmentId == e
  }

  lemma {:induction false} PutAllKeeps(a: Results, rs: seq<Result>, e: string)
    requires e in a
    ensures PutAll(a, rs)[e].secretHash == a[e].secretHash && PutAll(a, rs)[e].readCount == a[e].readCount
    ensures !Mentions(rs, e) ==> PutAll(a, rs)[e] == a[e]
  {
    if rs != [] {
      var n := |rs| - 1;
      PutAllKeeps(a, rs[..n], e);
      if Mentions(rs[..n], e) {
        var i :| 0 <= i < n && rs[..n][i].enrollmentId == e;
        assert rs[i].enrollmentId == e;
      }
    }
  }

  /** The last of the results for an enrollment. */
  function LastFor(rs: seq<Result>, e: string): Option<Result> {
    if rs == [] then None
    else if rs[|rs| - 1].enrollmentId == e then Some(rs[|rs| - 1])
    else LastFor(rs[..|rs| - 1], e)
  }

  lemma {:induction false} LastForListed(rs: seq<Result>, e: string)
    ensures LastFor(rs, e).Some? <==> Mentions(rs, e)
    ensures LastFor(rs, e).Some? ==> LastFor(rs, e).value in rs && LastFor(rs, e).value.enrollmentId == e
  {
    if rs != [] {
      var n := |rs| - 1;
      LastForListed(rs[..n], e);
      assert rs[n].enrollmentId == e ==> Mentions(rs, e);
      MentionsInit(rs, e);
    }
  }

  lemma MentionsInit(rs: seq<Result>, e: string)
    requires rs != []
    ensures Mentions(rs, e) <==> Mentions(rs[..|rs| - 1], e) || rs[|rs| - 1].enrollmentId == e
  {
    var n := |rs| - 1;
    if Mentions(rs[..n], e) {
      var i :| 0 <= i < n && rs[..n][i].enrollmentId == e;
      assert rs[i].enrollmentId == e;
    }
    if Mentions(rs, e) && rs[n].enrollmentId != e {
      var i :| 0 <= i < |rs| && rs[i].enrollmentId == e;
      assert rs[..n][i].enrollmentId == e;
    }
  }

  /** Apart from the secret and the read count, a row is what its last result says. */
  lemma {:induction false} LastWriteWins(m: Results, rs: seq<Result>, e: string)
    requires LastFor(rs, e).Some?
    ensures e in PutAll(m, rs)
    ensures var s, r := PutAll(m, rs)[e], LastFor(rs, e).value;
            && s.status == r.status && s.bundle == r.bundle && s.reason == r.reason && s.expiresAt == r.expiresAt
            && s == Shown(r, s.secretHash, s.readCount)
  {
    var n := |rs| - 1;
    if rs[n].enrollmentId != e {
      LastWriteWins(m, rs[..n], e);
    }
  }

  /** A new row is unread and has the secret of the first result for it; later ones do not change it. */
  lemma {:induction false} FirstSecretStays(m: Results, rs: seq<Result>, i: nat)
    requires i < |rs| && rs[i].enrollmentId !in m && !Mentions(rs[..i], rs[i].enrollmentId)
    ensures var e := rs[i].enrollmentId;
            e in PutAll(m, rs) && PutAll(m, rs)[e].secretHash == rs[i].secretHash && PutAll(m, rs)[e].readCount == 0
  {
    var init := rs[..|rs| - 1];
    if i < |rs| - 1 {
      assert init[..i] == rs[..i] && init[i] == rs[i];
      FirstSecretStays(m, init, i);
    } else {
      assert init == rs[..i];
    }
  }

  /** Shipping the same results twice stores what shipping them once does. */
  lemma ShippingIsIdempotent(m: Results, rs: seq<Result>)
    ensures PutAll(PutAll(m, rs), rs) == PutAll(m, rs)
  {
    var once := PutAll(m, rs);
    var twice := PutAll(once, rs);
    forall e | e in once ensures twice[e] == once[e] {
      PutAllKeeps(once, rs, e);
      LastForListed(rs, e);
      if Mentions(rs, e) {
        LastWriteWins(m, rs, e);
        LastWriteWins(once, rs, e);
      }
    }
  }

  // ---------------------------------------------------------------- settling leases

  /** One verdict on a lease: done, or to be redelivered. */
  datatype Verdict = Verdict(leaseId: nat, ack: bool)

  /** Back in line, or dead-lettered once all attempts are used up. */
  function Nacked(it: Item, maxAttempts: nat): Item {
    if it.attempts >= maxAttempts then it.(status := Dead) else it.(status := Ready, leaseUntil := 0)
  }

  function Settle(items: Items, maxAttempts: nat, v: Verdict): Items {
    if v.ack then items - {v.leaseId}
    else if v.leaseId !in items then items
    else items[v.leaseId := Nacked(items[v.leaseId], maxAttempts)]
  }

  function SettleAll(items: Items, maxAttempts: nat, vs: seq<Verdict>): Items {
    if vs == [] then items else Settle(SettleAll(items, maxAttempts, vs[..|vs| - 1]), maxAttempts, vs[|vs| - 1])
  }

  lemma SettleSnoc(items: Items, maxAttempts: nat, vs: seq<Verdict>, i: nat)
    requires i < |vs|
    ensures SettleAll(items, maxAttempts, vs[..i + 1]) == Settle(SettleAll(items, maxAttempts, vs[..i]), maxAttempts, vs[i])
  {
    assert vs[..i + 1][..i] == vs[..i];
  }

  /** A lease leaves the queue exactly when it is acked; everything else stays and keeps its enrollment. */
  lemma {:induction false} SettleAllRemovesAcked(items: Items, maxAttempts: nat, vs: seq<Verdict>, id: nat)
    ensures id in SettleAll(items, maxAttempts, vs) <==>
              id in items && forall i :: 0 <= i < |vs| ==> vs[i] != Verdict(id, true)
    ensures id in SettleAll(items, maxAttempts, vs) ==>
              SettleAll(items, maxAttempts, vs)[id].enrollmentId == items[id].enrollmentId
  {
    if vs != [] {
      var n := |vs| - 1;
      SettleAllRemovesAcked(items, maxAttempts, vs[..n], id);
      assert forall i :: 0 <= i < n ==> vs[..n][i] == vs[i];
    }
  }

  /** The fields after a verdict: an ack removes, a nack offers again or, with the attempts used up, buries. */
  ghost predicate Nacks(before: Item, after: Item, maxAttempts: nat) {
    && after.enrollmentId == before.enrollmentId && after.genuine == before.genuine && after.attempts == before.attempts
    && (before.attempts >= maxAttempts ==> after.status == Dead && after.leaseUntil == before.leaseUntil)
    && (before.attempts < maxAttempts ==> after.status == Ready && after.leaseUntil == 0)
  }

  ghost predicate OneEach(vs: seq<Verdict>) {
    forall i, j :: 0 <= i < j < |vs| ==> vs[i].leaseId != vs[j].leaseId
  }

  /** With one verdict a lease, a nacked message is nacked once and every other that stays is untouched. */
  lemma {:induction false} SettledOnce(items: Items, maxAttempts: nat, vs: seq<Verdict>, id: nat)
    requires OneEach(vs) && id in SettleAll(items, maxAttempts, vs)
    ensures id in items
    ensures var after := SettleAll(items, maxAttempts, vs)[id];
            if Verdict(id, false) in vs then Nacks(items[id], after, maxAttempts) else after == items[id]
  {
    if vs != [] {
      var init, v := vs[..|vs| - 1], vs[|vs| - 1];
      assert vs == init + [v];
      assert forall i :: 0 <= i < |init| ==> init[i] == vs[i];
      SettledOnce(items, maxAttempts, init, id);
      assert v.leaseId == id ==> Verdict(id, false) !in init;
    }
  }

  lemma KeepsValid(items: Items, next: nat, maxAttempts: nat, vs: seq<Verdict>)
    requires forall id :: id in items ==> id < next
    ensures forall id :: id in SettleAll(items, maxAttempts, vs) ==> id < next
  {
    forall id | id in SettleAll(items, maxAttempts, vs) ensures id < next {
      SettleAllRemovesAcked(items, maxAttempts, vs, id);
    }
  }

  /** The verdicts as the ack handler applies them: every ack, then every nack. */
  function Verdicts(acks: seq<nat>, nacks: seq<nat>): seq<Verdict> {
    seq(|acks| + |nacks|, i requires 0 <= i < |acks| + |nacks| =>
      if i < |acks| then Verdict(acks[i], true) else Verdict(nacks[i - |acks|], false))
  }

  /** The n-th verdict is a nack of a lease that is not there, or has just been acked. */
  ghost predicate Gone(items: Items, acks: seq<nat>, nacks: seq<nat>, n: nat) {
    |acks| <= n < |acks| + |nacks| && (nacks[n - |acks|] !in items || nacks[n - |acks|] in acks)
  }

  lemma GoneExactly(items: Items, maxAttempts: nat, acks: seq<nat>, nacks: seq<nat>, n: nat)
    requires |acks| <= n < |acks| + |nacks|
    ensures nacks[n - |acks|] !in SettleAll(items, maxAttempts, Verdicts(acks, nacks)[..n]) <==> Gone(items, acks, nacks, n)
  {
    var vs, id := Verdicts(acks, nacks), nacks[n - |acks|];
    SettleAllRemovesAcked(items, maxAttempts, vs[..n], id);
    forall i | 0 <= i < |acks| ensures vs[..n][i] == Verdict(acks[i], true) {
    }
    forall i | 0 <= i < n && vs[..n][i] == Verdict(id, true) ensures id in acks {
      assert i < |acks|;
    }
  }

  /** A lease that has run out makes its message ready again. */
  function Freed(it: Item, now: int): Item {
    if it.status == Inflight && it.leaseUntil <= now then it.(status := Ready) else it
  }

  /** A ready message that is looked at is leased, or dead-lettered if it is forged. */
  function Taken(it: Item, until: int): Item {
    if it.genuine then it.(status := Inflight, attempts := it.attempts + 1, leaseUntil := until) else it.(status := Dead)
  }

  predicate ReadyAt(items: Items, now: int, id: nat) {
    id in items && Freed(items[id], now).status == Ready
  }

  /** How many messages with an id below `bound` are ready. */
  function ReadyBelow(items: Items, now: int, bound: nat): nat {
    if bound == 0 then 0 else ReadyBelow(items, now, bound - 1) + (if ReadyAt(items, now, bound - 1) then 1 else 0)
  }

  /** The genuine ready messages below `bound`, oldest first. */
  function CandidatesBelow(items: Items, now: int, bound: nat): (out: seq<Candidate>)
    ensures forall c :: c in out ==> c.leaseId in items && c.leaseId < bound && c.enrollmentId == items[c.leaseId].enrollmentId
  {
    if bound == 0 then []
    else
      var id := bound - 1;
      CandidatesBelow(items, now, id)
      + (if ReadyAt(items, now, id) && items[id].genuine then [Candidate(id, items[id].enrollmentId)] else [])
  }

  function AfterClaim(it: Item, now: int, until: int, reached: bool): Item {
    var f := Freed(it, now);
    if reached && f.status == Ready then Taken(f, until) else f
  }

  function Claimed(items: Items, now: int, until: int, bound: nat): (rows: Items)
    ensures rows.Keys == items.Keys
  {
    map id | id in items :: AfterClaim(items[id], now, until, id < bound)
  }

  lemma ClaimOne(items: Items, now: int, until: int, id: nat)
    ensures var rows := Claimed(items, now, until, id);
            && (id in rows && rows[id].status == Ready <==> ReadyAt(items, now, id))
            && (id in rows ==> rows[id] == Freed(items[id], now))
            && Claimed(items, now, until, id + 1) ==
               if ReadyAt(items, now, id) then rows[id := Taken(rows[id], until)] else rows
  {
    var rows, more := Claimed(items, now, until, id), Claimed(items, now, until, id + 1);
    forall i | i in items && i != id ensures more[i] == rows[i] {
    }
  }

  /** A message is on offer when it is ready, or leased with the lease run out. */
  predicate Offered(it: Item, now: int) {
    it.status == Ready || (it.status == Inflight && it.leaseUntil <= now)
  }

  ghost function OfferedBelow(items: Items, now: int, bound: nat): set<nat> {
    set id | id in items && id < bound && Offered(items[id], now)
  }

  /** The batch is every genuine message on offer below `bound`, oldest first; `limit` were looked at, or all. */
  ghost predicate Picks(items: Items, next: nat, limit: nat, now: int, bound: nat, out: seq<Candidate>) {
    && bound <= next && |OfferedBelow(items, now, bound)| <= limit
    && (bound == next || |OfferedBelow(items, now, bound)| == limit)
    && (forall c :: c in out <==> c.leaseId in OfferedBelow(items, now, bound) && items[c.leaseId].genuine
                                  && c.enrollmentId == items[c.leaseId].enrollmentId)
    && forall i, j :: 0 <= i < j < |out| ==> out[i].leaseId < out[j].leaseId
  }

  lemma {:induction false} ReadyBelowCounts(items: Items, now: int, bound: nat)
    ensures ReadyBelow(items, now, bound) == |OfferedBelow(items, now, bound)|
  {
    if bound > 0 {
      ReadyBelowCounts(items, now, bound - 1);
      var more := OfferedBelow(items, now, bound);
      assert more - {bound - 1} == OfferedBelow(items, now, bound - 1);
      assert bound - 1 in more <==> ReadyAt(items, now, bound - 1);
    }
  }

  lemma {:induction false} CandidatesAreOffered(items: Items, now: int, bound: nat)
    ensures var out := CandidatesBelow(items, now, bound);
            && (forall c :: c in out <==> c.leaseId in OfferedBelow(items, now, bound) && items[c.leaseId].genuine
                                          && c.enrollmentId == items[c.leaseId].enrollmentId)
            && forall i, j :: 0 <= i < j < |out| ==> out[i].leaseId < out[j].leaseId
  {
    if bound > 0 {
      CandidatesAreOffered(items, now, bound - 1);
      var init := CandidatesBelow(items, now, bound - 1);
      assert forall i :: 0 <= i < |init| ==> init[i] in init;
      assert bound - 1 in OfferedBelow(items, now, bound) <==> ReadyAt(items, now, bound - 1);
    }
  }

  /** What a claim leaves of a message: leased or buried if it was looked at, back in line if its lease ran out. */
  function ClaimLeaves(it: Item, now: int, until: int, reached: bool): Item {
    if !Offered(it, now) then it
    else if !reached then it.(status := Ready)
    else if it.genuine then Item(it.enrollmentId, true, Inflight, it.attempts + 1, until)
    else it.(status := Dead)
  }

  lemma ClaimedExactly(items: Items, now: int, until: int, bound: nat, id: nat)
    requires id in items
    ensures Claimed(items, now, until, bound)[id] == ClaimLeaves(items[id], now, until, id < bound)
  {
  }

  // ---------------------------------------------------------------- leases are exclusive

  datatype QueueEvent = Claims(now: int, until: int, bound: nat) | Settles(v: Verdict)

  function QueueAfter(items: Items, maxAttempts: nat, evs: seq<QueueEvent>): Items {
    if evs == [] then items
    else
      var prev := QueueAfter(items, maxAttempts, evs[..|evs| - 1]);
      match evs[|evs| - 1]
      case Claims(now, until, bound) => Claimed(prev, now, until, bound)
      case Settles(v) => Settle(prev, maxAttempts, v)
  }

  /** The n-th event hands the message out. */
  ghost predicate HandsOut(items: Items, maxAttempts: nat, evs: seq<QueueEvent>, n: nat, id: nat) {
    && n < |evs| && evs[n].Claims? && id < evs[n].bound
    && var before := QueueAfter(items, maxAttempts, evs[..n]);
       id in before && before[id].genuine && Offered(before[id], evs[n].now)
  }

  lemma QueueSnoc(items: Items, maxAttempts: nat, evs: seq<QueueEvent>, n: nat)
    requires n < |evs|
    ensures var prev := QueueAfter(items, maxAttempts, evs[..n]);
            QueueAfter(items, maxAttempts, evs[..n + 1]) == match evs[n]
              case Claims(now, until, bound) => Claimed(prev, now, until, bound)
              case Settles(v) => Settle(prev, maxAttempts, v)
  {
    assert evs[..n + 1][..n] == evs[..n];
  }

  lemma {:induction false} StaysLeased(items: Items, maxAttempts: nat, evs: seq<QueueEvent>, i: nat, n: nat, id: nat)
    requires HandsOut(items, maxAttempts, evs, i, id) && i < n <= |evs|
    requires forall m :: i < m < n ==> evs[m] != Settles(Verdict(id, false))
    requires forall m :: i < m < n && evs[m].Claims? ==> evs[m].now < evs[i].until
    ensures var now := QueueAfter(items, maxAttempts, evs[..n]);
            id in now ==> now[id].status == Inflight && now[id].leaseUntil == evs[i].until
  {
    QueueSnoc(items, maxAttempts, evs, n - 1);
    var prev := QueueAfter(items, maxAttempts, evs[..n - 1]);
    if n - 1 > i {
      StaysLeased(items, maxAttempts, evs, i, n - 1, id);
    }
    if evs[n - 1].Claims? && id in prev {
      ClaimedExactly(prev, evs[n - 1].now, evs[n - 1].until, evs[n - 1].bound, id);
    }
  }

  /**
   Over any sequence of claims, acks and nacks: a message that is handed out twice was nacked in between, or a
   claim since the first came at or after the end of its lease.
   */
  lemma LeaseIsExclusive(items: Items, maxAttempts: nat, evs: seq<QueueEvent>, i: nat, j: nat, id: nat)
    requires HandsOut(items, maxAttempts, evs, i, id) && HandsOut(items, maxAttempts, evs, j, id) && i < j
    ensures || (exists m :: i < m < j && evs[m] == Settles(Verdict(id, false)))
            || (exists m :: i < m <= j && evs[m].Claims? && evs[m].now >= evs[i].until)
  {
    if (forall m :: i < m < j ==> evs[m] != Settles(Verdict(id, false)))
       && (forall m :: i < m < j && evs[m].Claims? ==> evs[m].now < evs[i].until)
    {
      StaysLeased(items, maxAttempts, evs, i, j, id);
      assert evs[j].now >= evs[i].until;
    }
  }

  // ---------------------------------------------------------------- poison messages

  /** Deliveries of one message, each ending in a nack (true) or with its lease running out, while it is offered. */
  function Delivered(it: Item, maxAttempts: nat, until: int, nacked: seq<bool>): Item {
    if nacked == [] then it
    else
      var prev := Delivered(it, maxAttempts, until, nacked[..|nacked| - 1]);
      if prev.status != Ready then prev
      else if nacked[|nacked| - 1] then Nacked(Taken(prev, until), maxAttempts)
      else Freed(Taken(prev, until), until)
  }

  /** The delivery with this index is nacked with all attempts used up. */
  predicate Fatal(it: Item, maxAttempts: nat, nacked: seq<bool>, i: int) {
    0 <= i < |nacked| && nacked[i] && it.attempts + i + 1 >= maxAttempts
  }

  /** The message got as far as its first fatal delivery, or all the way. */
  ghost predicate DiedAt(it: Item, maxAttempts: nat, nacked: seq<bool>, i: int, last: Item) {
    && Fatal(it, maxAttempts, nacked, i) && (forall j :: 0 <= j < i ==> !Fatal(it, maxAttempts, nacked, j))
    && last.status == Dead && last.attempts == it.attempts + i + 1
  }

  /**
   Exactly when a message is dead-lettered, for every mix of nacks and expired leases: if and only if some
   delivery that used up its attempts ended in a nack, and then at the first such; otherwise it is ready again
   after every delivery.
   */
  lemma {:induction false} DeadExactly(it: Item, maxAttempts: nat, until: int, nacked: seq<bool>)
    requires it.genuine && it.status == Ready
    ensures var last := Delivered(it, maxAttempts, until, nacked);
            && last.genuine
            && if exists i :: Fatal(it, maxAttempts, nacked, i)
               then exists i :: DiedAt(it, maxAttempts, nacked, i, last)
               else last.status == Ready && last.attempts == it.attempts + |nacked|
  {
    if nacked != [] {
      var n := |nacked| - 1;
      var init := nacked[..n];
      DeadExactly(it, maxAttempts, until, init);
      assert forall i :: i < n ==> (Fatal(it, maxAttempts, init, i) <==> Fatal(it, maxAttempts, nacked, i));
      var last := Delivered(it, maxAttempts, until, nacked);
      if i :| Fatal(it, maxAttempts, init, i) {
        var k :| DiedAt(it, maxAttempts, init, k, Delivered(it, maxAttempts, until, init));
        assert DiedAt(it, maxAttempts, nacked, k, last);
      } else if Fatal(it, maxAttempts, nacked, n) {
        assert DiedAt(it, maxAttempts, nacked, n, last);
      }
    }
  }

  /** So a message that is always nacked is delivered `maxAttempts` times, at least once, and then dead. */
  lemma PoisonIsDeadLettered(it: Item, maxAttempts: nat, until: int, k: nat)
    requires it.genuine && it.status == Ready && it.attempts == 0
    ensures var last := Delivered(it, maxAttempts, until, seq(k, _ => true)); var most := if maxAttempts == 0 then 1 else maxAttempts;
            last.attempts == (if k < most then k else most) && last.status == if k < most then Ready else Dead
  {
    var nacked := seq(k, _ => true);
    DeadExactly(it, maxAttempts, until, nacked);
    var most := if maxAttempts == 0 then 1 else maxAttempts;
    if k >= most {
      assert Fatal(it, maxAttempts, nacked, most - 1);
    }
  }

  /** And one whose lease always runs out is delivered without end. */
  lemma ExpiryNeverDeadLetters(it: Item, maxAttempts: nat, until: int, k: nat)
    requires it.genuine && it.status == Ready
    ensures var last := Delivered(it, maxAttempts, until, seq(k, _ => false));
            last.status == Ready && last.attempts == it.attempts + k
  {
    DeadExactly(it, maxAttempts, until, seq(k, _ => false));
  }

  class GatewayQueue {
    var items: Items
    var next: nat
    var results: Results
    const maxAttempts: nat

    constructor (maxAttempts: nat)
      ensures items == map[] && results == map[] && next == 0 && this.maxAttempts == maxAttempts
    {
      this.maxAttempts := maxAttempts;
      items, next, results := map[], 0, map[];
    }

    ghost predicate Valid()
      reads this
    {
      forall id :: id in items ==> id < next
    }

    /**
     Leases the oldest ready messages, looking at no more than `limit` of them: all those below `bound`, which
     is the end of the queue unless the limit was reached first.
     */
    method Claim(limit: nat, now: int, until: int) returns (out: seq<Candidate>, ghost bound: nat)
      requires Valid()
      modifies this`items
      ensures Valid() && items.Keys == old(items).Keys && Picks(old(items), next, limit, now, bound, out)
      ensures forall id :: id in items && old(items)[id].status == Inflight && old(items)[id].leaseUntil > now ==>
                items[id] == old(items)[id] && forall c :: c in out ==> c.leaseId != id
      ensures forall id :: id in items ==> items[id] == ClaimLeaves(old(items)[id], now, until, id < bound)
      ensures items == Claimed(old(items), now, until, bound)
    {
      var before := items;
      var rows: Items := map id | id in before :: Freed(before[id], now);
      assert rows == Claimed(before, now, until, 0);
      out := [];
      var id, looked := 0, 0;
      while id < next && looked < limit
        invariant items == before && 0 <= id <= next && looked == ReadyBelow(before, now, id) <= limit
        invariant out == CandidatesBelow(before, now, id) && rows == Claimed(before, now, until, id)
      {
        ClaimOne(before, now, until, id);
        if id in rows && rows[id].status == Ready {
          looked := looked + 1;
          if rows[id].genuine {
            out := out + [Candidate(id, rows[id].enrollmentId)];
          }
          rows := rows[id := Taken(rows[id], until)];
        }
        id := id + 1;
      }
      bound := id;
      items := rows;
      ReadyBelowCounts(before, now, bound);
      CandidatesAreOffered(before, now, bound);
      forall i | i in before ensures rows[i] == ClaimLeaves(before[i], now, until, i < bound) {
        ClaimedExactly(before, now, until, bound, i);
      }
    }

    /** Stores a prefix of the results; the whole list unless the store fails at `failAt`. */
    method HandleResults(rs: seq<Result>, failAt: nat) returns (ok: bool)
      modifies this`results
      ensures ok <==> failAt >= |rs|
      ensures results == PutAll(old(results), rs[..if ok then |rs| else failAt])
    {
      for i := 0 to |rs|
        invariant i <= failAt && results == PutAll(old(results), rs[..i])
      {
        if i == failAt {
          return false;
        }
        assert rs[..i + 1][..i] == rs[..i];
        results := Put(results, rs[i]);
      }
      return true;
    }

    /** Applies acks, then nacks, stopping at the first store failure or at a nack of a lease that is gone. */
    method HandleAck(acks: seq<nat>, nacks: seq<nat>, failAt: nat) returns (ok: bool, ghost applied: nat)
      requires Valid()
      modifies this`items
      ensures Valid() && applied <= |acks| + |nacks| && (ok <==> applied == |acks| + |nacks|)
      ensures applied <= failAt && (!ok ==> applied == failAt || Gone(old(items), acks, nacks, applied))
      ensures forall n :: |acks| <= n < applied ==> !Gone(old(items), acks, nacks, n)
      ensures items == SettleAll(old(items), maxAttempts, Verdicts(acks, nacks)[..applied])
    {
      ghost var before := items;
      ok, applied := HandleAcks(acks, nacks, failAt);
      if ok {
        ok, applied := HandleNacks(acks, nacks, failAt, before);
      }
      KeepsValid(before, next, maxAttempts, Verdicts(acks, nacks)[..applied]);
    }

    method HandleAcks(acks: seq<nat>, ghost nacks: seq<nat>, failAt: nat) returns (ok: bool, ghost applied: nat)
      modifies this`items
      ensures applied == (if ok then |acks| else failAt) && (ok <==> failAt >= |acks|)
      ensures items == SettleAll(old(items), maxAttempts, Verdicts(acks, nacks)[..applied])
    {
      ghost var vs, before := Verdicts(acks, nacks), items;
      for i := 0 to |acks|
        invariant i <= failAt && items == SettleAll(before, maxAttempts, vs[..i])
      {
        if i == failAt {
          return false, i;
        }
        SettleSnoc(before, maxAttempts, vs, i);
        items := items - {acks[i]};
      }
      return true, |acks|;
    }

    method HandleNacks(acks: seq<nat>, nacks: seq<nat>, failAt: nat, ghost before: Items)
      returns (ok: bool, ghost applied: nat)
      requires |acks| <= failAt && items == SettleAll(before, maxAttempts, Verdicts(acks, nacks)[..|acks|])
      modifies this`items
      ensures |acks| <= applied <= |acks| + |nacks| && (ok <==> applied == |acks| + |nacks|)
      ensures applied <= failAt && (!ok ==> applied == failAt || Gone(before, acks, nacks, applied))
      ensures forall n :: |acks| <= n < applied ==> !Gone(before, acks, nacks, n)
      ensures items == SettleAll(before, maxAttempts, Verdicts(acks, nacks)[..applied])
    {
      ghost var vs := Verdicts(acks, nacks);
      var room := failAt - |acks|;
      for j := 0 to |nacks|
        invariant j <= room && items == SettleAll(before, maxAttempts, vs[..|acks| + j])
        invariant forall n :: |acks| <= n < |acks| + j ==> !Gone(before, acks, nacks, n)
      {
        GoneExactly(before, maxAttempts, acks, nacks, |acks| + j);
        if j == room || nacks[j] !in items {
          return false, |acks| + j;
        }
        SettleSnoc(before, maxAttempts, vs, |acks| + j);
        items := items[nacks[j] := Nacked(items[nacks[j]], maxAttempts)];
      }
      return true, |acks| + |nacks|;
    }
  }

  // ---------------------------------------------------------------- the collector

  /** What processing one candidate yields: at most one captured result, and whether to ack. */
  datatype Processed = Processed(captured: Option<Result>, ack: bool)

  type Processor = Candidate -> Processed

  /** The results captured for a batch, in order. */
  function CapturedBy(process: Processor, cands: seq<Candidate>): (rs: seq<Result>)
    ensures forall i :: 0 <= i < |cands| && process(cands[i]).captured.Some? ==> process(cands[i]).captured.value in rs
    ensures forall r :: r in rs ==> exists i :: 0 <= i < |cands| && process(cands[i]).captured == Some(r)
  {
    if cands == [] then []
    else
      var n := |cands| - 1;
      assert forall i :: 0 <= i < n ==> cands[..n][i] == cands[i];
      CapturedBy(process, cands[..n]) + (if process(cands[n]).captured.Some? then [process(cands[n]).captured.value] else [])
  }

  /** The leases of a batch that get the given verdict, in order. */
  function LeasesWith(process: Processor, cands: seq<Candidate>, ack: bool): (ids: seq<nat>)
    ensures forall id :: id in ids <==> exists i :: 0 <= i < |cands| && cands[i].leaseId == id && process(cands[i]).ack == ack
  {
    if cands == [] then []
    else
      var n := |cands| - 1;
      assert forall i :: 0 <= i < n ==> cands[..n][i] == cands[i];
      LeasesWith(process, cands[..n], ack) + (if process(cands[n]).ack == ack then [cands[n].leaseId] else [])
  }

  /** The gateway's row shows the last of these results for the enrollment. */
  ghost predicate Shows(results: Results, rs: seq<Result>, e: string) {
    && LastFor(rs, e).Some? && e in results
    && results[e] == Shown(LastFor(rs, e).value, results[e].secretHash, results[e].readCount)
  }

  /** The gateway shows what this cycle captured for the candidate's enrollment. */
  ghost predicate ResultsStored(process: Processor, batch: seq<Candidate>, c: Candidate, results: Results) {
    process(c).captured.Some? ==> Shows(results, CapturedBy(process, batch), process(c).captured.value.enrollmentId)
  }

  /** Whatever left the queue was acked by this batch, and its results are stored. */
  ghost predicate OnlyDeliveredLeft(before: Items, after: Items, batch: seq<Candidate>, process: Processor, results: Results) {
    forall id :: id in before && id !in after ==> exists c :: AckedIn(batch, process, id, c) && ResultsStored(process, batch, c, results)
  }

  ghost predicate AckedIn(batch: seq<Candidate>, process: Processor, id: nat, c: Candidate) {
    c in batch && c.leaseId == id && process(c).ack
  }

  lemma BatchStored(process: Processor, batch: seq<Candidate>, results: Results)
    requires forall e :: LastFor(CapturedBy(process, batch), e).Some? ==> Shows(results, CapturedBy(process, batch), e)
    ensures forall c :: c in batch ==> ResultsStored(process, batch, c, results)
  {
    var rs := CapturedBy(process, batch);
    forall c | c in batch && process(c).captured.Some? ensures Shows(results, rs, process(c).captured.value.enrollmentId) {
      var i :| 0 <= i < |batch| && batch[i] == c;
      var j :| 0 <= j < |rs| && rs[j] == process(batch[i]).captured.value;
      assert Mentions(rs, rs[j].enrollmentId);
      LastForListed(rs, rs[j].enrollmentId);
    }
  }

  /** Where no two results of a batch are for the same enrollment, the row shows the very result captured. */
  lemma OnlyResultIsLast(rs: seq<Result>, r: Result)
    requires r in rs && forall i, j :: 0 <= i < j < |rs| ==> rs[i].enrollmentId != rs[j].enrollmentId
    ensures LastFor(rs, r.enrollmentId) == Some(r)
  {
    var k :| 0 <= k < |rs| && rs[k] == r;
    assert Mentions(rs, r.enrollmentId);
    LastForListed(rs, r.enrollmentId);
  }

  // ---------------------------------------------------------------- the verdicts of a batch

  ghost predicate RisingLeases(cands: seq<Candidate>) {
    forall i, j :: 0 <= i < j < |cands| ==> cands[i].leaseId < cands[j].leaseId
  }

  function VerdictsOn(process: Processor, cands: seq<Candidate>): (vs: seq<Verdict>)
    ensures |vs| == |cands|
  {
    LeasesSplit(process, cands);
    Verdicts(LeasesWith(process, cands, true), LeasesWith(process, cands, false))
  }

  lemma {:induction false} LeasesSplit(process: Processor, cands: seq<Candidate>)
    ensures |LeasesWith(process, cands, true)| + |LeasesWith(process, cands, false)| == |cands|
  {
    if cands != [] {
      LeasesSplit(process, cands[..|cands| - 1]);
    }
  }

  lemma {:induction false} LeasesRise(process: Processor, cands: seq<Candidate>, ack: bool)
    requires RisingLeases(cands)
    ensures Rising(LeasesWith(process, cands, ack))
  {
    if cands != [] {
      var n := |cands| - 1;
      var init := LeasesWith(process, cands[..n], ack);
      LeasesRise(process, cands[..n], ack);
      forall i | 0 <= i < |init| ensures init[i] < cands[n].leaseId {
        assert init[i] in init;
        var k :| 0 <= k < n && cands[..n][k].leaseId == init[i];
        assert cands[k].leaseId == init[i];
      }
      assert LeasesWith(process, cands, ack) == init + if process(cands[n]).ack == ack then [cands[n].leaseId] else [];
    }
  }

  ghost predicate Rising(ids: seq<nat>) {
    forall i, j :: 0 <= i < j < |ids| ==> ids[i] < ids[j]
  }

  lemma LeasesApart(process: Processor, cands: seq<Candidate>, id: nat)
    requires RisingLeases(cands) && id in LeasesWith(process, cands, true)
    ensures id !in LeasesWith(process, cands, false)
  {
  }

  lemma OneVerdictEach(process: Processor, cands: seq<Candidate>)
    requires RisingLeases(cands)
    ensures OneEach(VerdictsOn(process, cands))
  {
    var acks, nacks := LeasesWith(process, cands, true), LeasesWith(process, cands, false);
    LeasesRise(process, cands, true);
    LeasesRise(process, cands, false);
    forall i | 0 <= i < |acks| ensures acks[i] !in nacks {
      LeasesApart(process, cands, acks[i]);
    }
    OneEachOf(acks, nacks);
  }

  lemma OneEachOf(acks: seq<nat>, nacks: seq<nat>)
    requires Rising(acks) && Rising(nacks) && forall i :: 0 <= i < |acks| ==> acks[i] !in nacks
    ensures OneEach(Verdicts(acks, nacks))
  {
    var vs := Verdicts(acks, nacks);
    forall i, j | 0 <= i < j < |vs| ensures vs[i].leaseId != vs[j].leaseId {
      if i < |acks| <= j {
        assert nacks[j - |acks|] in nacks;
      }
    }
  }

  lemma VerdictGiven(process: Processor, cands: seq<Candidate>, c: Candidate)
    requires RisingLeases(cands) && c in cands
    ensures Verdict(c.leaseId, process(c).ack) in VerdictsOn(process, cands)
    ensures Verdict(c.leaseId, !process(c).ack) !in VerdictsOn(process, cands)
  {
    var acks, nacks := LeasesWith(process, cands, true), LeasesWith(process, cands, false);
    var vs := VerdictsOn(process, cands);
    var k :| 0 <= k < |cands| && cands[k] == c;
    if process(c).ack {
      assert c.leaseId in acks;
      var i :| 0 <= i < |acks| && acks[i] == c.leaseId;
      assert vs[i] == Verdict(c.leaseId, true);
      LeasesApart(process, cands, c.leaseId);
    } else {
      assert c.leaseId in nacks;
      var i :| 0 <= i < |nacks| && nacks[i] == c.leaseId;
      assert vs[|acks| + i] == Verdict(c.leaseId, false);
      if c.leaseId in acks {
        LeasesApart(process, cands, c.leaseId);
      }
    }
  }

  /** After the whole post an acked lease is gone and a nacked one is back in line or buried. */
  lemma BatchSettled(items: Items, maxAttempts: nat, process: Processor, cands: seq<Candidate>, c: Candidate)
    requires RisingLeases(cands) && c in cands && c.leaseId in items
    ensures var after := SettleAll(items, maxAttempts, VerdictsOn(process, cands));
            if process(c).ack then c.leaseId !in after
            else c.leaseId in after && Nacks(items[c.leaseId], after[c.leaseId], maxAttempts)
  {
    var vs := VerdictsOn(process, cands);
    VerdictGiven(process, cands, c);
    OneVerdictEach(process, cands);
    SettleAllRemovesAcked(items, maxAttempts, vs, c.leaseId);
    if process(c).ack {
      var i :| 0 <= i < |vs| && vs[i] == Verdict(c.leaseId, true);
    } else {
      SettledOnce(items, maxAttempts, vs, c.leaseId);
    }
  }

  lemma NoneGone(items: Items, process: Processor, cands: seq<Candidate>, n: nat)
    requires RisingLeases(cands) && forall c :: c in cands ==> c.leaseId in items
    ensures !Gone(items, LeasesWith(process, cands, true), LeasesWith(process, cands, false), n)
  {
    var acks, nacks := LeasesWith(process, cands, true), LeasesWith(process, cands, false);
    if |acks| <= n < |acks| + |nacks| {
      var id := nacks[n - |acks|];
      assert id in nacks;
      var i :| 0 <= i < |cands| && cands[i].leaseId == id && process(cands[i]).ack == false;
      assert cands[i] in cands;
      if id in acks {
        LeasesApart(process, cands, id);
      }
    }
  }

  lemma RemovedWasAcked(items: Items, maxAttempts: nat, process: Processor, cands: seq<Candidate>, applied: nat, id: nat)
    requires applied <= |VerdictsOn(process, cands)| && id in items
    requires id !in SettleAll(items, maxAttempts, VerdictsOn(process, cands)[..applied])
    ensures exists c :: AckedIn(cands, process, id, c)
  {
    var vs, acks := VerdictsOn(process, cands), LeasesWith(process, cands, true);
    SettleAllRemovesAcked(items, maxAttempts, vs[..applied], id);
    var i :| 0 <= i < applied && vs[..applied][i] == Verdict(id, true);
    assert acks[i] == id && id in acks;
    var k :| 0 <= k < |cands| && cands[k].leaseId == id && process(cands[k]).ack == true;
    assert AckedIn(cands, process, id, cands[k]);
  }

  /** A delivery that was nacked: counted, and on offer again or, with the attempts used up, dead. */
  ghost predicate Redelivers(before: Item, after: Item, maxAttempts: nat) {
    && after.enrollmentId == before.enrollmentId && after.attempts == before.attempts + 1
    && (after.attempts >= maxAttempts ==> after.status == Dead)
    && (after.attempts < maxAttempts ==> after.status == Ready && after.leaseUntil == 0)
  }

  function Min(a: nat, b: nat): nat {
    if a < b then a else b
  }

  class Collector {
    var sink: seq<Result>

    constructor ()
      ensures sink == []
    {
      sink := [];
    }

    method Drain() returns (out: seq<Result>)
      modifies this`sink
      ensures out == old(sink) && sink == []
    {
      out := sink;
      sink := [];
    }

    method ProcessBatch(cands: seq<Candidate>, process: Processor) returns (acks: seq<nat>, nacks: seq<nat>)
      modifies this`sink
      ensures sink == CapturedBy(process, cands)
      ensures acks == LeasesWith(process, cands, true) && nacks == LeasesWith(process, cands, false)
    {
      var _ := Drain();  // anything left over from before is stale
      acks, nacks := [], [];
      for i := 0 to |cands|
        invariant sink == CapturedBy(process, cands[..i])
        invariant acks == LeasesWith(process, cands[..i], true) && nacks == LeasesWith(process, cands[..i], false)
      {
        assert cands[..i + 1][..i] == cands[..i];
        var p := process(cands[i]);
        if p.captured.Some? {
          sink := sink + [p.captured.value];
        }
        if p.ack {
          acks := acks + [cands[i].leaseId];
        } else {
          nacks := nacks + [cands[i].leaseId];
        }
      }
      assert cands[..|cands|] == cands;
    }

    /**
     One cycle against `gw`.  `claimOk` says whether the claim's answer arrives; `process(c)` what the
     processor does with candidate c; the two `failAt`s how far the gateway gets with each post and the two
     `answered`s whether its answer arrives.  The cycle succeeds exactly when everything it had to do went
     through.  No lease is acked unless every result captured for it this cycle is stored at the gateway, and
     nothing but an ack removes a lease.
     */
    method CollectOnce(gw: GatewayQueue, limit: nat, now: int, until: int, claimOk: bool, process: Processor,
                       shipFailAt: nat, shipAnswered: bool, ackFailAt: nat, ackAnswered: bool)
      returns (claimed: nat, ok: bool, ghost batch: seq<Candidate>, ghost bound: nat)
      requires gw.Valid()
      modifies this`sink, gw`items, gw`results
      ensures gw.Valid() && Picks(old(gw.items), gw.next, limit, now, bound, batch)
      ensures claimed == if claimOk then |batch| else 0
      ensures var captured := CapturedBy(process, batch);
              var shipped := captured == [] || (shipFailAt >= |captured| && shipAnswered);
              && (ok <==> claimOk && (batch == [] || (shipped && ackFailAt >= |batch| && ackAnswered)))
              && gw.results == (if claimOk then PutAll(old(gw.results), captured[..Min(shipFailAt, |captured|)]) else old(gw.results))
              && gw.items == SettleAll(Claimed(old(gw.items), now, until, bound), gw.maxAttempts,
                                       if claimOk && shipped then VerdictsOn(process, batch)[..Min(ackFailAt, |batch|)] else [])
      ensures OnlyDeliveredLeft(old(gw.items), gw.items, batch, process, gw.results)
      ensures ok ==> forall c :: c in batch ==>
                && ResultsStored(process, batch, c, gw.results)
                && if process(c).ack then c.leaseId !in gw.items
                   else c.leaseId in gw.items && Redelivers(old(gw.items)[c.leaseId], gw.items[c.leaseId], gw.maxAttempts)
    {
      var cands;
      cands, bound := gw.Claim(limit, now, until);
      batch := cands;
      if !claimOk {
        return 0, false, batch, bound;
      }
      if |cands| == 0 {
        return 0, true, batch, bound;
      }
      var acks, nacks := ProcessBatch(cands, process);
      var results := Drain();
      LeasesSplit(process, cands);
      var shipped := Ship(gw, results, shipFailAt, shipAnswered);
      if !shipped {
        return |cands|, false, batch, bound;
      }
      BatchStored(process, cands, gw.results);
      ok := Finish(gw, cands, process, acks, nacks, ackFailAt);
      return |cands|, ok && ackAnswered, batch, bound;
    }

    /** The results post, skipped when there is nothing to ship. */
    method Ship(gw: GatewayQueue, results: seq<Result>, failAt: nat, answered: bool) returns (ok: bool)
      modifies gw`results
      ensures ok <==> results == [] || (failAt >= |results| && answered)
      ensures gw.results == PutAll(old(gw.results), results[..Min(failAt, |results|)])
      ensures ok ==> forall e :: LastFor(results, e).Some? ==> Shows(gw.results, results, e)
    {
      if |results| == 0 {
        return true;
      }
      ghost var before := gw.results;
      var stored := gw.HandleResults(results, failAt);
      assert results[..|results|] == results;
      if stored {
        forall e | LastFor(results, e).Some? ensures Shows(gw.results, results, e) {
          LastWriteWins(before, results, e);
        }
      }
      return stored && answered;
    }

    /** The ack post: removes leases of acked candidates only, and settles all of them if it goes through. */
    method Finish(gw: GatewayQueue, cands: seq<Candidate>, process: Processor, acks: seq<nat>, nacks: seq<nat>, failAt: nat)
      returns (ok: bool)
      requires gw.Valid() && RisingLeases(cands) && forall c :: c in cands ==> c.leaseId in gw.items
      requires acks == LeasesWith(process, cands, true) && nacks == LeasesWith(process, cands, false)
      modifies gw`items
      ensures gw.Valid() && (ok <==> failAt >= |cands|)
      ensures gw.items == SettleAll(old(gw.items), gw.maxAttempts, VerdictsOn(process, cands)[..Min(failAt, |cands|)])
      ensures forall id :: id in old(gw.items) && id !in gw.items ==> exists c :: AckedIn(cands, process, id, c)
      ensures ok ==> forall c :: c in cands ==>
                if process(c).ack then c.leaseId !in gw.items
                else c.leaseId in gw.items && Nacks(old(gw.items)[c.leaseId], gw.items[c.leaseId], gw.maxAttempts)
    {
      ghost var before, vs := gw.items, VerdictsOn(process, cands);
      ghost var applied;
      LeasesSplit(process, cands);
      forall n: nat ensures !Gone(before, acks, nacks, n) {
        NoneGone(before, process, cands, n);
      }
      ok, applied := gw.HandleAck(acks, nacks, failAt);
      forall id | id in before && id !in gw.items ensures exists c :: AckedIn(cands, process, id, c) {
        RemovedWasAcked(before, gw.maxAttempts, process, cands, applied, id);
      }
      if ok {
        assert vs[..applied] == vs;
        forall c | c in cands
          ensures if process(c).ack then c.leaseId !in gw.items
                  else c.leaseId in gw.items && Nacks(before[c.leaseId], gw.items[c.leaseId], gw.maxAttempts)
        {
          BatchSettled(before, gw.maxAttempts, process, cands, c);
        }
      }
    }
  }
}
