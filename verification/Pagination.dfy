/**
 Listing devices a page at a time.  A page walks the heartbeat table by overlay address with several queries,
 filters the rows by scope outside the query, and hands back the last address as the next page's cursor.  The
 table may change between any two queries: `db(n)` is what the n-th query sees.
 */
module Pagination {
  import opened Text
  import opened Wildcards

  /** Address to row; `overlay_ip` is unique. */
  type Table = map<string, string>

  datatype Row = Row(overlayIp: string, data: string)

  /** An empty cursor means from the beginning. */
  predicate Past(cursor: string, ip: string) {
    cursor == "" || Less(cursor, ip)
  }

  ghost predicate Rising(rows: seq<Row>) {
    forall i, j :: 0 <= i < j < |rows| ==> Less(rows[i].overlayIp, rows[j].overlayIp)
  }

  ghost predicate Lists(rows: seq<Row>, ip: string) {
    exists i :: 0 <= i < |rows| && rows[i].overlayIp == ip
  }

  ghost predicate Selected(t: Table, sel: string -> bool, ip: string) {
    ip in t && sel(t[ip])
  }

  // ---------------------------------------------------------------- order

  lemma LessLeq(a: string, b: string, c: string)
    requires (Less(a, b) && Leq(b, c)) || (Leq(a, b) && Less(b, c))
    ensures Less(a, c)
  {
    LessTransitive(a, b, c);
  }

  lemma NotLess(a: string, b: string)
    ensures Less(a, b) <==> !Leq(b, a)
  {
    LeqTotal(a, b);
    if Leq(a, b) && Leq(b, a) {
      LeqAntisymmetric(a, b);
    }
  }

  lemma LessNonEmpty(a: string, b: string)
    requires Less(a, b)
    ensures b != ""
  {
  }

  // ---------------------------------------------------------------- one query

  /** The first `limit` selected rows past the cursor, in order. */
  ghost predicate Answers(t: Table, sel: string -> bool, cursor: string, limit: nat, rows: seq<Row>) {
    && |rows| <= limit && Rising(rows)
    && (forall i :: 0 <= i < |rows| ==>
          && Selected(t, sel, rows[i].overlayIp) && Past(cursor, rows[i].overlayIp)
          && rows[i].data == t[rows[i].overlayIp])
    && (forall ip :: Selected(t, sel, ip) && Past(cursor, ip) && !Beyond(rows, limit, ip) ==> Lists(rows, ip))
  }

  /** Cut off by the limit. */
  ghost predicate Beyond(rows: seq<Row>, limit: nat, ip: string) {
    |rows| == limit && (rows != [] ==> Less(rows[|rows| - 1].overlayIp, ip))
  }

  method Smallest(ips: set<string>) returns (m: string)
    requires ips != {}
    ensures m in ips && forall ip :: ip in ips ==> Leq(m, ip)
  {
    m :| m in ips;
    LeqTotal(m, m);
    var rest := ips - {m};
    while rest != {}
      invariant m in ips && rest <= ips && forall ip :: ip in ips && ip !in rest ==> Leq(m, ip)
      decreases rest
    {
      var ip :| ip in rest;
      if Less(ip, m) {
        forall j | j in ips && j !in rest ensures Leq(ip, j) {
          LeqTransitive(ip, m, j);
        }
        m := ip;
        LeqTotal(m, m);
      } else {
        NotLess(ip, m);
      }
      rest := rest - {ip};
    }
  }

  method Query(t: Table, sel: string -> bool, cursor: string, limit: nat) returns (rows: seq<Row>)
    ensures Answers(t, sel, cursor, limit, rows)
  {
    var left := set ip | ip in t && sel(t[ip]) && Past(cursor, ip);
    rows := [];
    while left != {} && |rows| < limit
      invariant |rows| <= limit && Rising(rows)
      invariant forall i :: 0 <= i < |rows| ==> Selected(t, sel, rows[i].overlayIp) && Past(cursor, rows[i].overlayIp)
                                                && rows[i].data == t[rows[i].overlayIp]
      invariant forall ip :: ip in left ==> Selected(t, sel, ip) && Past(cursor, ip)
      invariant forall ip, i :: ip in left && 0 <= i < |rows| ==> Less(rows[i].overlayIp, ip)
      invariant forall ip :: Selected(t, sel, ip) && Past(cursor, ip) && ip !in left ==> Lists(rows, ip)
      decreases left
    {
      var m := Smallest(left);
      ListsSnoc(rows, Row(m, t[m]));
      forall ip | ip in left && ip != m ensures Less(m, ip) {
      }
      rows := rows + [Row(m, t[m])];
      left := left - {m};
    }
  }

  lemma ListsSnoc(rows: seq<Row>, r: Row)
    ensures forall ip :: Lists(rows + [r], ip) <==> Lists(rows, ip) || ip == r.overlayIp
  {
    forall ip ensures Lists(rows + [r], ip) <==> Lists(rows, ip) || ip == r.overlayIp {
      if Lists(rows, ip) {
        var i :| 0 <= i < |rows| && rows[i].overlayIp == ip;
        assert (rows + [r])[i].overlayIp == ip;
      }
      assert (rows + [r])[|rows|] == r;
    }
  }

  // ---------------------------------------------------------------- one page

  predicate Allowed(scope: Option<set<string>>, ip: string) {
    scope.Some? ==> ip in scope.value
  }

  /** Selected by every query from `lo` up to `hi`. */
  ghost predicate Steady(db: nat -> Table, sel: string -> bool, lo: nat, hi: nat, ip: string) {
    forall n: nat :: lo <= n < hi ==> Selected(db(n), sel, ip)
  }

  ghost predicate Seen(db: nat -> Table, sel: string -> bool, lo: nat, hi: nat, r: Row) {
    exists n: nat :: lo <= n < hi && Selected(db(n), sel, r.overlayIp) && r.data == db(n)[r.overlayIp]
  }

  /** A page asked for with cursor `after`, answered with queries `lo` up to `hi`. */
  datatype Page = Page(after: string, scope: Option<set<string>>, lo: nat, hi: nat, kept: seq<Row>, next: Option<string>)

  ghost predicate Reaches(next: Option<string>, ip: string) {
    next.Some? ==> Leq(ip, next.value)
  }

  ghost predicate Sound(db: nat -> Table, sel: string -> bool, p: Page) {
    && Rising(p.kept)
    && forall i :: 0 <= i < |p.kept| ==>
         && Past(p.after, p.kept[i].overlayIp) && Allowed(p.scope, p.kept[i].overlayIp)
         && Seen(db, sel, p.lo, p.hi, p.kept[i])
  }

  ghost predicate Complete(db: nat -> Table, sel: string -> bool, p: Page) {
    forall ip :: Past(p.after, ip) && Reaches(p.next, ip) && Allowed(p.scope, ip) && Steady(db, sel, p.lo, p.hi, ip)
                 ==> Lists(p.kept, ip)
  }

  ghost predicate NextIsLast(limit: nat, p: Page) {
    && |p.kept| <= limit && (p.next.Some? <==> |p.kept| == limit)
    && (p.next.Some? ==> p.kept != [] && p.next.value == p.kept[|p.kept| - 1].overlayIp)
  }

  ghost predicate PageOk(db: nat -> Table, sel: string -> bool, limit: nat, p: Page) {
    Sound(db, sel, p) && Complete(db, sel, p) && NextIsLast(limit, p)
  }

  /** The rows whose address is in scope, in order. */
  function InScope(rows: seq<Row>, scope: Option<set<string>>): (out: seq<Row>)
    ensures forall r :: r in out <==> r in rows && Allowed(scope, r.overlayIp)
  {
    if rows == [] then []
    else
      var init, last := rows[..|rows| - 1], rows[|rows| - 1];
      assert rows == init + [last];
      InScope(init, scope) + (if Allowed(scope, last.overlayIp) then [last] else [])
  }

  lemma TakeOne(had: seq<Row>, rows: seq<Row>, j: nat, scope: Option<set<string>>)
    requires j < |rows|
    ensures had + InScope(rows[..j + 1], scope)
            == had + InScope(rows[..j], scope) + (if Allowed(scope, rows[j].overlayIp) then [rows[j]] else [])
  {
    assert rows[..j + 1][..j] == rows[..j];
  }

  /** Keeps the rows in scope until the page is full; `j` rows were looked at. */
  method Take(rows: seq<Row>, scope: Option<set<string>>, had: seq<Row>, limit: nat) returns (kept: seq<Row>, j: nat)
    requires |had| < limit
    ensures j <= |rows| && |kept| <= limit && kept == had + InScope(rows[..j], scope)
    ensures |kept| < limit ==> j == |rows|
    ensures |kept| == limit ==> j > 0 && kept[limit - 1] == rows[j - 1]
  {
    kept := had;
    j := 0;
    assert had + InScope(rows[..0], scope) == had;
    while j < |rows| && |kept| < limit
      invariant j <= |rows| && |kept| <= limit && kept == had + InScope(rows[..j], scope)
      invariant |kept| == limit ==> j > 0 && kept[limit - 1] == rows[j - 1]
    {
      TakeOne(had, rows, j, scope);
      if Allowed(scope, rows[j].overlayIp) {
        kept := kept + [rows[j]];
      }
      j := j + 1;
    }
  }

  lemma {:induction false} InScopeRises(rows: seq<Row>, scope: Option<set<string>>)
    requires Rising(rows)
    ensures Rising(InScope(rows, scope))
  {
    if rows != [] {
      var init, last := rows[..|rows| - 1], rows[|rows| - 1];
      InScopeRises(init, scope);
      forall r | r in init ensures Less(r.overlayIp, last.overlayIp) {
        var i :| 0 <= i < |init| && init[i] == r;
        assert rows[i] == r;
      }
      RisingConcat(InScope(init, scope), if Allowed(scope, last.overlayIp) then [last] else []);
    }
  }

  lemma RisingConcat(a: seq<Row>, b: seq<Row>)
    requires Rising(a) && Rising(b) && forall x, y :: x in a && y in b ==> Less(x.overlayIp, y.overlayIp)
    ensures Rising(a + b)
  {
    forall i, j | 0 <= i < j < |a + b| ensures Less((a + b)[i].overlayIp, (a + b)[j].overlayIp) {
      if i < |a| <= j {
        assert a[i] in a && b[j - |a|] in b;
      }
    }
  }

  /** What the walk knows at a cursor: everything up to it has been dealt with. */
  ghost predicate Walked(db: nat -> Table, sel: string -> bool, p: Page, cursor: string) {
    && Sound(db, sel, p)
    && (forall i :: 0 <= i < |p.kept| ==> cursor != "" && Leq(p.kept[i].overlayIp, cursor))
    && (p.after != "" ==> cursor != "" && Leq(p.after, cursor))
    && forall ip :: Past(p.after, ip) && !Past(cursor, ip) && Allowed(p.scope, ip) && Steady(db, sel, p.lo, p.hi, ip)
                    ==> Lists(p.kept, ip)
  }

  /**
   One page.  The walk ends unless the page holds one row, starts at the beginning, and finds a selected row at
   the empty address that is out of scope.
   */
  method ListPage(db: nat -> Table, sel: string -> bool, scope: Option<set<string>>, after: string, limit: nat, lo: nat,
                  ghost universe: set<string>)
    returns (p: Page)
    requires limit >= 1
    requires forall n: nat :: db(n).Keys <= universe
    requires scope != Some({}) ==> !Stalls(db, sel, Page(after, scope, lo, lo, [], None), after, limit)
    ensures PageOk(db, sel, limit, p)
    ensures p.after == after && p.scope == scope && p.lo == lo <= p.hi
    ensures limit > 1 || after != "" ==> p.next != Some("")
    ensures forall i :: 0 <= i < |p.kept| ==>
              && (scope == None || p.kept[i].overlayIp in scope.value)
              && WasRead(db, sel, lo, p.hi, p.kept[i])
  {
    p := Page(after, scope, lo, lo, [], None);
    if scope == Some({}) {
      return;
    }
    var cursor, done := after, false;
    LeqTotal(after, after);
    while !done
      invariant p.after == after && p.scope == scope && p.lo == lo <= p.hi
      invariant !done ==> Walking(db, sel, limit, p, cursor) && !Stalls(db, sel, p, cursor, limit)
      invariant done ==> PageOk(db, sel, limit, p)
      decreases if done then 0 else 1, AheadOf(universe, cursor)
    {
      p, cursor, done := WalkOn(db, sel, p, cursor, limit, universe);
    }
    if limit > 1 || after != "" {
      NextIsNonEmpty(db, sel, limit, p);
    }
    RowsWereRead(db, sel, p);
  }

  /** Some query of the page found the row in the table as returned, and it passes the filters. */
  ghost predicate WasRead(db: nat -> Table, sel: string -> bool, lo: nat, hi: nat, r: Row) {
    exists n: nat :: lo <= n < hi && r.overlayIp in db(n) && db(n)[r.overlayIp] == r.data && sel(r.data)
  }

  lemma RowsWereRead(db: nat -> Table, sel: string -> bool, p: Page)
    requires Sound(db, sel, p)
    ensures forall i :: 0 <= i < |p.kept| ==>
              && (p.scope == None || p.kept[i].overlayIp in p.scope.value)
              && WasRead(db, sel, p.lo, p.hi, p.kept[i])
  {
    forall i | 0 <= i < |p.kept| ensures WasRead(db, sel, p.lo, p.hi, p.kept[i]) {
      assert Seen(db, sel, p.lo, p.hi, p.kept[i]);
    }
  }

  lemma NextIsNonEmpty(db: nat -> Table, sel: string -> bool, limit: nat, p: Page)
    requires PageOk(db, sel, limit, p) && (limit > 1 || p.after != "")
    ensures p.next != Some("")
  {
    if p.next.Some? {
      if limit > 1 {
        LessNonEmpty(p.kept[0].overlayIp, p.next.value);
      } else {
        LessNonEmpty(p.after, p.next.value);
      }
    }
  }

  ghost predicate Walking(db: nat -> Table, sel: string -> bool, limit: nat, p: Page, cursor: string) {
    p.next == None && p.lo <= p.hi && |p.kept| < limit && Walked(db, sel, p, cursor)
  }

  ghost function AheadOf(universe: set<string>, cursor: string): set<string> {
    set ip | ip in universe && Past(cursor, ip)
  }

  /** The next round finds a row at the empty address, the page has room for no other, and it is out of scope. */
  ghost predicate Stalls(db: nat -> Table, sel: string -> bool, p: Page, cursor: string, limit: nat) {
    limit == 1 && cursor == "" && Selected(db(p.hi), sel, "") && !Allowed(p.scope, "")
  }

  /** One round of the walk: query, filter, and decide whether to go on. */
  ghost predicate Round(db: nat -> Table, sel: string -> bool, limit: nat, p: Page, cursor: string, p': Page, cursor': string,
                        done: bool) {
    exists rows, j :: RoundWith(db, sel, limit, p, cursor, rows, j, p', cursor', done)
  }

  ghost predicate RoundWith(db: nat -> Table, sel: string -> bool, limit: nat, p: Page, cursor: string, rows: seq<Row>, j: int,
                            p': Page, cursor': string, done: bool) {
    && Answers(db(p.hi), sel, cursor, limit, rows)
    && p'.after == p.after && p'.scope == p.scope && p'.lo == p.lo && p'.hi == p.hi + 1
    && 0 <= j <= |rows| && p'.kept == p.kept + InScope(rows[..j], p.scope) && (|p'.kept| < limit ==> j == |rows|)
    && (done <==> |p'.kept| == limit || |rows| < limit)
    && (!done ==> rows != [] && cursor' == rows[|rows| - 1].overlayIp)
  }

  method WalkOn(db: nat -> Table, sel: string -> bool, p: Page, cursor: string, limit: nat, ghost universe: set<string>)
    returns (p': Page, cursor': string, done: bool)
    requires limit >= 1 && Walking(db, sel, limit, p, cursor)
    requires forall n: nat :: db(n).Keys <= universe
    ensures p'.after == p.after && p'.scope == p.scope && p'.lo == p.lo && p'.hi == p.hi + 1
    ensures Round(db, sel, limit, p, cursor, p', cursor', done)
    ensures done ==> PageOk(db, sel, limit, p')
    ensures !done && !Stalls(db, sel, p, cursor, limit) ==>
              Walking(db, sel, limit, p', cursor') && cursor' != "" && AheadOf(universe, cursor') < AheadOf(universe, cursor)
  {
    var rows := Query(db(p.hi), sel, cursor, limit);
    var kept, j := Take(rows, p.scope, p.kept, limit);
    done := |kept| == limit || |rows| < limit;
    p' := p.(hi := p.hi + 1, kept := kept, next := if |kept| == limit then Some(kept[limit - 1].overlayIp) else None);
    cursor' := if done then cursor else rows[|rows| - 1].overlayIp;
    WentOn(db, sel, p, cursor, limit, rows, j, p', cursor', done, universe);
  }

  lemma WentOn(db: nat -> Table, sel: string -> bool, p: Page, cursor: string, limit: nat, rows: seq<Row>, j: nat, p': Page,
               cursor': string, done: bool, universe: set<string>)
    requires limit >= 1 && Walking(db, sel, limit, p, cursor) && (forall n: nat :: db(n).Keys <= universe)
    requires Answers(db(p.hi), sel, cursor, limit, rows) && j <= |rows|
    requires p'.kept == p.kept + InScope(rows[..j], p.scope) && |p'.kept| <= limit
    requires |p'.kept| < limit ==> j == |rows|
    requires |p'.kept| == limit ==> j > 0 && p'.kept[limit - 1] == rows[j - 1]
    requires p' == p.(hi := p.hi + 1, kept := p'.kept, next := p'.next)
    requires p'.next == if |p'.kept| == limit then Some(p'.kept[limit - 1].overlayIp) else None
    requires done == (|p'.kept| == limit || |rows| < limit) && (!done ==> cursor' == rows[limit - 1].overlayIp)
    ensures Round(db, sel, limit, p, cursor, p', cursor', done)
    ensures done ==> PageOk(db, sel, limit, p')
    ensures !done && !Stalls(db, sel, p, cursor, limit) ==>
              Walking(db, sel, limit, p', cursor') && cursor' != "" && AheadOf(universe, cursor') < AheadOf(universe, cursor)
  {
    assert RoundWith(db, sel, limit, p, cursor, rows, j, p', cursor', done);
    var grown := p.(hi := p.hi + 1, kept := p'.kept);
    Outcome(db, sel, p, cursor, limit, rows, j, grown, universe);
    assert |p'.kept| < limit ==> p' == grown;
    assert |p'.kept| == limit ==> p' == grown.(next := p'.next);
  }

  lemma Outcome(db: nat -> Table, sel: string -> bool, p: Page, cursor: string, limit: nat, rows: seq<Row>, j: nat, p': Page,
                universe: set<string>)
    requires limit >= 1 && Walking(db, sel, limit, p, cursor) && (forall n: nat :: db(n).Keys <= universe)
    requires Answers(db(p.hi), sel, cursor, limit, rows) && j <= |rows|
    requires p' == p.(hi := p.hi + 1, kept := p.kept + InScope(rows[..j], p.scope)) && |p'.kept| <= limit
    requires |p'.kept| < limit ==> j == |rows|
    requires |p'.kept| == limit ==> j > 0 && p'.kept[limit - 1] == rows[j - 1]
    ensures |p'.kept| == limit ==> PageOk(db, sel, limit, p'.(next := Some(p'.kept[limit - 1].overlayIp)))
    ensures |p'.kept| < limit && |rows| < limit ==> PageOk(db, sel, limit, p')
    ensures |p'.kept| < limit == |rows| && !Stalls(db, sel, p, cursor, limit) ==>
              var c := rows[limit - 1].overlayIp;
              Walking(db, sel, limit, p', c) && c != "" && AheadOf(universe, c) < AheadOf(universe, cursor)
  {
    RowsFollow(db, sel, p, cursor, limit, rows);
    PageGrows(db, sel, p, cursor, limit, rows, j, p');
    StillSound(db, sel, p, cursor, limit, rows, j, p');
    if |p'.kept| == limit {
      FullPage(db, sel, p, cursor, limit, rows, j, p'.(next := Some(p'.kept[limit - 1].overlayIp)));
    } else if |rows| < limit {
      LastPage(db, sel, p, cursor, limit, rows, p');
    } else if !Stalls(db, sel, p, cursor, limit) {
      CursorAdvances(db, sel, p, cursor, limit, rows, p', universe);
    }
  }

  /**
   Exactly when a round makes no progress: it goes on with the cursor it had if and only if the next row is at
   the empty address, out of scope, and all the page has room for.  Nothing has been kept either, so as long as
   the row stays, every later round is the same.
   */
  lemma StallsExactly(db: nat -> Table, sel: string -> bool, limit: nat, p: Page, cursor: string, p': Page, cursor': string,
                      done: bool)
    requires limit >= 1 && Walking(db, sel, limit, p, cursor) && Round(db, sel, limit, p, cursor, p', cursor', done)
    ensures !done && cursor' == cursor <==> Stalls(db, sel, p, cursor, limit)
    ensures Stalls(db, sel, p, cursor, limit) ==> p'.kept == p.kept
  {
    var rows: seq<Row>, j: int :| RoundWith(db, sel, limit, p, cursor, rows, j, p', cursor', done);
    if Stalls(db, sel, p, cursor, limit) {
      EmptyAddressStalls(db(p.hi), sel, rows);
      OutOfScope(rows[..j], p.scope);
    }
    if !done && cursor' == cursor {
      NoProgress(db, sel, limit, p, cursor, rows);
    }
  }

  lemma NoProgress(db: nat -> Table, sel: string -> bool, limit: nat, p: Page, cursor: string, rows: seq<Row>)
    requires Answers(db(p.hi), sel, cursor, limit, rows) && rows != [] && cursor == rows[|rows| - 1].overlayIp
    requires |p.kept + InScope(rows[..|rows|], p.scope)| < limit == |rows|
    ensures Stalls(db, sel, p, cursor, limit)
  {
    var last := rows[|rows| - 1];
    assert rows[..|rows|] == rows && Past(cursor, last.overlayIp) && Selected(db(p.hi), sel, last.overlayIp);
    assert |rows| > 1 ==> Less(rows[0].overlayIp, last.overlayIp);
    assert Allowed(p.scope, last.overlayIp) ==> last in InScope(rows, p.scope);
  }

  lemma {:induction false} OutOfScope(rows: seq<Row>, scope: Option<set<string>>)
    requires forall r :: r in rows ==> !Allowed(scope, r.overlayIp)
    ensures InScope(rows, scope) == []
  {
    if rows != [] {
      OutOfScope(rows[..|rows| - 1], scope);
    }
  }

  /** With room for one row, a row at the empty address is the whole answer. */
  lemma EmptyAddressStalls(t: Table, sel: string -> bool, rows: seq<Row>)
    requires Selected(t, sel, "") && Answers(t, sel, "", 1, rows)
    ensures rows == [Row("", t[""])]
  {
    if rows != [] {
      NotLess(rows[0].overlayIp, "");
    }
    assert !Beyond(rows, 1, "");
  }

  lemma RowsFollow(db: nat -> Table, sel: string -> bool, p: Page, cursor: string, limit: nat, rows: seq<Row>)
    requires Walked(db, sel, p, cursor) && Answers(db(p.hi), sel, cursor, limit, rows)
    ensures forall i, k :: 0 <= i < |p.kept| && 0 <= k < |rows| ==> Less(p.kept[i].overlayIp, rows[k].overlayIp)
  {
    forall i, k | 0 <= i < |p.kept| && 0 <= k < |rows| ensures Less(p.kept[i].overlayIp, rows[k].overlayIp) {
      LessLeq(p.kept[i].overlayIp, cursor, rows[k].overlayIp);
    }
  }

  /** How a page grows by one query of which `j` rows were looked at. */
  ghost predicate Grows(db: nat -> Table, sel: string -> bool, p: Page, cursor: string, limit: nat, rows: seq<Row>, j: nat, p': Page) {
    && Walked(db, sel, p, cursor) && Answers(db(p.hi), sel, cursor, limit, rows) && j <= |rows| && p.lo <= p.hi
    && p'.after == p.after && p'.scope == p.scope && p'.lo == p.lo && p'.hi == p.hi + 1
    && Rising(p'.kept) && p.kept <= p'.kept
    && (forall i :: |p.kept| <= i < |p'.kept| ==> p'.kept[i] in rows[..j] && Allowed(p.scope, p'.kept[i].overlayIp))
    && (forall k :: 0 <= k < j && Allowed(p.scope, rows[k].overlayIp) ==> Lists(p'.kept, rows[k].overlayIp))
  }

  lemma PageGrows(db: nat -> Table, sel: string -> bool, p: Page, cursor: string, limit: nat, rows: seq<Row>, j: nat, p': Page)
    requires Walked(db, sel, p, cursor) && Answers(db(p.hi), sel, cursor, limit, rows) && j <= |rows| && p.lo <= p.hi
    requires forall i, k :: 0 <= i < |p.kept| && 0 <= k < |rows| ==> Less(p.kept[i].overlayIp, rows[k].overlayIp)
    requires p' == p.(hi := p.hi + 1, kept := p.kept + InScope(rows[..j], p.scope))
    ensures Grows(db, sel, p, cursor, limit, rows, j, p')
  {
    KeptRises(p.kept, rows, j, p.scope);
    forall k | 0 <= k < j && Allowed(p.scope, rows[k].overlayIp) ensures Lists(p'.kept, rows[k].overlayIp) {
      KeptLists(p.kept, rows, j, p.scope, k);
    }
    forall i | |p.kept| <= i < |p'.kept| ensures p'.kept[i] in rows[..j] && Allowed(p.scope, p'.kept[i].overlayIp) {
      KeptFrom(p.kept, InScope(rows[..j], p.scope), i);
    }
  }

  lemma KeptRises(had: seq<Row>, rows: seq<Row>, j: nat, scope: Option<set<string>>)
    requires Rising(had) && Rising(rows) && j <= |rows|
    requires forall i, k :: 0 <= i < |had| && 0 <= k < |rows| ==> Less(had[i].overlayIp, rows[k].overlayIp)
    ensures Rising(had + InScope(rows[..j], scope))
  {
    PrefixRises(rows, j);
    InScopeRises(rows[..j], scope);
    forall x, y | x in had && y in InScope(rows[..j], scope) ensures Less(x.overlayIp, y.overlayIp) {
      var i := IndexIn(had, x);
      var k := IndexIn(rows[..j], y);
      assert rows[k] == y;
    }
    RisingConcat(had, InScope(rows[..j], scope));
  }

  lemma KeptLists(had: seq<Row>, rows: seq<Row>, j: nat, scope: Option<set<string>>, k: nat)
    requires k < j <= |rows| && Allowed(scope, rows[k].overlayIp)
    ensures Lists(had + InScope(rows[..j], scope), rows[k].overlayIp)
  {
    var more := InScope(rows[..j], scope);
    assert rows[..j][k] == rows[k] && rows[k] in rows[..j];
    var m := IndexIn(more, rows[k]);
    assert (had + more)[|had| + m] == rows[k];
  }

  lemma KeptFrom(had: seq<Row>, more: seq<Row>, i: nat)
    requires |had| <= i < |had + more|
    ensures (had + more)[i] in more
  {
    assert (had + more)[i] == more[i - |had|];
  }

  lemma PrefixRises(rows: seq<Row>, j: nat)
    requires Rising(rows) && j <= |rows|
    ensures Rising(rows[..j])
  {
  }

  lemma IndexIn(rows: seq<Row>, r: Row) returns (i: nat)
    requires r in rows
    ensures i < |rows| && rows[i] == r
  {
    i :| 0 <= i < |rows| && rows[i] == r;
  }

  lemma PastBoth(a: string, b: string, ip: string)
    requires a != "" ==> b != "" && Leq(a, b)
    requires Past(b, ip)
    ensures Past(a, ip)
  {
    if a != "" {
      LessLeq(a, b, ip);
    }
  }

  lemma StillSound(db: nat -> Table, sel: string -> bool, p: Page, cursor: string, limit: nat, rows: seq<Row>, j: nat, p': Page)
    requires Grows(db, sel, p, cursor, limit, rows, j, p')
    ensures Sound(db, sel, p')
  {
    forall i | 0 <= i < |p'.kept|
      ensures Past(p'.after, p'.kept[i].overlayIp) && Allowed(p'.scope, p'.kept[i].overlayIp)
      ensures Seen(db, sel, p'.lo, p'.hi, p'.kept[i])
    {
      if i < |p.kept| {
        assert p'.kept[i] == p.kept[i];
        SeenLater(db, sel, p.lo, p.hi, p.kept[i]);
      } else {
        var k :| 0 <= k < j && rows[k] == p'.kept[i];
        PastBoth(p.after, cursor, rows[k].overlayIp);
        assert Selected(db(p.hi), sel, rows[k].overlayIp);
      }
    }
  }

  lemma SeenLater(db: nat -> Table, sel: string -> bool, lo: nat, hi: nat, r: Row)
    requires Seen(db, sel, lo, hi, r)
    ensures Seen(db, sel, lo, hi + 1, r)
  {
    var n: nat :| lo <= n < hi && Selected(db(n), sel, r.overlayIp) && r.data == db(n)[r.overlayIp];
  }

  lemma ListsPrefix(a: seq<Row>, b: seq<Row>, ip: string)
    requires a <= b && Lists(a, ip)
    ensures Lists(b, ip)
  {
    var i :| 0 <= i < |a| && a[i].overlayIp == ip;
    assert b[i].overlayIp == ip;
  }

  /** An address that every query selects, and that this query's rows reach, is kept by now. */
  lemma Covered(db: nat -> Table, sel: string -> bool, p: Page, cursor: string, limit: nat, rows: seq<Row>, j: nat, p': Page,
                ip: string)
    requires Grows(db, sel, p, cursor, limit, rows, j, p')
    requires Past(p.after, ip) && Allowed(p.scope, ip) && Steady(db, sel, p'.lo, p'.hi, ip)
    requires if j == |rows| then !Beyond(rows, limit, ip) else j > 0 && Leq(ip, rows[j - 1].overlayIp)
    ensures Lists(p'.kept, ip)
  {
    assert Steady(db, sel, p.lo, p.hi, ip) && Selected(db(p.hi), sel, ip);
    if !Past(cursor, ip) {
      ListsPrefix(p.kept, p'.kept, ip);
    } else {
      if j < |rows| {
        LessLeq(ip, rows[j - 1].overlayIp, rows[|rows| - 1].overlayIp);
        NotLess(rows[|rows| - 1].overlayIp, ip);
      }
      var k :| 0 <= k < |rows| && rows[k].overlayIp == ip;
      if k >= j {
        NotLess(rows[j - 1].overlayIp, rows[k].overlayIp);
        assert false;
      }
    }
  }

  lemma FullPage(db: nat -> Table, sel: string -> bool, p: Page, cursor: string, limit: nat, rows: seq<Row>, j: nat, p': Page)
    requires Grows(db, sel, p, cursor, limit, rows, j, p') && Sound(db, sel, p')
    requires |p'.kept| == limit > 0 && j > 0 && p'.kept[limit - 1] == rows[j - 1]
    requires p'.next == Some(p'.kept[limit - 1].overlayIp)
    ensures PageOk(db, sel, limit, p')
  {
    forall ip | Past(p'.after, ip) && Reaches(p'.next, ip) && Allowed(p'.scope, ip) && Steady(db, sel, p'.lo, p'.hi, ip)
      ensures Lists(p'.kept, ip)
    {
      NotLess(rows[j - 1].overlayIp, ip);
      Covered(db, sel, p, cursor, limit, rows, j, p', ip);
    }
  }

  lemma LastPage(db: nat -> Table, sel: string -> bool, p: Page, cursor: string, limit: nat, rows: seq<Row>, p': Page)
    requires Grows(db, sel, p, cursor, limit, rows, |rows|, p') && Sound(db, sel, p')
    requires |p'.kept| < limit && |rows| < limit && p'.next == None
    ensures PageOk(db, sel, limit, p')
  {
    forall ip | Past(p'.after, ip) && Reaches(p'.next, ip) && Allowed(p'.scope, ip) && Steady(db, sel, p'.lo, p'.hi, ip)
      ensures Lists(p'.kept, ip)
    {
      Covered(db, sel, p, cursor, limit, rows, |rows|, p', ip);
    }
  }

  lemma CursorAdvances(db: nat -> Table, sel: string -> bool, p: Page, cursor: string, limit: nat, rows: seq<Row>, p': Page,
                       universe: set<string>)
    requires Grows(db, sel, p, cursor, limit, rows, |rows|, p') && Sound(db, sel, p') && |rows| == limit >= 1
    requires forall n: nat :: db(n).Keys <= universe
    requires |p'.kept| < limit && !Stalls(db, sel, p, cursor, limit)
    ensures var c := rows[limit - 1].overlayIp;
            && Walked(db, sel, p', c) && c != ""
            && AheadOf(universe, c) < AheadOf(universe, cursor)
  {
    var c := rows[limit - 1].overlayIp;
    assert Selected(db(p.hi), sel, c) && Past(cursor, c);
    CursorIsNonEmpty(db, sel, p, cursor, limit, rows, p');
    LeqTotal(c, c);
    forall i | 0 <= i < |p'.kept| ensures Leq(p'.kept[i].overlayIp, c) {
      if i < |p.kept| {
        assert p'.kept[i] == p.kept[i];
        LessLeq(p.kept[i].overlayIp, cursor, c);
      } else {
        var k :| 0 <= k < |rows| && rows[k] == p'.kept[i];
      }
    }
    if p.after != "" {
      LessLeq(p.after, cursor, c);
    }
    forall ip | Past(p'.after, ip) && !Past(c, ip) && Allowed(p'.scope, ip) && Steady(db, sel, p'.lo, p'.hi, ip)
      ensures Lists(p'.kept, ip)
    {
      Covered(db, sel, p, cursor, limit, rows, |rows|, p', ip);
    }
    Shrinks(universe, cursor, c);
  }

  lemma CursorIsNonEmpty(db: nat -> Table, sel: string -> bool, p: Page, cursor: string, limit: nat, rows: seq<Row>, p': Page)
    requires Grows(db, sel, p, cursor, limit, rows, |rows|, p') && |rows| == limit >= 1 && |p'.kept| < limit
    requires !Stalls(db, sel, p, cursor, limit)
    ensures rows[limit - 1].overlayIp != ""
  {
    var c := rows[limit - 1].overlayIp;
    assert Selected(db(p.hi), sel, c) && Past(cursor, c);
    if limit > 1 {
      LessNonEmpty(rows[0].overlayIp, c);
    } else if cursor != "" {
      LessNonEmpty(cursor, c);
    } else {
      assert Allowed(p.scope, c) ==> Lists(p'.kept, c);
      assert Lists(p'.kept, c) ==> |p'.kept| > 0;
    }
  }

  lemma Shrinks(universe: set<string>, cursor: string, c: string)
    requires c in universe && c != "" && Past(cursor, c)
    ensures AheadOf(universe, c) < AheadOf(universe, cursor)
  {
    var a, b := AheadOf(universe, c), AheadOf(universe, cursor);
    forall ip | ip in a ensures ip in b {
      PastBoth(cursor, c, ip);
    }
    assert c in b && c !in a;
  }

  // ---------------------------------------------------------------- following next_after

  /** Each page starts where the one before it stopped, and later; the walk may go on. */
  ghost predicate Walk(db: nat -> Table, sel: string -> bool, limit: nat, ps: seq<Page>) {
    && (forall i :: 0 <= i < |ps| ==> PageOk(db, sel, limit, ps[i]) && ps[i].lo <= ps[i].hi)
    && (forall i :: 0 < i < |ps| ==> ps[i - 1].next == Some(ps[i].after) && ps[i - 1].hi <= ps[i].lo)
  }

  /** A walk from the beginning whose last page says there is no more. */
  ghost predicate Traversal(db: nat -> Table, sel: string -> bool, limit: nat, ps: seq<Page>) {
    Walk(db, sel, limit, ps) && ps != [] && ps[0].after == "" && ps[|ps| - 1].next == None
  }

  /** The cursor a page hands on sends the client back to the beginning. */
  predicate StartsOver(p: Page) {
    p.next == Some("")
  }

  /** Exactly when: the page has size one and its row is at the empty address. */
  lemma StartsOverExactly(db: nat -> Table, sel: string -> bool, limit: nat, p: Page)
    requires PageOk(db, sel, limit, p)
    ensures StartsOver(p) <==> limit == 1 && p.kept != [] && p.kept[0].overlayIp == ""
    ensures StartsOver(p) ==> p.after == ""
  {
    if StartsOver(p) && (limit > 1 || p.after != "") {
      NextIsNonEmpty(db, sel, limit, p);
    }
  }

  /** Away from the beginning, cursors rise. */
  lemma {:induction false} CursorsRise(db: nat -> Table, sel: string -> bool, limit: nat, ps: seq<Page>, i: nat, j: nat)
    requires Walk(db, sel, limit, ps) && i <= j < |ps| && ps[i].after != ""
    ensures ps[j].after != "" && Leq(ps[i].after, ps[j].after)
    decreases j - i
  {
    LeqTotal(ps[i].after, ps[i].after);
    if i < j {
      CursorsRise(db, sel, limit, ps, i, j - 1);
      var q := ps[j - 1];
      assert PageOk(db, sel, limit, q) && q.next == Some(ps[j].after) && NextIsLast(limit, q);
      assert Past(q.after, q.kept[|q.kept| - 1].overlayIp);
      LessNonEmpty(q.after, ps[j].after);
      LeqTransitive(ps[i].after, q.after, ps[j].after);
    }
  }

  lemma UpToNext(db: nat -> Table, sel: string -> bool, limit: nat, p: Page, m: nat)
    requires PageOk(db, sel, limit, p) && p.next.Some? && m < |p.kept|
    ensures Leq(p.kept[m].overlayIp, p.next.value)
  {
    LeqTotal(p.next.value, p.next.value);
  }

  lemma LaterIsLess(db: nat -> Table, sel: string -> bool, limit: nat, ps: seq<Page>, i: nat, j: nat, m: nat, n: nat)
    requires Walk(db, sel, limit, ps) && i < j < |ps| && m < |ps[i].kept| && n < |ps[j].kept| && ps[i + 1].after != ""
    ensures Less(ps[i].kept[m].overlayIp, ps[j].kept[n].overlayIp)
  {
    var p, q := ps[i], ps[j];
    var cut := ps[i + 1].after;
    assert ps[i + 1 - 1].next == Some(cut);
    UpToNext(db, sel, limit, p, m);
    CursorsRise(db, sel, limit, ps, i + 1, j);
    LeqTransitive(p.kept[m].overlayIp, cut, q.after);
    assert PageOk(db, sel, limit, q) && Past(q.after, q.kept[n].overlayIp);
    LessLeq(p.kept[m].overlayIp, q.after, q.kept[n].overlayIp);
  }

  /**
   In any walk pages come in order and no device is returned twice, save one: with page size one the row at the
   empty address, and it alone, may be returned again.
   */
  lemma NeverTwice(db: nat -> Table, sel: string -> bool, limit: nat, ps: seq<Page>, i: nat, j: nat, m: nat, n: nat)
    requires Walk(db, sel, limit, ps) && i < j < |ps| && m < |ps[i].kept| && n < |ps[j].kept|
    ensures Less(ps[i].kept[m].overlayIp, ps[j].kept[n].overlayIp) <==> ps[j].kept[n].overlayIp != ""
    ensures ps[j].kept[n].overlayIp == "" ==> limit == 1 && ps[i].kept[m].overlayIp == ""
  {
    if ps[i + 1].after != "" {
      LaterIsLess(db, sel, limit, ps, i, j, m, n);
      LessNonEmpty(ps[i].kept[m].overlayIp, ps[j].kept[n].overlayIp);
    } else {
      assert ps[i + 1 - 1].next == Some("");
      StartsOverExactly(db, sel, limit, ps[i]);
      EmptyIsLeast(ps[j].kept[n].overlayIp);
    }
  }

  lemma EmptyIsLeast(ip: string)
    ensures Less("", ip) <==> ip != ""
  {
  }

  /** Where it stays and is in scope, it is returned for ever: every page holds it alone and starts over. */
  lemma {:induction false} EmptyAddressRepeats(db: nat -> Table, sel: string -> bool, ps: seq<Page>, i: nat)
    requires Walk(db, sel, 1, ps) && i < |ps| && ps[0].after == ""
    requires forall k :: 0 <= k < |ps| ==> Allowed(ps[k].scope, "") && Steady(db, sel, ps[k].lo, ps[k].hi, "")
    ensures ps[i].after == "" && StartsOver(ps[i]) && |ps[i].kept| == 1 && ps[i].kept[0].overlayIp == ""
  {
    if i > 0 {
      EmptyAddressRepeats(db, sel, ps, i - 1);
    }
    EmptyAddressIsKept(db, sel, ps[i]);
  }

  lemma EmptyAddressIsKept(db: nat -> Table, sel: string -> bool, p: Page)
    requires PageOk(db, sel, 1, p) && p.after == "" && Allowed(p.scope, "") && Steady(db, sel, p.lo, p.hi, "")
    ensures StartsOver(p) && |p.kept| == 1 && p.kept[0].overlayIp == ""
  {
    if p.next.Some? {
      NotLess(p.next.value, "");
      assert Reaches(p.next, "");
    }
    assert Lists(p.kept, "");
  }

  /** The page whose stretch of addresses holds `ip`. */
  lemma {:induction false} PageFor(db: nat -> Table, sel: string -> bool, limit: nat, ps: seq<Page>, ip: string, k: nat)
    returns (i: nat)
    requires Traversal(db, sel, limit, ps) && k < |ps| && Past(ps[k].after, ip)
    ensures i < |ps| && Past(ps[i].after, ip) && Reaches(ps[i].next, ip)
    decreases |ps| - k
  {
    if Reaches(ps[k].next, ip) {
      i := k;
    } else {
      assert ps[k].next == Some(ps[k + 1].after);
      NotLess(ps[k].next.value, ip);
      i := PageFor(db, sel, limit, ps, ip, k + 1);
    }
  }

  /** A walk that has ended never had a steady row at the empty address for a page of its own. */
  lemma EndedWithoutEmpty(db: nat -> Table, sel: string -> bool, limit: nat, ps: seq<Page>, ip: string)
    requires Traversal(db, sel, limit, ps)
    requires forall k :: 0 <= k < |ps| ==> Allowed(ps[k].scope, ip)
    requires Steady(db, sel, ps[0].lo, ps[|ps| - 1].hi, ip)
    ensures ip != "" || limit > 1
  {
    if ip == "" && limit == 1 {
      forall k | 0 <= k < |ps| ensures Steady(db, sel, ps[k].lo, ps[k].hi, "") {
        Within(db, sel, limit, ps, k);
      }
      EmptyAddressRepeats(db, sel, ps, |ps| - 1);
      assert false;
    }
  }

  lemma OnePageOnly(db: nat -> Table, sel: string -> bool, limit: nat, ps: seq<Page>, i: nat, j: nat, m: nat, n: nat)
    requires Walk(db, sel, limit, ps) && i < |ps| && j < |ps| && m < |ps[i].kept| && n < |ps[j].kept|
    requires ps[i].kept[m].overlayIp == ps[j].kept[n].overlayIp && (limit > 1 || ps[i].kept[m].overlayIp != "")
    ensures i == j && m == n
  {
    if j < i {
      NeverTwice(db, sel, limit, ps, j, i, n, m);
    } else if i < j {
      NeverTwice(db, sel, limit, ps, i, j, m, n);
    } else {
      assert Rising(ps[i].kept);
    }
  }

  /**
   Following the cursor from the start to the end returns every device that matches the filters throughout,
   exactly once.
   */
  lemma EveryDeviceOnce(db: nat -> Table, sel: string -> bool, limit: nat, ps: seq<Page>, ip: string) returns (i: nat, m: nat)
    requires Traversal(db, sel, limit, ps)
    requires forall k :: 0 <= k < |ps| ==> ps[k].scope == None || ip in ps[k].scope.value
    requires forall n: nat :: ps[0].lo <= n < ps[|ps| - 1].hi ==> ip in db(n) && sel(db(n)[ip])
    ensures i < |ps| && m < |ps[i].kept| && ps[i].kept[m].overlayIp == ip
    ensures forall j, n :: 0 <= j < |ps| && 0 <= n < |ps[j].kept| && ps[j].kept[n].overlayIp == ip ==> j == i && n == m
  {
    assert Steady(db, sel, ps[0].lo, ps[|ps| - 1].hi, ip) && forall k :: 0 <= k < |ps| ==> Allowed(ps[k].scope, ip);
    i := PageFor(db, sel, limit, ps, ip, 0);
    Within(db, sel, limit, ps, i);
    assert PageOk(db, sel, limit, ps[i]) && Steady(db, sel, ps[i].lo, ps[i].hi, ip) && Complete(db, sel, ps[i]);
    m :| 0 <= m < |ps[i].kept| && ps[i].kept[m].overlayIp == ip;
    EndedWithoutEmpty(db, sel, limit, ps, ip);
    forall j, n | 0 <= j < |ps| && 0 <= n < |ps[j].kept| && ps[j].kept[n].overlayIp == ip ensures j == i && n == m {
      OnePageOnly(db, sel, limit, ps, i, j, m, n);
    }
  }

  lemma {:induction false} Within(db: nat -> Table, sel: string -> bool, limit: nat, ps: seq<Page>, i: nat)
    requires Traversal(db, sel, limit, ps) && i < |ps|
    ensures ps[0].lo <= ps[i].lo
    ensures ps[i].hi <= ps[|ps| - 1].hi
  {
    StartsLater(db, sel, limit, ps, i);
    EndsEarlier(db, sel, limit, ps, i);
  }

  lemma {:induction false} StartsLater(db: nat -> Table, sel: string -> bool, limit: nat, ps: seq<Page>, i: nat)
    requires Traversal(db, sel, limit, ps) && i < |ps|
    ensures ps[0].lo <= ps[i].lo
  {
    if i > 0 {
      StartsLater(db, sel, limit, ps, i - 1);
    }
  }

  lemma {:induction false} EndsEarlier(db: nat -> Table, sel: string -> bool, limit: nat, ps: seq<Page>, i: nat)
    requires Traversal(db, sel, limit, ps) && i < |ps|
    ensures ps[i].hi <= ps[|ps| - 1].hi
    decreases |ps| - i
  {
    if i + 1 < |ps| {
      EndsEarlier(db, sel, limit, ps, i + 1);
      assert ps[i + 1 - 1].hi <= ps[i + 1].lo;
    }
  }
}
