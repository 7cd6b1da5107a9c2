/** The cloud-attestation trust config: who may attest into the mesh, and what each is granted. */
module CloudTrust {
  import opened Text
  import opened Wildcards

  datatype Identity = Identity(account: string, arn: string)

  datatype AwsAccount = AwsAccount(account: string, arnPatterns: seq<string>, groups: seq<string>,
                                   autoIssue: bool, netblock: string)

  datatype Config = Config(defaultGroups: seq<string>, aws: seq<AwsAccount>)

  datatype Grant = Grant(groups: seq<string>, netblock: string, autoIssue: bool)

  predicate IsReservedGroup(g: string) {
    g == "control-plane" || g == "lighthouse"
  }

  // ---------------------------------------------------------------- the account and ARN gate

  ghost predicate ArnMatches(pattern: string, arn: string) {
    InLanguage(Exact, StarTokens(pattern), arn)
  }

  /** An empty list of accounts or patterns means "any". */
  ghost predicate Allowed(accounts: seq<string>, patterns: seq<string>, id: Identity) {
    && (accounts == [] || id.account in accounts)
    && (patterns == [] || exists i :: 0 <= i < |patterns| && ArnMatches(patterns[i], id.arn))
  }

  method Check(accounts: seq<string>, patterns: seq<string>, id: Identity) returns (allowed: bool)
    ensures allowed <==> && (accounts == [] || id.account in accounts)
                         && (patterns == [] || exists i :: 0 <= i < |patterns| && InLanguage(Exact, StarTokens(patterns[i]), id.arn))
    ensures allowed <==> Allowed(accounts, patterns, id)
  {
    assert forall i :: 0 <= i < |patterns| ==> (ArnMatches(patterns[i], id.arn) <==> InLanguage(Exact, StarTokens(patterns[i]), id.arn));
    if |accounts| > 0 && id.account !in accounts {
      return false;
    }
    if |patterns| > 0 {
      var ok := false;
      for i := 0 to |patterns|
        invariant !ok && forall j :: 0 <= j < i ==> !ArnMatches(patterns[j], id.arn)
      {
        var hit := MatchGlob(patterns[i], id.arn);
        if hit {
          assert ArnMatches(patterns[i], id.arn);
          return true;
        }
      }
      return false;
    }
    return true;
  }

  ghost predicate Trusts(a: AwsAccount, id: Identity) {
    Allowed([a.account], a.arnPatterns, id)
  }

  // ---------------------------------------------------------------- Validate

  datatype Validation = Valid | ErrEmpty | ErrNoAccount | ErrDupAccount(account: string)

  /** Every entry up to, and not including, the n-th is well formed. */
  ghost predicate GoodPrefix(aws: seq<AwsAccount>, n: nat)
    requires n <= |aws|
  {
    && (forall i :: 0 <= i < n ==> aws[i].account != "")
    && (forall i, j :: 0 <= i < j < n ==> aws[i].account != aws[j].account)
  }

  ghost predicate IsValid(c: Config) {
    c.aws != [] && GoodPrefix(c.aws, |c.aws|)
  }

  /** The verdict is the first thing wrong, reading the list from the front. */
  method Validate(c: Config) returns (v: Validation)
    ensures v.Valid? <==> IsValid(c)
    ensures v.ErrEmpty? <==> c.aws == []
    ensures v.ErrNoAccount? ==> exists n :: 0 <= n < |c.aws| && GoodPrefix(c.aws, n) && c.aws[n].account == ""
    ensures v.ErrDupAccount? ==> exists n, m :: 0 <= m < n < |c.aws| && GoodPrefix(c.aws, n)
                                   && v.account == c.aws[n].account == c.aws[m].account != ""
  {
    if |c.aws| == 0 {
      return ErrEmpty;
    }
    var seen: set<string> := {};
    for n := 0 to |c.aws|
      invariant GoodPrefix(c.aws, n)
      invariant seen == set i | 0 <= i < n :: c.aws[i].account
    {
      var a := c.aws[n].account;
      if a == "" {
        return ErrNoAccount;
      }
      if a in seen {
        return ErrDupAccount(a);
      }
      seen := seen + {a};
    }
    return Valid;
  }

  // ---------------------------------------------------------------- group resolution

  function Dedup(xs: seq<string>): (r: seq<string>)
    ensures forall x :: x in r <==> x in xs
    ensures forall i, j :: 0 <= i < j < |r| ==> r[i] != r[j]
  {
    if xs == [] then []
    else
      var rest := Dedup(xs[1..]);
      assert xs == [xs[0]] + xs[1..];
      if xs[0] in rest then rest else [xs[0]] + rest
  }

  function SortedElements(xs: seq<string>): seq<string> {
    Sort(Dedup(xs))
  }

  ghost predicate Distinct(xs: seq<string>) {
    forall i, j :: 0 <= i < j < |xs| ==> xs[i] != xs[j]
  }

  lemma {:induction false} DistinctMultiset(xs: seq<string>, s: set<string>)
    requires Distinct(xs) && forall x :: x in xs <==> x in s
    ensures multiset(xs) == multiset(s)
  {
    if xs == [] {
      assert s == {};
    } else {
      assert xs == [xs[0]] + xs[1..];
      assert forall x :: x in xs[1..] <==> x in s - {xs[0]};
      DistinctMultiset(xs[1..], s - {xs[0]});
    }
  }

  /** The resolved groups depend only on which groups are named. */
  lemma SortedElementsBySet(xs: seq<string>, ys: seq<string>)
    requires forall x :: x in xs <==> x in ys
    ensures SortedElements(xs) == SortedElements(ys)
  {
    var s := set x | x in xs;
    DistinctMultiset(Dedup(xs), s);
    DistinctMultiset(Dedup(ys), s);
    SortCanonical(Dedup(xs), Dedup(ys));
  }

  lemma SortKeepsDistinct(xs: seq<string>)
    requires Distinct(xs)
    ensures Distinct(Sort(xs))
  {
    var r := Sort(xs);
    DistinctMultiset(xs, set x | x in xs);
    forall i, j | 0 <= i < j < |r| ensures r[i] != r[j] {
      if r[i] == r[j] {
        TwiceInMultiset(r, i, j);
      }
    }
  }

  lemma TwiceInMultiset(xs: seq<string>, i: nat, j: nat)
    requires i < j < |xs| && xs[i] == xs[j]
    ensures multiset(xs)[xs[i]] >= 2
  {
    assert xs == xs[..i] + [xs[i]] + xs[i + 1..j] + [xs[j]] + xs[j + 1..];
  }

  method ResolveGroups(defaults: seq<string>, principal: seq<string>) returns (out: seq<string>)
    ensures out == SortedElements(defaults + principal)
    ensures Sorted(out) && Distinct(out) && forall g :: g in out <==> g in defaults || g in principal
  {
    var s: set<string> := {};
    for i := 0 to |defaults|
      invariant forall g :: g in s <==> g in defaults[..i]
    {
      s := s + {defaults[i]};
      assert defaults[..i + 1] == defaults[..i] + [defaults[i]];
    }
    for i := 0 to |principal|
      invariant forall g :: g in s <==> g in defaults || g in principal[..i]
    {
      s := s + {principal[i]};
      assert principal[..i + 1] == principal[..i] + [principal[i]];
    }
    ghost var all := s;
    var listed: seq<string> := [];
    while s != {}  // a map is iterated in no particular order
      invariant s <= all && Distinct(listed)
      invariant forall g :: g in listed <==> g in all - s
      decreases s
    {
      var g :| g in s;
      assert g !in listed;
      listed := listed + [g];
      s := s - {g};
    }
    out := Sort(listed);
    ghost var named := defaults + principal;
    DistinctMultiset(listed, all);
    DistinctMultiset(Dedup(named), all);
    SortCanonical(listed, Dedup(named));
    assert forall g :: g in out <==> g in multiset(listed);
    SortKeepsDistinct(listed);
  }

  // ---------------------------------------------------------------- MatchAWS

  function GrantOf(c: Config, a: AwsAccount): Grant {
    Grant(SortedElements(c.defaultGroups + a.groups), a.netblock, a.autoIssue)
  }

  /** The first index at which the list holds. */
  function FirstTrue(bs: seq<bool>): (k: Option<nat>)
    ensures k.None? ==> forall j :: 0 <= j < |bs| ==> !bs[j]
    ensures k.Some? ==> k.value < |bs| && bs[k.value] && forall j :: 0 <= j < k.value ==> !bs[j]
  {
    if bs == [] then None
    else
      var init := FirstTrue(bs[..|bs| - 1]);
      if init.Some? then init else if bs[|bs| - 1] then Some(|bs| - 1) else None
  }

  ghost function Trusting(c: Config, id: Identity): seq<bool> {
    seq(|c.aws|, i requires 0 <= i < |c.aws| => Trusts(c.aws[i], id))
  }

  /** What the first trusting entry grants; None denies. */
  ghost function GrantTo(c: Config, id: Identity): Option<Grant> {
    match FirstTrue(Trusting(c, id))
    case None => None
    case Some(k) => Some(GrantOf(c, c.aws[k]))
  }

  /** The entry at `k` trusts the identity, and none before it does. */
  ghost predicate FirstToTrust(c: Config, id: Identity, k: int) {
    && 0 <= k < |c.aws| && TrustsByFields(c.aws[k], id)
    && forall j :: 0 <= j < k ==> !TrustsByFields(c.aws[j], id)
  }

  ghost predicate TrustsByFields(a: AwsAccount, id: Identity) {
    && id.account == a.account
    && (a.arnPatterns == [] || exists i :: 0 <= i < |a.arnPatterns| && InLanguage(Exact, StarTokens(a.arnPatterns[i]), id.arn))
  }

  lemma TrustsExactly(a: AwsAccount, id: Identity)
    ensures Trusts(a, id) <==> TrustsByFields(a, id)
  {
    assert forall i :: 0 <= i < |a.arnPatterns| ==>
                         (ArnMatches(a.arnPatterns[i], id.arn) <==> InLanguage(Exact, StarTokens(a.arnPatterns[i]), id.arn));
  }

  method MatchAws(c: Config, id: Identity) returns (g: Option<Grant>)
    ensures g.None? <==> forall k :: 0 <= k < |c.aws| ==> !TrustsByFields(c.aws[k], id)
    ensures g.Some? ==> exists k :: && FirstToTrust(c, id, k)
                                    && g.value.netblock == c.aws[k].netblock && g.value.autoIssue == c.aws[k].autoIssue
                                    && Sorted(g.value.groups) && Distinct(g.value.groups)
                                    && forall x :: x in g.value.groups <==> x in c.defaultGroups || x in c.aws[k].groups
    ensures g == GrantTo(c, id)
  {
    forall k | 0 <= k < |c.aws| ensures Trusts(c.aws[k], id) <==> TrustsByFields(c.aws[k], id) {
      TrustsExactly(c.aws[k], id);
    }
    for i := 0 to |c.aws|
      invariant forall j :: 0 <= j < i ==> !Trusts(c.aws[j], id)
    {
      var a := c.aws[i];
      var ok := Check([a.account], a.arnPatterns, id);
      if ok {
        FirstIs(c, id, i);
        var groups := ResolveGroups(c.defaultGroups, a.groups);
        assert FirstToTrust(c, id, i);
        return Some(Grant(groups, a.netblock, a.autoIssue));
      }
    }
    NoneTrusts(c, id);
    return None;
  }

  lemma FirstIs(c: Config, id: Identity, k: nat)
    requires k < |c.aws| && Trusts(c.aws[k], id) && forall j :: 0 <= j < k ==> !Trusts(c.aws[j], id)
    ensures GrantTo(c, id) == Some(GrantOf(c, c.aws[k]))
  {
    var bs := Trusting(c, id);
    forall j | 0 <= j < k ensures !bs[j] {
      assert bs[j] == Trusts(c.aws[j], id);
    }
    FirstTrueIs(bs, k);
  }

  lemma FirstTrueIs(bs: seq<bool>, k: nat)
    requires k < |bs| && bs[k] && forall j :: 0 <= j < k ==> !bs[j]
    ensures FirstTrue(bs) == Some(k)
  {
    var f := FirstTrue(bs);
    assert f.Some?;
  }

  lemma NoneTrusts(c: Config, id: Identity)
    requires forall k :: 0 <= k < |c.aws| ==> !Trusts(c.aws[k], id)
    ensures GrantTo(c, id) == None
  {
  }

  lemma GrantFromSomeEntry(c: Config, id: Identity) returns (k: nat)
    requires GrantTo(c, id).Some?
    ensures k < |c.aws| && Trusts(c.aws[k], id) && GrantTo(c, id).value == GrantOf(c, c.aws[k])
  {
    k := FirstTrue(Trusting(c, id)).value;
  }

  /** In a valid config at most one entry can trust an identity, so being first does not matter. */
  lemma GrantIsUnique(c: Config, id: Identity, k: nat)
    requires IsValid(c) && k < |c.aws| && Trusts(c.aws[k], id)
    ensures GrantTo(c, id) == Some(GrantOf(c, c.aws[k]))
  {
    forall j | 0 <= j < k ensures !Trusts(c.aws[j], id) {
      OnlyOneTrusts(c, id, j, k);
    }
    FirstIs(c, id, k);
  }

  lemma OnlyOneTrusts(c: Config, id: Identity, i: nat, k: nat)
    requires IsValid(c) && i < k < |c.aws| && Trusts(c.aws[k], id)
    ensures !Trusts(c.aws[i], id)
  {
    assert c.aws[k].account == id.account;
  }

  /** Reordering the accounts, or the default groups, changes nobody's grant. */
  lemma MatchIgnoresOrder(c: Config, d: Config, id: Identity)
    requires IsValid(c) && IsValid(d)
    requires multiset(c.aws) == multiset(d.aws)
    requires forall g :: g in c.defaultGroups <==> g in d.defaultGroups
    ensures GrantTo(c, id) == GrantTo(d, id)
  {
    if k :| 0 <= k < |c.aws| && Trusts(c.aws[k], id) {
      var a := c.aws[k];
      assert a in multiset(d.aws);
      var j :| 0 <= j < |d.aws| && d.aws[j] == a;
      GrantIsUnique(c, id, k);
      GrantIsUnique(d, id, j);
      SortedElementsBySet(c.defaultGroups + a.groups, d.defaultGroups + a.groups);
    } else {
      forall j | 0 <= j < |d.aws| ensures !Trusts(d.aws[j], id) {
        assert d.aws[j] in multiset(c.aws);
      }
      NoneTrusts(c, id);
      NoneTrusts(d, id);
    }
  }

  // ---------------------------------------------------------------- ContainsPrivileged

  method ContainsPrivileged(c: Config) returns (p: bool)
    ensures p <==> HasPrivileged(c)
  {
    for i := 0 to |c.defaultGroups|
      invariant forall j :: 0 <= j < i ==> !IsReservedGroup(c.defaultGroups[j])
    {
      if IsReservedGroup(c.defaultGroups[i]) {
        return true;
      }
    }
    for i := 0 to |c.aws|
      invariant forall j :: 0 <= j < i ==> !c.aws[j].autoIssue && !NamesReserved(c.aws[j].groups)
    {
      var a := c.aws[i];
      if a.autoIssue {
        return true;
      }
      for k := 0 to |a.groups|
        invariant forall j :: 0 <= j < k ==> !IsReservedGroup(a.groups[j])
      {
        if IsReservedGroup(a.groups[k]) {
          assert NamesReserved(a.groups);
          return true;
        }
      }
    }
    return false;
  }

  ghost predicate NamesReserved(groups: seq<string>) {
    exists g :: g in groups && IsReservedGroup(g)
  }

  ghost predicate HasPrivileged(c: Config) {
    || NamesReserved(c.defaultGroups)
    || exists i :: 0 <= i < |c.aws| && (c.aws[i].autoIssue || NamesReserved(c.aws[i].groups))
  }

  ghost predicate IsPrivileged(g: Grant) {
    g.autoIssue || NamesReserved(g.groups)
  }

  lemma SortedElementsMembers(xs: seq<string>)
    ensures forall g :: g in SortedElements(xs) <==> g in xs
  {
    forall g ensures g in SortedElements(xs) <==> g in Dedup(xs) {
      assert g in SortedElements(xs) <==> g in multiset(Dedup(xs));
    }
  }

  lemma GrantGroups(c: Config, a: AwsAccount)
    ensures NamesReserved(GrantOf(c, a).groups) <==> NamesReserved(c.defaultGroups) || NamesReserved(a.groups)
  {
    var named := c.defaultGroups + a.groups;
    SortedElementsMembers(named);
    assert NamesReserved(SortedElements(named)) <==> NamesReserved(named);
  }

  function WithoutStars(pattern: string): string {
    if pattern == [] then []
    else if pattern[0] == '*' then WithoutStars(pattern[1..])
    else [pattern[0]] + WithoutStars(pattern[1..])
  }

  /** No pattern is unsatisfiable: let every star stand for nothing. */
  lemma {:induction false} PatternIsInhabited(pattern: string)
    ensures ArnMatches(pattern, WithoutStars(pattern))
  {
    if pattern != [] {
      PatternIsInhabited(pattern[1..]);
      var s := WithoutStars(pattern);
      assert StarTokens(pattern)[1..] == StarTokens(pattern[1..]);
      if pattern[0] == '*' {
        assert s[0..] == s;
      } else {
        assert s[1..] == WithoutStars(pattern[1..]);
      }
    }
  }

  /** An identity the k-th entry trusts. */
  lemma SomeIdentity(c: Config, k: nat) returns (id: Identity)
    requires k < |c.aws|
    ensures Trusts(c.aws[k], id)
  {
    var a := c.aws[k];
    if a.arnPatterns == [] {
      id := Identity(a.account, "");
    } else {
      id := Identity(a.account, WithoutStars(a.arnPatterns[0]));
      PatternIsInhabited(a.arnPatterns[0]);
    }
  }

  /** A valid config is classed privileged exactly when some identity would receive a privileged grant. */
  lemma PrivilegedExactly(c: Config)
    requires IsValid(c)
    ensures HasPrivileged(c) <==> exists id :: GrantTo(c, id).Some? && IsPrivileged(GrantTo(c, id).value)
  {
    if HasPrivileged(c) {
      var k := 0;
      if !NamesReserved(c.defaultGroups) {
        k :| 0 <= k < |c.aws| && (c.aws[k].autoIssue || NamesReserved(c.aws[k].groups));
      }
      var id := SomeIdentity(c, k);
      GrantIsUnique(c, id, k);
      GrantGroups(c, c.aws[k]);
      assert IsPrivileged(GrantTo(c, id).value);
    }
    if id :| GrantTo(c, id).Some? && IsPrivileged(GrantTo(c, id).value) {
      var k := GrantFromSomeEntry(c, id);
      GrantGroups(c, c.aws[k]);
    }
  }
}
