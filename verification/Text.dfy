/** The parts of Go's strings and sort packages the control plane leans on. */
module Text {

  // ---------------------------------------------------------------- trimming and case

  /** White_Space as unicode.IsSpace defines it. */
  predicate IsSpace(c: char) {
    c in {'\t', '\n', '\U{000B}', '\U{000C}', '\r', ' ', '\U{0085}', '\U{00A0}', '\U{1680}', '\U{2028}', '\U{2029}',
          '\U{202F}', '\U{205F}', '\U{3000}'}
    || '\U{2000}' <= c <= '\U{200A}'
  }

  predicate IsTrimmed(s: string) {
    s == [] || (!IsSpace(s[0]) && !IsSpace(s[|s| - 1]))
  }

  function TrimSpace(s: string): (t: string)
    ensures |t| <= |s| && IsTrimmed(t)
    ensures IsTrimmed(s) ==> t == s
  {
    if s == [] then []
    else if IsSpace(s[0]) then TrimSpace(s[1..])
    else if IsSpace(s[|s| - 1]) then TrimSpace(s[..|s| - 1])
    else s
  }

  /** Only white space is cut off, and only at the two ends. */
  lemma {:induction false} TrimIsSlice(s: string) returns (i: nat, j: nat)
    ensures i <= j <= |s| && TrimSpace(s) == s[i..j]
    ensures (forall k :: 0 <= k < i ==> IsSpace(s[k])) && (forall k :: j <= k < |s| ==> IsSpace(s[k]))
  {
    if s == [] {
      i, j := 0, 0;
    } else if IsSpace(s[0]) {
      var tail := s[1..];
      i, j := TrimIsSlice(tail);
      TailSlice(s, i, j);
      i, j := i + 1, j + 1;
    } else if IsSpace(s[|s| - 1]) {
      i, j := TrimIsSlice(s[..|s| - 1]);
      assert s[..|s| - 1][i..j] == s[i..j];
    } else {
      i, j := 0, |s|;
      assert s[0..|s|] == s;
    }
  }

  lemma TailSlice(s: string, i: nat, j: nat)
    requires s != [] && i <= j < |s|
    ensures s[1..][i..j] == s[i + 1..j + 1]
    ensures (forall k :: 0 <= k < i ==> IsSpace(s[1..][k])) ==> forall k :: 1 <= k < i + 1 ==> IsSpace(s[k])
    ensures (forall k :: j <= k < |s| - 1 ==> IsSpace(s[1..][k])) ==> forall k :: j + 1 <= k < |s| ==> IsSpace(s[k])
  {
    forall k | 1 <= k < |s| ensures s[k] == s[1..][k - 1] {
    }
  }

  function LowerChar(c: char): char {
    if 'A' <= c <= 'Z' then ((c as int) + 32) as char else c
  }

  /** The form in which certificate fingerprints are compared. */
  function Normal(fp: string): string {
    var t := TrimSpace(fp);
    seq(|t|, i requires 0 <= i < |t| => LowerChar(t[i]))
  }

  /** `l` is the small letter of the capital `c`. */
  predicate SmallOf(c: char, l: char) {
    'A' <= c <= 'Z' && 'a' <= l <= 'z' && l - 'a' == c - 'A'
  }

  lemma LowerEqual(c: char, d: char)
    ensures !('A' <= LowerChar(c) <= 'Z')
    ensures LowerChar(c) == LowerChar(d) <==> c == d || SmallOf(c, d) || SmallOf(d, c)
  {
  }

  /**
   A normal form has no capitals, and two fingerprints have the same one exactly when, trimmed, they differ in the
   case of letters at most.
   */
  lemma NormalExactly(a: string, b: string)
    ensures forall i :: 0 <= i < |Normal(a)| ==> !('A' <= Normal(a)[i] <= 'Z')
    ensures var s, t := TrimSpace(a), TrimSpace(b);
            Normal(a) == Normal(b) <==>
              |s| == |t| && forall i :: 0 <= i < |s| ==> s[i] == t[i] || SmallOf(s[i], t[i]) || SmallOf(t[i], s[i])
  {
    var s, t := TrimSpace(a), TrimSpace(b);
    assert |Normal(a)| == |s| && |Normal(b)| == |t|;
    forall i | 0 <= i < |s| ensures Normal(a)[i] == LowerChar(s[i]) && !('A' <= LowerChar(s[i]) <= 'Z') {
      LowerEqual(s[i], s[i]);
    }
    if |s| == |t| {
      forall i | 0 <= i < |s|
        ensures Normal(a)[i] == Normal(b)[i] <==> s[i] == t[i] || SmallOf(s[i], t[i]) || SmallOf(t[i], s[i])
      {
        LowerEqual(s[i], t[i]);
      }
    }
  }

  /** Comparing normal forms is stable: a stored normal form is its own normal form. */
  lemma NormalIdempotent(fp: string)
    ensures Normal(Normal(fp)) == Normal(fp)
  {
    var t, n := TrimSpace(fp), Normal(fp);
    assert forall c :: IsSpace(LowerChar(c)) ==> IsSpace(c);
    assert IsTrimmed(n);
    assert Normal(n) == n;
  }

  // ---------------------------------------------------------------- lexicographic order

  predicate Leq(a: string, b: string) {
    a == [] || (b != [] && (a[0] < b[0] || (a[0] == b[0] && Leq(a[1..], b[1..]))))
  }

  predicate Less(a: string, b: string) {
    a != b && Leq(a, b)
  }

  lemma LeqTotal(a: string, b: string)
    ensures Leq(a, b) || Leq(b, a)
    ensures Leq(a, a)
  {
  }

  lemma {:induction false} LeqAntisymmetric(a: string, b: string)
    requires Leq(a, b) && Leq(b, a)
    ensures a == b
  {
    if a != [] && b != [] {
      LeqAntisymmetric(a[1..], b[1..]);
      assert a == [a[0]] + a[1..] && b == [b[0]] + b[1..];
    }
  }

  lemma {:induction false} LeqTransitive(a: string, b: string, c: string)
    requires Leq(a, b) && Leq(b, c)
    ensures Leq(a, c)
  {
    if a != [] && a[0] == b[0] == c[0] {
      LeqTransitive(a[1..], b[1..], c[1..]);
    }
  }

  lemma LessTransitive(a: string, b: string, c: string)
    requires Leq(a, b) && Leq(b, c)
    ensures Leq(a, c)
    ensures a != b || b != c ==> Less(a, c)
  {
    LeqTransitive(a, b, c);
    if a == c {
      LeqAntisymmetric(a, b);
    }
  }

  // ---------------------------------------------------------------- sort.Strings

  ghost predicate Sorted(xs: seq<string>) {
    forall i, j :: 0 <= i < j < |xs| ==> Leq(xs[i], xs[j])
  }

  function Insert(x: string, xs: seq<string>): (r: seq<string>)
    ensures multiset(r) == multiset(xs) + multiset{x}
    ensures Sorted(xs) ==> Sorted(r)
  {
    if xs == [] then [x]
    else
      assert xs == [xs[0]] + xs[1..];
      LeqTotal(x, xs[0]);
      if Leq(x, xs[0]) then
        InsertFront(x, xs);
        [x] + xs
      else
        var rest := Insert(x, xs[1..]);
        InsertLater(x, xs, rest);
        [xs[0]] + rest
  }

  lemma InsertFront(x: string, xs: seq<string>)
    requires xs != [] && Leq(x, xs[0])
    ensures Sorted(xs) ==> Sorted([x] + xs)
  {
    if Sorted(xs) {
      forall j | 0 < j < |xs| ensures Leq(x, xs[j]) {
        LeqTransitive(x, xs[0], xs[j]);
      }
    }
  }

  lemma InsertLater(x: string, xs: seq<string>, rest: seq<string>)
    requires xs != [] && Leq(xs[0], x)
    requires multiset(rest) == multiset(xs[1..]) + multiset{x}
    requires Sorted(xs[1..]) ==> Sorted(rest)
    ensures Sorted(xs) ==> Sorted([xs[0]] + rest)
  {
    if Sorted(xs) {
      forall j | 0 <= j < |rest| ensures Leq(xs[0], rest[j]) {
        assert rest[j] in multiset(rest);
        assert rest[j] == x || rest[j] in xs[1..];
      }
    }
  }

  function Sort(xs: seq<string>): (r: seq<string>)
    ensures Sorted(r) && multiset(r) == multiset(xs)
  {
    if xs == [] then []
    else
      assert xs == [xs[0]] + xs[1..];
      Insert(xs[0], Sort(xs[1..]))
  }

  lemma {:induction false} SortedHead(a: seq<string>, b: seq<string>)
    requires a != [] && b != [] && Sorted(a) && Sorted(b) && multiset(a) == multiset(b)
    ensures Leq(a[0], b[0])
  {
    assert b[0] in multiset(a);
    var j :| 0 <= j < |a| && a[j] == b[0];
    LeqTotal(a[0], a[0]);
  }

  /** A sorted list is determined by what is in it. */
  lemma {:induction false} SortedUnique(a: seq<string>, b: seq<string>)
    requires Sorted(a) && Sorted(b) && multiset(a) == multiset(b)
    ensures a == b
  {
    assert |multiset(a)| == |a| && |multiset(b)| == |b|;
    if a != [] {
      SortedHead(a, b);
      SortedHead(b, a);
      LeqAntisymmetric(a[0], b[0]);
      TailMultiset(a);
      TailMultiset(b);
      SortedUnique(a[1..], b[1..]);
    }
  }

  lemma TailMultiset(a: seq<string>)
    requires a != []
    ensures a == [a[0]] + a[1..] && multiset(a[1..]) == multiset(a) - multiset{a[0]}
  {
    assert a == [a[0]] + a[1..];
  }

  /** Sorting hides the order in which rows were read. */
  lemma SortCanonical(a: seq<string>, b: seq<string>)
    requires multiset(a) == multiset(b)
    ensures Sort(a) == Sort(b)
  {
    SortedUnique(Sort(a), Sort(b));
  }
}
