/** A host's on-disk record of the config-signing keys it has learned, and the set it verifies bundles against. */
module TrustFile {
  import opened Wildcards

  /** A public key; PEM blocks parse to keys through `Parser`, or not at all. */
  type Key = string
  type Parser = string -> Option<Key>

  /** What a file holds: a complete record, or bytes that do not decode. */
  datatype Content = Corrupt | Record(version: int, pems: seq<string>)

  function ParseAll(parse: Parser, pems: seq<string>): (keys: seq<Key>)
    ensures forall k :: k in keys <==> exists i :: 0 <= i < |pems| && parse(pems[i]) == Some(k)
  {
    if pems == [] then []
    else
      var n := |pems| - 1;
      ParseAll(parse, pems[..n]) + (if parse(pems[n]).Some? then [parse(pems[n]).value] else [])
  }

  function LoadedVersion(file: Option<Content>): int {
    if file.Some? && file.value.Record? then file.value.version else 0
  }

  function LoadedKeys(parse: Parser, file: Option<Content>): seq<Key> {
    if file.Some? && file.value.Record? then ParseAll(parse, file.value.pems) else []
  }

  // ---------------------------------------------------------------- persisting

  /** Where a write is cut short, by an error or by a crash. */
  datatype Stop = AtOpen | AtWrite | AtSync | AtClose | AtRename | Never

  datatype Call = Call(version: int, pems: seq<string>, stop: Stop)

  /** Not a rollback: there is something to learn and it is at least as new as what is known. */
  predicate Advances(file: Option<Content>, version: int, pems: seq<string>) {
    pems != [] && version >= LoadedVersion(file)
  }

  function Persisted(file: Option<Content>, c: Call): Option<Content> {
    if Advances(file, c.version, c.pems) && c.stop == Never then Some(Record(c.version, c.pems)) else file
  }

  class Host {
    var file: Option<Content>
    var tmp: Option<Content>
    const pins: seq<Key>
    const parse: Parser

    constructor (pins: seq<Key>, parse: Parser)
      ensures this.pins == pins && this.parse == parse && file == None
    {
      this.pins, this.parse := pins, parse;
      file, tmp := None, None;
    }

    method ParsePubPems(pems: seq<string>) returns (out: seq<Key>)
      ensures out == ParseAll(parse, pems)
    {
      out := [];
      for i := 0 to |pems|
        invariant out == ParseAll(parse, pems[..i])
      {
        assert pems[..i + 1][..i] == pems[..i];
        var k := parse(pems[i]);
        if k.None? {
          continue;
        }
        out := out + [k.value];
      }
      assert pems[..|pems|] == pems;
    }

    method Load() returns (version: int, keys: seq<Key>)
      ensures version == LoadedVersion(file) && keys == LoadedKeys(parse, file)
      ensures file.Some? && file.value.Record? ==>
                version == file.value.version && forall k :: k in keys <==> exists i :: 0 <= i < |file.value.pems| && parse(file.value.pems[i]) == Some(k)
      ensures file.None? || file.value.Corrupt? ==> version == 0 && keys == []
    {
      match file
      case Some(Record(v, pems)) =>
        var ks := ParsePubPems(pems);
        return v, ks;
      case _ => return 0, [];
    }

    /** Whatever cuts the write short, the trust file is its old content or the whole new record. */
    method Persist(version: int, pems: seq<string>, stop: Stop) returns (ok: bool)
      modifies this
      ensures file == Persisted(old(file), Call(version, pems, stop))
      ensures var known := if old(file).Some? && old(file).value.Record? then old(file).value.version else 0;
              file == if pems != [] && version >= known && stop == Never then Some(Record(version, pems)) else old(file)
      ensures ok <==> stop == Never || !Advances(old(file), version, pems)
      ensures LoadedVersion(file) >= LoadedVersion(old(file))
    {
      if |pems| == 0 {
        return true;
      }
      var cur, _ := Load();
      if version < cur {
        return true;
      }
      if stop == AtOpen {
        return false;
      }
      tmp := Some(Corrupt);  // created or truncated
      if stop == AtWrite {
        return false;
      }
      tmp := Some(Record(version, pems));
      if stop == AtSync || stop == AtClose || stop == AtRename {
        return false;
      }
      file, tmp := tmp, None;
      return true;
    }

    /** The permanent pins together with whatever the trust file adds. */
    method TrustedSet() returns (out: seq<Key>)
      ensures pins <= out
      ensures forall k :: k in out <==> k in pins || k in LoadedKeys(parse, file)
      ensures forall i, j :: |pins| <= j < |out| && 0 <= i < j ==> out[i] != out[j]
    {
      out := pins;
      var _, learned := Load();
      for n := 0 to |learned|
        invariant pins <= out
        invariant forall k :: k in out <==> k in pins || k in learned[..n]
        invariant forall i, j :: |pins| <= j < |out| && 0 <= i < j ==> out[i] != out[j]
      {
        assert learned[..n + 1] == learned[..n] + [learned[n]];
        if learned[n] in out {
          continue;
        }
        out := out + [learned[n]];
      }
    }
  }

  // ---------------------------------------------------------------- any sequence of calls

  function After(calls: seq<Call>): Option<Content> {
    if calls == [] then None
    else Persisted(After(calls[..|calls| - 1]), calls[|calls| - 1])
  }

  /** A call that runs to the end and has something to say. */
  predicate Completes(c: Call) {
    c.pems != [] && c.stop == Never && c.version >= 0
  }

  /**
   After any calls, in any order, with repeats and crashes: no file until a call completes, and from then on
   the whole record of the last completed call among those of the highest version.
   */
  lemma {:induction false} NewestWins(calls: seq<Call>)
    ensures After(calls) == None <==> forall c :: c in calls ==> !Completes(c)
    ensures After(calls) != None ==>
              exists i :: Wins(calls, i) && After(calls) == Some(Record(calls[i].version, calls[i].pems))
  {
    if calls != [] {
      var init, c := calls[..|calls| - 1], calls[|calls| - 1];
      NewestWins(init);
      assert calls == init + [c];
      OneMoreCall(init, c);
    }
  }

  lemma OneMoreCall(init: seq<Call>, c: Call)
    requires After(init) == None <==> forall d :: d in init ==> !Completes(d)
    requires After(init) != None ==> exists i :: Wins(init, i) && After(init) == Some(Record(init[i].version, init[i].pems))
    ensures var calls, file := init + [c], Persisted(After(init), c);
            && (file == None <==> forall d :: d in calls ==> !Completes(d))
            && (file != None ==> exists i :: Wins(calls, i) && file == Some(Record(calls[i].version, calls[i].pems)))
  {
    var calls := init + [c];
    assert c in calls && forall d :: d in init ==> d in calls;
    if After(init) != None {
      var i :| Wins(init, i) && After(init) == Some(Record(init[i].version, init[i].pems));
      assert init[i] in init;
      WinsSnoc(init, c, i);
    } else if Completes(c) {
      FirstWins(init, c);
    }
  }

  lemma FirstWins(init: seq<Call>, c: Call)
    requires Completes(c) && forall d :: d in init ==> !Completes(d)
    ensures Wins(init + [c], |init|)
  {
    forall j | 0 <= j < |init| ensures !Completes((init + [c])[j]) {
      assert (init + [c])[j] == init[j] && init[j] in init;
    }
  }

  lemma WinsSnoc(init: seq<Call>, c: Call, i: nat)
    requires Wins(init, i)
    ensures if Completes(c) && c.version >= init[i].version then Wins(init + [c], |init|) else Wins(init + [c], i)
    ensures (init + [c])[i] == init[i]
  {
  }

  ghost predicate Wins(calls: seq<Call>, i: int) {
    && 0 <= i < |calls| && Completes(calls[i])
    && (forall j :: 0 <= j < |calls| && Completes(calls[j]) ==> calls[j].version <= calls[i].version)
    && (forall j :: i < j < |calls| && Completes(calls[j]) ==> calls[j].version < calls[i].version)
  }

  /** When a version determines its keys, only which bundles got through matters, not their order or number. */
  lemma OrderDoesNotMatter(a: seq<Call>, b: seq<Call>)
    requires forall c :: Completes(c) ==> (c in a <==> c in b)
    requires forall c, d :: c in a && d in a && Completes(c) && Completes(d) && c.version == d.version ==> c.pems == d.pems
    ensures After(a) == After(b)
  {
    NewestWins(a);
    NewestWins(b);
    if After(a) != None {
      var i :| Wins(a, i) && After(a) == Some(Record(a[i].version, a[i].pems));
      assert a[i] in b;
      var j :| Wins(b, j) && After(b) == Some(Record(b[j].version, b[j].pems));
      assert b[j] in a;
      WinnerIsNewest(a, i, b[j]);
      WinnerIsNewest(b, j, a[i]);
    }
  }

  lemma WinnerIsNewest(calls: seq<Call>, i: nat, c: Call)
    requires Wins(calls, i) && c in calls && Completes(c)
    ensures c.version <= calls[i].version
  {
  }
}
