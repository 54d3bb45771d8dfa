/** What the command line renders and serves of a contract: the methods its instantiation has declared. */
module Serving {
  import opened Wrappers
  import opened Bits
  import opened MethodIdentity
  import opened Contracts

  datatype ServeError = InvalidMethod(name: string) | UnexpectedName(name: string)

  /** `split_once(sep)`: what follows the first occurrence. */
  function AfterFirst(s: string, sep: string): Option<string> {
    if sep <= s then Some(s[|sep|..])
    else if s == "" then None
    else AfterFirst(s[1..], sep)
  }

  const PREFIX := "[method]utxo."

  /** The names served for a list of exports, each without what comes before and with the prefix. */
  function ServedNames(listed: seq<string>): seq<string> {
    if listed == [] then []
    else
      var rest := ServedNames(listed[1..]);
      match AfterFirst(listed[0], PREFIX)
      case Some(name) => [name] + rest
      case None => rest
  }

  /** Every export named as a method takes the resource first. */
  predicate AllValid(funcs: seq<Func>) {
    forall f | f in funcs :: IsMethod(f.name) ==> f.receiver
  }

  predicate FirstInvalid(funcs: seq<Func>, i: nat)
    requires i < |funcs|
  {
    IsMethod(funcs[i].name) && !funcs[i].receiver && AllValid(funcs[..i])
  }

  /**
   The rendering loop: an invalid method ends it, declared or not; otherwise the
   methods rendered are the declared ones in export order.
   */
  method Render(funcs: seq<Func>, implemented: set<MethodHash>, sha: bytes -> Digest)
      returns (r: Result<seq<string>, ServeError>)
    ensures r.Ok? <==> AllValid(funcs)
    ensures r.Err? ==> exists i | 0 <= i < |funcs| :: r.error == InvalidMethod(funcs[i].name) && FirstInvalid(funcs, i)
    ensures r.Ok? ==> r.value == Listed(funcs, implemented, sha)
  {
    var names := [];
    assert funcs[0..] == funcs;
    for i := 0 to |funcs|
      invariant AllValid(funcs[..i])
      invariant names + Listed(funcs[i..], implemented, sha) == Listed(funcs, implemented, sha)
    {
      assert funcs[i..][1..] == funcs[i + 1..] && funcs[..i + 1] == funcs[..i] + [funcs[i]];
      if IsMethod(funcs[i].name) {
        if !funcs[i].receiver {
          assert funcs[i] in funcs && FirstInvalid(funcs, i);
          return Err(InvalidMethod(funcs[i].name));
        }
        if HostHash(funcs[i].name, sha) in implemented {
          names := names + [funcs[i].name];
        }
      }
    }
    assert funcs[..|funcs|] == funcs && names + [] == names;
    return Ok(names);
  }

  /** Registers the listed methods, each under its name behind the prefix; one without the prefix ends it. */
  method Serve(listed: seq<string>) returns (r: Result<seq<string>, ServeError>)
    ensures r.Ok? <==> forall name | name in listed :: AfterFirst(name, PREFIX).Some?
    ensures r.Err? ==> exists name | name in listed :: r.error == UnexpectedName(name) && AfterFirst(name, PREFIX).None?
    ensures r.Ok? ==> r.value == ServedNames(listed) && |r.value| == |listed|
  {
    var served := [];
    assert listed[0..] == listed;
    for i := 0 to |listed|
      invariant |served| == i && forall k | 0 <= k < i :: AfterFirst(listed[k], PREFIX).Some?
      invariant served + ServedNames(listed[i..]) == ServedNames(listed)
    {
      assert listed[i..][1..] == listed[i + 1..];
      var name := AfterFirst(listed[i], PREFIX);
      if name.None? {
        assert listed[i] in listed;
        return Err(UnexpectedName(listed[i]));
      }
      served := served + [name.value];
    }
    assert served + [] == served;
    return Ok(served);
  }

  /** A served name has an identity of its own, that of the export behind it. */
  lemma {:induction false} ServedIdentity(name: string, sha: bytes -> Digest)
    requires AfterFirst(name, PREFIX).Some?
    ensures HostHash(AfterFirst(name, PREFIX).value, sha) == HostHash(name, sha)
  {
    var rest := AfterFirst(name, PREFIX).value;
    var before := AfterFirstSplits(name, PREFIX);
    assert PREFIX[|PREFIX| - 1] == '.';
    LastSegmentSkips(before + PREFIX, rest);
    assert before + PREFIX + rest == name;
  }

  lemma {:induction false} AfterFirstSplits(s: string, sep: string) returns (before: string)
    requires AfterFirst(s, sep).Some?
    ensures s == before + sep + AfterFirst(s, sep).value
  {
    if sep <= s {
      before := "";
      assert s == sep + s[|sep|..];
    } else {
      var inner := AfterFirstSplits(s[1..], sep);
      before := [s[0]] + inner;
      PutInFront(s, inner, sep, AfterFirst(s, sep).value);
    }
  }

  lemma PutInFront(s: string, before: string, sep: string, rest: string)
    requires s != "" && s[1..] == before + sep + rest
    ensures s == [s[0]] + before + sep + rest
  {
    assert s == [s[0]] + s[1..];
    assert [s[0]] + (before + sep + rest) == [s[0]] + before + sep + rest;
  }

  /** What comes before a dot does not matter to the last segment. */
  lemma {:induction false} LastSegmentSkips(prefix: string, s: string)
    requires prefix != "" && prefix[|prefix| - 1] == '.'
    ensures LastSegment(prefix + s) == LastSegment(s)
    decreases |s|
  {
    var e := prefix + s;
    if s == "" {
      assert e == prefix;
    } else {
      assert e[..|e| - 1] == prefix + s[..|s| - 1] && e[|e| - 1] == s[|s| - 1];
      if s[|s| - 1] != '.' { LastSegmentSkips(prefix, s[..|s| - 1]); }
    }
  }

  /** Whatever is served, the instantiation has declared it: every served name's hash is in its set. */
  lemma {:induction false} ServedAreDeclared(funcs: seq<Func>, implemented: set<MethodHash>, sha: bytes -> Digest,
                                             name: string)
    requires name in ServedNames(Listed(funcs, implemented, sha))
    ensures HostHash(name, sha) in implemented
    ensures exists e | e in Listed(funcs, implemented, sha) :: AfterFirst(e, PREFIX) == Some(name)
  {
    var e := ServedBehind(Listed(funcs, implemented, sha), name);
    ListedDeclared(funcs, implemented, sha, e);
    ServedIdentity(e, sha);
  }

  lemma {:induction false} ServedBehind(listed: seq<string>, name: string) returns (e: string)
    requires name in ServedNames(listed)
    ensures e in listed && AfterFirst(e, PREFIX) == Some(name)
  {
    if AfterFirst(listed[0], PREFIX) == Some(name) {
      e := listed[0];
    } else {
      e := ServedBehind(listed[1..], name);
    }
  }

  lemma {:induction false} ListedDeclared(funcs: seq<Func>, implemented: set<MethodHash>, sha: bytes -> Digest, name: string)
    requires name in Listed(funcs, implemented, sha)
    ensures HostHash(name, sha) in implemented
  {
    if name in Listed(funcs[1..], implemented, sha) { ListedDeclared(funcs[1..], implemented, sha, name); }
  }

  /** `sep` occurs at `k`. */
  predicate OccursAt(s: string, sep: string, k: nat) {
    k <= |s| && sep <= s[k..]
  }

  /** The text is split behind the first occurrence of the separator, if there is one. */
  lemma {:induction false} SplitAtFirst(s: string, sep: string, k: nat)
    requires sep != "" && OccursAt(s, sep, k) && forall i | 0 <= i < k :: !OccursAt(s, sep, i)
    ensures AfterFirst(s, sep) == Some(s[k + |sep|..])
  {
    assert s[0..] == s;
    if k > 0 {
      var t := s[1..];
      assert !OccursAt(s, sep, 0);
      forall i: nat | i < |s| ensures OccursAt(t, sep, i) == OccursAt(s, sep, i + 1) { assert t[i..] == s[i + 1..]; }
      SplitAtFirst(t, sep, k - 1);
      assert t[k - 1 + |sep|..] == s[k + |sep|..];
    }
  }

  /** A method is served under what its name has behind the prefix. */
  lemma ServedName(name: string)
    ensures AfterFirst(PREFIX + name, PREFIX) == Some(name)
  {
    var s := PREFIX + name;
    assert s[0..] == s && s[|PREFIX|..] == name;
    SplitAtFirst(s, PREFIX, 0);
  }

  /** Served names keep the order of the list. */
  lemma {:induction false} ServedInOrder(a: seq<string>, b: seq<string>)
    ensures ServedNames(a + b) == ServedNames(a) + ServedNames(b)
  {
    if a == [] {
      assert a + b == b;
    } else {
      assert (a + b)[1..] == a[1..] + b;
      ServedInOrder(a[1..], b);
    }
  }
}
