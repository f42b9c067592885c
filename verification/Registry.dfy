/**
 Operations by target name: a lookup takes the last name that is not after the target, and succeeds if that name is a
 prefix of the target.
 */
module Registry {
  import opened StringOrder
  import opened Wrappers

  // ---------------------------------------------------------------- the order of names

  predicate NotAfter(a: string, b: string) {
    !Less(b, a)
  }

  lemma {:induction false} NotAfterTransitive(a: string, b: string, c: string)
    requires NotAfter(a, b) && NotAfter(b, c)
    ensures NotAfter(a, c)
  {
    LessTrichotomy(a, b);
    LessTrichotomy(b, c);
    LessTrichotomy(a, c);
    if a != b && b != c { LessTransitive(a, b, c); }
  }

  lemma {:induction false} PrefixNotAfter(a: string, b: string)
    requires a <= b
    ensures NotAfter(a, b)
  {
    if a != "" {
      assert a[0] == b[0];
      assert a[1..] <= b[1..] by { assert b[..|a|] == a; }
      PrefixNotAfter(a[1..], b[1..]);
    }
  }

  /** Whatever lies between a prefix of a string and the string starts with that prefix too. */
  lemma {:induction false} BetweenHasPrefix(p: string, k: string, t: string)
    requires p <= t && NotAfter(p, k) && NotAfter(k, t)
    ensures p <= k
  {
    if p != "" {
      assert p[0] == t[0];
      LessTrichotomy(p, k);
      LessTrichotomy(k, t);
      if k != "" {
        assert k[0] == p[0];
        assert p[1..] <= t[1..] by { assert t[..|p|] == p; }
        BetweenHasPrefix(p[1..], k[1..], t[1..]);
        assert k == [k[0]] + k[1..] && p == [p[0]] + p[1..];
        assert k[..|p|] == p by { assert k[1..][..|p| - 1] == p[1..]; }
      }
    }
  }

  // ---------------------------------------------------------------- lookup

  /** The last name not after the target: the one before the upper bound. */
  ghost predicate IsLast(names: set<string>, target: string, k: string) {
    k in names && NotAfter(k, target) && forall x | x in names && NotAfter(x, target) :: NotAfter(x, k)
  }

  ghost predicate IsLongestPrefix(names: set<string>, target: string, k: string) {
    k in names && k <= target && forall x | x in names && x <= target :: |x| <= |k|
  }

  lemma {:induction false} LastExists(names: set<string>, target: string)
    requires exists k :: k in names && NotAfter(k, target)
    ensures exists k :: IsLast(names, target, k)
    decreases |names|
  {
    var k :| k in names && NotAfter(k, target);
    var rest := names - {k};
    if exists x :: x in rest && NotAfter(x, target) {
      LastExists(rest, target);
      var m :| IsLast(rest, target, m);
      LessTrichotomy(k, m);
      var n := if NotAfter(k, m) then m else k;
      forall x | x in names && NotAfter(x, target) ensures NotAfter(x, n) {
        LessTrichotomy(x, x);
        if x != k {
          assert x in rest;
          if n == k { NotAfterTransitive(x, m, k); }
        }
      }
      assert IsLast(names, target, n);
    } else {
      LessTrichotomy(k, k);
      forall x | x in names && NotAfter(x, target) ensures NotAfter(x, k) {
        assert x != k ==> x in rest;
      }
      assert IsLast(names, target, k);
    }
  }

  /** If the last name not after the target is a prefix of it, it is the longest registered one. */
  lemma {:induction false} FoundIsLongest(names: set<string>, target: string, k: string)
    requires IsLast(names, target, k) && k <= target
    ensures IsLongestPrefix(names, target, k)
  {
    forall x | x in names && x <= target ensures |x| <= |k| {
      PrefixNotAfter(x, target);
      if |x| > |k| {
        assert k <= x by { assert target[..|x|] == x && target[..|k|] == k; }
        PrefixNotAfter(k, x);
        LessTrichotomy(x, k);
      }
    }
  }

  /** An exact name is the last one not after itself. */
  lemma {:induction false} ExactIsLast(names: set<string>, target: string)
    requires target in names
    ensures IsLast(names, target, target)
  {
    LessTrichotomy(target, target);
  }

  /** A name between the longest prefix and the target hides it; such a name extends the prefix. */
  ghost predicate Hidden(names: set<string>, target: string, k: string) {
    exists x :: x in names && x != k && k <= x && NotAfter(x, target)
  }

  /** The longest registered prefix is found iff no name extends it without being after the target. */
  lemma {:induction false} LongestFoundIff(names: set<string>, target: string, k: string)
    requires IsLongestPrefix(names, target, k)
    ensures IsLast(names, target, k) <==> !Hidden(names, target, k)
  {
    PrefixNotAfter(k, target);
    if IsLast(names, target, k) {
      forall x | x in names && x != k && NotAfter(x, target) && k <= x ensures false {
        PrefixNotAfter(k, x);
        LessTrichotomy(k, x);
      }
    } else {
      var x :| x in names && NotAfter(x, target) && !NotAfter(x, k);
      LessTrichotomy(k, x);
      BetweenHasPrefix(k, x, target);
      assert x != k;
    }
  }

  /** No name is a proper prefix of another. */
  ghost predicate PrefixFree(names: set<string>) {
    forall a, b | a in names && b in names && a <= b :: a == b
  }

  lemma {:induction false} PrefixesOfOne(a: string, b: string, t: string)
    requires a <= t && b <= t && |b| <= |a|
    ensures b <= a
  {
    assert t[..|a|] == a && t[..|b|] == b;
  }

  /** In a prefix-free set nothing is hidden. */
  lemma {:induction false} PrefixFreeFinds(names: set<string>, target: string, k: string)
    requires PrefixFree(names) && k in names && k <= target
    ensures IsLast(names, target, k)
  {
    PrefixNotAfter(k, target);
    forall x | x in names && x <= target ensures |x| <= |k| {
      if |x| > |k| { PrefixesOfOne(x, k, target); }
    }
    LongestFoundIff(names, target, k);
  }

  lemma {:induction false} FirstDifference(p: string, a: char, b: char)
    requires a < b
    ensures Less(p + [a], p + [b])
  {
    if p != "" {
      FirstDifference(p[1..], a, b);
      assert (p + [a])[1..] == p[1..] + [a] && (p + [b])[1..] == p[1..] + [b];
    }
  }

  /** With "/a" and "/ab" registered, "/ac" finds nothing although "/a" is a prefix of it. */
  lemma {:induction false} PrefixHidden()
    ensures IsLongestPrefix({"/a", "/ab"}, "/ac", "/a") && Hidden({"/a", "/ab"}, "/ac", "/a")
    ensures !exists k :: IsLast({"/a", "/ab"}, "/ac", k) && k <= "/ac"
  {
    assert "/ab"[2] != "/ac"[2];
    assert "/a" <= "/ac" && "/a" <= "/ab" && !("/ab" <= "/ac");
    FirstDifference("/a", 'b', 'c');
    assert "/a" + ['b'] == "/ab" && "/a" + ['c'] == "/ac";
    LessTrichotomy("/ab", "/ac");
    assert "/ab" in {"/a", "/ab"} && "/ab" != "/a";
    LongestFoundIff({"/a", "/ab"}, "/ac", "/a");
  }

  // ---------------------------------------------------------------- the registry

  class Registry<Op, RemoteOp(==)> {
    var operations: map<string, Op>
    var remoteOperations: map<string, RemoteOp>

    constructor ()
      ensures operations == map[] && remoteOperations == map[]
    {
      operations, remoteOperations := map[], map[];
    }

    /** A name that is already registered is an error, and keeps its operation. */
    method RegisterOp(name: string, fn: Op) returns (ok: bool)
      modifies this`operations
      ensures ok == (name !in old(operations))
      ensures operations == if ok then old(operations)[name := fn] else old(operations)
    {
      ok := name !in operations;
      if ok {
        operations := operations[name := fn];
      }
    }

    /** Names taken by others are left alone and not returned. */
    method RegisterRemoteOps(names: seq<string>, fn: RemoteOp) returns (successful: seq<string>)
      modifies this`remoteOperations
      ensures forall n :: n in successful <==> n in names && n !in old(remoteOperations)
      ensures forall i, j | 0 <= i < j < |successful| :: successful[i] != successful[j]
      ensures remoteOperations.Keys == old(remoteOperations).Keys + (set n | n in names)
      ensures forall n | n in remoteOperations ::
          remoteOperations[n] == if n in old(remoteOperations) then old(remoteOperations)[n] else fn
    {
      successful := [];
      for i := 0 to |names|
        invariant forall n :: n in successful <==> n in names[..i] && n !in old(remoteOperations)
        invariant forall i, j | 0 <= i < j < |successful| :: successful[i] != successful[j]
        invariant forall n :: n in remoteOperations <==> n in old(remoteOperations) || n in names[..i]
        invariant forall n | n in remoteOperations ::
            remoteOperations[n] == if n in old(remoteOperations) then old(remoteOperations)[n] else fn
      {
        assert names[..i + 1] == names[..i] + [names[i]];
        if names[i] !in remoteOperations {
          remoteOperations := remoteOperations[names[i] := fn];
          successful := successful + [names[i]];
        }
      }
      assert names[..|names|] == names;
    }

    method UnregisterRemoteOps(names: seq<string>)
      modifies this`remoteOperations
      ensures remoteOperations == old(remoteOperations) - (set n | n in names)
    {
      for i := 0 to |names|
        invariant remoteOperations == old(remoteOperations) - (set n | n in names[..i])
      {
        assert names[..i + 1] == names[..i] + [names[i]];
        remoteOperations := remoteOperations - {names[i]};
      }
      assert names[..|names|] == names;
    }

    /** A remote that comes and goes leaves no trace, whatever names it asked for. */
    method ConnectAndDisconnect(names: seq<string>, fn: RemoteOp)
      modifies this`remoteOperations
      ensures remoteOperations == old(remoteOperations)
    {
      var successful := RegisterRemoteOps(names, fn);
      UnregisterRemoteOps(successful);
    }

    method GetOperation(target: string) returns (r: Option<Op>)
      ensures r.Some? <==> exists k :: IsLast(operations.Keys, target, k) && k <= target
      ensures r.Some? ==> exists k :: IsLongestPrefix(operations.Keys, target, k) && r.value == operations[k]
      ensures target in operations ==> r == Some(operations[target])
      ensures PrefixFree(operations.Keys) ==> (r.Some? <==> exists k :: k in operations && k <= target)
    {
      var k := FindLast(operations.Keys, target);
      r := if k.Some? && k.value <= target then Some(operations[k.value]) else None;
    }

    method GetRemoteOp(target: string) returns (r: Option<RemoteOp>)
      ensures r.Some? <==> exists k :: IsLast(remoteOperations.Keys, target, k) && k <= target
      ensures r.Some? ==> exists k ::
          IsLongestPrefix(remoteOperations.Keys, target, k)
          && r.value == remoteOperations[k]
      ensures target in remoteOperations ==> r == Some(remoteOperations[target])
      ensures PrefixFree(remoteOperations.Keys) ==> (r.Some? <==> exists k :: k in remoteOperations && k <= target)
    {
      var k := FindLast(remoteOperations.Keys, target);
      r := if k.Some? && k.value <= target then Some(remoteOperations[k.value]) else None;
    }

    method Reset()
      modifies this
      ensures operations == map[] && remoteOperations == map[]
    {
      operations, remoteOperations := map[], map[];
    }
  }

  lemma {:induction false} LastUnique(names: set<string>, target: string, k: string, l: string)
    requires IsLast(names, target, k) && IsLast(names, target, l)
    ensures k == l
  {
    LessTrichotomy(k, l);
  }

  /** The element before `upper_bound(target)`, if there is one. */
  method FindLast(names: set<string>, target: string) returns (k: Option<string>)
    ensures k.None? <==> !exists x :: x in names && NotAfter(x, target)
    ensures k.Some? ==> IsLast(names, target, k.value)
    ensures k.Some? && k.value <= target ==> IsLongestPrefix(names, target, k.value)
    ensures forall x | IsLast(names, target, x) :: k == Some(x)
    ensures target in names ==> k == Some(target)
    ensures PrefixFree(names) ==> forall x | x in names && x <= target :: k == Some(x)
  {
    hide Less;
    var below := set x | x in names && NotAfter(x, target);
    forall x | x in names ensures NotAfter(x, target) ==> x in below {}
    if below == {} {
      if target in names { ExactIsLast(names, target); }
      forall x | x in names && x <= target ensures false { PrefixNotAfter(x, target); }
      return None;
    }
    var y :| y in below;
    LastExists(names, target);
    ghost var m :| IsLast(names, target, m);
    assert m in below && forall x | x in below :: NotAfter(x, m);
    forall x | x in below && (forall z | z in below :: NotAfter(z, x)) ensures x == m {
      assert IsLast(names, target, x) by {
        forall z | z in names && NotAfter(z, target) ensures NotAfter(z, x) { assert z in below; }
      }
      LastUnique(names, target, x, m);
    }
    var last :| last in below && forall x | x in below :: NotAfter(x, last);
    k := Some(last);
    assert last == m;
    LastFacts(names, target, last);
  }

  lemma {:induction false} LastFacts(names: set<string>, target: string, k: string)
    requires IsLast(names, target, k)
    ensures k <= target ==> IsLongestPrefix(names, target, k)
    ensures forall x | IsLast(names, target, x) :: k == x
    ensures target in names ==> k == target
    ensures PrefixFree(names) ==> forall x | x in names && x <= target :: k == x
  {
    if k <= target { FoundIsLongest(names, target, k); }
    forall x | IsLast(names, target, x) ensures k == x { LastUnique(names, target, k, x); }
    if target in names { ExactIsLast(names, target); }
    if PrefixFree(names) {
      forall x | x in names && x <= target ensures k == x { PrefixFreeFinds(names, target, x); }
    }
  }
}
