/** Signature weights: the permission check behind `validateSignature`. */
module Multisig {
  import opened Common
  import opened JavaInts

  type Addr = nat

  datatype Key = Key(addr: Addr, weight: int)

  datatype Permission = Permission(active: bool, keys: seq<Key>, threshold: int)

  /** A signature: its length in bytes, its base64 text, and the address recovered
      from it (none if recovery throws). */
  datatype Sig = Sig(size: nat, base64: string, signer: Option<Addr>)

  datatype CheckError = TooManySignatures | BadSignatureSize | RecoveryFailed | NotInPermission | SignedTwice

  /** What the table of seen signatures is keyed by: the signer since the fork, the
      signature text before it. */
  datatype Seen = BySigner(addr: Addr) | ByText(base64: string)

  function SeenKey(sig: Sig, forked: bool): Seen {
    if forked && sig.signer.Some? then BySigner(sig.signer.value) else ByText(sig.base64)
  }

  /** The first key that is unlocked or is the signer decides. */
  function GetWeight(p: Permission, unlocked: set<Addr>, addr: Addr): int {
    WeightAmong(p.keys, p.threshold, unlocked, addr)
  }

  function WeightAmong(keys: seq<Key>, threshold: int, unlocked: set<Addr>, addr: Addr): int {
    if keys == [] then 0
    else if keys[0].addr in unlocked then threshold
    else if keys[0].addr == addr then keys[0].weight
    else WeightAmong(keys[1..], threshold, unlocked, addr)
  }

  /** The recovered signer's weight, zero if there is no signer. */
  function WeightOf(p: Permission, unlocked: set<Addr>, sig: Sig): int {
    if sig.signer.Some? then GetWeight(p, unlocked, sig.signer.value) else 0
  }

  function Sum(p: Permission, unlocked: set<Addr>, sigs: seq<Sig>): int {
    if sigs == [] then 0 else Sum(p, unlocked, sigs[..|sigs| - 1]) + WeightOf(p, unlocked, sigs[|sigs| - 1])
  }

  /** Well sized, recoverable and of nonzero weight. */
  ghost predicate Counts(p: Permission, unlocked: set<Addr>, sig: Sig) {
    sig.size >= 65 && sig.signer.Some? && WeightOf(p, unlocked, sig) != 0
  }

  ghost predicate AllCount(p: Permission, unlocked: set<Addr>, sigs: seq<Sig>) {
    forall i :: 0 <= i < |sigs| ==> Counts(p, unlocked, sigs[i])
  }

  ghost predicate SeenOnce(sigs: seq<Sig>, forked: bool) {
    forall i, j :: 0 <= i < j < |sigs| ==> SeenKey(sigs[i], forked) != SeenKey(sigs[j], forked)
  }

  ghost predicate Passes(p: Permission, unlocked: set<Addr>, sigs: seq<Sig>, forked: bool) {
    |sigs| <= |p.keys| && AllCount(p, unlocked, sigs) && SeenOnce(sigs, forked)
  }

  ghost function SeenKeys(sigs: seq<Sig>, forked: bool): set<Seen> {
    set i | 0 <= i < |sigs| :: SeenKey(sigs[i], forked)
  }

  /** One more signature keeps all well exactly when it counts and was not seen. */
  lemma NextPasses(p: Permission, unlocked: set<Addr>, sigs: seq<Sig>, i: nat, forked: bool)
    requires i < |sigs| && AllCount(p, unlocked, sigs[..i]) && SeenOnce(sigs[..i], forked)
    ensures AllCount(p, unlocked, sigs[..i + 1]) && SeenOnce(sigs[..i + 1], forked) <==>
            Counts(p, unlocked, sigs[i]) && SeenKey(sigs[i], forked) !in SeenKeys(sigs[..i], forked)
    ensures SeenKeys(sigs[..i + 1], forked) == SeenKeys(sigs[..i], forked) + {SeenKey(sigs[i], forked)}
  {
    var s, t := sigs[..i], sigs[..i + 1];
    assert t == s + [sigs[i]];
    assert SeenKeys(t, forked) == SeenKeys(s, forked) + {SeenKey(sigs[i], forked)} by {
      forall k | k in SeenKeys(s, forked)
        ensures k in SeenKeys(t, forked)
      {
        var j :| 0 <= j < i && SeenKey(s[j], forked) == k;
        assert SeenKey(t[j], forked) == k;
      }
      assert SeenKey(t[i], forked) in SeenKeys(t, forked);
    }
    if SeenKey(sigs[i], forked) in SeenKeys(s, forked) {
      var j :| 0 <= j < i && SeenKey(s[j], forked) == SeenKey(sigs[i], forked);
      assert SeenKey(t[j], forked) == SeenKey(t[i], forked);
    } else {
      assert forall j :: 0 <= j < i ==> SeenKey(t[j], forked) in SeenKeys(s, forked);
    }
  }

  /** What is wrong with the i-th signature, looked for in this order. */
  ghost function FailureAt(p: Permission, unlocked: set<Addr>, sigs: seq<Sig>, forked: bool, i: nat): Option<CheckError>
    requires i < |sigs|
  {
    if sigs[i].size < 65 then Some(BadSignatureSize)
    else if sigs[i].signer.None? then Some(RecoveryFailed)
    else if WeightOf(p, unlocked, sigs[i]) == 0 then Some(NotInPermission)
    else if SeenKey(sigs[i], forked) in SeenKeys(sigs[..i], forked) then Some(SignedTwice)
    else None
  }

  lemma PrefixPasses(p: Permission, unlocked: set<Addr>, sigs: seq<Sig>, i: nat, forked: bool)
    requires i <= |sigs| && AllCount(p, unlocked, sigs) && SeenOnce(sigs, forked)
    ensures AllCount(p, unlocked, sigs[..i]) && SeenOnce(sigs[..i], forked)
  {
    assert forall j :: 0 <= j < i ==> sigs[..i][j] == sigs[j];
  }

  /** Succeeds exactly when there are no more signatures than keys, all count, and
      none is seen twice; the result is the 64-bit sum of the weights. Otherwise the
      error is that of the first signature at fault. */
  method CheckWeight(p: Permission, unlocked: set<Addr>, sigs: seq<Sig>, forked: bool)
    returns (r: Result<int, CheckError>)
    ensures r.Ok? <==> Passes(p, unlocked, sigs, forked)
    ensures r.Ok? ==> r.value == WrapLong(Sum(p, unlocked, sigs))
    ensures r == Err(TooManySignatures) <==> |sigs| > |p.keys|
    ensures r.Err? && |sigs| <= |p.keys| ==>
              exists i :: 0 <= i < |sigs| && FailureAt(p, unlocked, sigs, forked, i) == Some(r.error)
                          && AllCount(p, unlocked, sigs[..i]) && SeenOnce(sigs[..i], forked)
  {
    var currentWeight := 0;
    if |sigs| > |p.keys| {
      return Err(TooManySignatures);
    }
    var addMap: map<Seen, int> := map[];
    for i := 0 to |sigs|
      invariant AllCount(p, unlocked, sigs[..i]) && SeenOnce(sigs[..i], forked)
      invariant addMap.Keys == SeenKeys(sigs[..i], forked)
      invariant currentWeight == WrapLong(Sum(p, unlocked, sigs[..i]))
    {
      var sig := sigs[i];
      ghost var failure := FailureAt(p, unlocked, sigs, forked, i);
      NextPasses(p, unlocked, sigs, i, forked);
      if Passes(p, unlocked, sigs, forked) {
        PrefixPasses(p, unlocked, sigs, i + 1, forked);
      }
      if sig.size < 65 {
        return Err(BadSignatureSize);
      }
      if sig.signer.None? {
        return Err(RecoveryFailed);
      }
      var weight := GetWeight(p, unlocked, sig.signer.value);
      if weight == 0 {
        return Err(NotInPermission);
      }
      var key := SeenKey(sig, forked);
      if key in addMap {
        return Err(SignedTwice);
      }
      addMap := addMap[key := weight];
      SumNext(p, unlocked, sigs, i);
      currentWeight := WrapLong(currentWeight + weight);
    }
    assert sigs[..|sigs|] == sigs;
    r := Ok(currentWeight);
  }

  lemma SumNext(p: Permission, unlocked: set<Addr>, sigs: seq<Sig>, i: nat)
    requires i < |sigs|
    ensures Sum(p, unlocked, sigs[..i + 1]) == Sum(p, unlocked, sigs[..i]) + WeightOf(p, unlocked, sigs[i])
    ensures WrapLong(WrapLong(Sum(p, unlocked, sigs[..i])) + WeightOf(p, unlocked, sigs[i])) ==
            WrapLong(Sum(p, unlocked, sigs[..i + 1]))
  {
    assert sigs[..i + 1][..i] == sigs[..i];
    WrapLongAbsorbs(Sum(p, unlocked, sigs[..i]), WeightOf(p, unlocked, sigs[i]));
  }

  // ---- Since the fork, and with no key unlocked ----

  ghost predicate DistinctSigners(sigs: seq<Sig>) {
    forall i, j :: 0 <= i < j < |sigs| ==> sigs[i].signer != sigs[j].signer
  }

  /** Position of an address's first key, or the number of keys. */
  function FirstKey(keys: seq<Key>, addr: Addr): (k: nat)
    ensures k <= |keys| && (k < |keys| ==> keys[k].addr == addr)
    ensures forall j :: 0 <= j < k ==> keys[j].addr != addr
  {
    if keys == [] || keys[0].addr == addr then 0 else 1 + FirstKey(keys[1..], addr)
  }

  lemma {:induction false} FirstKeyDecides(keys: seq<Key>, threshold: int, addr: Addr)
    ensures var k := FirstKey(keys, addr);
            WeightAmong(keys, threshold, {}, addr) == if k < |keys| then keys[k].weight else 0
  {
    if keys != [] {
      FirstKeyDecides(keys[1..], threshold, addr);
    }
  }

  /** With keys unlocked, the first key that is unlocked or the signer's decides, an
      unlocked one with the whole threshold. */
  lemma {:induction false} FirstHitDecides(keys: seq<Key>, threshold: int, unlocked: set<Addr>, addr: Addr, k: nat)
    requires k <= |keys|
    requires forall j :: 0 <= j < k ==> keys[j].addr !in unlocked && keys[j].addr != addr
    requires k < |keys| ==> keys[k].addr in unlocked || keys[k].addr == addr
    ensures WeightAmong(keys, threshold, unlocked, addr) ==
            if k == |keys| then 0 else if keys[k].addr in unlocked then threshold else keys[k].weight
  {
    if k > 0 {
      FirstHitDecides(keys[1..], threshold, unlocked, addr, k - 1);
    }
  }

  /** Before the fork two signatures clash by their texts, whoever signed them. */
  lemma PassesBeforeFork(p: Permission, unlocked: set<Addr>, sigs: seq<Sig>)
    ensures Passes(p, unlocked, sigs, false) <==>
            && |sigs| <= |p.keys|
            && (forall i :: 0 <= i < |sigs| ==> sigs[i].size >= 65 && WeightOf(p, unlocked, sigs[i]) != 0)
            && forall i, j :: 0 <= i < j < |sigs| ==> sigs[i].base64 != sigs[j].base64
  {
    assert forall i :: 0 <= i < |sigs| ==> SeenKey(sigs[i], false) == ByText(sigs[i].base64);
    assert forall i :: 0 <= i < |sigs| && WeightOf(p, unlocked, sigs[i]) != 0 ==> sigs[i].signer.Some?;
  }

  /** Then passing means: signers pairwise distinct, each holding a key of nonzero
      weight, the first of its keys deciding. */
  lemma PassesSinceFork(p: Permission, sigs: seq<Sig>)
    ensures Passes(p, {}, sigs, true) <==>
            && |sigs| <= |p.keys| && DistinctSigners(sigs)
            && forall i :: 0 <= i < |sigs| ==> sigs[i].size >= 65 && HoldsKey(p, sigs[i])
  {
    forall i | 0 <= i < |sigs|
      ensures sigs[i].signer.Some? && WeightOf(p, {}, sigs[i]) != 0 <==> HoldsKey(p, sigs[i])
    {
      if sigs[i].signer.Some? {
        FirstKeyDecides(p.keys, p.threshold, sigs[i].signer.value);
      }
    }
    if AllCount(p, {}, sigs) {
      assert forall i :: 0 <= i < |sigs| ==> SeenKey(sigs[i], true) == BySigner(sigs[i].signer.value);
      assert SeenOnce(sigs, true) <==> DistinctSigners(sigs);
    }
  }

  predicate HoldsKey(p: Permission, sig: Sig) {
    sig.signer.Some? &&
    var k := FirstKey(p.keys, sig.signer.value);
    k < |p.keys| && p.keys[k].weight != 0
  }

  // ---- The sum is over the set of signers ----

  ghost function SumOver(p: Permission, signers: set<Addr>): int {
    if signers == {} then 0
    else
      var a :| a in signers;
      SumOver(p, signers - {a}) + GetWeight(p, {}, a)
  }

  lemma {:induction false} SumOverWithout(p: Permission, signers: set<Addr>, x: Addr)
    requires x in signers
    ensures SumOver(p, signers) == SumOver(p, signers - {x}) + GetWeight(p, {}, x)
    decreases |signers|
  {
    var a :| a in signers && SumOver(p, signers) == SumOver(p, signers - {a}) + GetWeight(p, {}, a);
    if a != x {
      SumOverWithout(p, signers - {a}, x);
      SumOverWithout(p, signers - {x}, a);
      assert signers - {a} - {x} == signers - {x} - {a};
    }
  }

  ghost function Signers(sigs: seq<Sig>): set<Addr> {
    set i | 0 <= i < |sigs| && sigs[i].signer.Some? :: sigs[i].signer.value
  }

  /** With distinct signers the sum is the one over the set of them. */
  lemma {:induction false} SumIsOverSigners(p: Permission, sigs: seq<Sig>)
    requires DistinctSigners(sigs) && forall i :: 0 <= i < |sigs| ==> sigs[i].signer.Some?
    ensures Sum(p, {}, sigs) == SumOver(p, Signers(sigs))
  {
    if sigs != [] {
      var n := |sigs| - 1;
      var a := sigs[n].signer.value;
      SumIsOverSigners(p, sigs[..n]);
      assert sigs[n].signer == Some(a);
      assert Signers(sigs) - {a} == Signers(sigs[..n]) by {
        assert forall i :: 0 <= i < n ==> sigs[..n][i] == sigs[i];
      }
      SumOverWithout(p, Signers(sigs), a);
    }
  }

  // ---- Order does not matter ----

  lemma {:induction false} SumOfSplit(p: Permission, unlocked: set<Addr>, a: seq<Sig>, x: Sig, b: seq<Sig>)
    ensures Sum(p, unlocked, a + [x] + b) == Sum(p, unlocked, a + b) + WeightOf(p, unlocked, x)
  {
    if b == [] {
      assert a + [x] + b == a + [x] && a + b == a && (a + [x])[..|a|] == a;
    } else {
      var n := |b| - 1;
      assert (a + [x] + b)[..|a| + 1 + n] == a + [x] + b[..n];
      assert (a + b)[..|a| + n] == a + b[..n];
      SumOfSplit(p, unlocked, a, x, b[..n]);
    }
  }

  lemma OneOut(a: seq<Sig>, x: Sig, b: seq<Sig>)
    ensures multiset(a + b) == multiset(a + [x] + b) - multiset{x}
  {
    assert multiset(a + [x] + b) == multiset(a + b) + multiset{x};
  }

  /** The sum depends on the signatures only, not on their order. */
  lemma {:induction false} SumOrderFree(p: Permission, unlocked: set<Addr>, s: seq<Sig>, t: seq<Sig>)
    requires multiset(s) == multiset(t)
    ensures Sum(p, unlocked, s) == Sum(p, unlocked, t)
    decreases |s|
  {
    if s == [] {
      assert |multiset(t)| == 0;
    } else {
      var n, x := |s| - 1, s[|s| - 1];
      assert s == s[..n] + [x];
      assert x in multiset(t) by { assert x in multiset(s); }
      var i :| 0 <= i < |t| && t[i] == x;
      assert t == t[..i] + [x] + t[i + 1..];
      OneOut(t[..i], x, t[i + 1..]);
      OneOut(s[..n], x, []);
      assert s[..n] + [x] + [] == s && s[..n] + [] == s[..n];
      SumOrderFree(p, unlocked, s[..n], t[..i] + t[i + 1..]);
      SumOfSplit(p, unlocked, t[..i], x, t[i + 1..]);
    }
  }

  /** So is passing. */
  lemma PassesOrderFree(p: Permission, unlocked: set<Addr>, s: seq<Sig>, t: seq<Sig>, forked: bool)
    requires multiset(s) == multiset(t) && Passes(p, unlocked, s, forked)
    ensures Passes(p, unlocked, t, forked)
  {
    assert |s| == |multiset(s)| == |multiset(t)| == |t|;
    forall i | 0 <= i < |t|
      ensures t[i] in s
    {
      assert t[i] in multiset(t) && t[i] in multiset(s);
    }
    forall i, j | 0 <= i < j < |t|
      ensures SeenKey(t[i], forked) != SeenKey(t[j], forked)
    {
      var a, b := TwoPlaces(s, t, i, j);
    }
  }

  lemma CountedTwice(t: seq<Sig>, i: nat, j: nat)
    requires i < j < |t| && t[i] == t[j]
    ensures multiset(t)[t[i]] >= 2
  {
    assert t == t[..j] + t[j..];
    assert t[..j][i] == t[i] && t[j..][0] == t[i];
    assert t[i] in multiset(t[..j]) && t[i] in multiset(t[j..]);
    assert multiset(t) == multiset(t[..j]) + multiset(t[j..]);
  }

  lemma OtherPlace(s: seq<Sig>, a: nat) returns (b: nat)
    requires a < |s| && multiset(s)[s[a]] >= 2
    ensures b < |s| && b != a && s[b] == s[a]
  {
    var before, after := s[..a], s[a + 1..];
    assert s == before + [s[a]] + after;
    OneOut(before, s[a], after);
    if s[a] in before {
      b :| 0 <= b < a && before[b] == s[a];
    } else {
      assert s[a] in multiset(before + after);
      var k :| 0 <= k < |after| && after[k] == s[a];
      b := a + 1 + k;
    }
  }

  /** Two positions of one arrangement have two counterparts in the other. */
  lemma TwoPlaces(s: seq<Sig>, t: seq<Sig>, i: nat, j: nat) returns (a: nat, b: nat)
    requires multiset(s) == multiset(t) && i < j < |t|
    ensures a < |s| && b < |s| && a != b && s[a] == t[i] && s[b] == t[j]
  {
    assert t[i] in multiset(s) by { assert t[i] in multiset(t); }
    assert t[j] in multiset(s) by { assert t[j] in multiset(t); }
    a :| 0 <= a < |s| && s[a] == t[i];
    if t[i] != t[j] {
      b :| 0 <= b < |s| && s[b] == t[j];
    } else {
      CountedTwice(t, i, j);
      b := OtherPlace(s, a);
    }
  }

  // ---- validateSignature ----

  datatype Account = NoAccount | HasAccount(permissions: map<int, Permission>)

  /** The permission the transaction names: the account's own, or the defaults an
      absent account has. */
  function PermissionFor(account: Account, id: int, defaultOwner: Permission,
                         defaultActive: Permission): Option<Permission>
  {
    match account
    case NoAccount => if id == 0 then Some(defaultOwner) else if id == 2 then Some(defaultActive) else None
    case HasAccount(ps) => if id in ps then Some(ps[id]) else None
  }

  datatype Verdict = Accepted | Rejected | Refused(error: CheckError) | NoPermission | PermissionDenied

  /** An impersonated owner is accepted unseen. Any other is accepted exactly when the
      permission exists and allows the operation, the signatures pass, and their
      64-bit sum reaches the threshold. */
  method ValidateSignature(impersonated: bool, account: Account, id: int, defaultOwner: Permission,
                           defaultActive: Permission, listed: bool, unlocked: set<Addr>, sigs: seq<Sig>, forked: bool)
    returns (v: Verdict)
    ensures var named := PermissionFor(account, id, defaultOwner, defaultActive);
            var allowed := named.Some? && (id == 0 || (named.value.active && listed));
            && (v == Accepted <==>
                impersonated ||
                (allowed && Passes(named.value, unlocked, sigs, forked)
                 && WrapLong(Sum(named.value, unlocked, sigs)) >= named.value.threshold))
            && (v == Rejected <==>
                !impersonated && allowed && Passes(named.value, unlocked, sigs, forked)
                && WrapLong(Sum(named.value, unlocked, sigs)) < named.value.threshold)
            && (v.Refused? <==> !impersonated && allowed && !Passes(named.value, unlocked, sigs, forked))
            && (v == NoPermission <==> !impersonated && named.None?)
            && (v == PermissionDenied <==> !impersonated && named.Some? && !allowed)
  {
    if impersonated {
      return Accepted;
    }
    var permission := PermissionFor(account, id, defaultOwner, defaultActive);
    if permission.None? {
      return NoPermission;
    }
    if id != 0 {
      if !permission.value.active || !listed {
        return PermissionDenied;
      }
    }
    var weight := CheckWeight(permission.value, unlocked, sigs, forked);
    if weight.Err? {
      return Refused(weight.error);
    }
    v := if weight.value >= permission.value.threshold then Accepted else Rejected;
  }

  /** An absent account has an owner permission under 0 and an active one under 2 and no
      other; an existing one has its own only. */
  lemma PermissionNamed(ps: map<int, Permission>, id: int, owner: Permission, active: Permission)
    ensures PermissionFor(NoAccount, 0, owner, active) == Some(owner)
    ensures PermissionFor(NoAccount, 2, owner, active) == Some(active)
    ensures id != 0 && id != 2 ==> PermissionFor(NoAccount, id, owner, active) == None
    ensures PermissionFor(HasAccount(ps), id, owner, active).Some? <==> id in ps
    ensures id in ps ==> PermissionFor(HasAccount(ps), id, owner, active).value == ps[id]
  {
  }

  /** The verdict does not depend on the order of the signatures. */
  lemma VerdictOrderFree(p: Permission, unlocked: set<Addr>, s: seq<Sig>, t: seq<Sig>, forked: bool)
    requires multiset(s) == multiset(t)
    ensures Passes(p, unlocked, s, forked) <==> Passes(p, unlocked, t, forked)
    ensures WrapLong(Sum(p, unlocked, s)) >= p.threshold <==> WrapLong(Sum(p, unlocked, t)) >= p.threshold
  {
    SumOrderFree(p, unlocked, s, t);
    if Passes(p, unlocked, s, forked) {
      PassesOrderFree(p, unlocked, s, t, forked);
    }
    if Passes(p, unlocked, t, forked) {
      PassesOrderFree(p, unlocked, t, s, forked);
    }
  }
}
