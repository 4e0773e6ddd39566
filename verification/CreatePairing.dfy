/** Pairing of predicted contract addresses with the ones really created: a bounded
    queue of predictions, consumed by receipts. */
module CreatePairing {
  import opened Common
  import opened AddressSpellings

  /** Lower-case hex texts: a caller in 21-byte form, an address in `0x` form. */
  type Caller = string
  type EvmAddress = string

  datatype Pending = Pending(caller: Caller, predicted: EvmAddress)

  /** An internal transaction of a receipt; either address may be missing. */
  datatype InternalTx = InternalTx(isCreate: bool, caller: Option<Caller>, created: Option<EvmAddress>) {
    predicate Complete() {
      isCreate && caller.Some? && created.Some? && caller.value != "" && created.value != ""
    }
  }

  const PENDING_LIMIT: nat := 256

  // ---- The simple specification ----

  /** Index of the caller's most recent prediction, or -1. */
  function LastOf(q: seq<Pending>, c: Caller): (i: int)
    ensures -1 <= i < |q|
    ensures i >= 0 ==> q[i].caller == c
    ensures forall j :: i < j < |q| ==> q[j].caller != c
  {
    if q == [] then -1
    else if q[|q| - 1].caller == c then |q| - 1
    else LastOf(q[..|q| - 1], c)
  }

  /** The queue without the predictions of the callers in `cs`, order kept. */
  function Without(q: seq<Pending>, cs: set<Caller>): seq<Pending> {
    if q == [] then []
    else Without(q[..|q| - 1], cs) + (if q[|q| - 1].caller in cs then [] else [q[|q| - 1]])
  }

  /** Callers of the complete creations in a receipt. */
  function Creators(itxs: seq<InternalTx>): set<Caller> {
    set i | 0 <= i < |itxs| && itxs[i].Complete() :: itxs[i].caller.value
  }

  /** The mappings a receipt yields, in receipt order: for each caller with a pending
      prediction, at its first complete creation, from its most recent prediction to
      that creation. */
  function Pairs(q: seq<Pending>, itxs: seq<InternalTx>): seq<(EvmAddress, EvmAddress)> {
    if itxs == [] then []
    else
      var n := |itxs| - 1;
      var itx := itxs[n];
      Pairs(q, itxs[..n]) +
      (if itx.Complete() && itx.caller.value !in Creators(itxs[..n]) && LastOf(q, itx.caller.value) >= 0
       then [(q[LastOf(q, itx.caller.value)].predicted, itx.created.value)] else [])
  }

  function Entered(m: map<EvmAddress, EvmAddress>, pairs: seq<(EvmAddress, EvmAddress)>): map<EvmAddress, EvmAddress> {
    if pairs == [] then m
    else
      var n := |pairs| - 1;
      Entered(m, pairs[..n])[pairs[n].0 := pairs[n].1]
  }

  // ---- Properties of the specification ----

  lemma {:induction false} WithoutNone(q: seq<Pending>)
    ensures Without(q, {}) == q
  {
    if q != [] {
      WithoutNone(q[..|q| - 1]);
    }
  }

  lemma {:induction false} WithoutTwice(q: seq<Pending>, a: set<Caller>, b: set<Caller>)
    ensures Without(Without(q, a), b) == Without(q, a + b)
  {
    if q != [] {
      var last := q[|q| - 1];
      var before := Without(q[..|q| - 1], a);
      WithoutTwice(q[..|q| - 1], a, b);
      if last.caller !in a {
        assert (before + [last])[..|before|] == before;
      } else {
        assert before + [] == before;
      }
    }
  }

  lemma OneMore(q: seq<Pending>, last: Pending, p: Pending)
    ensures multiset(q + [last])[p] == multiset(q)[p] + (if last == p then 1 else 0)
  {
  }

  /** What is left holds exactly the other callers' predictions, each as often as
      before. */
  lemma {:induction false} WithoutKeepsOthers(q: seq<Pending>, cs: set<Caller>, p: Pending)
    ensures multiset(Without(q, cs))[p] == if p.caller in cs then 0 else multiset(q)[p]
  {
    if q != [] {
      var n := |q| - 1;
      WithoutKeepsOthers(q[..n], cs, p);
      OneMore(q[..n], q[n], p);
      assert q == q[..n] + [q[n]];
      if q[n].caller in cs {
        assert Without(q, cs) == Without(q[..n], cs);
      } else {
        OneMore(Without(q[..n], cs), q[n], p);
      }
    }
  }

  lemma {:induction false} WithoutNoMatch(q: seq<Pending>, cs: set<Caller>)
    requires forall i :: 0 <= i < |q| ==> q[i].caller !in cs
    ensures Without(q, cs) == q
  {
    if q != [] {
      WithoutNoMatch(q[..|q| - 1], cs);
    }
  }

  lemma {:induction false} WithoutConcat(a: seq<Pending>, b: seq<Pending>, cs: set<Caller>)
    ensures Without(a + b, cs) == Without(a, cs) + Without(b, cs)
  {
    if b == [] {
      assert a + b == a;
    } else {
      assert (a + b)[..|a + b| - 1] == a + b[..|b| - 1];
      WithoutConcat(a, b[..|b| - 1], cs);
    }
  }

  /** A caller's predictions are its own: taking others out changes neither whether
      it has any nor which is the last. */
  lemma {:induction false} LastSurvives(q: seq<Pending>, cs: set<Caller>, c: Caller)
    requires c !in cs
    ensures LastOf(Without(q, cs), c) >= 0 <==> LastOf(q, c) >= 0
    ensures LastOf(q, c) >= 0 ==> Without(q, cs)[LastOf(Without(q, cs), c)] == q[LastOf(q, c)]
  {
    if q != [] {
      var last := q[|q| - 1];
      var before := Without(q[..|q| - 1], cs);
      LastSurvives(q[..|q| - 1], cs, c);
      if last.caller !in cs {
        assert (before + [last])[..|before|] == before;
      } else {
        assert before + [] == before;
      }
    }
  }

  lemma {:induction false} NoneLeft(q: seq<Pending>, cs: set<Caller>, c: Caller)
    requires c in cs
    ensures LastOf(Without(q, cs), c) == -1
  {
    if q != [] {
      var last := q[|q| - 1];
      var before := Without(q[..|q| - 1], cs);
      NoneLeft(q[..|q| - 1], cs, c);
      if last.caller !in cs {
        assert (before + [last])[..|before|] == before;
      } else {
        assert before + [] == before;
      }
    }
  }

  /** `j` is the caller's first complete creation in the receipt. */
  ghost predicate FirstCreation(itxs: seq<InternalTx>, j: nat, c: Caller) {
    && j < |itxs| && itxs[j].Complete() && itxs[j].caller == Some(c)
    && forall i :: 0 <= i < j && itxs[i].Complete() ==> itxs[i].caller != Some(c)
  }

  /** One pair per caller that has both a pending prediction and a complete creation. */
  lemma {:induction false} OnePairPerCaller(q: seq<Pending>, itxs: seq<InternalTx>)
    ensures |Pairs(q, itxs)| == |Paired(q, itxs)|
  {
    if itxs != [] {
      var n := |itxs| - 1;
      OnePairPerCaller(q, itxs[..n]);
      var before := Paired(q, itxs[..n]);
      PairedGrows(q, itxs);
      if itxs[n].Complete() && itxs[n].caller.value in before {
        assert before + {itxs[n].caller.value} == before;
      }
    }
  }

  lemma PairedGrows(q: seq<Pending>, itxs: seq<InternalTx>)
    requires itxs != []
    ensures var n := |itxs| - 1;
            Paired(q, itxs) ==
            Paired(q, itxs[..n]) +
            (if itxs[n].Complete() && LastOf(q, itxs[n].caller.value) >= 0 then {itxs[n].caller.value} else {})
  {
    CreatorsGrow(itxs);
  }

  /** Its pair goes from the last prediction to the first creation, ... */
  lemma {:induction false} PairIsThere(q: seq<Pending>, itxs: seq<InternalTx>, j: nat)
    requires PairedAt(q, itxs, j)
    ensures PairAt(q, itxs, j) in Pairs(q, itxs)
  {
    var n := |itxs| - 1;
    if j < n {
      FirstInPrefix(itxs, j);
      PairIsThere(q, itxs[..n], j);
    } else {
      NotYetCreator(itxs, j);
    }
  }

  /** ... and there are no other pairs. */
  lemma {:induction false} PairsAreThese(q: seq<Pending>, itxs: seq<InternalTx>, k: nat) returns (j: nat)
    requires k < |Pairs(q, itxs)|
    ensures PairedAt(q, itxs, j) && Pairs(q, itxs)[k] == PairAt(q, itxs, j)
  {
    var n := |itxs| - 1;
    if k < |Pairs(q, itxs[..n])| {
      j := PairsAreThese(q, itxs[..n], k);
      FirstInPrefix(itxs, j);
    } else {
      j := n;
      NotYetCreator(itxs, j);
    }
  }

  lemma FirstInPrefix(itxs: seq<InternalTx>, j: nat)
    requires j < |itxs| - 1 && itxs[j].Complete()
    ensures var n := |itxs| - 1;
            itxs[..n][j] == itxs[j] &&
            (FirstCreation(itxs[..n], j, itxs[j].caller.value) <==> FirstCreation(itxs, j, itxs[j].caller.value))
  {
    assert forall i :: 0 <= i <= j ==> itxs[..|itxs| - 1][i] == itxs[i];
  }

  lemma NotYetCreator(itxs: seq<InternalTx>, j: nat)
    requires j < |itxs| && itxs[j].Complete()
    ensures FirstCreation(itxs, j, itxs[j].caller.value) <==> itxs[j].caller.value !in Creators(itxs[..j])
  {
    assert forall i :: 0 <= i < j ==> itxs[..j][i] == itxs[i];
  }

  ghost function Paired(q: seq<Pending>, itxs: seq<InternalTx>): set<Caller> {
    set c | c in Creators(itxs) && LastOf(q, c) >= 0
  }

  ghost predicate PairedAt(q: seq<Pending>, itxs: seq<InternalTx>, j: nat) {
    && j < |itxs| && itxs[j].Complete()
    && FirstCreation(itxs, j, itxs[j].caller.value) && LastOf(q, itxs[j].caller.value) >= 0
  }

  ghost function PairAt(q: seq<Pending>, itxs: seq<InternalTx>, j: nat): (EvmAddress, EvmAddress)
    requires PairedAt(q, itxs, j)
  {
    (q[LastOf(q, itxs[j].caller.value)].predicted, itxs[j].created.value)
  }

  lemma CreatorsGrow(itxs: seq<InternalTx>)
    requires itxs != []
    ensures var n := |itxs| - 1;
            Creators(itxs) == Creators(itxs[..n]) + (if itxs[n].Complete() then {itxs[n].caller.value} else {})
  {
    var n := |itxs| - 1;
    assert forall i :: 0 <= i < n ==> itxs[..n][i] == itxs[i];
  }

  /** A paired prediction is looked up as that pair's creation, unless another caller
      with the very same prediction is paired later in the receipt. */
  lemma {:induction false} LookupOfPair(m: map<EvmAddress, EvmAddress>, pairs: seq<(EvmAddress, EvmAddress)>, k: nat)
    requires k < |pairs| && forall i :: k < i < |pairs| ==> pairs[i].0 != pairs[k].0
    ensures pairs[k].0 in Entered(m, pairs) && Entered(m, pairs)[pairs[k].0] == pairs[k].1
  {
    var n := |pairs| - 1;
    if k < n {
      assert forall i :: 0 <= i < n ==> pairs[..n][i] == pairs[i];
      LookupOfPair(m, pairs[..n], k);
    }
  }

  /** Predictions that are not paired keep what they were mapped to. */
  lemma {:induction false} OthersStayEntered(m: map<EvmAddress, EvmAddress>, pairs: seq<(EvmAddress, EvmAddress)>,
                                             p: EvmAddress)
    requires forall i :: 0 <= i < |pairs| ==> pairs[i].0 != p
    ensures p in Entered(m, pairs) <==> p in m
    ensures p in m ==> Entered(m, pairs)[p] == m[p]
  {
    if pairs != [] {
      OthersStayEntered(m, pairs[..|pairs| - 1], p);
    }
  }

  /** An internal transaction that is no creation, or does not say by whom or of what,
      is passed over; a creation pairs with its caller's last prediction. */
  lemma OnlyCreationsPair(q: seq<Pending>, itxs: seq<InternalTx>, c: Caller, a: EvmAddress, any: Option<Caller>,
                          made: Option<EvmAddress>)
    ensures forall itx :: itx in [InternalTx(false, any, made), InternalTx(true, None, made),
                                  InternalTx(true, any, None), InternalTx(true, Some(""), made),
                                  InternalTx(true, any, Some(""))] ==>
                            Creators(itxs + [itx]) == Creators(itxs) && Pairs(q, itxs + [itx]) == Pairs(q, itxs)
    ensures c != "" && a != "" && LastOf(q, c) >= 0 ==>
              && Creators([InternalTx(true, Some(c), Some(a))]) == {c}
              && Pairs(q, [InternalTx(true, Some(c), Some(a))]) == [(q[LastOf(q, c)].predicted, a)]
  {
    forall itx: InternalTx | !itx.Complete()
      ensures Creators(itxs + [itx]) == Creators(itxs) && Pairs(q, itxs + [itx]) == Pairs(q, itxs)
    {
      CreatorsGrow(itxs + [itx]);
      assert (itxs + [itx])[..|itxs|] == itxs;
    }
    var one := [InternalTx(true, Some(c), Some(a))];
    assert one[..0] == [];
    CreatorsGrow(one);
  }

  /** And that under any spelling of the predicted address. */
  lemma LookupAnySpelling(m: map<EvmAddress, EvmAddress>, pairs: seq<(EvmAddress, EvmAddress)>, k: nat,
                          recorded: string, asked: string, codec: Codec)
    requires k < |pairs| && forall i :: k < i < |pairs| ==> pairs[i].0 != pairs[k].0
    requires Valid(codec) && PredictedKey(recorded, codec) == Some(pairs[k].0)
    requires AddressOf(asked, codec) == AddressOf(recorded, codec)
    ensures var key := LookupKey(asked, codec);
            key.Some? && key.value in Entered(m, pairs) && Entered(m, pairs)[key.value] == pairs[k].1
  {
    LookupOfPair(m, pairs, k);
    KeysAreAddresses(recorded, codec);
    KeysAreAddresses(asked, codec);
  }

  /** One more internal transaction, in terms of the queue as it then is. */
  lemma ReceiptStep(q: seq<Pending>, itxs: seq<InternalTx>, n: nat)
    requires n < |itxs|
    ensures var now := Without(q, Creators(itxs[..n]));
            var itx := itxs[n];
            && Without(q, Creators(itxs[..n + 1])) == (if itx.Complete() then Without(now, {itx.caller.value}) else now)
            && Pairs(q, itxs[..n + 1]) ==
               Pairs(q, itxs[..n]) +
               (if itx.Complete() && LastOf(now, itx.caller.value) >= 0
                then [(now[LastOf(now, itx.caller.value)].predicted, itx.created.value)] else [])
  {
    var itx, seen := itxs[n], Creators(itxs[..n]);
    assert itxs[..n + 1][..n] == itxs[..n];
    CreatorsGrow(itxs[..n + 1]);
    if itx.Complete() {
      var c := itx.caller.value;
      WithoutTwice(q, seen, {c});
      if c in seen {
        NoneLeft(q, seen, c);
      } else {
        LastSurvives(q, seen, c);
      }
    } else {
      assert seen + {} == seen;
    }
  }

  lemma EnteredGrows(m: map<EvmAddress, EvmAddress>, pairs: seq<(EvmAddress, EvmAddress)>, pr: (EvmAddress, EvmAddress))
    ensures Entered(m, pairs + [pr]) == Entered(m, pairs)[pr.0 := pr.1]
  {
    assert (pairs + [pr])[..|pairs|] == pairs;
  }

  /** One step of the descending sweep, at `i`, of a queue `p` that below `i` still is `q`. */
  lemma SpliceStep(q: seq<Pending>, p: seq<Pending>, i: nat, c: Caller)
    requires i < |q| && i < |p| && p[..i + 1] == q[..i + 1]
    ensures var next := if p[i].caller == c then p[..i] + p[i + 1..] else p;
            && next[..i] == q[..i]
            && Without(q[..i], {c}) + next[i..] == Without(q[..i + 1], {c}) + p[i + 1..]
  {
    assert p[i] == p[..i + 1][i] == q[i];
    assert q[..i + 1][..i] == q[..i] == p[..i] by { assert p[..i] == p[..i + 1][..i]; }
    var below := Without(q[..i], {c});
    if p[i].caller == c {
      assert (p[..i] + p[i + 1..])[i..] == p[i + 1..];
    } else {
      assert p[i..] == [p[i]] + p[i + 1..];
      assert below + p[i..] == below + [p[i]] + p[i + 1..];
    }
  }

  /** Taking out the last prediction of a caller leaves what is after it alone. */
  lemma WithoutAround(q: seq<Pending>, i: nat, c: Caller)
    requires i < |q| && q[i].caller == c && forall j :: i < j < |q| ==> q[j].caller != c
    ensures Without(q, {c}) == Without(q[..i], {c}) + q[i + 1..]
    ensures LastOf(q, c) == i
  {
    var tail := q[i + 1..];
    assert q == q[..i] + ([q[i]] + tail);
    WithoutConcat(q[..i], [q[i]] + tail, {c});
    WithoutConcat([q[i]], tail, {c});
    WithoutNoMatch(tail, {c});
    assert [q[i]][..0] == [];
    assert Without([q[i]], {c}) == [];
    assert [] + tail == tail;
  }
}

module CreatePairingQueue {
  import opened Common
  import opened AddressSpellings
  import opened CreatePairing

  class PairingQueue {
    var pending: seq<Pending>
    var evmToTvm: map<EvmAddress, EvmAddress>

    constructor ()
      ensures pending == [] && evmToTvm == map[]
    {
      pending, evmToTvm := [], map[];
    }

    /** Records what a simulated call returned as a prediction for its caller, if both
        spell an address; the oldest entry gives way past the limit. */
    method RecordStaticReturn(callerText: string, returned: Given, codec: Codec)
      requires |pending| <= PENDING_LIMIT
      modifies this`pending
      ensures |pending| <= PENDING_LIMIT
      ensures var caller, predicted := CallerKey(callerText, codec), ReturnedKey(returned, codec);
              if caller.None? || predicted.None? then pending == old(pending)
              else
                var all := old(pending) + [Pending(caller.value, predicted.value)];
                pending == if |all| > PENDING_LIMIT then all[1..] else all
      ensures |pending| <= 256
      ensures Valid(codec) && returned.Plain? ==>
                if SpellsCaller(callerText, codec) && SpellsPrediction(returned.text, codec)
                then
                  var who, what := AddressOf(callerText, codec).value, AddressOf(returned.text, codec).value;
                  var all := old(pending) + [Pending("41" + who, "0x" + what)];
                  pending == if |all| > 256 then all[1..] else all
                else pending == old(pending)
    {
      if Valid(codec) && returned.Plain? {
        RecognizedExactly(callerText, codec);
        RecognizedExactly(returned.text, codec);
      }
      var caller, predicted := CallerKey(callerText, codec), ReturnedKey(returned, codec);
      if caller.None? || predicted.None? {
        return;
      }
      pending := pending + [Pending(caller.value, predicted.value)];
      if |pending| > PENDING_LIMIT {
        pending := pending[1..];
      }
    }

    /** The address really created in place of the given one, if that was predicted. */
    function LookupActual(any: Given, codec: Codec): (r: Option<EvmAddress>)
      reads this
      ensures r.Some? <==> GivenLookupKey(any, codec).Some? && GivenLookupKey(any, codec).value in evmToTvm
      ensures r.Some? ==> r.value == evmToTvm[GivenLookupKey(any, codec).value]
    {
      var key := GivenLookupKey(any, codec);
      if key.Some? && key.value in evmToTvm then Some(evmToTvm[key.value]) else None
    }

    /** The backward scans and splices over a receipt amount to the specification. */
    method RegisterFromReceipt(itxs: seq<InternalTx>)
      requires |pending| <= PENDING_LIMIT
      modifies this
      ensures pending == Without(old(pending), Creators(itxs)) && |pending| <= PENDING_LIMIT
      ensures evmToTvm == Entered(old(evmToTvm), Pairs(old(pending), itxs))
    {
      ghost var q := pending;
      WithoutNone(q);
      assert Creators(itxs[..0]) == {};
      for n := 0 to |itxs|
        invariant pending == Without(q, Creators(itxs[..n])) && |pending| <= PENDING_LIMIT
        invariant evmToTvm == Entered(old(evmToTvm), Pairs(q, itxs[..n]))
      {
        ReceiptStep(q, itxs, n);
        RegisterOne(itxs[n], old(evmToTvm), Pairs(q, itxs[..n]));
      }
      assert itxs[..|itxs|] == itxs;
    }

    /** The body of the loop over the receipt's internal transactions. */
    method RegisterOne(itx: InternalTx, ghost m: map<EvmAddress, EvmAddress>,
                       ghost pairs: seq<(EvmAddress, EvmAddress)>)
      requires evmToTvm == Entered(m, pairs)
      modifies this
      ensures pending == (if itx.Complete() then Without(old(pending), {itx.caller.value}) else old(pending))
      ensures |pending| <= |old(pending)|
      ensures var q := old(pending);
              evmToTvm ==
              Entered(m, pairs +
                         (if itx.Complete() && LastOf(q, itx.caller.value) >= 0
                          then [(q[LastOf(q, itx.caller.value)].predicted, itx.created.value)] else []))
    {
      assert pairs + [] == pairs;
      if !itx.isCreate || itx.caller.None? || itx.created.None? || itx.caller.value == "" || itx.created.value == "" {
        return;
      }
      var paired := TakeLast(itx.caller.value);
      if paired.Some? {
        EnteredGrows(m, pairs, (paired.value.predicted, itx.created.value));
        evmToTvm := evmToTvm[paired.value.predicted := itx.created.value];
      }
    }

    /** Scans back for the caller's most recent prediction, splices it out, and then
        every older one of the same caller. */
    method TakeLast(c: Caller) returns (paired: Option<Pending>)
      modifies this`pending
      ensures pending == Without(old(pending), {c}) && |pending| <= |old(pending)|
      ensures paired == if LastOf(old(pending), c) < 0 then None else Some(old(pending)[LastOf(old(pending), c)])
    {
      var i := |pending| - 1;
      while i >= 0 && pending[i].caller != c
        invariant -1 <= i < |pending|
        invariant forall j :: i < j < |pending| ==> pending[j].caller != c
      {
        i := i - 1;
      }
      if i < 0 {
        WithoutNoMatch(pending, {c});
        return None;
      }
      WithoutAround(pending, i, c);
      paired := Some(pending[i]);
      SweepOlder(c, i);
    }

    /** The splice at `at` and the descending loop of splices below it. */
    method SweepOlder(c: Caller, at: nat)
      requires at < |pending|
      modifies this`pending
      ensures pending == Without(old(pending)[..at], {c}) + old(pending)[at + 1..] && |pending| <= |old(pending)|
    {
      ghost var q := pending;
      pending := pending[..at] + pending[at + 1..];
      var i := at - 1;
      while i >= 0
        invariant -1 <= i < at && i < |pending| <= |q|
        invariant pending[..i + 1] == q[..i + 1]
        invariant Without(q[..i + 1], {c}) + pending[i + 1..] == Without(q[..at], {c}) + q[at + 1..]
      {
        SpliceStep(q, pending, i, c);
        if pending[i].caller == c {
          pending := pending[..i] + pending[i + 1..];
        }
        i := i - 1;
      }
    }
  }
}
