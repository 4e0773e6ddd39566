/** The spellings of an address that the pairing of created contracts accepts, and the
    key each is reduced to. */
module AddressSpellings {
  import opened Common
  import opened HexDigits
  import opened Texts

  /** What base58check decodes, as lower-case 21-byte hex; a text not in it is one
      that throws. */
  type Codec = map<string, string>

  /** A text, or an object that may carry one in its fields. */
  datatype Given =
    | Missing
    | Plain(text: string)
    | Object(target: Option<string>, tronAddress: Option<string>, address: Option<string>)

  /** `/^[0-9a-f]{40}$/i` */
  predicate IsHex40(s: string) {
    |s| == 40 && forall i :: 0 <= i < 40 ==> '0' <= s[i] <= '9' || 'a' <= LowerChar(s[i]) <= 'f'
  }

  /** `/^41[0-9a-f]{40}$/i` */
  predicate IsTronHex(s: string) {
    |s| == 42 && s[..2] == "41" && IsHex40(s[2..])
  }

  /** `/^0x41[0-9a-f]{40}$/i` */
  predicate IsPrefixedTronHex(s: string) {
    |s| == 44 && s[0] == '0' && LowerChar(s[1]) == 'x' && s[2..4] == "41" && IsHex40(s[4..])
  }

  /** `/^0x[0-9a-f]{40}$/i` */
  predicate IsEvmHex(s: string) {
    |s| == 42 && s[0] == '0' && LowerChar(s[1]) == 'x' && IsHex40(s[2..])
  }

  predicate IsBase58(s: string) {
    |s| == 34 && s[0] == 'T'
  }

  /** The key of a caller, in 21-byte hex. */
  function CallerKey(s: string, codec: Codec): Option<string> {
    if IsTronHex(s) then Some(Lower(s))
    else if IsPrefixedTronHex(s) then Some(Lower(s[2..]))
    else if IsBase58(s) && s in codec then Some(codec[s])
    else None
  }

  /** The key of a predicted address, in `0x` hex. */
  function PredictedKey(s: string, codec: Codec): Option<string> {
    if IsEvmHex(s) then Some(Lower(s))
    else if IsBase58(s) && s in codec && |codec[s]| >= 2 then Some("0x" + codec[s][2..])
    else None
  }

  /** A simulator's return value: a text, or an object's first non-empty text. */
  function ReturnedKey(g: Given, codec: Codec): Option<string> {
    match g
    case Missing => None
    case Plain(text) => PredictedKey(text, codec)
    case Object(target, _, address) =>
      if target.Some? && target.value != "" then PredictedKey(target.value, codec)
      else if address.Some? then PredictedKey(address.value, codec)
      else None
  }

  /** The key a lookup uses: any of the four spellings. */
  function LookupKey(s: string, codec: Codec): Option<string> {
    if IsTronHex(s) then Some("0x" + Lower(s[2..]))
    else if IsPrefixedTronHex(s) then Some("0x" + Lower(s[4..]))
    else if IsEvmHex(s) then Some(Lower(s))
    else if IsBase58(s) && s in codec && |codec[s]| >= 2 then Some("0x" + codec[s][2..])
    else None
  }

  function GivenLookupKey(g: Given, codec: Codec): Option<string> {
    match g
    case Missing => None
    case Plain(text) => LookupKey(text, codec)
    case Object(target, tronAddress, address) =>
      if target.Some? then LookupKey(target.value, codec)
      else if tronAddress.Some? then LookupKey(tronAddress.value, codec)
      else if address.Some? then LookupKey(address.value, codec)
      else None
  }

  // ---- What the keys stand for ----

  /** Every decoded text is lower-case 21-byte hex under the network's prefix. */
  predicate Valid(codec: Codec) {
    forall s :: s in codec ==> IsTronHex(codec[s]) && Lower(codec[s]) == codec[s]
  }

  /** The 20 bytes a text spells, in lower-case hex, if it spells an address. */
  function AddressOf(s: string, codec: Codec): Option<string> {
    if IsTronHex(s) || IsEvmHex(s) then Some(Lower(s[2..]))
    else if IsPrefixedTronHex(s) then Some(Lower(s[4..]))
    else if IsBase58(s) && s in codec && |codec[s]| >= 2 then Some(codec[s][2..])
    else None
  }

  lemma LowerSlices(s: string, i: nat)
    requires i <= |s|
    ensures Lower(s) == Lower(s[..i]) + Lower(s[i..])
  {
  }

  /** Every recognized spelling is reduced to the address it spells, under one prefix,
      so that two spellings have one key exactly when they spell one address. */
  lemma KeysAreAddresses(s: string, codec: Codec)
    requires Valid(codec)
    ensures LookupKey(s, codec) == if AddressOf(s, codec).Some? then Some("0x" + AddressOf(s, codec).value) else None
    ensures PredictedKey(s, codec).Some? ==> PredictedKey(s, codec) == LookupKey(s, codec)
    ensures CallerKey(s, codec).Some? ==>
              AddressOf(s, codec).Some? && CallerKey(s, codec) == Some("41" + AddressOf(s, codec).value)
  {
    if IsTronHex(s) || IsEvmHex(s) {
      LowerSlices(s, 2);
      assert s[..2] == [s[0], s[1]] && Lower(s[..2]) == [LowerChar(s[0]), LowerChar(s[1])];
    } else if IsPrefixedTronHex(s) {
      LowerSlices(s[2..], 2);
      assert s[2..][2..] == s[4..] && s[2..][..2] == s[2..4] == "41";
      assert Lower("41") == "41";
    } else if IsBase58(s) && s in codec {
      assert codec[s] == codec[s][..2] + codec[s][2..];
    }
  }

  /** Twenty bytes as hex digits, in whatever letter case. */
  predicate IsTwentyBytes(h: string) {
    |h| == 40 && forall i :: 0 <= i < 40 ==> HexDigit(LowerChar(h[i])).Some?
  }

  predicate SpellsCaller(s: string, codec: Codec) {
    || (|s| == 42 && s[..2] == "41" && IsTwentyBytes(s[2..]))
    || (|s| == 44 && (s[..4] == "0x41" || s[..4] == "0X41") && IsTwentyBytes(s[4..]))
    || (|s| == 34 && s[0] == 'T' && s in codec)
  }

  predicate SpellsPrediction(s: string, codec: Codec) {
    || (|s| == 42 && (s[..2] == "0x" || s[..2] == "0X") && IsTwentyBytes(s[2..]))
    || (|s| == 34 && s[0] == 'T' && s in codec)
  }

  lemma HexForms(s: string)
    ensures IsTronHex(s) <==> |s| == 42 && s[..2] == "41" && IsTwentyBytes(s[2..])
    ensures IsPrefixedTronHex(s) <==> |s| == 44 && (s[..4] == "0x41" || s[..4] == "0X41") && IsTwentyBytes(s[4..])
    ensures IsEvmHex(s) <==> |s| == 42 && (s[..2] == "0x" || s[..2] == "0X") && IsTwentyBytes(s[2..])
  {
    if |s| >= 4 {
      assert s[..4] == [s[0], s[1], s[2], s[3]] && s[2..4] == [s[2], s[3]] && s[..2] == [s[0], s[1]];
    }
  }

  /** Callers are recognized in three spellings, predictions in two, lookups in all
      four, and each is reduced to the address it spells. */
  lemma RecognizedExactly(s: string, codec: Codec)
    requires Valid(codec)
    ensures CallerKey(s, codec).Some? <==> SpellsCaller(s, codec)
    ensures PredictedKey(s, codec).Some? <==> SpellsPrediction(s, codec)
    ensures AddressOf(s, codec).Some? <==> SpellsCaller(s, codec) || SpellsPrediction(s, codec)
    ensures CallerKey(s, codec).Some? ==> CallerKey(s, codec) == Some("41" + AddressOf(s, codec).value)
    ensures PredictedKey(s, codec).Some? ==> PredictedKey(s, codec) == Some("0x" + AddressOf(s, codec).value)
  {
    HexForms(s);
    KeysAreAddresses(s, codec);
  }

  /** The address a text of hex digits spells is those digits in lower case, under any
      prefix; one in base58 spells what it decodes to. */
  lemma SpelledAddress(h: string, codec: Codec)
    requires IsTwentyBytes(h)
    ensures AddressOf("41" + h, codec) == AddressOf("0x41" + h, codec) == AddressOf("0x" + h, codec) == Some(Lower(h))
  {
    HexForms("41" + h);
    HexForms("0x41" + h);
    HexForms("0x" + h);
    assert ("41" + h)[..2] == "41" && ("41" + h)[2..] == h;
    assert ("0x41" + h)[..4] == "0x41" && ("0x41" + h)[4..] == h;
    assert ("0x" + h)[..2] == "0x" && ("0x" + h)[2..] == h;
  }

  lemma DecodedAddress(s: string, h: string, codec: Codec)
    requires |s| == 34 && s[0] == 'T' && s in codec && codec[s] == "41" + h
    ensures AddressOf(s, codec) == Some(h)
  {
    assert ("41" + h)[2..] == h;
  }

  /** An object is recorded by its target if that is not empty, else by its address,
      and looked up by the first text it carries. */
  lemma ObjectFields(t: string, tron: Option<string>, other: Option<string>, a: string, codec: Codec)
    ensures ReturnedKey(Plain(a), codec) == PredictedKey(a, codec) && ReturnedKey(Missing, codec) == None
    ensures t != "" ==> ReturnedKey(Object(Some(t), tron, other), codec) == ReturnedKey(Plain(t), codec)
    ensures ReturnedKey(Object(None, tron, Some(a)), codec) == ReturnedKey(Plain(a), codec)
    ensures ReturnedKey(Object(Some(""), tron, Some(a)), codec) == ReturnedKey(Plain(a), codec)
    ensures ReturnedKey(Object(None, tron, None), codec) == None
    ensures GivenLookupKey(Plain(a), codec) == LookupKey(a, codec) && GivenLookupKey(Missing, codec) == None
    ensures GivenLookupKey(Object(Some(t), tron, other), codec) == GivenLookupKey(Plain(t), codec)
    ensures GivenLookupKey(Object(None, Some(t), other), codec) == GivenLookupKey(Plain(t), codec)
    ensures GivenLookupKey(Object(None, None, Some(a)), codec) == GivenLookupKey(Plain(a), codec)
    ensures GivenLookupKey(Object(None, None, None), codec) == None
  {
  }

  /** A lookup under any spelling finds what was recorded under any spelling, exactly
      when both spell one address. */
  lemma SpellingsMeet(recorded: string, asked: string, codec: Codec)
    requires Valid(codec) && PredictedKey(recorded, codec).Some? && LookupKey(asked, codec).Some?
    ensures PredictedKey(recorded, codec) == LookupKey(asked, codec) <==>
            AddressOf(recorded, codec) == AddressOf(asked, codec)
  {
    KeysAreAddresses(recorded, codec);
    KeysAreAddresses(asked, codec);
    var a, b := AddressOf(recorded, codec).value, AddressOf(asked, codec).value;
    assert ("0x" + a)[2..] == a && ("0x" + b)[2..] == b;
  }
}
